/** The "Resumo Mensal" card: transactions grouped by year-month with income
    and expense totals per month, labelled "<Month> <yyyy>" in Portuguese,
    ordered by a comparator over the labels, and restricted to the current
    month unless a filter is active.

    Months are keyed by their year-month index; the source's "yyyy-MM" key is
    the same thing for the years 1 to 9999 that stored timestamps can hold. */
module MonthlySummaryCard {
  import opened Records
  import opened Text

  /** Month names as the Brazilian Portuguese locale writes them ("MMMM"). */
  const PtMonthNames: seq<string> :=
    ["janeiro", "fevereiro", "março", "abril", "maio", "junho",
     "julho", "agosto", "setembro", "outubro", "novembro", "dezembro"]

  datatype MonthTotals = MonthTotals(income: real, expense: real)

  /** One entry of the card: its label and the month's two totals. */
  datatype MonthlySummary = MonthlySummary(month: string, income: real, expense: real)

  // ---------------------------------------------------------------------------
  // Grouping

  /** The distinct months of `txs` in order of first appearance, the order in
      which the grouping map receives its keys. */
  function FirstAppearance(txs: seq<Transaction>): seq<int> {
    if txs == [] then []
    else
      var p := FirstAppearance(DropLast(txs));
      var k := MonthOf(Last(txs).date);
      if k in p then p else p + [k]
  }

  /** There is exactly one key per month in which some transaction is dated,
      and no key for any other month. */
  lemma {:induction false} FirstAppearanceIsDistinctMonths(txs: seq<Transaction>)
    ensures Distinct(FirstAppearance(txs))
    ensures (set k | k in FirstAppearance(txs)) == MonthsOf(txs)
  {
    if txs != [] {
      var front, k := DropLast(txs), MonthOf(Last(txs).date);
      FirstAppearanceIsDistinctMonths(front);
      MonthsOfSnoc(txs);
      var p := FirstAppearance(front);
      if k !in p {
        DistinctSnoc(p, k);
      }
    }
  }

  lemma MonthsOfSnoc(txs: seq<Transaction>)
    requires txs != []
    ensures MonthsOf(txs) == MonthsOf(DropLast(txs)) + {MonthOf(Last(txs).date)}
  {
    assert txs == DropLast(txs) + [Last(txs)];
  }

  lemma DistinctSnoc(p: seq<int>, k: int)
    requires Distinct(p) && k !in p
    ensures Distinct(p + [k])
  {
    forall i, j | 0 <= i < j < |p| + 1 ensures (p + [k])[i] != (p + [k])[j] {
      if j == |p| {
        assert (p + [k])[i] == p[i];
      }
    }
  }

  /** The `forEach` over the transactions: creates a zero entry the first time
      a month is seen, then adds the amount to `income` for income and to
      `expense` otherwise. */
  method GroupByMonth(txs: seq<Transaction>) returns (order: seq<int>, totals: map<int, MonthTotals>)
    ensures order == FirstAppearance(txs)
    ensures totals.Keys == (set k | k in order)
    ensures forall k :: k in totals ==>
              totals[k] == MonthTotals(AmountIn(txs, k, Income), AmountIn(txs, k, Expense))
  {
    order, totals := [], map[];
    for j := 0 to |txs|
      invariant order == FirstAppearance(txs[..j])
      invariant totals.Keys == (set k | k in order)
      invariant forall k :: k in totals ==>
                  totals[k] == MonthTotals(AmountIn(txs[..j], k, Income), AmountIn(txs[..j], k, Expense))
    {
      var t := txs[j];
      var key := MonthOf(t.date);
      assert DropLast(txs[..j + 1]) == txs[..j];
      if key !in totals {
        FirstAppearanceIsDistinctMonths(txs[..j]);
        AmountInEmptyMonth(txs[..j], key, Income);
        AmountInEmptyMonth(txs[..j], key, Expense);
        order := order + [key];
        totals := totals[key := MonthTotals(0.0, 0.0)];
      }
      var current := totals[key];
      if t.kind == Income {
        totals := totals[key := current.(income := current.income + t.amount)];
      } else {
        totals := totals[key := current.(expense := current.expense + t.amount)];
      }
    }
    assert txs[..|txs|] == txs;
  }

  // ---------------------------------------------------------------------------
  // Labels

  /** `charAt(0).toUpperCase() + slice(1)`. */
  function Capitalize(s: string): string {
    if s == [] then [] else UpperOf(s[0]) + s[1..]
  }

  /** The year as the "yyyy" pattern writes it: the era year (`1 - y` for years
      up to 0), zero-padded to at least four digits. */
  function YearText(y: int): string {
    PadStart(Decimal(if y > 0 then y else 1 - y), 4, '0')
  }

  /** The label of month `k`: the month's name with a capital first letter, a
      space, and at least four digits that read back as the era year. */
  function Label(k: int): (r: string)
    ensures var name := PtMonthNames[MonthOfIndex(k)];
            && |r| >= |name| + 5 && 'A' <= r[0] <= 'Z'
            && ToLower(r[..|name|]) == name && r[|name|] == ' '
            && AllDigits(r[|name| + 1..])
            && ParseDecimal(r[|name| + 1..]) == if YearOfIndex(k) > 0 then YearOfIndex(k) else 1 - YearOfIndex(k)
  {
    var name, y := PtMonthNames[MonthOfIndex(k)], YearOfIndex(k);
    MonthNameFacts(MonthOfIndex(k), MonthOfIndex(k));
    NameThenText(name, YearText(y));
    PaddedDecimalRoundTrip(if y > 0 then y else 1 - y, 4);
    Capitalize(name) + " " + YearText(y)
  }

  /** "<Name> <text>" for a month name: the name part starts with a capital and
      lower-cases back to the name, and the text follows the space unchanged. */
  lemma NameThenText(name: string, text: string)
    requires name != [] && 'a' <= name[0] <= 'z'
    requires forall i :: 0 <= i < |name| ==> !IsUpperLetter(name[i])
    ensures var x := Capitalize(name) + " " + text;
            && |x| == |name| + 1 + |text| && 'A' <= x[0] <= 'Z'
            && ToLower(x[..|name|]) == name && x[|name|] == ' ' && x[|name| + 1..] == text
  {
    CapitalizeShape(name);
    var x := Capitalize(name) + " " + text;
    assert x[..|name|] == Capitalize(name);
    var l := ToLower(Capitalize(name));
    forall i | 0 <= i < |name| ensures l[i] == name[i] {
      if i > 0 {
        assert Capitalize(name)[i] == name[i];
      }
    }
    assert x[|name| + 1..] == text;
  }

  /** The summary of month `k`. */
  function SummaryFor(txs: seq<Transaction>, k: int): MonthlySummary {
    MonthlySummary(Label(k), AmountIn(txs, k, Income), AmountIn(txs, k, Expense))
  }

  /** The summaries of the months `ks`, in that order. */
  function SummariesOf(txs: seq<Transaction>, ks: seq<int>): seq<MonthlySummary> {
    seq(|ks|, i requires 0 <= i < |ks| => SummaryFor(txs, ks[i]))
  }

  lemma SummariesSnoc(txs: seq<Transaction>, ks: seq<int>)
    requires ks != []
    ensures SummariesOf(txs, ks) == SummariesOf(txs, DropLast(ks)) + [SummaryFor(txs, Last(ks))]
  {
    var a, b := SummariesOf(txs, ks), SummariesOf(txs, DropLast(ks)) + [SummaryFor(txs, Last(ks))];
    assert |a| == |b|;
    forall i | 0 <= i < |a| ensures a[i] == b[i] {
      if i < |ks| - 1 {
        assert DropLast(ks)[i] == ks[i];
        assert b[i] == SummariesOf(txs, DropLast(ks))[i];
      } else {
        assert ks[i] == Last(ks);
      }
    }
  }

  /** The summaries before sorting: one per month, in order of first appearance. */
  function Unsorted(txs: seq<Transaction>): seq<MonthlySummary> {
    SummariesOf(txs, FirstAppearance(txs))
  }

  /** The month names start with a small ASCII letter, hold no capital and no
      space, and are pairwise different. */
  lemma MonthNameFacts(m1: Month, m2: Month)
    ensures PtMonthNames[m1] != [] && 'a' <= PtMonthNames[m1][0] <= 'z'
    ensures forall i :: 0 <= i < |PtMonthNames[m1]| ==> !IsUpperLetter(PtMonthNames[m1][i])
    ensures ' ' !in PtMonthNames[m1]
    ensures PtMonthNames[m1] == PtMonthNames[m2] ==> m1 == m2
  {
  }

  /** Capitalising a word that starts with a small ASCII letter adds no space
      and loses nothing: different such words stay different. */
  lemma CapitalizeAscii(a: string, b: string)
    requires a != [] && 'a' <= a[0] <= 'z'
    requires b != [] && 'a' <= b[0] <= 'z'
    ensures ' ' !in a ==> ' ' !in Capitalize(a)
    ensures Capitalize(a) == Capitalize(b) ==> a == b
  {
    CapitalizeShape(a);
    CapitalizeShape(b);
    if Capitalize(a) == Capitalize(b) {
      assert a[1..] == Capitalize(a)[1..] == b[1..];
      assert a == [a[0]] + a[1..] && b == [b[0]] + b[1..];
    }
  }

  /** A name that starts with a small ASCII letter gets that letter's capital
      and keeps the rest. */
  lemma CapitalizeShape(a: string)
    requires a != [] && 'a' <= a[0] <= 'z'
    ensures Capitalize(a) == [(a[0] as int - 32) as char] + a[1..]
    ensures 'A' <= Capitalize(a)[0] <= 'Z'
  {
    assert UpperOf(a[0]) == [(a[0] as int - 32) as char];
  }

  /** Two "<name> <rest>" strings whose names hold no space are equal only when
      their names and their rests are. */
  lemma SplitAtSpace(n1: string, r1: string, n2: string, r2: string)
    requires ' ' !in n1 && ' ' !in n2
    requires n1 + " " + r1 == n2 + " " + r2
    ensures n1 == n2 && r1 == r2
  {
    var s := n1 + " " + r1;
    assert s[|n1|] == ' ' && s[|n2|] == ' ';
    assert forall i :: 0 <= i < |n1| ==> s[i] == n1[i] != ' ';
    assert forall i :: 0 <= i < |n2| ==> s[i] == n2[i] != ' ';
    assert |n1| == |n2|;
    assert n1 == s[..|n1|] == n2;
    assert r1 == s[|n1| + 1..] == r2;
  }

  /** Distinct months from year 1 on get distinct labels. */
  lemma LabelInjective(k1: int, k2: int)
    requires YearOfIndex(k1) >= 1 && YearOfIndex(k2) >= 1
    requires Label(k1) == Label(k2)
    ensures k1 == k2
  {
    var m1, m2 := MonthOfIndex(k1), MonthOfIndex(k2);
    MonthNameFacts(m1, m2);
    MonthNameFacts(m2, m1);
    NameBeforeSpace(Label(k1), PtMonthNames[m1], PtMonthNames[m2]);
    MonthIndexRoundTrip(k1, YearOfIndex(k1), m1);
    MonthIndexRoundTrip(k2, YearOfIndex(k2), m2);
  }

  /** A string that reads as "<name> ..." for two names without a space names
      the same one both times. */
  lemma NameBeforeSpace(r: string, n1: string, n2: string)
    requires ' ' !in n1 && ' ' !in n2
    requires |r| > |n1| && ToLower(r[..|n1|]) == n1 && r[|n1|] == ' '
    requires |r| > |n2| && ToLower(r[..|n2|]) == n2 && r[|n2|] == ' '
    ensures n1 == n2
  {
    forall i | 0 <= i < |n1| ensures n1[i] == LowerChar(r[i]) && n1[i] != ' ' {
      assert n1[i] in n1;
    }
    forall i | 0 <= i < |n2| ensures n2[i] == LowerChar(r[i]) && n2[i] != ' ' {
      assert n2[i] in n2;
    }
    assert LowerChar(' ') == ' ';
    assert |n1| == |n2|;
  }

  // ---------------------------------------------------------------------------
  // Ordering

  /** `r` is in non-increasing order of `rank` of the labels. */
  predicate SortedDesc(r: seq<MonthlySummary>, rank: string -> int) {
    forall i, j :: 0 <= i < j < |r| ==> rank(r[i].month) >= rank(r[j].month)
  }

  function IncomeSum(s: seq<MonthlySummary>): real {
    if s == [] then 0.0 else s[0].income + IncomeSum(s[1..])
  }

  function ExpenseSum(s: seq<MonthlySummary>): real {
    if s == [] then 0.0 else s[0].expense + ExpenseSum(s[1..])
  }

  /** Inserts `x` into the sorted `s` ahead of the first entry that does not rank above it. */
  function Insert(x: MonthlySummary, s: seq<MonthlySummary>, rank: string -> int): (r: seq<MonthlySummary>)
    requires SortedDesc(s, rank)
    ensures SortedDesc(r, rank)
    ensures multiset(r) == multiset(s) + multiset{x}
  {
    if s == [] || rank(s[0].month) <= rank(x.month) then
      SortedCons(x, s, rank);
      [x] + s
    else
      SortedTail(s, rank);
      var rest := Insert(x, s[1..], rank);
      InsertBehindHead(x, s, rest, rank);
      [s[0]] + rest
  }

  lemma SortedTail(s: seq<MonthlySummary>, rank: string -> int)
    requires s != [] && SortedDesc(s, rank)
    ensures SortedDesc(s[1..], rank)
    ensures forall y :: y in s[1..] ==> rank(y.month) <= rank(s[0].month)
  {
    forall y | y in s[1..] ensures rank(y.month) <= rank(s[0].month) {
      var j :| 0 <= j < |s[1..]| && s[1..][j] == y;
      assert s[j + 1] == y;
    }
  }

  /** The step of `Insert` that keeps the head of `s` in front. */
  lemma InsertBehindHead(x: MonthlySummary, s: seq<MonthlySummary>, rest: seq<MonthlySummary>, rank: string -> int)
    requires s != [] && SortedDesc(s, rank) && rank(x.month) < rank(s[0].month)
    requires SortedDesc(rest, rank) && multiset(rest) == multiset(s[1..]) + multiset{x}
    ensures SortedDesc([s[0]] + rest, rank)
    ensures multiset([s[0]] + rest) == multiset(s) + multiset{x}
  {
    SortedTail(s, rank);
    forall y | y in rest ensures rank(y.month) <= rank(s[0].month) {
      assert y in multiset(rest);
      if y != x {
        assert y in multiset(s[1..]);
      }
    }
    SortedCons(s[0], rest, rank);
    ConsMultiset(s, rest, x);
  }

  lemma ConsMultiset(s: seq<MonthlySummary>, rest: seq<MonthlySummary>, x: MonthlySummary)
    requires s != [] && multiset(rest) == multiset(s[1..]) + multiset{x}
    ensures multiset([s[0]] + rest) == multiset(s) + multiset{x}
  {
    assert [s[0]] + s[1..] == s;
    assert multiset([s[0]] + rest) == multiset{s[0]} + multiset(rest);
    assert multiset(s) == multiset{s[0]} + multiset(s[1..]);
  }

  /** An entry that ranks at least as high as every entry of a sorted list can go in front. */
  lemma SortedCons(h: MonthlySummary, rest: seq<MonthlySummary>, rank: string -> int)
    requires SortedDesc(rest, rank)
    requires forall y :: y in rest ==> rank(y.month) <= rank(h.month)
    ensures SortedDesc([h] + rest, rank)
  {
    var r := [h] + rest;
    forall i, j | 0 <= i < j < |r| ensures rank(r[i].month) >= rank(r[j].month) {
      assert r[j] == rest[j - 1];
      if i > 0 {
        assert r[i] == rest[i - 1];
      }
    }
  }

  /** The comparator sort, with the comparator's view of a label as `rank`: the
      result is a permutation of the input, in non-increasing rank order, with
      the same totals. */
  function SortByRank(s: seq<MonthlySummary>, rank: string -> int): (r: seq<MonthlySummary>)
    ensures SortedDesc(r, rank)
    ensures multiset(r) == multiset(s)
  {
    if s == [] then []
    else
      assert [s[0]] + s[1..] == s;
      Insert(s[0], SortByRank(s[1..], rank), rank)
  }

  /** Inserting adds the entry's income and expense to the totals. */
  lemma {:induction false} InsertKeepsTotals(x: MonthlySummary, s: seq<MonthlySummary>, rank: string -> int)
    requires SortedDesc(s, rank)
    ensures IncomeSum(Insert(x, s, rank)) == x.income + IncomeSum(s)
    ensures ExpenseSum(Insert(x, s, rank)) == x.expense + ExpenseSum(s)
  {
    if s == [] || rank(s[0].month) <= rank(x.month) {
      assert ([x] + s)[1..] == s;
    } else {
      assert SortedDesc(s[1..], rank);
      InsertKeepsTotals(x, s[1..], rank);
      var r := Insert(x, s, rank);
      assert r[0] == s[0] && r[1..] == Insert(x, s[1..], rank);
    }
  }

  /** Sorting keeps the income and expense totals. */
  lemma {:induction false} SortKeepsTotals(s: seq<MonthlySummary>, rank: string -> int)
    ensures IncomeSum(SortByRank(s, rank)) == IncomeSum(s)
    ensures ExpenseSum(SortByRank(s, rank)) == ExpenseSum(s)
  {
    if s != [] {
      SortKeepsTotals(s[1..], rank);
      InsertKeepsTotals(s[0], SortByRank(s[1..], rank), rank);
    }
  }

  /** The entries of rank `v`, in their order. */
  function WithRank(s: seq<MonthlySummary>, rank: string -> int, v: int): seq<MonthlySummary> {
    if s == [] then []
    else (if rank(s[0].month) == v then [s[0]] else []) + WithRank(s[1..], rank, v)
  }

  /** Insertion goes ahead of the entries of equal rank, and otherwise keeps
      every rank's entries in their order. */
  lemma {:induction false} InsertStable(x: MonthlySummary, s: seq<MonthlySummary>, rank: string -> int, v: int)
    requires SortedDesc(s, rank)
    ensures WithRank(Insert(x, s, rank), rank, v)
            == (if rank(x.month) == v then [x] else []) + WithRank(s, rank, v)
  {
    if s == [] || rank(s[0].month) <= rank(x.month) {
      assert Insert(x, s, rank) == [x] + s;
      WithRankCons(x, s, rank, v);
    } else {
      SortedTail(s, rank);
      var rest := Insert(x, s[1..], rank);
      assert Insert(x, s, rank) == [s[0]] + rest;
      InsertStable(x, s[1..], rank, v);
      WithRankCons(s[0], rest, rank, v);
      assert [s[0]] + s[1..] == s;
      WithRankCons(s[0], s[1..], rank, v);
      var h0 := if rank(s[0].month) == v then [s[0]] else [];
      var hx := if rank(x.month) == v then [x] else [];
      assert h0 == [] || hx == [];
      SwapEmpty(h0, hx, WithRank(s[1..], rank, v));
    }
  }

  /** Two pieces of which one is empty can be put in either order. */
  lemma SwapEmpty(a: seq<MonthlySummary>, b: seq<MonthlySummary>, w: seq<MonthlySummary>)
    requires a == [] || b == []
    ensures a + (b + w) == b + (a + w)
  {
    if a == [] {
      assert a + (b + w) == b + w == b + (a + w);
    } else {
      assert a + (b + w) == a + w == b + (a + w);
    }
  }

  lemma WithRankCons(h: MonthlySummary, s: seq<MonthlySummary>, rank: string -> int, v: int)
    ensures WithRank([h] + s, rank, v) == (if rank(h.month) == v then [h] else []) + WithRank(s, rank, v)
  {
    assert ([h] + s)[1..] == s;
  }

  /** The sort is stable: entries that rank equally, such as labels that read
      back as the same time, keep their input order. */
  lemma {:induction false} SortStable(s: seq<MonthlySummary>, rank: string -> int, v: int)
    ensures WithRank(SortByRank(s, rank), rank, v) == WithRank(s, rank, v)
  {
    if s != [] {
      SortStable(s[1..], rank, v);
      InsertStable(s[0], SortByRank(s[1..], rank), rank, v);
    }
  }

  /** `monthlySummaries`: group, label, then sort. `rank` is the time the
      comparator reads back from a label with `new Date(label)`. */
  method MonthlySummaries(txs: seq<Transaction>, rank: string -> int) returns (r: seq<MonthlySummary>)
    ensures r == SortByRank(Unsorted(txs), rank)
  {
    var order, totals := GroupByMonth(txs);
    var labelled := seq(|order|, i requires 0 <= i < |order| =>
                          MonthlySummary(Label(order[i]), totals[order[i]].income, totals[order[i]].expense));
    assert labelled == Unsorted(txs);
    r := SortByRank(labelled, rank);
  }

  // ---------------------------------------------------------------------------
  // Properties of the summaries

  lemma {:induction false} SumsOverMonths(txs: seq<Transaction>, ks: seq<int>)
    ensures IncomeSum(SummariesOf(txs, ks)) == SumOverMonths(txs, ks, Income)
    ensures ExpenseSum(SummariesOf(txs, ks)) == SumOverMonths(txs, ks, Expense)
    decreases |ks|
  {
    if ks != [] {
      SumsOverMonths(txs, DropLast(ks));
      SummariesSnoc(txs, ks);
      IncomeSumSnoc(SummariesOf(txs, DropLast(ks)), SummaryFor(txs, Last(ks)));
    }
  }

  lemma {:induction false} IncomeSumSnoc(s: seq<MonthlySummary>, x: MonthlySummary)
    ensures IncomeSum(s + [x]) == IncomeSum(s) + x.income
    ensures ExpenseSum(s + [x]) == ExpenseSum(s) + x.expense
  {
    if s != [] {
      assert (s + [x])[1..] == s[1..] + [x];
      IncomeSumSnoc(s[1..], x);
    }
  }

  /** Totals are conserved: the incomes of all summaries add up to the total
      income of the input, and the expenses to the total of everything else,
      before and after sorting. */
  lemma SummaryTotalsConserved(txs: seq<Transaction>, rank: string -> int)
    ensures IncomeSum(SortByRank(Unsorted(txs), rank)) == KindSum(txs, Income)
    ensures ExpenseSum(SortByRank(Unsorted(txs), rank)) == KindSum(txs, Expense)
  {
    var ks := FirstAppearance(txs);
    SortKeepsTotals(Unsorted(txs), rank);
    FirstAppearanceIsDistinctMonths(txs);
    SumsOverMonths(txs, ks);
    SumOverMonthsConserves(txs, ks, Income);
    SumOverMonthsConserves(txs, ks, Expense);
    KindSumInCovering(txs, Income, set k | k in ks);
    KindSumInCovering(txs, Expense, set k | k in ks);
  }

  /** One summary per month that has transactions, and none for other months. */
  lemma OneSummaryPerMonth(txs: seq<Transaction>)
    ensures |Unsorted(txs)| == |MonthsOf(txs)|
    ensures forall k :: k in MonthsOf(txs) ==> SummaryFor(txs, k) in Unsorted(txs)
    ensures forall i :: 0 <= i < |Unsorted(txs)| ==>
              exists k :: k in MonthsOf(txs) && Unsorted(txs)[i] == SummaryFor(txs, k)
  {
    var ks := FirstAppearance(txs);
    FirstAppearanceIsDistinctMonths(txs);
    DistinctCard(ks);
    forall k | k in MonthsOf(txs) ensures SummaryFor(txs, k) in Unsorted(txs) {
      var i :| 0 <= i < |ks| && ks[i] == k;
      assert Unsorted(txs)[i] == SummaryFor(txs, k);
    }
    forall i | 0 <= i < |Unsorted(txs)|
      ensures exists k :: k in MonthsOf(txs) && Unsorted(txs)[i] == SummaryFor(txs, k)
    {
      assert ks[i] in MonthsOf(txs);
    }
  }

  /** When every transaction is dated from year 1 on, no two summaries share a label. */
  lemma LabelsDistinct(txs: seq<Transaction>)
    requires forall t :: t in txs ==> t.date.year >= 1
    ensures forall i, j :: 0 <= i < j < |Unsorted(txs)| ==> Unsorted(txs)[i].month != Unsorted(txs)[j].month
  {
    var ks := FirstAppearance(txs);
    FirstAppearanceIsDistinctMonths(txs);
    forall i, j | 0 <= i < j < |ks| ensures Unsorted(txs)[i].month != Unsorted(txs)[j].month {
      YearsOfMonths(txs, ks[i]);
      YearsOfMonths(txs, ks[j]);
      if Label(ks[i]) == Label(ks[j]) {
        LabelInjective(ks[i], ks[j]);
      }
    }
  }

  lemma YearsOfMonths(txs: seq<Transaction>, k: int)
    requires k in MonthsOf(txs)
    requires forall t :: t in txs ==> t.date.year >= 1
    ensures YearOfIndex(k) >= 1
  {
    var t :| t in txs && MonthOf(t.date) == k;
    MonthIndexRoundTrip(k, t.date.year, t.date.month);
  }

  lemma {:induction false} DistinctCard(s: seq<int>)
    requires Distinct(s)
    ensures |set x | x in s| == |s|
  {
    if s != [] {
      var front := DropLast(s);
      assert Distinct(front);
      DistinctCard(front);
      assert (set x | x in s) == (set x | x in front) + {Last(s)};
      assert Last(s) !in front by {
        forall i | 0 <= i < |front| ensures front[i] != Last(s) {
          assert s[i] != s[|s| - 1];
        }
      }
    }
  }

  // ---------------------------------------------------------------------------
  // Which summaries are shown

  /** The label the card looks for when no filter is active: the month name and
      `getFullYear()` written plainly (no zero padding), capitalised. */
  function CurrentLabel(now: Date): (r: string)
    ensures var name := PtMonthNames[now.month];
            && |r| >= |name| + 2 && 'A' <= r[0] <= 'Z'
            && ToLower(r[..|name|]) == name && r[|name|] == ' '
            && (now.year >= 0 ==>
                  && AllDigits(r[|name| + 1..]) && ParseDecimal(r[|name| + 1..]) == now.year
                  && (r[|name| + 1] == '0' ==> now.year == 0))
            && (now.year < 0 ==> r[|name| + 1] == '-')
  {
    var name := PtMonthNames[now.month];
    MonthNameFacts(now.month, now.month);
    CapitalizeName(name, IntText(now.year));
    NameThenText(name, IntText(now.year));
    IntTextShape(now.year);
    Capitalize(name + " " + IntText(now.year))
  }

  /** `String(y)`: a non-negative year is digits without zero padding that
      read back as the year; a negative one starts with a minus sign. */
  lemma IntTextShape(y: int)
    ensures y >= 0 ==> AllDigits(IntText(y)) && ParseDecimal(IntText(y)) == y && (IntText(y)[0] == '0' ==> y == 0)
    ensures y < 0 ==> IntText(y)[0] == '-'
  {
    if y >= 0 {
      ParseDecimalOfDecimal(y);
    }
  }

  /** The summaries whose label is `wanted`, in their order. */
  function FilterByLabel(s: seq<MonthlySummary>, wanted: string): (r: seq<MonthlySummary>)
    ensures forall x :: x in r <==> x in s && x.month == wanted
    ensures forall x :: multiset(r)[x] == if x.month == wanted then multiset(s)[x] else 0
  {
    if s == [] then []
    else
      assert s == [s[0]] + s[1..];
      (if s[0].month == wanted then [s[0]] else []) + FilterByLabel(s[1..], wanted)
  }

  /** With a filter active every summary is shown; otherwise exactly those
      labelled like the current month. */
  function Displayed(summaries: seq<MonthlySummary>, isFilterActive: bool, now: Date): (r: seq<MonthlySummary>)
    ensures isFilterActive ==> r == summaries
    ensures !isFilterActive ==>
              forall x :: x in r <==> x in summaries && x.month == CurrentLabel(now)
  {
    if isFilterActive then summaries else FilterByLabel(summaries, CurrentLabel(now))
  }

  lemma DecimalAtLeastFourDigits(n: nat)
    requires n >= 1000
    ensures |Decimal(n)| >= 4
  {
    var a := n / 10;
    var b := a / 10;
    DecimalDropsOneDigit(n);
    DecimalDropsOneDigit(a);
    DecimalDropsOneDigit(b);
  }

  /** A numeral of at least ten has one digit more than that of its tenth. */
  lemma DecimalDropsOneDigit(n: nat)
    requires n >= 10
    ensures |Decimal(n)| == |Decimal(n / 10)| + 1
  {
  }

  lemma CapitalizeAppend(a: string, b: string)
    requires a != []
    ensures Capitalize(a + b) == Capitalize(a) + b
  {
    assert (a + b)[0] == a[0];
    assert (a + b)[1..] == a[1..] + b;
  }

  /** From year 1000 on, "yyyy" and `String(getFullYear())` write the same digits. */
  lemma YearTextOfFourDigits(y: int)
    requires y >= 1000
    ensures YearText(y) == IntText(y)
  {
    DecimalAtLeastFourDigits(y);
  }

  /** From year 1000 on, the current-month label is the label of the current month. */
  lemma CurrentLabelIsLabel(now: Date)
    requires now.year >= 1000
    ensures CurrentLabel(now) == Label(MonthOf(now))
  {
    var k := MonthOf(now);
    MonthIndexRoundTrip(k, now.year, now.month);
    LabelOf(k, now.month, now.year);
    YearTextOfFourDigits(now.year);
    MonthNameFacts(now.month, now.month);
    CapitalizeName(PtMonthNames[now.month], IntText(now.year));
  }

  lemma LabelOf(k: int, m: Month, y: int)
    requires MonthOfIndex(k) == m && YearOfIndex(k) == y
    ensures Label(k) == Capitalize(PtMonthNames[m]) + " " + YearText(y)
  {
  }

  /** Capitalising "<name> <year>" capitalises the name only. */
  lemma CapitalizeName(name: string, digits: string)
    requires name != []
    ensures Capitalize(name + " " + digits) == Capitalize(name) + " " + digits
  {
    CapitalizeAppend(name, " " + digits);
    assert name + " " + digits == name + (" " + digits);
    assert Capitalize(name) + " " + digits == Capitalize(name) + (" " + digits);
  }

  lemma {:induction false} DistinctCountsOne<T>(s: seq<T>)
    requires Distinct(s)
    ensures forall x :: multiset(s)[x] == if x in s then 1 else 0
  {
    if s != [] {
      var front := DropLast(s);
      assert Distinct(front);
      DistinctCountsOne(front);
      assert s == front + [Last(s)];
      assert Last(s) !in front by {
        forall i | 0 <= i < |front| ensures front[i] != Last(s) {
          assert s[i] != s[|s| - 1];
        }
      }
    }
  }

  /** From year 1 on, the summaries are pairwise different. */
  lemma UnsortedDistinct(txs: seq<Transaction>)
    requires forall t :: t in txs ==> t.date.year >= 1
    ensures Distinct(Unsorted(txs))
  {
    LabelsDistinct(txs);
  }

  /** From year 1 on, the only summary that can carry the label of month `k0` is
      the summary of `k0`. */
  lemma LabelPicksMonth(txs: seq<Transaction>, k0: int)
    requires forall t :: t in txs ==> t.date.year >= 1
    requires YearOfIndex(k0) >= 1
    ensures forall x :: x in Unsorted(txs) && x.month == Label(k0) ==> x == SummaryFor(txs, k0)
    ensures k0 in MonthsOf(txs) <==> SummaryFor(txs, k0) in Unsorted(txs)
  {
    OneSummaryPerMonth(txs);
    var u := Unsorted(txs);
    forall x | x in u && x.month == Label(k0) ensures x == SummaryFor(txs, k0) {
      var i :| 0 <= i < |u| && u[i] == x;
      var k :| k in MonthsOf(txs) && x == SummaryFor(txs, k);
      YearsOfMonths(txs, k);
      LabelInjective(k, k0);
    }
    if SummaryFor(txs, k0) in u {
      var i :| 0 <= i < |u| && u[i] == SummaryFor(txs, k0);
      var k :| k in MonthsOf(txs) && u[i] == SummaryFor(txs, k);
      YearsOfMonths(txs, k);
      LabelInjective(k, k0);
    }
  }

  /** A sequence with the multiset of one element is that element alone. */
  lemma SingletonOfMultiset<T>(r: seq<T>, e: T)
    requires multiset(r) == multiset{e}
    ensures r == [e]
  {
    assert |r| == 1;
    assert r[0] in multiset(r);
  }

  /** Filtering a permutation of a duplicate-free list on a label that only `e`
      can carry leaves `e` alone, or nothing when `e` is absent. */
  lemma FilterKeepsOnly(u: seq<MonthlySummary>, sorted: seq<MonthlySummary>, wanted: string, e: MonthlySummary)
    requires multiset(sorted) == multiset(u) && Distinct(u)
    requires e.month == wanted
    requires forall x :: x in u && x.month == wanted ==> x == e
    ensures FilterByLabel(sorted, wanted) == if e in u then [e] else []
  {
    var r := FilterByLabel(sorted, wanted);
    DistinctCountsOne(u);
    if e in u {
      assert multiset(r) == multiset{e} by {
        forall x: MonthlySummary ensures multiset(r)[x] == multiset{e}[x] {
          if x.month == wanted && x in u {
            assert x == e;
          }
        }
      }
      SingletonOfMultiset(r, e);
    } else {
      assert multiset(r) == multiset{} by {
        forall x: MonthlySummary ensures multiset(r)[x] == 0 {
        }
      }
    }
  }

  /** Without a filter, and from year 1000 on, the card shows the summary of the
      current month when some transaction is dated in it, and nothing otherwise. */
  lemma ShowsOnlyCurrentMonth(txs: seq<Transaction>, rank: string -> int, now: Date)
    requires forall t :: t in txs ==> t.date.year >= 1
    requires now.year >= 1000
    ensures Displayed(SortByRank(Unsorted(txs), rank), false, now)
            == if MonthOf(now) in MonthsOf(txs) then [SummaryFor(txs, MonthOf(now))] else []
  {
    var k0 := MonthOf(now);
    CurrentLabelIsLabel(now);
    MonthIndexRoundTrip(k0, now.year, now.month);
    LabelPicksMonth(txs, k0);
    UnsortedDistinct(txs);
    FilterKeepsOnly(Unsorted(txs), SortByRank(Unsorted(txs), rank), Label(k0), SummaryFor(txs, k0));
  }

  /** Without a filter the card shows at most one entry, whatever the current
      year: before year 1000 the unpadded year never matches a label. */
  lemma DisplaysAtMostOne(txs: seq<Transaction>, rank: string -> int, now: Date)
    requires forall t :: t in txs ==> t.date.year >= 1
    ensures |Displayed(SortByRank(Unsorted(txs), rank), false, now)| <= 1
  {
    if now.year >= 1000 {
      ShowsOnlyCurrentMonth(txs, rank, now);
    } else {
      var sorted := SortByRank(Unsorted(txs), rank);
      var r := Displayed(sorted, false, now);
      SortedEntriesAreMonths(txs, rank);
      if r != [] {
        assert r[0] in sorted && r[0].month == CurrentLabel(now);
        var k :| k in MonthsOf(txs) && r[0] == SummaryFor(txs, k);
        NoEarlyYearLabel(k, now);
      }
    }
  }

  /** Before year 1000 the current-month label differs from every month's label. */
  lemma NoEarlyYearLabel(k: int, now: Date)
    requires now.year < 1000
    ensures Label(k) != CurrentLabel(now)
  {
    var m, y := MonthOfIndex(k), YearOfIndex(k);
    LabelOf(k, m, y);
    MonthNameFacts(m, m);
    MonthNameFacts(now.month, now.month);
    CapitalizeAscii(PtMonthNames[m], PtMonthNames[m]);
    CapitalizeAscii(PtMonthNames[now.month], PtMonthNames[now.month]);
    CapitalizeName(PtMonthNames[now.month], IntText(now.year));
    EarlyYearText(now.year, y);
    if Label(k) == CurrentLabel(now) {
      SplitAtSpace(Capitalize(PtMonthNames[m]), YearText(y),
                   Capitalize(PtMonthNames[now.month]), IntText(now.year));
    }
  }

  /** A year before 1000 is written with fewer than four digits, or with a minus sign. */
  lemma EarlyYearText(year: int, y: int)
    requires year < 1000
    ensures IntText(year) != YearText(y)
  {
    YearTextShape(y);
    if year >= 0 {
      DecimalBelowThousand(year);
    } else {
      assert IntText(year)[0] == '-';
    }
  }

  /** "yyyy" writes at least four digits. */
  lemma YearTextShape(y: int)
    ensures |YearText(y)| >= 4 && AllDigits(YearText(y))
  {
    PaddedDecimalRoundTrip(if y > 0 then y else 1 - y, 4);
  }

  lemma DecimalBelowThousand(n: nat)
    requires n < 1000
    ensures |Decimal(n)| <= 3
  {
    if n >= 10 {
      assert Decimal(n) == Decimal(n / 10) + [DigitChar(n % 10)];
      if n >= 100 {
        assert Decimal(n / 10) == Decimal(n / 100) + [DigitChar(n / 10 % 10)];
      }
    }
  }

  /** Every entry of the sorted list is the summary of a month that has transactions. */
  lemma SortedEntriesAreMonths(txs: seq<Transaction>, rank: string -> int)
    ensures forall x :: x in SortByRank(Unsorted(txs), rank) ==>
              exists k :: k in MonthsOf(txs) && x == SummaryFor(txs, k)
  {
    OneSummaryPerMonth(txs);
    var u := Unsorted(txs);
    forall x | x in SortByRank(u, rank) ensures exists k :: k in MonthsOf(txs) && x == SummaryFor(txs, k) {
      assert x in multiset(SortByRank(u, rank));
      var i :| 0 <= i < |u| && u[i] == x;
    }
  }

  /** From year 1 on, the sorted list holds no entry twice. */
  lemma SortedDistinct(txs: seq<Transaction>, rank: string -> int)
    requires forall t :: t in txs ==> t.date.year >= 1
    ensures Distinct(SortByRank(Unsorted(txs), rank))
  {
    var u := Unsorted(txs);
    var r := SortByRank(u, rank);
    UnsortedDistinct(txs);
    DistinctCountsOne(u);
    forall i, j | 0 <= i < j < |r| ensures r[i] != r[j] {
      if r[i] == r[j] {
        TwiceCounted(r, i, j);
      }
    }
  }

  /** With a comparator that reads every label from year 1 on back as its month,
      the card lists the months that have transactions from the most recent to the
      oldest, each once. */
  lemma MostRecentFirst(txs: seq<Transaction>, rank: string -> int)
    requires forall t :: t in txs ==> t.date.year >= 1
    requires forall k :: YearOfIndex(k) >= 1 ==> rank(Label(k)) == k
    ensures forall x :: x in SortByRank(Unsorted(txs), rank) ==>
              rank(x.month) in MonthsOf(txs) && x == SummaryFor(txs, rank(x.month))
    ensures forall i, j :: 0 <= i < j < |SortByRank(Unsorted(txs), rank)| ==>
              rank(SortByRank(Unsorted(txs), rank)[i].month) > rank(SortByRank(Unsorted(txs), rank)[j].month)
  {
    var r := SortByRank(Unsorted(txs), rank);
    forall x | x in r ensures rank(x.month) in MonthsOf(txs) && x == SummaryFor(txs, rank(x.month)) {
      EntryReadsBack(txs, rank, x);
    }
    SortedDistinct(txs, rank);
    forall i, j | 0 <= i < j < |r| ensures rank(r[i].month) > rank(r[j].month) {
      EntryReadsBack(txs, rank, r[i]);
      EntryReadsBack(txs, rank, r[j]);
      StrictlyBefore(txs, rank, r, i, j);
    }
  }

  /** In a sorted list without repeats, two entries that are the summaries of
      their own ranks cannot share a rank. */
  lemma StrictlyBefore(txs: seq<Transaction>, rank: string -> int, r: seq<MonthlySummary>, i: int, j: int)
    requires SortedDesc(r, rank) && Distinct(r) && 0 <= i < j < |r|
    requires r[i] == SummaryFor(txs, rank(r[i].month)) && r[j] == SummaryFor(txs, rank(r[j].month))
    ensures rank(r[i].month) > rank(r[j].month)
  {
  }

  lemma EntryReadsBack(txs: seq<Transaction>, rank: string -> int, x: MonthlySummary)
    requires forall t :: t in txs ==> t.date.year >= 1
    requires forall k :: YearOfIndex(k) >= 1 ==> rank(Label(k)) == k
    requires x in SortByRank(Unsorted(txs), rank)
    ensures rank(x.month) in MonthsOf(txs) && x == SummaryFor(txs, rank(x.month))
  {
    SortedEntriesAreMonths(txs, rank);
    var k :| k in MonthsOf(txs) && x == SummaryFor(txs, k);
    YearsOfMonths(txs, k);
    assert rank(Label(k)) == k;
  }

  lemma TwiceCounted<T>(s: seq<T>, i: int, j: int)
    requires 0 <= i < j < |s| && s[i] == s[j]
    ensures multiset(s)[s[i]] >= 2
  {
    assert s == s[..j] + s[j..];
    assert s[i] in s[..j] && s[j] in s[j..];
  }
}
