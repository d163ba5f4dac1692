/** The record shapes the dashboard components consume, the calendar
    arithmetic they rely on, and per-month totals over a transaction list.

    A JavaScript `Date` is reduced to the local calendar day it denotes:
    every rule modelled here looks only at the year, the month or the day. */
module Records {

  datatype Option<T> = None | Some(value: T)

  /** The `type` field of a transaction: `'income' | 'expense'`. */
  datatype TxType = Income | Expense

  /** A month as JavaScript numbers it, 0 (January) to 11 (December). */
  type Month = m: int | 0 <= m < 12

  type DayOfMonth = d: int | 1 <= d <= 31 witness 1

  /** A local calendar day, as `getFullYear`, `getMonth` and `getDate` read it. */
  datatype Date = Date(year: int, month: Month, day: DayOfMonth)

  /** A stored transaction. `amount` is a positive number of currency units. */
  datatype Transaction = Transaction(
    id: string,
    userId: string,
    title: string,
    amount: real,
    date: Date,
    kind: TxType,
    category: string,
    accountId: string)

  /** A bank account or wallet that transactions refer to by id. */
  datatype Account = Account(id: string, userId: string, name: string, color: string)

  /** The category that marks the synthetic initial-balance transaction. */
  const InitialBalanceCategory: string := "initial_balance"

  function Last<T>(s: seq<T>): T
    requires s != []
  {
    s[|s| - 1]
  }

  function DropLast<T>(s: seq<T>): seq<T>
    requires s != []
  {
    s[..|s| - 1]
  }

  // ---------------------------------------------------------------------------
  // Calendar days

  predicate IsLeapYear(y: int) {
    (y % 4 == 0 && y % 100 != 0) || y % 400 == 0
  }

  function DaysInMonth(y: int, m: Month): (n: DayOfMonth)
    ensures 28 <= n
    ensures n == 31 <==> m in {0, 2, 4, 6, 7, 9, 11}
  {
    if m == 1 then (if IsLeapYear(y) then 29 else 28)
    else if m == 3 || m == 5 || m == 8 || m == 10 then 30
    else 31
  }

  /** A day that exists in the proleptic Gregorian calendar. */
  predicate ValidDate(d: Date) {
    d.day <= DaysInMonth(d.year, d.month)
  }

  /** The day before `d`: `setDate(getDate() - 1)`, rolling back over months and years. */
  function PreviousDay(d: Date): (r: Date)
    ensures ValidDate(d) ==> ValidDate(r)
  {
    if d.day > 1 then
      d.(day := d.day - 1)
    else if d.month > 0 then
      Date(d.year, d.month - 1, DaysInMonth(d.year, d.month - 1))
    else
      Date(d.year - 1, 11, 31)
  }

  /** The day after `d`, defined independently of PreviousDay. */
  function NextDay(d: Date): Date {
    if d.day < DaysInMonth(d.year, d.month) then d.(day := d.day + 1)
    else if d.month < 11 then Date(d.year, d.month + 1, 1)
    else Date(d.year + 1, 0, 1)
  }

  /** Stepping back a day and then forward again returns to the same day. */
  lemma NextOfPrevious(d: Date)
    requires ValidDate(d)
    ensures NextDay(PreviousDay(d)) == d
  {
  }

  /** Stepping forward a day and then back again returns to the same day. */
  lemma PreviousOfNext(d: Date)
    requires ValidDate(d)
    ensures ValidDate(NextDay(d))
    ensures PreviousDay(NextDay(d)) == d
  {
  }

  // ---------------------------------------------------------------------------
  // Year-month indices

  /** The year-month of a day as one integer, `year * 12 + month`. */
  function MonthOf(d: Date): int {
    d.year * 12 + d.month
  }

  /** The year of a year-month index (floor division, so negative years work too). */
  function YearOfIndex(k: int): int {
    k / 12
  }

  /** The month of a year-month index. */
  function MonthOfIndex(k: int): Month {
    k % 12
  }

  /** Splitting an index and joining it again gives the index back, and two days
      share an index exactly when they share year and month. */
  lemma MonthIndexRoundTrip(k: int, year: int, month: Month)
    ensures YearOfIndex(k) * 12 + MonthOfIndex(k) == k
    ensures YearOfIndex(year * 12 + month) == year && MonthOfIndex(year * 12 + month) == month
  {
  }

  // ---------------------------------------------------------------------------
  // Totals

  /** Sum of the amounts of the transactions of `kind` dated in month `k`. */
  function AmountIn(txs: seq<Transaction>, k: int, kind: TxType): real {
    if txs == [] then 0.0
    else AmountIn(DropLast(txs), k, kind)
         + (if MonthOf(Last(txs).date) == k && Last(txs).kind == kind then Last(txs).amount else 0.0)
  }

  /** Sum of the amounts of the transactions of `kind`. */
  function KindSum(txs: seq<Transaction>, kind: TxType): real {
    if txs == [] then 0.0
    else KindSum(DropLast(txs), kind) + (if Last(txs).kind == kind then Last(txs).amount else 0.0)
  }

  /** Sum of the amounts of the transactions of `kind` whose month is in `months`. */
  function KindSumIn(txs: seq<Transaction>, kind: TxType, months: set<int>): real {
    if txs == [] then 0.0
    else KindSumIn(DropLast(txs), kind, months)
         + (if Last(txs).kind == kind && MonthOf(Last(txs).date) in months then Last(txs).amount else 0.0)
  }

  /** Sum of the amounts, of either kind, of the transactions whose month is in `months`. */
  function TotalIn(txs: seq<Transaction>, months: set<int>): real {
    if txs == [] then 0.0
    else TotalIn(DropLast(txs), months)
         + (if MonthOf(Last(txs).date) in months then Last(txs).amount else 0.0)
  }

  /** `AmountIn` summed over the months of `w`. */
  function SumOverMonths(txs: seq<Transaction>, w: seq<int>, kind: TxType): real {
    if w == [] then 0.0
    else SumOverMonths(txs, DropLast(w), kind) + AmountIn(txs, Last(w), kind)
  }

  predicate Distinct<T(==)>(s: seq<T>) {
    forall i, j :: 0 <= i < j < |s| ==> s[i] != s[j]
  }

  /** The months in which some transaction is dated. */
  function MonthsOf(txs: seq<Transaction>): (r: set<int>)
    ensures forall t :: t in txs ==> MonthOf(t.date) in r
    ensures forall k :: k in r ==> exists t :: t in txs && MonthOf(t.date) == k
  {
    set t | t in txs :: MonthOf(t.date)
  }

  /** A month in which no transaction is dated has zero totals of both kinds. */
  lemma {:induction false} AmountInEmptyMonth(txs: seq<Transaction>, k: int, kind: TxType)
    requires forall t :: t in txs ==> MonthOf(t.date) != k
    ensures AmountIn(txs, k, kind) == 0.0
  {
    if txs != [] {
      assert forall t :: t in DropLast(txs) ==> t in txs;
      AmountInEmptyMonth(DropLast(txs), k, kind);
    }
  }

  /** Adding one transaction at the end adds its amount to the per-month sums over
      `w` exactly when its kind matches and its month is one of `w`'s months. */
  lemma {:induction false} SumOverMonthsSnoc(txs: seq<Transaction>, w: seq<int>, kind: TxType)
    requires txs != []
    requires Distinct(w)
    ensures SumOverMonths(txs, w, kind)
            == SumOverMonths(DropLast(txs), w, kind)
               + (if Last(txs).kind == kind && MonthOf(Last(txs).date) in w then Last(txs).amount else 0.0)
  {
    if w != [] {
      var w' := DropLast(w);
      assert Distinct(w');
      assert Last(w) !in w' by {
        forall i | 0 <= i < |w'| ensures w'[i] != Last(w) {
          assert w[i] != w[|w| - 1];
        }
      }
      assert forall x :: x in w <==> x in w' || x == Last(w) by {
        assert w == w' + [Last(w)];
      }
      SumOverMonthsSnoc(txs, w', kind);
    }
  }

  /** Conservation: over a list of distinct months, the per-month sums add up to
      the total of the transactions dated in those months. */
  lemma {:induction false} SumOverMonthsConserves(txs: seq<Transaction>, w: seq<int>, kind: TxType)
    requires Distinct(w)
    ensures SumOverMonths(txs, w, kind) == KindSumIn(txs, kind, set x | x in w)
  {
    if txs == [] {
      ZeroSums(w, kind);
    } else {
      SumOverMonthsConserves(DropLast(txs), w, kind);
      SumOverMonthsSnoc(txs, w, kind);
    }
  }

  lemma {:induction false} ZeroSums(w: seq<int>, kind: TxType)
    ensures SumOverMonths([], w, kind) == 0.0
  {
    if w != [] {
      ZeroSums(DropLast(w), kind);
    }
  }

  /** Restricting to a set of months that covers every transaction loses nothing. */
  lemma {:induction false} KindSumInCovering(txs: seq<Transaction>, kind: TxType, months: set<int>)
    requires forall t :: t in txs ==> MonthOf(t.date) in months
    ensures KindSumIn(txs, kind, months) == KindSum(txs, kind)
  {
    if txs != [] {
      assert Last(txs) in txs;
      assert forall t :: t in DropLast(txs) ==> t in txs;
      KindSumInCovering(DropLast(txs), kind, months);
    }
  }

  /** Income and expense totals in a set of months add up to the total in those months. */
  lemma {:induction false} KindsSplitTotal(txs: seq<Transaction>, months: set<int>)
    ensures KindSumIn(txs, Income, months) + KindSumIn(txs, Expense, months) == TotalIn(txs, months)
  {
    if txs != [] {
      KindsSplitTotal(DropLast(txs), months);
    }
  }
}
