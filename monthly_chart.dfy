/** The data behind the "Gastos por Mês" bar chart: a zero-filled,
    chronologically ordered list of month buckets, each holding the income
    (`entradas`) and expense (`saidas`) totals of its month.

    The current day ("today" and `new Date()`) is a parameter. */
module MonthlyExpensesChart {
  import opened Records

  /** The three-letter Portuguese month abbreviations, January first. */
  const MonthNames: seq<string> :=
    ["Jan", "Fev", "Mar", "Abr", "Mai", "Jun", "Jul", "Ago", "Set", "Out", "Nov", "Dez"]

  /** One bar group of the chart. */
  datatype Bucket = Bucket(name: string, entradas: real, saidas: real)

  // ---------------------------------------------------------------------------
  // Specification

  /** The consecutive months `lo, lo + 1, ..., hi`; empty when `hi < lo`. */
  function MonthRange(lo: int, hi: int): (r: seq<int>)
    ensures |r| == if hi < lo then 0 else hi - lo + 1
    ensures forall i :: 0 <= i < |r| ==> r[i] == lo + i
    decreases hi - lo
  {
    if hi < lo then [] else MonthRange(lo, hi - 1) + [hi]
  }

  /** The month of the earliest transaction, the `Math.min` over their dates;
      `None` for no transactions, where `Math.min()` gives an invalid date. */
  function EarliestMonth(txs: seq<Transaction>): (r: Option<int>)
    ensures r.None? <==> txs == []
    ensures r.Some? ==> exists t :: t in txs && MonthOf(t.date) == r.value
    ensures r.Some? ==> forall t :: t in txs ==> r.value <= MonthOf(t.date)
  {
    if txs == [] then None
    else
      var m := MonthOf(Last(txs).date);
      assert forall t :: t in txs ==> t in DropLast(txs) || t == Last(txs);
      match EarliestMonth(DropLast(txs))
      case None => Some(m)
      case Some(e) => Some(if m < e then m else e)
  }

  /** The months the chart shows, oldest first. With either date bound, every
      month from the start's month to the end's month; a missing end is today
      and a missing start is the earliest transaction. With neither, the five
      months ending with the current one. */
  function Window(txs: seq<Transaction>, startDate: Option<Date>, endDate: Option<Date>, today: Date): seq<int> {
    if startDate.Some? || endDate.Some? then
      match StartMonth(txs, startDate)
      case None => []
      case Some(lo) => MonthRange(lo, EndMonth(endDate, today))
    else
      MonthRange(MonthOf(today) - 4, MonthOf(today))
  }

  /** The first month of a bounded window: the start date's, else the earliest transaction's. */
  function StartMonth(txs: seq<Transaction>, startDate: Option<Date>): (r: Option<int>)
    ensures r.None? <==> startDate.None? && txs == []
  {
    if startDate.Some? then Some(MonthOf(startDate.value)) else EarliestMonth(txs)
  }

  /** The last month of a bounded window: the end date's, else the current one. */
  function EndMonth(endDate: Option<Date>, today: Date): int {
    MonthOf(if endDate.Some? then endDate.value else today)
  }

  /** The bucket of month `k`: its abbreviation and its two totals. */
  function BucketFor(txs: seq<Transaction>, k: int): Bucket {
    Bucket(MonthNames[MonthOfIndex(k)], AmountIn(txs, k, Income), AmountIn(txs, k, Expense))
  }

  /** The buckets of the months `w`, in that order. */
  function BucketsOf(txs: seq<Transaction>, w: seq<int>): seq<Bucket> {
    seq(|w|, i requires 0 <= i < |w| => BucketFor(txs, w[i]))
  }

  /** The chart data: one bucket per month of the window, in window order,
      named after its month and holding that month's two totals; five buckets
      without date bounds, none for a bounded window with nothing to start from. */
  function ChartSpec(txs: seq<Transaction>, startDate: Option<Date>, endDate: Option<Date>, today: Date): (r: seq<Bucket>)
    ensures var w := Window(txs, startDate, endDate, today);
            && |r| == |w|
            && forall i :: 0 <= i < |r| ==>
                 && r[i].name == MonthNames[MonthOfIndex(w[i])]
                 && r[i].entradas == AmountIn(txs, w[i], Income)
                 && r[i].saidas == AmountIn(txs, w[i], Expense)
    ensures startDate.None? && endDate.None? ==> |r| == 5
    ensures startDate.None? && endDate.Some? && txs == [] ==> r == []
  {
    BucketsOf(txs, Window(txs, startDate, endDate, today))
  }

  // ---------------------------------------------------------------------------
  // The computation

  /** A zero bucket as the source creates it, named after `month`. */
  function EmptyBucket(month: Month): Bucket {
    Bucket(MonthNames[month], 0.0, 0.0)
  }

  /** The dictionary of zero buckets: `keys` lists the months in creation
      order and `data` holds a zero bucket, named after its month, for each. */
  predicate ZeroFilled(keys: seq<int>, data: map<int, Bucket>) {
    && data.Keys == (set x | x in keys)
    && forall k :: k in data ==> data[k] == EmptyBucket(MonthOfIndex(k))
  }

  /** The `while` loop: walks from the first day of the start month one month
      at a time while that day is not after `end`, creating a zero bucket per
      month. The first instant of a month is at most `end` exactly when the
      month is not after `end`'s month, so the test compares month indices. */
  method FillMonths(start: int, end: Date) returns (keys: seq<int>, data: map<int, Bucket>)
    ensures keys == MonthRange(start, MonthOf(end))
    ensures ZeroFilled(keys, data)
  {
    keys, data := [], map[];
    var last := MonthOf(end);
    var year: int, month: Month := YearOfIndex(start), MonthOfIndex(start);
    var key := year * 12 + month;
    while key <= last
      invariant key == year * 12 + month
      invariant start <= key
      invariant start <= last ==> key <= last + 1
      invariant start > last ==> key == start
      invariant keys == MonthRange(start, key - 1)
      invariant ZeroFilled(keys, data)
      decreases last - key
    {
      MonthIndexRoundTrip(key, year, month);
      AddZeroBucketStep(start, keys, data, key, month);
      keys, data := keys + [key], data[key := EmptyBucket(month)];
      // setMonth(getMonth() + 1) carries into the next year after December.
      if month == 11 {
        year, month := year + 1, 0;
      } else {
        month := month + 1;
      }
      key := year * 12 + month;
    }
  }

  /** One step of either loop: the zero bucket of month `key` joins the dictionary. */
  lemma AddZeroBucketStep(start: int, keys: seq<int>, data: map<int, Bucket>, key: int, month: Month)
    requires keys == MonthRange(start, key - 1) && ZeroFilled(keys, data)
    requires start <= key && MonthOfIndex(key) == month
    ensures keys + [key] == MonthRange(start, key)
    ensures ZeroFilled(keys + [key], data[key := EmptyBucket(month)])
  {
  }

  /** The `for` loop: `i` counts down from 4 to 0 and creates the zero bucket
      of `new Date(year, month - i, 1)`, whose month may fall in the previous year. */
  method LastFiveMonths(today: Date) returns (keys: seq<int>, data: map<int, Bucket>)
    ensures keys == MonthRange(MonthOf(today) - 4, MonthOf(today))
    ensures ZeroFilled(keys, data)
  {
    keys, data := [], map[];
    for i := 5 downto 0
      invariant keys == MonthRange(MonthOf(today) - 4, MonthOf(today) - i)
      invariant ZeroFilled(keys, data)
    {
      var year := today.year + (today.month - i) / 12;
      var month: Month := (today.month - i) % 12;
      var key := year * 12 + month;
      MonthsBack(today, i);
      MonthIndexRoundTrip(key, year, month);
      AddZeroBucketStep(MonthOf(today) - 4, keys, data, key, month);
      keys, data := keys + [key], data[key := EmptyBucket(month)];
    }
  }

  /** `new Date(year, month - i, 1)` lies `i` months before the current month. */
  lemma MonthsBack(today: Date, i: int)
    ensures (today.year + (today.month - i) / 12) * 12 + (today.month - i) % 12 == MonthOf(today) - i
  {
  }

  /** The `forEach`: adds each transaction's amount to `entradas` (income) or
      `saidas` (anything else) of its month's bucket, when that bucket exists. */
  method Accumulate(txs: seq<Transaction>, keys: seq<int>, data0: map<int, Bucket>)
    returns (data: map<int, Bucket>)
    requires ZeroFilled(keys, data0)
    ensures data.Keys == data0.Keys
    ensures forall k :: k in data ==> data[k] == BucketFor(txs, k)
  {
    data := data0;
    for j := 0 to |txs|
      invariant data.Keys == data0.Keys
      invariant forall k :: k in data ==> data[k] == BucketFor(txs[..j], k)
    {
      var t := txs[j];
      var key := MonthOf(t.date);
      if key in data {
        if t.kind == Income {
          data := data[key := data[key].(entradas := data[key].entradas + t.amount)];
        } else {
          data := data[key := data[key].(saidas := data[key].saidas + t.amount)];
        }
      }
      assert DropLast(txs[..j + 1]) == txs[..j];
    }
    assert txs[..|txs|] == txs;
  }

  /** `chartData`: creates the zero buckets in a dictionary keyed by year and
      month, remembering creation order, folds the transactions in, and lists
      the buckets in creation order (`Object.values`). */
  method ChartData(txs: seq<Transaction>, startDate: Option<Date>, endDate: Option<Date>, today: Date)
    returns (buckets: seq<Bucket>)
    ensures buckets == ChartSpec(txs, startDate, endDate, today)
  {
    var keys: seq<int>, data: map<int, Bucket>;
    if startDate.Some? || endDate.Some? {
      var start: Option<int>;
      if startDate.Some? {
        start := Some(MonthOf(startDate.value));
      } else {
        start := EarliestMonth(txs);
      }
      var end := if endDate.Some? then endDate.value else today;
      if start.Some? {
        keys, data := FillMonths(start.value, end);
      } else {
        // An invalid start date fails the loop's first comparison.
        keys, data := [], map[];
      }
    } else {
      keys, data := LastFiveMonths(today);
    }
    assert keys == Window(txs, startDate, endDate, today);
    data := Accumulate(txs, keys, data);
    buckets := seq(|keys|, i requires 0 <= i < |keys| => data[keys[i]]);
  }

  // ---------------------------------------------------------------------------
  // Properties

  /** Without date bounds there are exactly five buckets: the five consecutive
      months ending with the current one, oldest first. */
  lemma DefaultWindowIsLastFiveMonths(txs: seq<Transaction>, today: Date)
    ensures |ChartSpec(txs, None, None, today)| == 5
    ensures forall i :: 0 <= i < 5 ==>
              ChartSpec(txs, None, None, today)[i] == BucketFor(txs, MonthOf(today) - 4 + i)
  {
    ChartOfDefault(txs, today);
    BucketsOfRange(txs, MonthOf(today) - 4, MonthOf(today));
  }

  /** The last of the five default buckets is named after the current month. */
  lemma DefaultWindowEndsNow(txs: seq<Transaction>, today: Date)
    ensures |ChartSpec(txs, None, None, today)| == 5
    ensures ChartSpec(txs, None, None, today)[4].name == MonthNames[today.month]
  {
    DefaultWindowIsLastFiveMonths(txs, today);
    CurrentMonthName(txs, today);
  }

  lemma ChartOfDefault(txs: seq<Transaction>, today: Date)
    ensures ChartSpec(txs, None, None, today) == BucketsOf(txs, MonthRange(MonthOf(today) - 4, MonthOf(today)))
  {
  }

  lemma CurrentMonthName(txs: seq<Transaction>, today: Date)
    ensures BucketFor(txs, MonthOf(today)).name == MonthNames[today.month]
  {
    MonthIndexRoundTrip(MonthOf(today), today.year, today.month);
  }

  /** With a date bound and a known start, there is one bucket per month from
      the start's month to the end's month inclusive, empty or not, and none
      when the end's month comes before the start's. */
  lemma BoundedWindowCoversEveryMonth(txs: seq<Transaction>, startDate: Option<Date>, endDate: Option<Date>, today: Date,
                                      lo: int, hi: int)
    requires startDate.Some? || endDate.Some?
    requires StartMonth(txs, startDate) == Some(lo) && EndMonth(endDate, today) == hi
    ensures |ChartSpec(txs, startDate, endDate, today)| == if hi < lo then 0 else hi - lo + 1
    ensures forall i :: 0 <= i < |ChartSpec(txs, startDate, endDate, today)| ==>
              ChartSpec(txs, startDate, endDate, today)[i] == BucketFor(txs, lo + i)
  {
    ChartOfBounds(txs, startDate, endDate, today, lo, hi);
    BucketsOfRange(txs, lo, hi);
  }

  lemma ChartOfBounds(txs: seq<Transaction>, startDate: Option<Date>, endDate: Option<Date>, today: Date,
                      lo: int, hi: int)
    requires startDate.Some? || endDate.Some?
    requires StartMonth(txs, startDate) == Some(lo) && EndMonth(endDate, today) == hi
    ensures ChartSpec(txs, startDate, endDate, today) == BucketsOf(txs, MonthRange(lo, hi))
  {
  }

  lemma BucketsOfRange(txs: seq<Transaction>, lo: int, hi: int)
    ensures |BucketsOf(txs, MonthRange(lo, hi))| == if hi < lo then 0 else hi - lo + 1
    ensures forall i :: 0 <= i < |BucketsOf(txs, MonthRange(lo, hi))| ==>
              BucketsOf(txs, MonthRange(lo, hi))[i] == BucketFor(txs, lo + i)
  {
  }

  /** An end bound with neither a start bound nor transactions gives no buckets. */
  lemma NoStartNoBuckets(endDate: Date, today: Date)
    ensures ChartSpec([], None, Some(endDate), today) == []
  {
  }

  /** The window is strictly increasing month by month, so buckets come out in
      chronological order, each month after the one before it. */
  lemma WindowIsChronological(txs: seq<Transaction>, startDate: Option<Date>, endDate: Option<Date>, today: Date)
    ensures var w := Window(txs, startDate, endDate, today);
            && |ChartSpec(txs, startDate, endDate, today)| == |w|
            && (forall i :: 0 <= i < |w| ==> ChartSpec(txs, startDate, endDate, today)[i] == BucketFor(txs, w[i]))
            && (forall i :: 0 <= i < |w| - 1 ==> w[i + 1] == w[i] + 1)
  {
  }

  /** A month of the window with no transactions is shown with zero totals. */
  lemma EmptyMonthIsZero(txs: seq<Transaction>, startDate: Option<Date>, endDate: Option<Date>, today: Date, i: int)
    requires 0 <= i < |Window(txs, startDate, endDate, today)|
    requires forall t :: t in txs ==> MonthOf(t.date) != Window(txs, startDate, endDate, today)[i]
    ensures ChartSpec(txs, startDate, endDate, today)[i].entradas == 0.0
    ensures ChartSpec(txs, startDate, endDate, today)[i].saidas == 0.0
  {
    var k := Window(txs, startDate, endDate, today)[i];
    AmountInEmptyMonth(txs, k, Income);
    AmountInEmptyMonth(txs, k, Expense);
  }

  /** Sum of `entradas + saidas` over a list of buckets. */
  function BucketTotal(bs: seq<Bucket>): real {
    if bs == [] then 0.0 else BucketTotal(DropLast(bs)) + Last(bs).entradas + Last(bs).saidas
  }

  lemma {:induction false} BucketTotalOfMonths(txs: seq<Transaction>, w: seq<int>)
    ensures BucketTotal(BucketsOf(txs, w))
            == SumOverMonths(txs, w, Income) + SumOverMonths(txs, w, Expense)
  {
    if w != [] {
      var bs := BucketsOf(txs, w);
      var w' := DropLast(w);
      assert DropLast(bs) == BucketsOf(txs, w');
      BucketTotalOfMonths(txs, w');
    }
  }

  /** Conservation: the buckets together hold exactly the transactions dated in
      the window's months; transactions outside the window are ignored. */
  lemma ChartConservesTotals(txs: seq<Transaction>, startDate: Option<Date>, endDate: Option<Date>, today: Date)
    ensures var w := Window(txs, startDate, endDate, today);
            BucketTotal(ChartSpec(txs, startDate, endDate, today)) == TotalIn(txs, set x | x in w)
  {
    var w := Window(txs, startDate, endDate, today);
    assert Distinct(w);
    BucketTotalOfMonths(txs, w);
    SumOverMonthsConserves(txs, w, Income);
    SumOverMonthsConserves(txs, w, Expense);
    KindsSplitTotal(txs, set x | x in w);
  }
}
