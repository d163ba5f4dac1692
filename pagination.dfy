/** The pagination bar under the transactions table: the "Mostrando a a b de
    n item(s)" range, the rows-per-page selector and the four navigation
    buttons. */
module PaginationControls {
  import opened Text

  /** The rows-per-page choices, in the order the selector lists them. */
  const ItemsPerPageOptions: seq<nat> := [10, 20, 30, 50]

  // ---------------------------------------------------------------------------
  // The range shown

  /** The 1-based position of the first item on the page: the item at that
      position is the first one of page `currentPage`. */
  function StartItem(currentPage: int, itemsPerPage: int): (s: int)
    ensures currentPage >= 1 && itemsPerPage >= 0 ==> s >= 1
    ensures s - 1 == (currentPage - 1) * itemsPerPage
    ensures currentPage >= 1 && itemsPerPage >= 1 ==>
              (s - 1) / itemsPerPage + 1 == currentPage && (s - 1) % itemsPerPage == 0
  {
    MultipleDivMod(currentPage - 1, itemsPerPage);
    (currentPage - 1) * itemsPerPage + 1
  }

  /** A multiple of a positive `d` divides by `d` exactly. */
  lemma MultipleDivMod(q: int, d: int)
    ensures d >= 1 ==> (q * d) / d == q && (q * d) % d == 0
  {
    if d >= 1 {
      MultipleDivModPositive(q, d);
    }
  }

  lemma MultipleDivModPositive(q: int, d: int)
    requires d >= 1
    ensures (q * d) / d == q && (q * d) % d == 0
  {
    var a := q * d;
    var r := a % d;
    assert a == d * (a / d) + r;
    assert d * (q - a / d) == r;
    SmallMultipleIsZero(d, q - a / d);
  }

  lemma SmallMultipleIsZero(d: int, k: int)
    requires d >= 1 && 0 <= d * k < d
    ensures k == 0
  {
  }

  /** The 1-based position of the last item on the page; one less than the
      start when the page is empty. */
  function EndItem(startItem: int, itemsOnCurrentPage: int): (e: int)
    ensures e - startItem + 1 == itemsOnCurrentPage
  {
    startItem + itemsOnCurrentPage - 1
  }

  /** `Math.ceil(total / itemsPerPage)`, as the transactions page passes it. */
  function TotalPages(total: nat, itemsPerPage: nat): (p: nat)
    requires itemsPerPage >= 1
    ensures (p - 1) * itemsPerPage < total <= p * itemsPerPage || (total == 0 && p == 0)
  {
    (total + itemsPerPage - 1) / itemsPerPage
  }

  /** Index `i` (0-based) falls on page `currentPage`. */
  predicate OnPage(i: int, currentPage: int, itemsPerPage: nat) {
    (currentPage - 1) * itemsPerPage <= i < currentPage * itemsPerPage
  }

  /** The indices of `total` items that fall on page `currentPage`. */
  function PageSlots(total: nat, currentPage: int, itemsPerPage: nat): set<int> {
    set i | 0 <= i < total && OnPage(i, currentPage, itemsPerPage)
  }

  /** The length of `items.slice((page - 1) * perPage, page * perPage)`: the
      number of item indices on the page, none on a page past the last. */
  function ItemsOnPage(total: nat, currentPage: int, itemsPerPage: nat): (n: nat)
    requires currentPage >= 1
    ensures n <= itemsPerPage
    ensures n == |PageSlots(total, currentPage, itemsPerPage)|
    ensures (currentPage - 1) * itemsPerPage >= total ==> n == 0
  {
    var from := (currentPage - 1) * itemsPerPage;
    var to := if total - from < itemsPerPage then total else from + itemsPerPage;
    if from >= total then
      assert PageSlots(total, currentPage, itemsPerPage) == {};
      0
    else
      assert currentPage * itemsPerPage == from + itemsPerPage;
      assert PageSlots(total, currentPage, itemsPerPage) == IndexRange(from, to);
      IndexRangeSize(from, to);
      to - from
  }

  /** The integers from `lo` up to but not including `hi`. */
  function IndexRange(lo: int, hi: int): set<int> {
    set i | 0 <= i - lo < hi - lo && InRange(i, lo, hi)
  }

  predicate InRange(i: int, lo: int, hi: int) {
    lo <= i < hi
  }

  lemma {:induction false} IndexRangeSize(lo: int, hi: int)
    requires lo <= hi
    ensures |IndexRange(lo, hi)| == hi - lo
    decreases hi - lo
  {
    if lo < hi {
      IndexRangeSize(lo, hi - 1);
      assert IndexRange(lo, hi) == IndexRange(lo, hi - 1) + {hi - 1};
    } else {
      assert IndexRange(lo, hi) == {};
    }
  }

  lemma PageArithmetic(total: nat, currentPage: int, itemsPerPage: nat)
    requires itemsPerPage >= 1 && 1 <= currentPage <= TotalPages(total, itemsPerPage)
    ensures (currentPage - 1) * itemsPerPage < total
    ensures currentPage * itemsPerPage == (currentPage - 1) * itemsPerPage + itemsPerPage
  {
    var p := TotalPages(total, itemsPerPage);
    assert (currentPage - 1) * itemsPerPage <= (p - 1) * itemsPerPage by {
      assert (p - 1) * itemsPerPage - (currentPage - 1) * itemsPerPage == (p - currentPage) * itemsPerPage;
    }
  }

  /** On a page that exists, the bar names exactly the 1-based positions of
      the items on that page: it starts after the earlier pages' items and
      ends at the page's last item or the last item overall. */
  lemma RangeNamesPage(total: nat, currentPage: int, itemsPerPage: nat)
    requires itemsPerPage >= 1 && 1 <= currentPage <= TotalPages(total, itemsPerPage)
    ensures var s := StartItem(currentPage, itemsPerPage);
            var e := EndItem(s, ItemsOnPage(total, currentPage, itemsPerPage));
            1 <= s <= e <= total
            && e == if currentPage * itemsPerPage < total then currentPage * itemsPerPage else total
  {
    PageArithmetic(total, currentPage, itemsPerPage);
  }

  /** On the last page the range ends at the last item. */
  lemma LastPageEndsAtTotal(total: nat, itemsPerPage: nat)
    requires itemsPerPage >= 1 && total >= 1
    ensures var p := TotalPages(total, itemsPerPage);
            p >= 1 && EndItem(StartItem(p, itemsPerPage), ItemsOnPage(total, p, itemsPerPage)) == total
  {
    var p := TotalPages(total, itemsPerPage);
    RangeNamesPage(total, p, itemsPerPage);
  }

  // ---------------------------------------------------------------------------
  // Navigation buttons

  /** A button: the page it asks for and whether it is disabled. */
  datatype Button = Button(target: int, disabled: bool)

  datatype NavButtons = NavButtons(first: Button, previous: Button, next: Button, last: Button)

  function Navigation(currentPage: int, totalPages: int): (b: NavButtons)
    ensures b.first.disabled <==> currentPage == 1
    ensures b.previous.disabled <==> currentPage == 1
    ensures b.next.disabled <==> currentPage == totalPages
    ensures b.last.disabled <==> currentPage == totalPages
    ensures b.first.target == 1 && b.last.target == totalPages
    ensures b.previous.target == currentPage - 1 && b.next.target == currentPage + 1
    ensures 1 <= currentPage <= totalPages ==>
              forall x :: x in [b.first, b.previous, b.next, b.last] && Enabled(x) ==> 1 <= x.target <= totalPages
  {
    NavButtons(
      Button(1, currentPage == 1),
      Button(currentPage - 1, currentPage == 1),
      Button(currentPage + 1, currentPage == totalPages),
      Button(totalPages, currentPage == totalPages))
  }

  predicate Enabled(b: Button) {
    !b.disabled
  }

  /** With a single page every button is disabled. */
  lemma SinglePageDisablesAll(currentPage: int)
    requires currentPage == 1
    ensures var b := Navigation(currentPage, 1);
            b.first.disabled && b.previous.disabled && b.next.disabled && b.last.disabled
  {
  }

  /** The buttons do not clamp: outside the page range an enabled button may
      ask for a page that does not exist. */
  lemma NoClamping()
    ensures Navigation(0, 3).previous == Button(-1, false)
    ensures Navigation(5, 3).next == Button(6, false)
  {
  }

  // ---------------------------------------------------------------------------
  // Rows per page

  /** The text of an `<option>`'s value attribute. */
  function OptionText(option: nat): (t: string)
    ensures AllDigits(t) && t != []
  {
    Decimal(option)
  }

  /** `Number(e.target.value)` for the decimal text of an option. */
  function SelectedItemsPerPage(value: string): (n: nat)
    requires AllDigits(value)
  {
    ParseDecimal(value)
  }

  /** Choosing an option passes on exactly that option's number. */
  lemma SelectionRoundTrip(i: int)
    requires 0 <= i < |ItemsPerPageOptions|
    ensures SelectedItemsPerPage(OptionText(ItemsPerPageOptions[i])) == ItemsPerPageOptions[i]
  {
    ParseDecimalOfDecimal(ItemsPerPageOptions[i]);
  }

  /** The options are distinct and increasing, so each text names one choice. */
  lemma OptionsIncreasing()
    ensures forall i, j :: 0 <= i < j < |ItemsPerPageOptions| ==> ItemsPerPageOptions[i] < ItemsPerPageOptions[j]
    ensures forall i :: 0 <= i < |ItemsPerPageOptions| ==> ItemsPerPageOptions[i] >= 1
  {
  }
}
