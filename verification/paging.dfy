/** Client-side pagination shared by every list page: a fixed page size of
    10, `Math.ceil(n / 10)` pages, `Array.prototype.slice` for the visible
    rows, and the two ways the pages move between pages (guarded by an
    `if`, or clamped with `Math.max` / `Math.min`). */
module Paging {
  import Listing

  const PageSize: nat := 10

  function Min(a: int, b: int): int {
    if a <= b then a else b
  }

  function Max(a: int, b: int): int {
    if a >= b then a else b
  }

  /** `Math.ceil(n / PageSize)`: the fewest pages that hold `n` rows. */
  function TotalPages(n: nat): (t: nat)
    ensures t * PageSize >= n
    ensures t > 0 ==> (t - 1) * PageSize < n
    ensures t == 0 <==> n == 0
  {
    (n + PageSize - 1) / PageSize
  }

  /** How `slice` turns a possibly negative index into a position. */
  function Clip(i: int, len: nat): (r: nat)
    ensures r <= len
    ensures 0 <= i <= len ==> r == i
  {
    if i < 0 then Max(len + i, 0) else Min(i, len)
  }

  /** `xs.slice(start, end)`. */
  function JsSlice<T(!new)>(xs: seq<T>, start: int, end: int): (r: seq<T>)
    ensures |r| <= |xs|
    ensures forall x :: x in r ==> x in xs
  {
    var s := Clip(start, |xs|);
    var e := Clip(end, |xs|);
    if s < e then
      assert forall x :: x in xs[s..e] ==> x in xs by {
        forall x | x in xs[s..e]
          ensures x in xs
        {
          var k :| 0 <= k < e - s && xs[s..e][k] == x;
          assert xs[s + k] == x;
        }
      }
      xs[s..e]
    else []
  }

  /** The rows shown on page `page`: `xs.slice((page - 1) * 10, page * 10)`. */
  function Visible<T(!new)>(xs: seq<T>, page: int): (r: seq<T>)
    ensures |r| <= PageSize
    ensures forall x :: x in r ==> x in xs
    ensures page >= 1 ==>
      r == xs[Min((page - 1) * PageSize, |xs|)..Min(page * PageSize, |xs|)]
    ensures page == 0 ==> r == []
  {
    JsSlice(xs, (page - 1) * PageSize, page * PageSize)
  }

  /** Mapping rows and then taking a page gives the same rows as taking the
      page and then mapping them. */
  lemma VisibleMap<T(!new), U(!new)>(xs: seq<T>, f: T -> U, page: int)
    ensures Visible(Listing.Map(xs, f), page) == Listing.Map(Visible(xs, page), f)
  {
    var ys := Listing.Map(xs, f);
    var s, e := Clip((page - 1) * PageSize, |xs|), Clip(page * PageSize, |xs|);
    if s < e {
      assert ys[s..e] == Listing.Map(xs[s..e], f);
    }
  }

  /** Pages 1..TotalPages are never empty and pages past the last one are. */
  lemma VisibleNonEmptyInRange<T(!new)>(xs: seq<T>, page: int)
    requires page >= 1
    ensures |Visible(xs, page)| > 0 <==> page <= TotalPages(|xs|)
  {
    var t := TotalPages(|xs|);
    if page <= t {
      assert (page - 1) * PageSize <= (t - 1) * PageSize;
    } else {
      assert (page - 1) * PageSize >= t * PageSize;
    }
  }

  /** Every row is shown, at position `i % 10` of page `i / 10 + 1`. */
  lemma RowOnItsPage<T(!new)>(xs: seq<T>, i: int)
    requires 0 <= i < |xs|
    ensures 1 <= i / PageSize + 1 <= TotalPages(|xs|)
    ensures i % PageSize < |Visible(xs, i / PageSize + 1)|
    ensures Visible(xs, i / PageSize + 1)[i % PageSize] == xs[i]
  {
    var p := i / PageSize + 1;
    var t := TotalPages(|xs|);
    assert (p - 1) * PageSize + i % PageSize == i;
  }

  /** A page index the pager shows sensibly: between 1 and the last page,
      or 1 when there are no pages. */
  predicate InRange(page: int, total: nat) {
    1 <= page <= Max(1, total)
  }

  /** Previous, when guarded by `if (currentPage > 1)`. */
  function StepBack(page: int): (r: int)
    ensures page >= 1 ==> r >= 1
    ensures page > 1 ==> r == page - 1
    ensures page <= 1 ==> r == page
    ensures r <= page
    ensures forall total: nat :: InRange(page, total) ==> InRange(r, total)
  {
    if page > 1 then page - 1 else page
  }

  /** Next, when guarded by `if (currentPage < totalPages)`. */
  function StepForward(page: int, total: nat): (r: int)
    ensures r >= page
    ensures page < total ==> r == page + 1
    ensures page >= total ==> r == page
    ensures InRange(page, total) ==> InRange(r, total)
  {
    if page < total then page + 1 else page
  }

  /** Previous, when written `Math.max(prev - 1, 1)`. */
  function ClampBack(page: int): (r: int)
    ensures r >= 1
    ensures page > 1 ==> r == page - 1
    ensures page <= 1 ==> r == 1
  {
    Max(page - 1, 1)
  }

  /** Next, when written `Math.min(prev + 1, totalPages)`. */
  function ClampForward(page: int, total: nat): (r: int)
    ensures r <= total
    ensures page < total ==> r == page + 1
    ensures page >= total ==> r == total
  {
    Min(page + 1, total)
  }

  /** The Previous button is disabled on page 1. */
  predicate BackEnabled(page: int) {
    page != 1
  }

  /** The Next button is disabled on the last page and when there are no pages. */
  predicate ForwardEnabled(page: int, total: nat) {
    !(page == total || total == 0)
  }

  /** On an in-range page the clamped and the guarded buttons agree; in
      particular clamped Next never yields page 0 while it is enabled. */
  lemma ClampedAgreesWithGuarded(page: int, total: nat)
    requires InRange(page, total)
    ensures ClampBack(page) == StepBack(page)
    ensures ForwardEnabled(page, total) ==> ClampForward(page, total) == StepForward(page, total)
    ensures ForwardEnabled(page, total) ==> InRange(ClampForward(page, total), total)
  {
  }

  /** With no rows, clamped Next would set page 0, which is why the button
      is disabled then. */
  lemma ClampForwardWithoutPages(page: int)
    requires page >= 0
    ensures ClampForward(page, 0) == 0
    ensures !ForwardEnabled(page, 0)
  {
  }

  /** Search state of a list page: the chosen field, the text and the page. */
  datatype View<K> = View(field: K, text: string, page: int)

  /** The first render: page 1, empty text. */
  function Initial<K>(field: K): (v: View<K>)
    ensures v.page == 1 && v.text == ""
  {
    View(field, "", 1)
  }

  /** Typing in the search box: the text changes and the page resets to 1. */
  function WithText<K>(v: View<K>, text: string): (r: View<K>)
    ensures r.text == text && r.field == v.field
    ensures r.page == 1
  {
    View(v.field, text, 1)
  }

  /** Choosing another search field; `reset` says whether the page goes
      back to 1 as well (it does only on the pages that watch the field
      in an effect). */
  function WithField<K>(v: View<K>, field: K, reset: bool): (r: View<K>)
    ensures r.field == field && r.text == v.text
    ensures r.page == if reset then 1 else v.page
  {
    View(field, v.text, if reset then 1 else v.page)
  }
}
