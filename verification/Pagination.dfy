/** The one slice behind the backends' pagination arithmetic. */
module Pagination {
  import opened Wrappers
  import opened Widths

  predicate IsU32(o: Option<nat>) { o.Some? ==> o.value <= U32_MAX }

  /** One-based page; page 0 and no page mean page 1. */
  function PageIndex(page: Option<nat>): nat {
    match page case Some(p) => (if p == 0 then 0 else p - 1) case None => 0
  }

  function Min(a: nat, b: nat): nat { if a < b then a else b }

  function SatMul(a: nat, b: nat, max: nat): nat { Min(a * b, max) }

  function SatAdd(a: nat, b: nat, max: nat): nat { Min(a + b, max) }

  /** What every backend's pagination should denote: no size is everything, otherwise one chunk. */
  function Slice<T>(xs: seq<T>, page: Option<nat>, size: Option<nat>): seq<T> {
    match size
    case None => xs
    case Some(n) =>
      var start := PageIndex(page) * n;
      if start >= |xs| then [] else xs[start..Min(start + n, |xs|)]
  }

  /**
   Without a size the page is everything. Otherwise page 0 and no page are page 1, and page `p` of `n` entries
   holds the entries `(p - 1) * n` to `p * n - 1`, as far as the list has them.
   */
  lemma {:induction false} SliceIs<T>(xs: seq<T>, page: nat, n: nat)
    requires 1 <= page
    ensures Slice(xs, Some(page), None) == Slice(xs, None, None) == xs
    ensures Slice(xs, None, Some(n)) == Slice(xs, Some(0), Some(n)) == Slice(xs, Some(1), Some(n))
    ensures var s := Slice(xs, Some(page), Some(n));
      && (page * n <= |xs| ==> |s| == n)
      && ((page - 1) * n <= |xs| < page * n ==> |s| == |xs| - (page - 1) * n)
      && (|xs| <= (page - 1) * n ==> s == [])
      && forall i | 0 <= i < |s| :: (page - 1) * n + i < |xs| && s[i] == xs[(page - 1) * n + i]
  {
    assert page * n == (page - 1) * n + n;
  }

  /** Pages `1..count`, one after the other. */
  function Pages<T>(xs: seq<T>, size: nat, count: nat): seq<T> {
    if count == 0 then [] else Pages(xs, size, count - 1) + Slice(xs, Some(count), Some(size))
  }

  /** Successive pages tile the list: nothing is lost, nothing repeated, order kept. */
  lemma {:induction false} PagesTile<T>(xs: seq<T>, size: nat, count: nat)
    ensures Pages(xs, size, count) == xs[..Min(count * size, |xs|)]
  {
    if count > 0 {
      PagesTile(xs, size, count - 1);
      var start := (count - 1) * size;
      assert count * size == start + size;
      if start < |xs| {
        assert xs[..start] + xs[start..Min(start + size, |xs|)] == xs[..Min(start + size, |xs|)];
      }
    }
  }

  /** Enough pages give back the whole list. */
  lemma {:induction false} PagesCover<T>(xs: seq<T>, size: nat, count: nat)
    requires 0 < size && |xs| <= count
    ensures Pages(xs, size, count) == xs
  {
    PagesTile(xs, size, count);
    AtLeast(count, size);
  }

  lemma {:induction false} AtLeast(count: nat, size: nat)
    requires 0 < size
    ensures count * size >= count
  {
    if count > 0 {
      AtLeast(count - 1, size);
      assert count * size == (count - 1) * size + size;
    }
  }

  // ----- in-memory pagination of Maildir and m2dir (src/maildir/convert.rs, src/m2dir/convert.rs)

  /** `usizeMax` is the platform's limit, which no list length exceeds. */
  function Paginate<T>(items: seq<T>, page: Option<nat>, size: Option<nat>, usizeMax: nat): seq<T> {
    match size
    case None => items
    case Some(n) =>
      if n == 0 then []
      else
        var skip := SatMul(PageIndex(page), n, usizeMax);
        if skip >= |items| then [] else items[skip..][..Min(n, |items| - skip)]
  }

  lemma {:induction false} PaginateIsSlice<T>(items: seq<T>, page: Option<nat>, size: Option<nat>, usizeMax: nat)
    requires |items| <= usizeMax
    ensures Paginate(items, page, size, usizeMax) == Slice(items, page, size)
  {
  }

  // ----- UID and client-side JMAP pagination (src/envelope/imap/search.rs, src/envelope/jmap/search.rs)

  function PaginateUids<T>(uids: seq<T>, page: Option<nat>, size: Option<nat>, usizeMax: nat): seq<T> {
    var total := |uids|;
    var start := SatMul(PageIndex(page), match size case Some(n) => n case None => 0, usizeMax);
    if start >= total then []
    else
      var end := match size case Some(n) => Min(SatAdd(start, n, usizeMax), total) case None => total;
      if start <= end then uids[start..end] else assert false; []
  }

  lemma {:induction false} PaginateUidsIsSlice<T>(uids: seq<T>, page: Option<nat>, size: Option<nat>, usizeMax: nat)
    requires |uids| <= usizeMax
    ensures PaginateUids(uids, page, size, usizeMax) == Slice(uids, page, size)
  {
  }

  // ----- JMAP position and limit (src/jmap/convert.rs)

  function ComputePositionLimit(page: Option<nat>, size: Option<nat>): (Option<nat>, Option<nat>) {
    match size
    case None => (None, None)
    case Some(n) => (Some(SatMul(PageIndex(page), n, U64_MAX)), Some(n))
  }

  /** What the server returns of its result list (section 5.5 of RFC 8620). */
  function Window<T>(xs: seq<T>, position: Option<nat>, limit: Option<nat>): seq<T> {
    var from := Min(match position case Some(p) => p case None => 0, |xs|);
    var rest := xs[from..];
    match limit case Some(n) => rest[..Min(n, |rest|)] case None => rest
  }

  lemma {:induction false} PositionLimitIsSlice<T>(xs: seq<T>, page: Option<nat>, size: Option<nat>)
    requires IsU32(page) && IsU32(size)
    ensures Window(xs, ComputePositionLimit(page, size).0, ComputePositionLimit(page, size).1)
         == Slice(xs, page, size)
  {
    if size.Some? {
      ProductFitsU64(PageIndex(page), size.value);
    }
  }

  lemma {:induction false} ProductFitsU64(a: nat, b: nat)
    requires a <= U32_MAX && b <= U32_MAX
    ensures a * b <= U64_MAX
  {
    assert a * b <= U32_MAX * b <= U32_MAX * U32_MAX;
  }

  // ----- IMAP descending sequence windows (src/envelope/imap/list.rs)

  datatype SequenceWindow = AllMessages | Range(first: nat, last: nat)

  function SatSub(a: nat, b: nat): nat { if a < b then 0 else a - b }

  function ComputeWindow(total: nat, page: Option<nat>, size: Option<nat>): Option<SequenceWindow> {
    if total == 0 then None
    else
      match size
      case None => Some(AllMessages)
      case Some(n) =>
        if n == 0 then None
        else
          var skip := SatMul(PageIndex(page), n, U32_MAX);
          if skip >= total then None
          else
            var end := total - skip;
            var start := SatSub(end, n - 1);
            Some(Range(if start < 1 then 1 else start, end))
  }

  /** Sequence numbers from `high` down to `low`. */
  function Down(high: nat, low: nat): (s: seq<nat>)
    ensures |s| == if low <= high then high - low + 1 else 0
    ensures forall i | 0 <= i < |s| :: s[i] == high - i
  {
    if high < low then []
    else if high == 0 then [0]
    else [high] + Down(high - 1, low)
  }

  /** The messages listed for a window: the FETCH answer, reversed. */
  function Listed(total: nat, window: Option<SequenceWindow>): seq<nat> {
    match window
    case None => []
    case Some(AllMessages) => Down(total, 1)
    case Some(Range(first, last)) => Down(last, first)
  }

  lemma {:induction false} DownSlice(high: nat, start: nat, stop: nat)
    requires start < stop <= high
    ensures Down(high, 1)[start..stop] == Down(high - start, high - stop + 1)
  {
    var a, b := Down(high, 1)[start..stop], Down(high - start, high - stop + 1);
    assert |a| == |b|;
    forall i | 0 <= i < |a| ensures a[i] == b[i] {
      assert a[i] == Down(high, 1)[start + i];
    }
  }

  /** The window without saturation. */
  lemma {:induction false} WindowBounds(total: nat, page: Option<nat>, n: nat)
    requires 0 < total <= U32_MAX && 0 < n
    ensures var start := PageIndex(page) * n;
      ComputeWindow(total, page, Some(n)) ==
        if start >= total then None
        else Some(Range(total - Min(start + n, total) + 1, total - start))
  {
  }

  lemma {:induction false} RangeIsSlice(total: nat, start: nat, n: nat)
    requires start < total && 0 < n
    ensures var stop := Min(start + n, total);
      Listed(total, Some(Range(total - stop + 1, total - start))) == Down(total, 1)[start..stop]
  {
    DownSlice(total, start, Min(start + n, total));
  }

  lemma {:induction false} SizedWindowIsSlice(total: nat, page: Option<nat>, n: nat)
    requires 0 < total <= U32_MAX && 0 < n
    ensures Listed(total, ComputeWindow(total, page, Some(n))) == Slice(Down(total, 1), page, Some(n))
  {
    var start := PageIndex(page) * n;
    WindowBounds(total, page, n);
    if start < total {
      RangeIsSlice(total, start, n);
    }
  }

  /** The window lists exactly the requested page of the mailbox, newest first, despite saturation. */
  lemma {:induction false} WindowIsSlice(total: nat, page: Option<nat>, size: Option<nat>)
    requires total <= U32_MAX
    ensures Listed(total, ComputeWindow(total, page, size)) == Slice(Down(total, 1), page, size)
  {
    if size.Some? && size.value > 0 && total > 0 {
      SizedWindowIsSlice(total, page, size.value);
    } else if size.Some? {
      EmptySlice(Down(total, 1), page, size.value);
    }
  }

  lemma {:induction false} EmptySlice<T>(xs: seq<T>, page: Option<nat>, n: nat)
    requires n == 0 || xs == []
    ensures Slice(xs, page, Some(n)) == []
  {
  }

  /** Windows of successive pages are adjacent, starting at the newest message and ending at the oldest. */
  lemma {:induction false} WindowsAdjacent(total: nat, page: nat, size: nat)
    requires 0 < total <= U32_MAX && 0 < size && 0 < page
    ensures var here := ComputeWindow(total, Some(page), Some(size));
      var next := ComputeWindow(total, Some(page + 1), Some(size));
      && (page == 1 ==> here.Some? && here.value.last == total)
      && (here.Some? ==> 1 <= here.value.first <= here.value.last <= total)
      && (here.Some? && here.value.first > 1 ==> next.Some? && next.value.last == here.value.first - 1)
      && (here.Some? && here.value.first == 1 ==> next.None?)
      && (here.None? ==> next.None?)
  {
    var skip := (page - 1) * size;
    assert page * size == skip + size;
    if page == 1 {
      assert skip == 0;
    }
  }
}
