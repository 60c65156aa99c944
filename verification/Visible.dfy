/** The part of a long list that shows in its scroll area. The accessibility tree may hold ten
    thousand rows, and each frame read is a call into another process, so the slice is found by
    a binary search. It is proved equal to reading every frame and keeping the rows that
    `Visibility` calls neither above nor below, and the reads are counted. */
module Visible {
  import opened Basics

  /** A standardised rectangle: edges in screen points, y growing downwards. */
  datatype Frame = Frame(left: real, top: real, right: real, bottom: real) {
    predicate NonEmpty() {
      left < right && top < bottom
    }
  }

  datatype Sight = Shown | Above | Below | Beside

  datatype Range = Range(low: nat, end: nat)

  // ----- One frame -----

  function Visibility(frame: Option<Frame>, visible: Frame): (r: Sight) {
    if frame.None? || !frame.value.NonEmpty() || !visible.NonEmpty() then Shown
    else if frame.value.bottom <= visible.top + 1.0 then Above
    else if frame.value.top >= visible.bottom - 1.0 then Below
    else if frame.value.right <= visible.left + 1.0 || frame.value.left >= visible.right - 1.0 then Beside
    else Shown
  }

  predicate Inside(f: Frame, x: real, y: real) {
    f.left <= x <= f.right && f.top <= y <= f.bottom
  }

  /** What each answer says of the points of a frame: all of them end at the top edge, give or take a
      point, or all begin at the bottom one, or all are to one side, or there are some past each edge. */
  lemma SightIs(frame: Frame, visible: Frame)
    requires frame.NonEmpty() && visible.NonEmpty()
    ensures var sight := Visibility(Some(frame), visible);
            var above := forall x: real, y: real :: Inside(frame, x, y) ==> y <= visible.top + 1.0;
            var below := forall x: real, y: real :: Inside(frame, x, y) ==> y >= visible.bottom - 1.0;
            var left := forall x: real, y: real :: Inside(frame, x, y) ==> x <= visible.left + 1.0;
            var right := forall x: real, y: real :: Inside(frame, x, y) ==> x >= visible.right - 1.0;
            && (sight == Above <==> above) && (sight == Below <==> below && !above)
            && (sight == Beside <==> (left || right) && !above && !below)
            && (sight == Shown <==> !above && !below && !left && !right)
  {
    assert Inside(frame, frame.left, frame.top) && Inside(frame, frame.right, frame.bottom);
  }

  /** Without a frame, or with an empty one, an element is never clipped. */
  lemma NothingToClip(frame: Option<Frame>, visible: Frame)
    requires frame.None? || frame.value.left >= frame.value.right || frame.value.top >= frame.value.bottom
             || visible.left >= visible.right || visible.top >= visible.bottom
    ensures Visibility(frame, visible) == Shown
  {
  }

  /** The two edge tests the search makes, which look at one edge each. */
  predicate EndsAbove(frame: Frame, visible: Frame) {
    frame.bottom <= visible.top + 1.0
  }

  predicate StartsBelow(frame: Frame, visible: Frame) {
    frame.top >= visible.bottom - 1.0
  }

  // ----- The linear scan -----

  /** The rows from `i` on, by index, that the given test keeps. */
  function Rows(rows: seq<Option<Frame>>, keep: Option<Frame> -> bool, i: nat): (r: seq<nat>)
    requires i <= |rows|
    decreases |rows| - i
  {
    if i == |rows| then []
    else (if keep(rows[i]) then [i] else []) + Rows(rows, keep, i + 1)
  }

  function Within(rows: seq<Option<Frame>>, visible: Frame): (r: seq<nat>) {
    Rows(rows, (f: Option<Frame>) => !Visibility(f, visible).Above? && !Visibility(f, visible).Below?, 0)
  }

  function CountOf(rows: seq<Option<Frame>>, visible: Frame, sight: Sight): (r: nat) {
    |Rows(rows, (f: Option<Frame>) => Visibility(f, visible) == sight, 0)|
  }

  /** The indices of a half-open range, in order. */
  function Indices(low: nat, end: nat): (r: seq<nat>)
    requires low <= end
    ensures |r| == end - low
    ensures forall k :: 0 <= k < |r| ==> r[k] == low + k
    decreases end - low
  {
    if low == end then [] else [low] + Indices(low + 1, end)
  }

  /** A scan whose test holds exactly on [low, end) returns that range. */
  lemma {:induction false} RowsOfInterval(rows: seq<Option<Frame>>, keep: Option<Frame> -> bool, low: nat, end: nat,
                                          i: nat)
    requires i <= |rows| && low <= end <= |rows|
    requires forall k :: 0 <= k < |rows| ==> (keep(rows[k]) <==> low <= k < end)
    ensures Rows(rows, keep, i) == if i <= low then Indices(low, end) else if i <= end then Indices(i, end) else []
    decreases |rows| - i
  {
    hide Rows; hide Indices;
    RowsStep(rows, keep, i);
    IndicesStep(end, end);
    if i < |rows| {
      RowsOfInterval(rows, keep, low, end, i + 1);
      if low <= end { IndicesStep(low, end); }
      if i <= end { IndicesStep(i, end); }
    }
  }

  lemma RowsStep(rows: seq<Option<Frame>>, keep: Option<Frame> -> bool, i: nat)
    requires i <= |rows|
    ensures i == |rows| ==> Rows(rows, keep, i) == []
    ensures i < |rows| && !keep(rows[i]) ==> Rows(rows, keep, i) == Rows(rows, keep, i + 1)
    ensures i < |rows| && keep(rows[i]) ==> Rows(rows, keep, i) == [i] + Rows(rows, keep, i + 1)
  {
  }

  lemma IndicesStep(low: nat, end: nat)
    requires low <= end
    ensures low == end ==> Indices(low, end) == []
    ensures low < end ==> Indices(low, end) == [low] + Indices(low + 1, end)
  {
  }

  // ----- Top-to-bottom lists -----

  ghost predicate Readable(rows: seq<Option<Frame>>)
  {
    forall i :: 0 <= i < |rows| ==> rows[i].Some? && rows[i].value.NonEmpty()
  }

  /** Neither edge of a row ever lies above the same edge of an earlier row. */
  ghost predicate TopToBottom(rows: seq<Option<Frame>>)
    requires Readable(rows)
  {
    forall i, j :: 0 <= i < j < |rows| ==>
      rows[i].value.top <= rows[j].value.top && rows[i].value.bottom <= rows[j].value.bottom
  }

  /** What the search promises of any list, sorted or not: `low` is a place where the rows stop
      ending above the area, and the slice runs from there to the first obstacle. */
  ghost predicate Searched(rows: seq<Option<Frame>>, visible: Frame, limit: int, r: Range)
  {
    && r.low <= r.end <= |rows|
    && (r.low > 0 ==> rows[r.low - 1].Some? && EndsAbove(rows[r.low - 1].value, visible))
    && (r.low < |rows| ==> rows[r.low].Some? && !EndsAbove(rows[r.low].value, visible))
    && (forall i :: r.low <= i < r.end ==> rows[i].Some? && !StartsBelow(rows[i].value, visible))
    && (r.end == r.low || r.end - r.low <= limit)
    && (r.end == |rows| || r.end - r.low >= limit || rows[r.end].None? || StartsBelow(rows[r.end].value, visible))
  }

  /** The slice is the linear scan cut at the limit, its low end is the number of rows above, and
      what follows it is the rows below together with the visible ones the limit cut off. */
  ghost predicate IsScan(rows: seq<Option<Frame>>, visible: Frame, limit: int, r: Range) {
    var all := Within(rows, visible);
    && r.low <= r.end <= |rows|
    && Indices(r.low, r.end) == all[..Cut(|all|, limit)]
    && r.low == CountOf(rows, visible, Above)
    && |rows| - r.end == CountOf(rows, visible, Below) + |all| - Cut(|all|, limit)
  }

  function Cut(size: nat, limit: int): (r: nat) {
    if limit < 0 then 0 else if limit < size then limit else size
  }

  lemma SearchIsScan(rows: seq<Option<Frame>>, visible: Frame, limit: int, r: Range)
    requires Readable(rows) && TopToBottom(rows) && visible.NonEmpty()
    requires Searched(rows, visible, limit, r)
    ensures IsScan(rows, visible, limit, r)
  {
    hide Visibility; hide TopToBottom; hide EndsAbove; hide StartsBelow; hide Within; hide CountOf; hide Indices;
    hide Cut;
    var stop := FirstBelow(rows, visible, r.low);
    ScanIsInterval(rows, visible, r.low, stop);
    EndIsCut(rows, visible, limit, r, stop);
    IndicesTake(r.low, stop, r.end);
  }

  lemma EndIsCut(rows: seq<Option<Frame>>, visible: Frame, limit: int, r: Range, stop: nat)
    requires Readable(rows) && Searched(rows, visible, limit, r) && r.low <= stop <= |rows|
    requires forall i :: r.low <= i < stop ==> !StartsBelow(rows[i].value, visible)
    requires stop < |rows| ==> StartsBelow(rows[stop].value, visible)
    ensures r.end <= stop && r.end - r.low == Cut(stop - r.low, limit)
  {
    hide EndsAbove; hide StartsBelow;
  }

  lemma IndicesTake(low: nat, stop: nat, end: nat)
    requires low <= end <= stop
    ensures Indices(low, stop)[..end - low] == Indices(low, end)
  {
  }

  /** The three sights of a top-to-bottom list are three intervals. */
  lemma ScanIsInterval(rows: seq<Option<Frame>>, visible: Frame, low: nat, stop: nat)
    requires Readable(rows) && TopToBottom(rows) && visible.NonEmpty()
    requires low <= stop <= |rows|
    requires low > 0 ==> EndsAbove(rows[low - 1].value, visible)
    requires low < |rows| ==> !EndsAbove(rows[low].value, visible)
    requires forall i :: low <= i < stop ==> !StartsBelow(rows[i].value, visible)
    requires stop < |rows| ==> StartsBelow(rows[stop].value, visible)
    ensures CountOf(rows, visible, Above) == low
    ensures Within(rows, visible) == Indices(low, stop)
    ensures CountOf(rows, visible, Below) == |rows| - stop
  {
    forall k | 0 <= k < |rows|
      ensures Visibility(rows[k], visible).Above? <==> k < low
      ensures Visibility(rows[k], visible).Below? <==> stop <= k
    {
      EdgesSplit(rows, visible, low, stop, k);
    }
    hide Visibility; hide TopToBottom; hide Readable; hide EndsAbove; hide StartsBelow; hide Rows;
    RowsOfInterval(rows, (f: Option<Frame>) => Visibility(f, visible) == Above, 0, low, 0);
    RowsOfInterval(rows, (f: Option<Frame>) => Visibility(f, visible) == Below, stop, |rows|, 0);
    RowsOfInterval(rows, (f: Option<Frame>) => !Visibility(f, visible).Above? && !Visibility(f, visible).Below?,
                   low, stop, 0);
  }

  /** The first row at or after `from` that starts below the area. */
  ghost function FirstBelow(rows: seq<Option<Frame>>, visible: Frame, from: nat): (r: nat)
    requires Readable(rows) && from <= |rows|
    ensures from <= r <= |rows|
    ensures forall i :: from <= i < r ==> !StartsBelow(rows[i].value, visible)
    ensures r < |rows| ==> StartsBelow(rows[r].value, visible)
    decreases |rows| - from
  {
    if from == |rows| || StartsBelow(rows[from].value, visible) then from
    else FirstBelow(rows, visible, from + 1)
  }

  lemma EdgesSplit(rows: seq<Option<Frame>>, visible: Frame, low: nat, stop: nat, k: nat)
    requires Readable(rows) && TopToBottom(rows) && visible.NonEmpty()
    requires low <= stop <= |rows| && k < |rows|
    requires low > 0 ==> EndsAbove(rows[low - 1].value, visible)
    requires low < |rows| ==> !EndsAbove(rows[low].value, visible)
    requires forall i :: low <= i < stop ==> !StartsBelow(rows[i].value, visible)
    requires stop < |rows| ==> StartsBelow(rows[stop].value, visible)
    ensures Visibility(rows[k], visible).Above? <==> k < low
    ensures Visibility(rows[k], visible).Below? <==> stop <= k
  {
    if k < low {
      assert rows[k].value.bottom <= rows[low - 1].value.bottom;
    } else {
      assert rows[low].value.bottom <= rows[k].value.bottom;
      if stop <= k {
        assert rows[stop].value.top <= rows[k].value.top;
      }
    }
  }

  // ----- The number of reads -----

  /** The number of binary digits of n. */
  function Bits(n: nat): (r: nat) {
    if n == 0 then 0 else 1 + Bits(n / 2)
  }

  function Power(k: nat): (r: nat) {
    if k == 0 then 1 else 2 * Power(k - 1)
  }

  lemma {:induction false} BitsGrow(m: nat, n: nat)
    requires m <= n
    ensures Bits(m) <= Bits(n)
  {
    if m > 0 { BitsGrow(m / 2, n / 2); }
  }

  lemma Unreadable(rows: seq<Option<Frame>>, i: nat)
    requires i < |rows| && rows[i].None?
    ensures !Readable(rows)
  {
  }

  /** Either half of a range takes one digit less. */
  lemma Halved(low: nat, high: nat)
    requires low < high
    ensures var middle := (low + high) / 2;
            1 + Bits(middle - low) <= Bits(high - low) && 1 + Bits(high - middle - 1) <= Bits(high - low)
  {
    var half := (high - low) / 2;
    assert (low + high) / 2 - low == half;
    BitsGrow(high - (low + high) / 2 - 1, half);
  }

  /** Bits is the logarithm: k digits are enough exactly for the numbers below two to the k. */
  lemma {:induction false} BitsIsLogarithm(n: nat, k: nat)
    ensures Bits(n) <= k <==> n < Power(k)
  {
    if k == 0 {
    } else if n == 0 {
      BitsIsLogarithm(0, k - 1);
    } else {
      BitsIsLogarithm(n / 2, k - 1);
    }
  }

  // ----- The search -----

  /** The binary search and the walk from its end. It gives up only on a frame it could not read
      while searching; an unreadable one met while walking just ends the slice. */
  method VisibleRange(rows: seq<Option<Frame>>, visible: Frame, limit: int) returns (range: Option<Range>, probes: nat)
    ensures range.None? ==> exists i :: 0 <= i < |rows| && rows[i].None?
    ensures range.Some? ==> Searched(rows, visible, limit, range.value)
    ensures Readable(rows) && TopToBottom(rows) && visible.NonEmpty() ==>
              range.Some? && IsScan(rows, visible, limit, range.value)
    ensures probes <= Bits(|rows|) + if limit < 0 then 0 else limit
  {
    hide IsScan; hide TopToBottom; hide EndsAbove; hide StartsBelow; hide Bits; hide Readable;
    probes := 0;
    if |rows| == 0 {
      range := Some(Range(0, 0));
      if Readable(rows) && TopToBottom(rows) && visible.NonEmpty() { SearchIsScan(rows, visible, limit, Range(0, 0)); }
      return;
    }
    var low, high := 0, |rows|;
    while low < high
      invariant 0 <= low <= high <= |rows|
      invariant low > 0 ==> rows[low - 1].Some? && EndsAbove(rows[low - 1].value, visible)
      invariant high < |rows| ==> rows[high].Some? && !EndsAbove(rows[high].value, visible)
      invariant probes + Bits(high - low) <= Bits(|rows|)
    {
      var middle := (low + high) / 2;
      Halved(low, high);
      probes := probes + 1;
      if rows[middle].None? {
        Unreadable(rows, middle);
        range := None;
        return;
      }
      if EndsAbove(rows[middle].value, visible) { low := middle + 1; } else { high := middle; }
    }
    ghost var searchProbes := probes;
    var end := low;
    while end < |rows| && end - low < limit
      invariant low <= end <= |rows|
      invariant end == low || end - low <= limit
      invariant forall i :: low <= i < end ==> rows[i].Some? && !StartsBelow(rows[i].value, visible)
      invariant probes == searchProbes + (end - low)
    {
      probes := probes + 1;
      if rows[end].None? || StartsBelow(rows[end].value, visible) { break; }
      end := end + 1;
    }
    range := Some(Range(low, end));
    if Readable(rows) && TopToBottom(rows) && visible.NonEmpty() {
      SearchIsScan(rows, visible, limit, range.value);
    }
  }
}
