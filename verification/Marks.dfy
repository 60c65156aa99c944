/** Where to draw id tags: elements that act, where they show inside the window and inside every scroll
    area around them. Coordinates are exact reals. */
module Marks {
  import opened Basics
  import opened Outline

  datatype Rect = Null | Rect(minX: real, minY: real, maxX: real, maxY: real)

  predicate Proper(r: Rect) {
    r.Rect? ==> r.minX <= r.maxX && r.minY <= r.maxY
  }

  /** The point lies in the rectangle or on its edge. */
  predicate Holds(r: Rect, x: real, y: real) {
    r.Rect? && r.minX <= x <= r.maxX && r.minY <= y <= r.maxY
  }

  function Max(a: real, b: real): real {
    if a < b then b else a
  }

  function Min(a: real, b: real): real {
    if a < b then a else b
  }

  function Intersection(a: Rect, b: Rect): (r: Rect)
    ensures Proper(r)
    ensures Proper(a) && Proper(b) ==> forall x: real, y: real :: Holds(r, x, y) <==> Holds(a, x, y) && Holds(b, x, y)
  {
    if a.Null? || b.Null? then Null
    else
      var r := Rect(Max(a.minX, b.minX), Max(a.minY, b.minY), Min(a.maxX, b.maxX), Min(a.maxY, b.maxY));
      if r.minX <= r.maxX && r.minY <= r.maxY then r else Null
  }

  /** An outline element as far as tags go; `acts` says whether its role or actions make it worth one. */
  datatype Element = Element(id: int, depth: int, scrollArea: bool, window: bool, acts: bool, frame: Option<Rect>)

  datatype Mark = Mark(id: int, rect: Rect)

  const LIMIT := 300

  predicate ProperElement(e: Element) {
    e.frame.Some? ==> e.frame.value.Rect? && Proper(e.frame.value)
  }

  predicate ProperElements(nodes: seq<Element>) {
    forall i :: 0 <= i < |nodes| ==> ProperElement(nodes[i])
  }

  function DepthsOf(nodes: seq<Element>): seq<int> {
    seq(|nodes|, i requires 0 <= i < |nodes| => nodes[i].depth)
  }

  /** What the scroll areas among the first `n` elements leave of the window for element `i`. */
  function ClipBy(nodes: seq<Element>, window: Rect, i: nat, n: nat): Rect
    requires n <= |nodes|
  {
    if n == 0 then window
    else
      var clip := ClipBy(nodes, window, i, n - 1);
      if Below(DepthsOf(nodes), n - 1, i) then Narrowed(nodes[n - 1], clip) else clip
  }

  /** A scroll area narrows what it is shown in; anything else leaves it. */
  function Narrowed(e: Element, clip: Rect): Rect {
    if e.scrollArea && e.frame.Some? then Intersection(clip, e.frame.value) else clip
  }

  function Clip(nodes: seq<Element>, window: Rect, i: nat): Rect
    requires i <= |nodes|
  {
    ClipBy(nodes, window, i, i)
  }

  /** The tag of an element that shows `clip` of the window, if it gets one. */
  function MarkOf(e: Element, clip: Rect, window: Rect, scale: real): Option<Mark>
    requires window.Rect?
  {
    if e.frame.None? || e.frame.value.Null? then None
    else
      var f := e.frame.value;
      var shown := Intersection(f, clip);
      var windowArea := (window.maxX - window.minX) * (window.maxY - window.minY);
      if f.maxX - f.minX < 6.0 || f.maxY - f.minY < 6.0 then None
      else if shown.Null? || shown.maxX - shown.minX < 4.0 || shown.maxY - shown.minY < 4.0 then None
      else if !e.acts || e.window || (f.maxX - f.minX) * (f.maxY - f.minY) >= windowArea * 0.4 then None
      else
        Some(Mark(e.id, Rect((shown.minX - window.minX) * scale, (shown.minY - window.minY) * scale,
                             (shown.maxX - window.minX) * scale, (shown.maxY - window.minY) * scale)))
  }

  /** All tags of the elements from `i` on. */
  function MarksFrom(nodes: seq<Element>, window: Rect, scale: real, i: nat): seq<Mark>
    requires window.Rect? && i <= |nodes|
    decreases |nodes| - i
  {
    if i == |nodes| then []
    else
      var m := MarkOf(nodes[i], Clip(nodes, window, i), window, scale);
      (if m.Some? then [m.value] else []) + MarksFrom(nodes, window, scale, i + 1)
  }

  function Upto(marks: seq<Mark>, n: nat): seq<Mark> {
    if |marks| <= n then marks else marks[..n]
  }

  // ----- The clip is the window and exactly the scroll areas around -----

  /** Element `a` is a scroll area around element `i`. */
  predicate Around(nodes: seq<Element>, a: nat, i: nat) {
    a < |nodes| && Below(DepthsOf(nodes), a, i) && nodes[a].scrollArea && nodes[a].frame.Some?
  }

  lemma {:induction false} ClipByIs(nodes: seq<Element>, window: Rect, i: nat, n: nat)
    requires ProperElements(nodes) && Proper(window) && n <= |nodes|
    ensures Proper(ClipBy(nodes, window, i, n))
    ensures forall x: real, y: real :: Holds(ClipBy(nodes, window, i, n), x, y) <==>
              && Holds(window, x, y)
              && forall a: nat :: a < n && Around(nodes, a, i) ==> Holds(nodes[a].frame.value, x, y)
  {
    hide Below; hide Holds; hide Intersection;
    if n > 0 {
      ClipByIs(nodes, window, i, n - 1);
      assert ProperElement(nodes[n - 1]);
    }
  }

  /** A point is in an element's clip exactly when it is in the window and in every scroll area the
      element is below. */
  lemma ClipIsWindowAndScrollAreas(nodes: seq<Element>, window: Rect, i: nat, x: real, y: real)
    requires ProperElements(nodes) && Proper(window) && i < |nodes|
    ensures Holds(Clip(nodes, window, i), x, y) <==>
              && Holds(window, x, y)
              && forall a: nat :: Around(nodes, a, i) ==> Holds(nodes[a].frame.value, x, y)
  {
    ClipByIs(nodes, window, i, i);
  }

  /** Every point of a tag's rectangle, taken back to the screen, is in the element, the window and
      every scroll area around. */
  lemma MarkIsInside(nodes: seq<Element>, window: Rect, scale: real, i: nat, x: real, y: real)
    requires ProperElements(nodes) && Proper(window) && window.Rect? && i < |nodes| && scale > 0.0
    requires MarkOf(nodes[i], Clip(nodes, window, i), window, scale).Some?
    requires Holds(MarkOf(nodes[i], Clip(nodes, window, i), window, scale).value.rect, (x - window.minX) * scale,
                   (y - window.minY) * scale)
    ensures Holds(nodes[i].frame.value, x, y) && Holds(window, x, y)
    ensures forall a: nat :: Around(nodes, a, i) ==> Holds(nodes[a].frame.value, x, y)
  {
    hide MarkOf; hide Intersection; hide Clip; hide Below;
    var clip := Clip(nodes, window, i);
    var shown := MarkShows(nodes[i], clip, window, scale);
    Unscale(shown.minX, x, window.minX, scale);
    Unscale(x, shown.maxX, window.minX, scale);
    Unscale(shown.minY, y, window.minY, scale);
    Unscale(y, shown.maxY, window.minY, scale);
    assert ProperElement(nodes[i]);
    ClipProper(nodes, window, i);
    assert Holds(shown, x, y);
    Both(nodes[i].frame.value, clip, x, y);
    ClipIsWindowAndScrollAreas(nodes, window, i, x, y);
  }

  lemma Both(a: Rect, b: Rect, x: real, y: real)
    requires Proper(a) && Proper(b) && Holds(Intersection(a, b), x, y)
    ensures Holds(a, x, y) && Holds(b, x, y)
  {
  }

  lemma ClipProper(nodes: seq<Element>, window: Rect, i: nat)
    requires ProperElements(nodes) && Proper(window) && i < |nodes|
    ensures Proper(Clip(nodes, window, i))
  {
    ClipByIs(nodes, window, i, i);
  }

  /** A tag's rectangle is what shows of the element, moved and scaled. */
  lemma MarkShows(e: Element, clip: Rect, window: Rect, scale: real) returns (shown: Rect)
    requires window.Rect? && MarkOf(e, clip, window, scale).Some?
    ensures e.frame.Some? && e.frame.value.Rect? && shown == Intersection(e.frame.value, clip) && shown.Rect?
    ensures MarkOf(e, clip, window, scale).value.rect ==
            Rect((shown.minX - window.minX) * scale, (shown.minY - window.minY) * scale,
                 (shown.maxX - window.minX) * scale, (shown.maxY - window.minY) * scale)
  {
    hide Intersection;
    shown := Intersection(e.frame.value, clip);
  }

  /** The point shows: it is in the element, in the window and in every scroll area around. */
  ghost predicate InSight(nodes: seq<Element>, window: Rect, i: nat, x: real, y: real)
    requires i < |nodes| && nodes[i].frame.Some?
  {
    && Holds(nodes[i].frame.value, x, y) && Holds(window, x, y)
    && forall a: nat :: Around(nodes, a, i) ==> Holds(nodes[a].frame.value, x, y)
  }

  /** The element is of a size worth a tag: at least 6 by 6, and less than four tenths of the window. */
  predicate Sized(f: Rect, window: Rect)
    requires f.Rect? && window.Rect?
  {
    && f.minX + 6.0 <= f.maxX && f.minY + 6.0 <= f.maxY
    && (f.maxX - f.minX) * (f.maxY - f.minY) < (window.maxX - window.minX) * (window.maxY - window.minY) * 0.4
  }

  /** An element gets a tag exactly when it acts, is no window and has such a size, and two points 4 apart
      each way show of it; the tag has the element's id. */
  lemma TaggedExactly(nodes: seq<Element>, window: Rect, scale: real, i: nat)
    requires ProperElements(nodes) && Proper(window) && window.Rect? && i < |nodes|
    ensures var e, mark := nodes[i], MarkOf(nodes[i], Clip(nodes, window, i), window, scale);
            && (mark.Some? ==> mark.value.id == e.id)
            && (mark.Some? <==>
                && e.acts && !e.window && e.frame.Some? && Sized(e.frame.value, window)
                && exists x: real, y: real ::
                     InSight(nodes, window, i, x, y) && InSight(nodes, window, i, x + 4.0, y + 4.0))
  {
    hide Clip; hide Below; hide Intersection;
    var e := nodes[i];
    assert ProperElement(e);
    if e.frame.Some? {
      var f, clip := e.frame.value, Clip(nodes, window, i);
      var shown := Intersection(f, clip);
      ClipProper(nodes, window, i);
      Points(f, clip);
      forall x: real, y: real ensures InSight(nodes, window, i, x, y) <==> Holds(shown, x, y) {
        ClipIsWindowAndScrollAreas(nodes, window, i, x, y);
      }
      hide InSight;
      if shown.Rect? && shown.minX + 4.0 <= shown.maxX && shown.minY + 4.0 <= shown.maxY {
        var x, y := shown.minX, shown.minY;
        assert InSight(nodes, window, i, x, y) && InSight(nodes, window, i, x + 4.0, y + 4.0);
      }
    }
  }

  lemma Points(a: Rect, b: Rect)
    requires Proper(a) && Proper(b)
    ensures Proper(Intersection(a, b))
    ensures forall x: real, y: real :: Holds(Intersection(a, b), x, y) <==> Holds(a, x, y) && Holds(b, x, y)
  {
  }

  lemma Stretch(a: real, b: real, origin: real, scale: real)
    requires scale > 0.0 && a > b
    ensures (a - origin) * scale > (b - origin) * scale
  {
    assert (a - b) * scale > 0.0;
    assert (a - origin) * scale - (b - origin) * scale == (a - b) * scale;
  }

  lemma Unscale(a: real, b: real, origin: real, scale: real)
    requires scale > 0.0 && (a - origin) * scale <= (b - origin) * scale
    ensures a <= b
  {
    if a > b { Stretch(a, b, origin, scale); }
  }

  // ----- The loop -----

  /** What one entry of the clip stack holds for the element it was pushed for. */
  ghost predicate Entries(nodes: seq<Element>, window: Rect, path: seq<nat>, clips: seq<(int, Rect)>) {
    && |clips| == |path|
    && forall a :: 0 <= a < |path| ==>
         path[a] < |nodes| && clips[a] == (nodes[path[a]].depth, Narrowed(nodes[path[a]], Clip(nodes, window, path[a])))
  }

  /** Between an element and the next one it is below, nothing narrows. */
  lemma {:induction false} ClipSkips(nodes: seq<Element>, window: Rect, i: nat, a: nat, n: nat)
    requires a <= n <= i < |nodes| && forall k: nat :: a <= k < n ==> !Below(DepthsOf(nodes), k, i)
    ensures ClipBy(nodes, window, i, n) == ClipBy(nodes, window, i, a)
    decreases n
  {
    hide Below; hide Narrowed;
    if a < n { ClipSkips(nodes, window, i, a, n - 1); }
  }

  /** What is above the parent is above the child, and the other way round. */
  lemma {:induction false} ClipOfParent(nodes: seq<Element>, window: Rect, i: nat, p: nat, n: nat)
    requires n <= p && Below(DepthsOf(nodes), p, i)
    ensures ClipBy(nodes, window, i, n) == ClipBy(nodes, window, p, n)
  {
    hide Narrowed;
    if n > 0 {
      ClipOfParent(nodes, window, i, p, n - 1);
      var d := DepthsOf(nodes);
      if Below(d, n - 1, p) {
        forall k | n - 1 < k <= i ensures d[k] > d[n - 1] { if k > p { assert d[k] > d[p] > d[n - 1]; } }
      }
    }
  }

  lemma BelowEarlier(d: seq<int>, p: nat, i: nat)
    requires Below(d, p, i)
    ensures p < i
  {
  }

  /** The top of the stack holds the clip of the element to come. */
  lemma TopIsClip(nodes: seq<Element>, window: Rect, path: seq<nat>, clips: seq<(int, Rect)>, i: nat)
    requires i < |nodes| && IsPath(DepthsOf(nodes), path, i) && Entries(nodes, window, path, clips)
    ensures Clip(nodes, window, i) == if clips == [] then window else clips[|clips| - 1].1
  {
    hide Narrowed; hide Below; hide DepthsOf;
    var d := DepthsOf(nodes);
    if path == [] {
      ClipSkips(nodes, window, i, 0, i);
    } else {
      var p := path[|path| - 1];
      assert Below(d, p, i);
      BelowEarlier(d, p, i);
      forall k: nat | Below(d, k, i) ensures k <= p {
        var a :| 0 <= a < |path| && path[a] == k;
      }
      ClipSkips(nodes, window, i, p + 1, i);
      ClipOfParent(nodes, window, i, p, p);
    }
  }

  lemma NoEntries(nodes: seq<Element>, window: Rect)
    ensures Entries(nodes, window, [], [])
  {
  }

  lemma EntriesTop(nodes: seq<Element>, window: Rect, path: seq<nat>, clips: seq<(int, Rect)>)
    requires Entries(nodes, window, path, clips)
    ensures |clips| == |path|
    ensures clips != [] ==>
              path[|path| - 1] < |nodes| && clips[|clips| - 1].0 == DepthsOf(nodes)[path[|path| - 1]]
  {
  }

  lemma EntriesPop(nodes: seq<Element>, window: Rect, path: seq<nat>, clips: seq<(int, Rect)>)
    requires Entries(nodes, window, path, clips) && clips != []
    ensures |clips| == |path| && Entries(nodes, window, path[..|path| - 1], clips[..|clips| - 1])
    ensures path[|path| - 1] < |nodes| && clips[|clips| - 1].0 == DepthsOf(nodes)[path[|path| - 1]]
  {
    hide Narrowed; hide Clip;
  }

  lemma EntriesPush(nodes: seq<Element>, window: Rect, path: seq<nat>, clips: seq<(int, Rect)>, i: nat)
    requires Entries(nodes, window, path, clips) && i < |nodes|
    ensures Entries(nodes, window, path + [i],
                    clips + [(nodes[i].depth, Narrowed(nodes[i], Clip(nodes, window, i)))])
  {
    hide Narrowed; hide Clip;
  }

  lemma MarksStep(nodes: seq<Element>, window: Rect, scale: real, i: nat)
    requires window.Rect? && i < |nodes|
    ensures var m := MarkOf(nodes[i], Clip(nodes, window, i), window, scale);
            MarksFrom(nodes, window, scale, i) ==
            (if m.Some? then [m.value] else []) + MarksFrom(nodes, window, scale, i + 1)
  {
    hide MarkOf; hide Clip;
  }

  lemma NoMarks(nodes: seq<Element>, window: Rect, scale: real)
    requires window.Rect?
    ensures MarksFrom(nodes, window, scale, |nodes|) == []
  {
  }

  lemma DepthsAre(nodes: seq<Element>)
    ensures |DepthsOf(nodes)| == |nodes| && forall i :: 0 <= i < |nodes| ==> DepthsOf(nodes)[i] == nodes[i].depth
  {
  }

  lemma OneMore(marks: seq<Mark>, mark: Mark, rest: seq<Mark>)
    ensures marks + ([mark] + rest) == marks + [mark] + rest
  {
  }

  lemma UptoIs(marks: seq<Mark>, rest: seq<Mark>)
    ensures |marks| <= 300 ==> Upto(marks + [], 300) == marks
    ensures |marks| == 300 ==> Upto(marks + rest, 300) == marks
  {
    assert marks + [] == marks && (marks + rest)[..|marks|] == marks;
  }

  method MarksOf(nodes: seq<Element>, window: Rect, scale: real) returns (marks: seq<Mark>)
    requires window.Rect?
    ensures marks == Upto(MarksFrom(nodes, window, scale, 0), 300)
  {
    hide Below; hide IsPath; hide IsStack; hide MarkOf; hide Narrowed; hide Clip; hide Entries; hide MarksFrom;
    hide Upto; hide DepthsOf;
    var d := DepthsOf(nodes);
    DepthsAre(nodes);
    marks := [];
    var clips: seq<(int, Rect)> := [];
    ghost var path: seq<nat> := [];
    EmptyStack(d);
    NoEntries(nodes, window);
    for i := 0 to |nodes|
      invariant IsStack(d, path, i) && Entries(nodes, window, path, clips)
      invariant MarksFrom(nodes, window, scale, 0) == marks + MarksFrom(nodes, window, scale, i)
      invariant |marks| < LIMIT
    {
      var node := nodes[i];
      ghost var before := path;
      StackBounds(d, path, i);
      while clips != [] && clips[|clips| - 1].0 >= node.depth
        invariant path <= before && Entries(nodes, window, path, clips)
        invariant forall a :: |path| <= a < |before| ==> d[before[a]] >= d[i]
        decreases |clips|
      {
        EntriesPop(nodes, window, path, clips);
        clips := clips[..|clips| - 1];
        path := path[..|path| - 1];
      }
      EntriesTop(nodes, window, path, clips);
      PoppedIsPath(d, before, path, i);
      TopIsClip(nodes, window, path, clips, i);
      var clip := if clips == [] then window else clips[|clips| - 1].1;
      EntriesPush(nodes, window, path, clips, i);
      clips := clips + [(node.depth, Narrowed(node, clip))];
      PushedIsStack(d, path, i);
      MarksStep(nodes, window, scale, i);
      path := path + [i];
      var mark := MarkOf(node, clip, window, scale);
      ghost var rest := MarksFrom(nodes, window, scale, i + 1);
      if mark.Some? {
        OneMore(marks, mark.value, rest);
        marks := marks + [mark.value];
        UptoIs(marks, rest);
        if |marks| >= LIMIT { return; }
      } else {
        assert [] + rest == rest;
      }
    }
    NoMarks(nodes, window, scale);
    UptoIs(marks, []);
  }
}
