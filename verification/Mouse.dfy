/** Mouse plans and the loop that posts them. A plan can be stopped at any checkpoint or pause, and
    a button left down would make the person's next movement a drag, so the loop releases it. */
module Mouse {
  import opened Basics

  datatype Button = Left | Right | Middle
  datatype Kind = Move | Down | Drag | Up
  datatype Point = Point(x: real, y: real)
  datatype Event = Event(kind: Kind, button: Button, point: Point, clickState: int, delayMs: int)

  // ----- What the window server sees -----

  /** The buttons that are down after the events, in whatever order they came. */
  function Held(events: seq<Event>): (r: set<Button>) {
    if events == [] then {}
    else
      var before, e := Held(events[..|events| - 1]), events[|events| - 1];
      match e.kind
      case Down => before + {e.button}
      case Up => before - {e.button}
      case _ => before
  }

  /** A plan uses one button at a time: it presses when nothing is down, releases what it pressed,
      drags only while pressed and moves only while not. */
  ghost predicate Orderly(plan: seq<Event>) {
    forall k {:trigger plan[k]} :: 0 <= k < |plan| ==>
      var (held, e) := (Held(plan[..k]), plan[k]);
      match e.kind
      case Down => held == {}
      case Up => held == {e.button}
      case Drag => held == {e.button}
      case Move => held == {}
  }

  // ----- The loop -----

  /** The `pressed` variable of the loop after the events: the button to release, where, and with
      which click state. */
  function Pressed(events: seq<Event>): (r: Option<Event>) {
    if events == [] then None else Press(Pressed(events[..|events| - 1]), events[|events| - 1])
  }

  function Press(before: Option<Event>, e: Event): (r: Option<Event>) {
    match e.kind
    case Down => Some(e)
    case Up => None
    case Drag => if before.None? then None
        else Some(Event(Down, before.value.button, e.point, before.value.clickState, 0))
    case Move => before
  }

  /** Before event `k`, the button went down at event `d` and was only dragged since. */
  predicate PressedAt(plan: seq<Event>, k: nat, d: nat, pressed: Event) {
    && d < k <= |plan| && plan[d].kind == Down
    && plan[d].clickState == pressed.clickState && plan[d].button == pressed.button
    && forall i :: d < i < k ==> plan[i].kind == Drag
  }

  /** At every point of an orderly plan `pressed` names exactly the button that is down, where the
      last event left the pointer, in the click the button went down for. */
  lemma {:induction false} PressedIsHeld(plan: seq<Event>, k: nat)
    requires Orderly(plan) && k <= |plan|
    ensures Pressed(plan[..k]).None? <==> Held(plan[..k]) == {}
    ensures Pressed(plan[..k]).Some? ==>
              && k > 0
              && Held(plan[..k]) == {Pressed(plan[..k]).value.button}
              && Pressed(plan[..k]).value.point == plan[k - 1].point
              && exists d :: 0 <= d < k && PressedAt(plan, k, d, Pressed(plan[..k]).value)
  {
    hide PressedAt;
    if k > 0 {
      PressedIsHeld(plan, k - 1);
      assert plan[..k][..k - 1] == plan[..k - 1];
      var e := plan[k - 1];
      if e.kind == Down {
        PressedHere(plan, k);
      } else if e.kind == Drag {
        var before := Pressed(plan[..k - 1]).value;
        var d :| 0 <= d < k - 1 && PressedAt(plan, k - 1, d, before);
        DraggedOn(plan, k, d, before, Pressed(plan[..k]).value);
      }
    }
  }

  lemma PressedHere(plan: seq<Event>, k: nat)
    requires 0 < k <= |plan| && plan[k - 1].kind == Down
    ensures PressedAt(plan, k, k - 1, plan[k - 1])
  {
  }

  lemma DraggedOn(plan: seq<Event>, k: nat, d: nat, before: Event, after: Event)
    requires 0 < k <= |plan| && PressedAt(plan, k - 1, d, before) && plan[k - 1].kind == Drag
    requires after.clickState == before.clickState && after.button == before.button
    ensures PressedAt(plan, k, d, after)
  {
  }

  lemma PressedNext(plan: seq<Event>, k: nat)
    requires k < |plan|
    ensures plan[..k + 1] == plan[..k] + [plan[k]]
    ensures Pressed(plan[..k + 1]) == Press(Pressed(plan[..k]), plan[k])
  {
    assert plan[..k + 1][..k] == plan[..k];
  }

  function Release(pressed: Option<Event>): (r: seq<Event>) {
    if pressed.None? then [] else [pressed.value.(kind := Up, delayMs := 0)]
  }

  /** Where a run stops: at the checkpoint before event k, or in the pause after event k - 1. */
  ghost predicate StopsAt(plan: seq<Event>, checkpoint: nat -> bool, pause: nat -> bool, k: nat) {
    && k <= |plan|
    && (forall i :: 0 <= i < k ==> checkpoint(i))
    && (forall i :: 0 <= i < k - 1 && plan[i].delayMs > 0 ==> pause(i))
    && (|| (k < |plan| && !checkpoint(k) && (k == 0 || plan[k - 1].delayMs <= 0 || pause(k - 1)))
        || (k > 0 && plan[k - 1].delayMs > 0 && !pause(k - 1)))
  }

  /** A plan that can be stopped anywhere: orderly, and nothing is down at its end. */
  ghost predicate Safe(plan: seq<Event>) {
    Orderly(plan) && Held(plan) == {}
  }

  /** Wherever a safe plan stops, the release leaves no button down, and it is needed exactly when
      one is down; it comes where the pointer is. */
  lemma ReleaseIsEnough(plan: seq<Event>, k: nat)
    requires Safe(plan) && k <= |plan|
    ensures Held(plan) == {}
    ensures var release := Release(Pressed(plan[..k]));
            && Held(plan[..k] + release) == {}
            && |release| <= 1
            && (release == [] <==> Held(plan[..k]) == {})
            && (release != [] ==> k > 0 && release[0].kind == Up && {release[0].button} == Held(plan[..k])
                                  && release[0].point == plan[k - 1].point)
  {
    PressedIsHeld(plan, k);
    var release := Release(Pressed(plan[..k]));
    if release != [] {
      var all := plan[..k] + release;
      assert all[..|all| - 1] == plan[..k];
    } else {
      assert plan[..k] + release == plan[..k];
    }
  }

  /** The run posts the whole plan, or the prefix before its stop and then the release. A safe plan
      never leaves a button down, and only a stop with a button down adds an event. */
  method RunMouse(plan: seq<Event>, checkpoint: nat -> bool, pause: nat -> bool)
    returns (posted: seq<Event>, finished: bool, ghost stop: nat)
    ensures finished ==> posted == plan && forall i :: 0 <= i < |plan| ==>
            checkpoint(i) && (plan[i].delayMs > 0 ==> pause(i))
    ensures !finished ==>
            StopsAt(plan, checkpoint, pause, stop) && posted == plan[..stop] + Release(Pressed(plan[..stop]))
    ensures Safe(plan) ==> Held(posted) == {}
  {
    hide Orderly; hide Held; hide Safe; hide Pressed;
    assert Pressed(plan[..0]) == None by { NonePressed(plan); }
    posted, finished := [], true;
    var pressed: Option<Event> := None;
    var k: nat := 0;
    while k < |plan|
      invariant finished && k <= |plan|
      invariant posted == plan[..k] && pressed == Pressed(plan[..k])
      invariant forall i :: 0 <= i < k ==> checkpoint(i) && (plan[i].delayMs > 0 ==> pause(i))
    {
      if !checkpoint(k) {
        finished := false;
        break;
      }
      var event := plan[k];
      posted := posted + [event];
      PressedNext(plan, k);
      if event.kind == Down {
        pressed := Some(event);
      } else if event.kind == Up {
        pressed := None;
      } else if event.kind == Drag && pressed.Some? {
        pressed := Some(Event(Down, pressed.value.button, event.point, pressed.value.clickState, 0));
      }
      k := k + 1;
      if event.delayMs > 0 && !pause(k - 1) {
        finished := false;
        break;
      }
    }
    stop := k;
    if !finished && pressed.Some? {
      var down := pressed.value;
      posted := posted + [Event(Up, down.button, down.point, down.clickState, 0)];
    }
    assert !finished ==> posted == plan[..k] + Release(pressed);
    if Safe(plan) { ReleaseIsEnough(plan, k); }
    assert finished ==> plan[..k] == plan;
  }

  lemma NonePressed(plan: seq<Event>)
    ensures Pressed(plan[..0]) == None
  {
  }

  // ----- Plans -----

  lemma OrderlyThen(plan: seq<Event>, e: Event)
    requires Orderly(plan)
    requires match e.kind
             case Down => Held(plan) == {}
             case Up => Held(plan) == {e.button}
             case Drag => Held(plan) == {e.button}
             case Move => Held(plan) == {}
    ensures Orderly(plan + [e])
    ensures Held(plan + [e]) == match e.kind case Down => {e.button} case Up => {} case _ => Held(plan)
  {
    var all := plan + [e];
    assert all[..|all| - 1] == plan;
    forall k | 0 <= k < |all|
      ensures all[..k] == if k < |plan| then plan[..k] else plan
    {
    }
  }

  function Presses(count: int): (r: nat)
    ensures 1 <= r <= 3 && (1 <= count <= 3 ==> r == count) && (count < 1 ==> r == 1) && (count > 3 ==> r == 3)
  {
    if count < 1 then 1 else if count > 3 then 3 else count
  }

  function AtLeast(a: int, b: int): (r: int)
    ensures r >= a && r >= b && (r == a || r == b)
  {
    if a < b then b else a
  }

  /** Odd places press and even ones release; two places share a click state. */
  function ClickEvent(at: Point, button: Button, presses: nat, holdMs: int, k: nat): (r: Event) {
    var press := (k + 1) / 2;
    if k % 2 == 1 then Event(Down, button, at, press, if press == presses then AtLeast(holdMs, 20) else 20)
    else Event(Up, button, at, press, if press == presses then 0 else 30)
  }

  lemma PressPlaces(at: Point, button: Button, presses: nat, holdMs: int, press: nat)
    requires 1 <= press
    ensures ClickEvent(at, button, presses, holdMs, 2 * press - 1) ==
            Event(Down, button, at, press, if press == presses then AtLeast(holdMs, 20) else 20)
    ensures ClickEvent(at, button, presses, holdMs, 2 * press) ==
            Event(Up, button, at, press, if press == presses then 0 else 30)
  {
  }

  /** One to three presses at one point with rising click state, the last one held. */
  method ClickEvents(at: Point, button: Button, count: int, holdMs: int) returns (events: seq<Event>)
    ensures Safe(events)
    ensures |events| == 1 + 2 * Presses(count)
    ensures |events| == if count <= 1 then 3 else if count == 2 then 5 else 7
    ensures events[0] == Event(Move, button, at, 0, 15)
    ensures forall k :: 1 <= k < |events| ==> events[k] == ClickEvent(at, button, Presses(count), holdMs, k)
  {
    events := [Event(Move, button, at, 0, 15)];
    var presses := Presses(count);
    OrderlyThen([], events[0]);
    assert [] + events == events;
    var press := 1;
    while press <= presses
      invariant 1 <= press <= presses + 1
      invariant Safe(events)
      invariant |events| == 2 * press - 1
      invariant events[0] == Event(Move, button, at, 0, 15)
      invariant forall k :: 1 <= k < |events| ==> events[k] == ClickEvent(at, button, presses, holdMs, k)
    {
      hide Orderly; hide Held; hide ClickEvent;
      var last := press == presses;
      var down := Event(Down, button, at, press, if last then AtLeast(holdMs, 20) else 20);
      var up := Event(Up, button, at, press, if last then 0 else 30);
      OrderlyThen(events, down);
      OrderlyThen(events + [down], up);
      PressPlaces(at, button, presses, holdMs, press);
      events := events + [down] + [up];
      press := press + 1;
    }
  }

  function Along(start: Point, end: Point, fraction: real): (r: Point) {
    Point(start.x + (end.x - start.x) * fraction, start.y + (end.y - start.y) * fraction)
  }

  predicate IsDistance(start: Point, end: Point, distance: real) {
    distance * distance == (end.x - start.x) * (end.x - start.x) + (end.y - start.y) * (end.y - start.y)
  }

  function Steps(distance: real): (r: nat)
    requires distance >= 0.0
    ensures 8 <= r <= 40
  {
    var n := (distance / 12.0).Floor;
    if n > 40 then 40 else if n < 8 then 8 else n
  }

  /** How far along the way each drag event is: the nudge past the drag threshold, then the glide. */
  function Nudge(distance: real): (r: seq<real>)
    requires distance >= 0.0
  {
    if distance > 0.0 then [(if distance < 4.0 then distance else 4.0) / distance] else []
  }

  function Fractions(distance: real): (r: seq<real>)
    requires distance >= 0.0
  {
    Nudge(distance) + Glide(Steps(distance), Steps(distance))
  }

  /** How long the pointer rests after a drag event; longest on the target, so that it can react. */
  function Pause(distance: real, i: nat): (r: int)
    requires distance >= 0.0
  {
    if i < |Nudge(distance)| then 30 else if i - |Nudge(distance)| == Steps(distance) - 1 then 80 else 10
  }

  function Glide(steps: nat, n: nat): (r: seq<real>)
    requires steps > 0
    ensures |r| == n
    ensures forall i :: 0 <= i < n ==> r[i] == (i + 1) as real / steps as real
  {
    seq(n, i requires 0 <= i < n => (i + 1) as real / steps as real)
  }

  /** A press at the start, drags along the straight line to the end, and the release there. The
      distance is the length of the way, which real arithmetic can name and not compute. */
  method DragEvents(start: Point, end: Point, distance: real, holdMs: int) returns (events: seq<Event>)
    requires distance >= 0.0 && IsDistance(start, end, distance)
    ensures Safe(events)
    ensures var way := Fractions(distance);
            && |events| == |way| + 3
            && events[0] == Event(Move, Left, start, 0, 20)
            && events[1] == Event(Down, Left, start, 1, AtLeast(holdMs, 60))
            && (forall i :: 2 <= i < |way| + 2 ==>
                events[i] == Event(Drag, Left, Along(start, end, way[i - 2]), 1, Pause(distance, i - 2)))
            && events[|way| + 2] == Event(Up, Left, end, 1, 0)
  {
    hide Orderly; hide Held; hide Along; hide IsDistance; hide Steps; hide DragSoFar; hide Nudge; hide Pause;
    hide Glide;
    var steps := Steps(distance);
    events := [Event(Move, Left, start, 0, 20), Event(Down, Left, start, 1, AtLeast(holdMs, 60))];
    ghost var way: seq<real> := [];
    DragBegins(start, end, distance, holdMs);
    NudgePauses(distance);
    if distance > 0.0 {
      var nudge := (if distance < 4.0 then distance else 4.0) / distance;
      var drag := Event(Drag, Left, Along(start, end, nudge), 1, 30);
      DragOn(events, way, start, end, distance, holdMs, nudge);
      events := events + [drag];
      way := way + [nudge];
    }
    assert way == Nudge(distance) + Glide(steps, 0);
    var step := 1;
    while step <= steps
      invariant 1 <= step <= steps + 1
      invariant DragSoFar(events, way, start, end, distance, holdMs) && way == Nudge(distance) + Glide(steps, step - 1)
    {
      var fraction := step as real / steps as real;
      var drag := Event(Drag, Left, Along(start, end, fraction), 1, if step == steps then 80 else 10);
      GlidePauses(distance, step);
      DragOn(events, way, start, end, distance, holdMs, fraction);
      events := events + [drag];
      way := way + [fraction];
      step := step + 1;
    }
    DragEnds(events, way, start, end, distance, holdMs);
    events := events + [Event(Up, Left, end, 1, 0)];
  }

  /** The press, and drags at these fractions of the way. */
  ghost predicate DragSoFar(events: seq<Event>, way: seq<real>, start: Point, end: Point, distance: real, holdMs: int) {
    && distance >= 0.0 && |events| == |way| + 2 && Orderly(events) && Held(events) == {Left}
    && events[0] == Event(Move, Left, start, 0, 20) && events[1] == Event(Down, Left, start, 1, AtLeast(holdMs, 60))
    && forall i :: 2 <= i < |events| ==>
         events[i] == Event(Drag, Left, Along(start, end, way[i - 2]), 1, Pause(distance, i - 2))
  }

  lemma DragBegins(start: Point, end: Point, distance: real, holdMs: int)
    requires distance >= 0.0
    ensures var events := [Event(Move, Left, start, 0, 20), Event(Down, Left, start, 1, AtLeast(holdMs, 60))];
            DragSoFar(events, [], start, end, distance, holdMs)
  {
    hide Orderly; hide Held; hide Along;
    var move, down := Event(Move, Left, start, 0, 20), Event(Down, Left, start, 1, AtLeast(holdMs, 60));
    NothingYet();
    OrderlyThen([], move);
    OrderlyThen([] + [move], down);
    assert [] + [move] + [down] == [move, down];
  }

  lemma DragOn(events: seq<Event>, way: seq<real>, start: Point, end: Point, distance: real, holdMs: int,
               fraction: real)
    requires DragSoFar(events, way, start, end, distance, holdMs)
    ensures var drag := Event(Drag, Left, Along(start, end, fraction), 1, Pause(distance, |way|));
            DragSoFar(events + [drag], way + [fraction], start, end, distance, holdMs)
  {
    hide Orderly; hide Held; hide Along; hide Pause;
    OrderlyThen(events, Event(Drag, Left, Along(start, end, fraction), 1, Pause(distance, |way|)));
  }

  lemma DragEnds(events: seq<Event>, way: seq<real>, start: Point, end: Point, distance: real, holdMs: int)
    requires DragSoFar(events, way, start, end, distance, holdMs)
    ensures |events| == |way| + 2 && Safe(events + [Event(Up, Left, end, 1, 0)])
    ensures events[0] == Event(Move, Left, start, 0, 20)
            && events[1] == Event(Down, Left, start, 1, AtLeast(holdMs, 60))
    ensures forall i :: 2 <= i < |events| ==>
              events[i] == Event(Drag, Left, Along(start, end, way[i - 2]), 1, Pause(distance, i - 2))
  {
    hide Orderly; hide Held; hide Along; hide Pause;
    OrderlyThen(events, Event(Up, Left, end, 1, 0));
  }

  lemma NudgePauses(distance: real)
    requires distance >= 0.0
    ensures distance == 0.0 ==> Nudge(distance) == []
    ensures distance > 0.0 ==>
              Nudge(distance) == [(if distance < 4.0 then distance else 4.0) / distance] && Pause(distance, 0) == 30
  {
  }

  lemma GlidePauses(distance: real, step: nat)
    requires distance >= 0.0 && 1 <= step <= Steps(distance)
    ensures var steps := Steps(distance);
            && Pause(distance, |Nudge(distance)| + step - 1) == (if step == steps then 80 else 10)
            && Glide(steps, step) == Glide(steps, step - 1) + [step as real / steps as real]
  {
    hide Steps; hide Nudge;
  }

  lemma NothingYet()
    ensures Orderly([]) && Held([]) == {}
  {
  }

  predicate Between(a: real, x: real, b: real) {
    a <= x <= b || b <= x <= a
  }

  /** The point is on the segment: on the line through its ends, and between them. */
  predicate OnSegment(start: Point, end: Point, p: Point) {
    && Between(start.x, p.x, end.x) && Between(start.y, p.y, end.y)
    && (p.x - start.x) * (end.y - start.y) == (p.y - start.y) * (end.x - start.x)
  }

  lemma AlongIsOnSegment(start: Point, end: Point, fraction: real)
    requires 0.0 <= fraction <= 1.0
    ensures OnSegment(start, end, Along(start, end, fraction))
  {
    var dx, dy, p := end.x - start.x, end.y - start.y, Along(start, end, fraction);
    PartWay(dx, fraction);
    PartWay(dy, fraction);
    var px, py := dx * fraction, dy * fraction;
    Swapped(dx, dy, fraction);
    assert p.x - start.x == px && p.y - start.y == py;
  }

  lemma Swapped(dx: real, dy: real, fraction: real)
    ensures (dx * fraction) * dy == (dy * fraction) * dx
  {
  }

  /** The point is at this part of the distance from the start. */
  predicate IsPart(start: Point, distance: real, part: real, p: Point) {
    IsDistance(start, p, distance * part)
  }

  lemma AlongIsPart(start: Point, end: Point, fraction: real, distance: real)
    requires IsDistance(start, end, distance)
    ensures IsPart(start, distance, fraction, Along(start, end, fraction))
  {
    var dx, dy, p := end.x - start.x, end.y - start.y, Along(start, end, fraction);
    SquareOfPart(distance, fraction);
    SquareOfPart(dx, fraction);
    SquareOfPart(dy, fraction);
    var px, py := dx * fraction, dy * fraction;
    assert p.x - start.x == px && p.y - start.y == py;
    Distributes(dx * dx, dy * dy, fraction * fraction);
  }

  lemma SquareOfPart(d: real, fraction: real)
    ensures (d * fraction) * (d * fraction) == (d * d) * (fraction * fraction)
  {
  }

  lemma Distributes(a: real, b: real, c: real)
    ensures (a + b) * c == a * c + b * c
  {
  }

  lemma PartWay(d: real, fraction: real)
    requires 0.0 <= fraction <= 1.0
    ensures Between(0.0, d * fraction, d)
  {
    if d >= 0.0 {
      assert d * (1.0 - fraction) >= 0.0;
    } else {
      assert (0.0 - d) * (1.0 - fraction) >= 0.0;
      assert (0.0 - d) * fraction >= 0.0;
    }
  }

  /** Every drag is on the segment, at its fraction of the distance, and the last one is where the
      release comes. */
  lemma DragStaysOnTheWay(start: Point, end: Point, distance: real)
    requires distance >= 0.0
    ensures var way := Fractions(distance);
            && (forall i :: 0 <= i < |way| ==> 0.0 < way[i] <= 1.0 && OnSegment(start, end, Along(start, end, way[i])))
            && (forall i :: 0 <= i < |way| && IsDistance(start, end, distance) ==>
                  IsPart(start, distance, way[i], Along(start, end, way[i])))
            && Along(start, end, way[|way| - 1]) == end
  {
    hide Along; hide Fractions; hide OnSegment; hide IsDistance; hide IsPart;
    FractionsAreParts(start, end, distance);
    var way := Fractions(distance);
    forall i | 0 <= i < |way| ensures OnSegment(start, end, Along(start, end, way[i])) {
      AlongIsOnSegment(start, end, way[i]);
    }
    forall i | 0 <= i < |way| && IsDistance(start, end, distance)
      ensures IsPart(start, distance, way[i], Along(start, end, way[i]))
    {
      AlongIsPart(start, end, way[i], distance);
    }
  }

  lemma FractionsAreParts(start: Point, end: Point, distance: real)
    requires distance >= 0.0
    ensures var way := Fractions(distance);
            way != [] && (forall i :: 0 <= i < |way| ==> 0.0 < way[i] <= 1.0)
                && Along(start, end, way[|way| - 1]) == end
  {
    hide Along; hide Steps;
    var way, n := Fractions(distance), |Nudge(distance)|;
    if n > 0 { Quotient(if distance < 4.0 then distance else 4.0, distance); }
    forall i | n <= i < |way|
      ensures 0.0 < way[i] <= 1.0
    {
      Quotient((i - n + 1) as real, Steps(distance) as real);
    }
    WholeWay(start, end, Steps(distance));
  }

  lemma WholeWay(start: Point, end: Point, steps: nat)
    requires steps > 0
    ensures Along(start, end, steps as real / steps as real) == end
  {
    assert steps as real / steps as real == 1.0;
  }

  lemma Quotient(a: real, b: real)
    requires 0.0 < a <= b
    ensures 0.0 < a / b <= 1.0
  {
    Cross(a, b, 1.0, 1.0);
    Cross(a, b, 0.0, 1.0);
  }

  /** The glide's steps are of about twelve points wherever the bounds on their number allow it. */
  lemma GlideStep(distance: real)
    requires 96.0 <= distance < 492.0
    ensures 12.0 * Steps(distance) as real <= distance < 13.5 * Steps(distance) as real
  {
    var n := (distance / 12.0).Floor;
    assert n as real <= distance / 12.0 < n as real + 1.0;
    assert 8.0 <= distance / 12.0 < 41.0;
  }

  /** The pointer never turns back on its way if and only if the way is empty or at least 32 points
      long: on a shorter one the nudge overshoots the first step of the glide. */
  lemma DragGoesForward(distance: real)
    requires distance >= 0.0
    ensures var way := Fractions(distance);
            (forall i, j :: 0 <= i < j < |way| ==> way[i] <= way[j]) <==> distance == 0.0 || distance >= 32.0
  {
    var way, n, steps := Fractions(distance), |Nudge(distance)|, Steps(distance);
    forall i, j | n <= i < j < |way|
      ensures way[i] <= way[j]
    {
      Ordered((i - n + 1) as real, (j - n + 1) as real, steps as real);
    }
    if distance > 0.0 {
      assert way[1] == 1.0 / steps as real;
      NudgeStep(distance);
      assert (way[0] <= way[1]) <==> distance >= 32.0;
      forall j | 1 <= j < |way|
        ensures way[1] <= way[j]
      {
        Ordered(1.0, j as real, steps as real);
      }
    }
  }

  lemma Ordered(a: real, b: real, c: real)
    requires a <= b && c > 0.0
    ensures a / c <= b / c
  {
    Cross(a, c, b, c);
  }

  lemma NudgeStep(distance: real)
    requires distance > 0.0
    ensures (if distance < 4.0 then distance else 4.0) / distance <= 1.0 / Steps(distance) as real <==> distance >= 32.0
  {
    var steps := Steps(distance) as real;
    var nudge, first := (if distance < 4.0 then distance else 4.0) / distance, 1.0 / steps;
    var short := if distance < 4.0 then distance else 4.0;
    assert nudge * distance == short && first * steps == 1.0;
    var n := (distance / 12.0).Floor;
    assert n as real <= distance / 12.0 < n as real + 1.0;
    Cross(short, distance, 1.0, steps);
    assert short * steps <= distance <==> distance >= 32.0;
  }

  lemma Cross(a: real, b: real, c: real, d: real)
    requires b > 0.0 && d > 0.0
    ensures a / b <= c / d <==> a * d <= c * b
  {
    var p, q := a / b, c / d;
    assert p * b == a && q * d == c;
    assert a * d == p * (b * d) && c * b == q * (b * d);
    if p <= q { assert (q - p) * (b * d) >= 0.0; } else { assert (p - q) * (b * d) > 0.0; }
  }
}
