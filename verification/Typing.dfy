/** Typing text as key events: several characters in one event where the app takes them, one at a time
    where it does not. */
module Typing {
  import opened Basics

  /** A character as the plan sees it; a glyph takes one UTF-16 unit or more. */
  datatype Char = Newline | Tab | Glyph(code: nat, more: nat)

  function Size(c: Char): nat {
    match c case Glyph(_, more) => 1 + more case _ => 1
  }

  function Units(s: seq<Char>): nat {
    if s == [] then 0 else Units(s[..|s| - 1]) + Size(s[|s| - 1])
  }

  datatype Step = Text(chars: seq<Char>) | ReturnKey | TabKey

  function Spell(step: Step): seq<Char> {
    match step
    case Text(chars) => chars
    case ReturnKey => [Newline]
    case TabKey => [Tab]
  }

  /** The text a plan types when every event is taken whole. */
  function Spelled(steps: seq<Step>): seq<Char> {
    if steps == [] then [] else Spelled(steps[..|steps| - 1]) + Spell(steps[|steps| - 1])
  }

  // ----- The plan -----

  function Limit(chunk: int): nat {
    if chunk < 1 then 1 else chunk
  }

  /** A chunk is glyphs only, and within the limit unless it is one glyph. */
  predicate GoodChunk(chars: seq<Char>, chunk: int) {
    && chars != [] && (forall i :: 0 <= i < |chars| ==> chars[i].Glyph?)
    && (Units(chars) <= Limit(chunk) || |chars| == 1)
  }

  predicate GoodStep(step: Step, chunk: int) {
    step.Text? ==> GoodChunk(step.chars, chunk)
  }

  /** Two chunks in a row could not have been one. */
  predicate Needed(a: Step, b: Step, chunk: int) {
    a.Text? && b.Text? && b.chars != [] ==> Units(a.chars) + Size(b.chars[0]) > Limit(chunk)
  }

  predicate GoodPlan(steps: seq<Step>, chunk: int) {
    && (forall i :: 0 <= i < |steps| ==> GoodStep(steps[i], chunk))
    && (forall i :: 0 < i < |steps| ==> Needed(steps[i - 1], steps[i], chunk))
  }

  lemma SpelledAppend(steps: seq<Step>, step: Step)
    ensures Spelled(steps + [step]) == Spelled(steps) + Spell(step)
  {
    assert (steps + [step])[..|steps|] == steps;
  }

  lemma UnitsAppend(s: seq<Char>, c: Char)
    ensures Units(s + [c]) == Units(s) + Size(c)
  {
    assert (s + [c])[..|s|] == s;
  }

  lemma {:induction false} UnitsPositive(s: seq<Char>)
    ensures Units(s) >= |s|
  {
    if s != [] { UnitsPositive(s[..|s| - 1]); }
  }

  /** The run being collected: it will not fit after the last chunk. */
  predicate Fits(steps: seq<Step>, run: seq<Char>, chunk: int) {
    && GoodPlan(steps, chunk) && (run != [] ==> GoodChunk(run, chunk))
    && (run != [] && steps != [] ==> Needed(steps[|steps| - 1], Text(run), chunk))
  }

  lemma FlushFits(steps: seq<Step>, run: seq<Char>, chunk: int)
    requires Fits(steps, run, chunk) && run != []
    ensures GoodPlan(steps + [Text(run)], chunk) && Spelled(steps + [Text(run)]) == Spelled(steps) + run
  {
    SpelledAppend(steps, Text(run));
    var all := steps + [Text(run)];
    forall i | 0 < i < |all| ensures Needed(all[i - 1], all[i], chunk) {
      if i < |steps| { assert Needed(steps[i - 1], steps[i], chunk); }
    }
  }

  lemma KeyFits(steps: seq<Step>, key: Step, chunk: int)
    requires GoodPlan(steps, chunk) && !key.Text?
    ensures GoodPlan(steps + [key], chunk)
  {
    var all := steps + [key];
    forall i | 0 < i < |all| ensures Needed(all[i - 1], all[i], chunk) {
      if i < |steps| { assert Needed(steps[i - 1], steps[i], chunk); }
    }
  }

  /** Steps and a run that spell what was planned so far. */
  predicate Planned(done: seq<Char>, steps: seq<Step>, run: seq<Char>, chunk: int) {
    Spelled(steps) + run == done && Fits(steps, run, chunk)
  }

  lemma Flushed(done: seq<Char>, steps: seq<Step>, run: seq<Char>, chunk: int)
    requires Planned(done, steps, run, chunk) && run != []
    ensures Planned(done, steps + [Text(run)], [], chunk) && GoodPlan(steps + [Text(run)], chunk)
    ensures Spelled(steps + [Text(run)]) == done
  {
    hide GoodPlan; hide Spelled; hide GoodChunk;
    FlushFits(steps, run, chunk);
    assert Spelled(steps + [Text(run)]) + [] == done;
  }

  lemma Keyed(done: seq<Char>, steps: seq<Step>, c: Char, key: Step, chunk: int)
    requires Planned(done, steps, [], chunk) && !key.Text? && Spell(key) == [c]
    ensures Planned(done + [c], steps + [key], [], chunk)
  {
    hide GoodPlan; hide Spelled; hide Spell;
    KeyFits(steps, key, chunk);
    SpelledAppend(steps, key);
    assert Spelled(steps) + [] == Spelled(steps) && Spelled(steps + [key]) + [] == done + [c];
  }

  lemma Joined(done: seq<Char>, steps: seq<Step>, run: seq<Char>, c: Char, chunk: int)
    requires Planned(done, steps, run, chunk) && c.Glyph?
    requires run != [] ==> Units(run) + Size(c) <= Limit(chunk)
    requires run == [] && steps != [] ==> Needed(steps[|steps| - 1], Text([c]), chunk)
    ensures Planned(done + [c], steps, run + [c], chunk) && Units(run + [c]) == Units(run) + Size(c)
  {
    hide GoodPlan; hide Spelled; hide Units; hide Size; hide Needed; hide Fits;
    GlyphFits(steps, run, c, chunk);
    UnitsAppend(run, c);
    assert Spelled(steps) + (run + [c]) == Spelled(steps) + run + [c];
  }

  /** Splits text into steps that spell it, with chunks as long as the limit allows. */
  method TypingPlan(text: seq<Char>, chunk: int) returns (steps: seq<Step>)
    ensures Spelled(steps) == text
    ensures GoodPlan(steps, chunk)
  {
    hide Spelled; hide Units; hide GoodPlan; hide Planned; hide Size;
    steps := [];
    var run: seq<Char> := [];
    var units := 0;
    StartPlan(chunk);
    for i := 0 to |text|
      invariant Planned(text[..i], steps, run, chunk) && units == Units(run)
      invariant run == [] && steps != [] ==> !steps[|steps| - 1].Text?
    {
      var c := text[i];
      assert text[..i + 1] == text[..i] + [c];
      if !c.Glyph? {
        if run != [] {
          Flushed(text[..i], steps, run, chunk);
          steps, run, units := steps + [Text(run)], [], 0;
        }
        StartPlan(chunk);
        var key := if c.Newline? then ReturnKey else TabKey;
        Keyed(text[..i], steps, c, key, chunk);
        steps := steps + [key];
      } else {
        var size := Size(c);
        UnitsPositive(run);
        StartPlan(chunk);
        if units > 0 && units + size > Limit(chunk) {
          Flushed(text[..i], steps, run, chunk);
          steps, run, units := steps + [Text(run)], [], 0;
        }
        Joined(text[..i], steps, run, c, chunk);
        run := run + [c];
        units := units + size;
      }
    }
    assert text[..|text|] == text;
    if run == [] {
      NothingLeft(text, steps, chunk);
    } else {
      Flushed(text, steps, run, chunk);
      steps := steps + [Text(run)];
    }
  }

  lemma StartFits(chunk: int)
    ensures Fits([], [], chunk) && Spelled([]) == [] && Units([]) == 0
  {
  }

  lemma StartPlan(chunk: int)
    ensures Planned([], [], [], chunk) && Units([]) == 0
  {
    StartFits(chunk);
  }

  lemma NothingLeft(done: seq<Char>, steps: seq<Step>, chunk: int)
    requires Planned(done, steps, [], chunk)
    ensures Spelled(steps) == done && GoodPlan(steps, chunk)
  {
    hide GoodPlan; hide Spelled;
  }

  lemma GlyphFits(steps: seq<Step>, run: seq<Char>, c: Char, chunk: int)
    requires Fits(steps, run, chunk) && c.Glyph?
    requires run != [] ==> Units(run) + Size(c) <= Limit(chunk)
    requires run == [] && steps != [] ==> Needed(steps[|steps| - 1], Text([c]), chunk)
    ensures Fits(steps, run + [c], chunk)
  {
    UnitsAppend(run, c);
    if run == [] { assert run + [c] == [c]; } else { assert (run + [c])[0] == run[0]; }
  }

  // ----- Typing the plan -----

  /** How many characters of its `k`-th event of several characters an app takes. */
  type Takes = (nat, seq<Char>) -> nat

  function Taken(takes: Takes, k: nat, chars: seq<Char>): nat {
    if takes(k, chars) < |chars| then takes(k, chars) else |chars|
  }

  /** What reaches the field from the steps that are left. */
  function Delivered(steps: seq<Step>, chunked: bool, verified: bool, takes: Takes, k: nat): seq<Char>
    decreases |steps|
  {
    if steps == [] then []
    else if !steps[0].Text? then Spell(steps[0]) + Delivered(steps[1..], chunked, verified, takes, k)
    else
      var chars := steps[0].chars;
      if !chunked || |chars| <= 1 then chars + Delivered(steps[1..], chunked, verified, takes, k)
      else
        var n := Taken(takes, k, chars);
        if verified then chars[..n] + Delivered(steps[1..], true, true, takes, k + 1)
        else if n == |chars| then chars + Delivered(steps[1..], true, true, takes, k + 1)
        else chars[..n] + chars[n..] + Delivered(steps[1..], false, false, takes, k + 1)
  }

  /** The app keeps taking whole events once it is believed to. */
  predicate Consistent(steps: seq<Step>, chunked: bool, verified: bool, takes: Takes, k: nat)
    decreases |steps|
  {
    if steps == [] then true
    else if !steps[0].Text? || !chunked || |steps[0].chars| <= 1
        then Consistent(steps[1..], chunked, verified, takes, k)
    else
      var whole := Taken(takes, k, steps[0].chars) == |steps[0].chars|;
      (verified ==> whole) && Consistent(steps[1..], whole, whole, takes, k + 1)
  }

  lemma {:induction false} SpelledFirst(steps: seq<Step>)
    requires steps != []
    ensures Spelled(steps) == Spell(steps[0]) + Spelled(steps[1..])
  {
    hide Spell;
    var n := |steps| - 1;
    if n == 0 {
      assert steps[..0] == [] && steps[1..] == [];
    } else {
      var first, middle, last := Spell(steps[0]), Spelled(steps[1..][..n - 1]), Spell(steps[n]);
      SpelledFirst(steps[..n]);
      assert steps[..n][1..] == steps[1..][..n - 1] && steps[1..][n - 1] == steps[n];
      assert Spelled(steps[1..]) == middle + last;
      assert first + (middle + last) == first + middle + last;
    }
  }

  /** Exactly the text arrives, once, if and only if the app keeps taking whole events once believed;
      otherwise characters are missing. */
  lemma {:induction false} DeliveryIsExact(steps: seq<Step>, chunked: bool, verified: bool, takes: Takes, k: nat)
    ensures |Delivered(steps, chunked, verified, takes, k)| <= |Spelled(steps)|
    ensures Delivered(steps, chunked, verified, takes, k) == Spelled(steps)
            <==> Consistent(steps, chunked, verified, takes, k)
    ensures !Consistent(steps, chunked, verified, takes, k) ==>
            |Delivered(steps, chunked, verified, takes, k)| < |Spelled(steps)|
    decreases |steps|
  {
    hide Spelled;
    if steps == [] {
      StartFits(1);
    } else {
      SpelledFirst(steps);
      var rest := steps[1..];
      if !steps[0].Text? || !chunked || |steps[0].chars| <= 1 {
        DeliveryIsExact(rest, chunked, verified, takes, k);
        SameTail(Spell(steps[0]), Delivered(rest, chunked, verified, takes, k), Spelled(rest));
      } else {
        var chars := steps[0].chars;
        var n := Taken(takes, k, chars);
        var whole := n == |chars|;
        if verified {
          DeliveryIsExact(rest, true, true, takes, k + 1);
          if whole { assert chars[..n] == chars; }
          SameTail(chars, Delivered(rest, true, true, takes, k + 1), Spelled(rest));
        } else {
          DeliveryIsExact(rest, whole, whole, takes, k + 1);
          assert chars[..n] + chars[n..] == chars;
          SameTail(chars, Delivered(rest, whole, whole, takes, k + 1), Spelled(rest));
        }
      }
    }
  }

  lemma SameTail(a: seq<Char>, x: seq<Char>, y: seq<Char>)
    ensures a + x == a + y <==> x == y
  {
    if a + x == a + y { assert x == (a + x)[|a|..] && y == (a + y)[|a|..]; }
  }

  /** The app takes every event of several characters whole, or none of them. */
  ghost predicate Steady(takes: Takes, whole: bool) {
    forall i: nat, chars: seq<Char> :: |chars| > 1 ==> (Taken(takes, i, chars) == |chars| <==> whole)
  }

  lemma {:induction false} SteadyAppsAreConsistent(steps: seq<Step>, chunked: bool, verified: bool, takes: Takes,
                                                   k: nat, whole: bool)
    requires Steady(takes, whole) && (verified ==> whole)
    ensures Consistent(steps, chunked, verified, takes, k)
    decreases |steps|
  {
    if steps != [] {
      if !steps[0].Text? || !chunked || |steps[0].chars| <= 1 {
        SteadyAppsAreConsistent(steps[1..], chunked, verified, takes, k, whole);
      } else {
        SteadyAppsAreConsistent(steps[1..], whole, whole, takes, k + 1, whole);
      }
    }
  }

  // ----- The loop -----

  /** Drops whole characters until `landed` units are covered. */
  function DropLanded(chars: seq<Char>, skipped: nat, landed: nat): seq<Char> {
    if chars == [] || skipped >= landed then chars else DropLanded(chars[1..], skipped + Size(chars[0]), landed)
  }

  lemma {:induction false} UnitsOfPlain(s: seq<Char>)
    requires forall i :: 0 <= i < |s| ==> Size(s[i]) == 1
    ensures Units(s) == |s|
  {
    if s != [] { UnitsOfPlain(s[..|s| - 1]); }
  }

  /** An app that takes the first chunk whole and cuts the second: of any text of two full chunks only the
      first chunk and one character arrive. */
  lemma LaterCutLosesCharacters(text: seq<Char>)
    requires |text| == 40 && forall i :: 0 <= i < |text| ==> text[i].Glyph? && Size(text[i]) == 1
    ensures var steps := [Text(text[..20]), Text(text[20..])];
            var takes: Takes := (k, chars) => if k == 0 then |chars| else 1;
            && Spelled(steps) == text && GoodPlan(steps, 20)
            && !Consistent(steps, true, false, takes, 0)
            && Delivered(steps, true, false, takes, 0) == text[..21]
  {
    hide Spelled; hide GoodPlan; hide Delivered; hide Consistent;
    var a, b := text[..20], text[20..];
    var takes: Takes := (k, chars) => if k == 0 then |chars| else 1;
    assert a + b == text && a + b[..1] == text[..21];
    TwoChunks(a, b);
    CutChunk(a, b, takes);
    DeliveryIsExact([Text(a), Text(b)], true, false, takes, 0);
  }

  lemma TwoChunks(a: seq<Char>, b: seq<Char>)
    requires |a| == |b| == 20
    requires (forall i :: 0 <= i < |a| ==> a[i].Glyph? && Size(a[i]) == 1)
    requires (forall i :: 0 <= i < |b| ==> b[i].Glyph? && Size(b[i]) == 1)
    ensures Spelled([Text(a), Text(b)]) == a + b && GoodPlan([Text(a), Text(b)], 20)
  {
    hide Units; hide Spelled;
    StartFits(20);
    SpelledAppend([], Text(a));
    SpelledAppend([] + [Text(a)], Text(b));
    assert [] + [Text(a)] + [Text(b)] == [Text(a), Text(b)] && [] + a == a;
    UnitsOfPlain(a);
    UnitsOfPlain(b);
  }

  lemma CutChunk(a: seq<Char>, b: seq<Char>, takes: Takes)
    requires |a| > 1 && |b| > 1 && takes(0, a) == |a| && takes(1, b) == 1
    ensures Delivered([Text(a), Text(b)], true, false, takes, 0) == a + b[..1]
  {
    hide Delivered;
    var steps: seq<Step> := [Text(a), Text(b)];
    assert steps[1..] == [Text(b)] && [Text(b)][1..] == [];
    DeliverChunk(steps, false, takes, 0);
    DeliverChunk([Text(b)], true, takes, 1);
    DeliverNothing(true, true, takes, 2);
  }

  lemma {:induction false} UnitsFirst(s: seq<Char>)
    requires s != []
    ensures Units(s) == Size(s[0]) + Units(s[1..])
  {
    var n := |s| - 1;
    if n > 0 {
      UnitsFirst(s[..n]);
      assert s[..n][1..] == s[1..][..n - 1] && s[1..][n - 1] == s[n];
    }
  }

  /** Counting UTF-16 units finds exactly the characters that did not land. */
  lemma {:induction false} DropExact(chars: seq<Char>, n: nat, skipped: nat)
    requires n <= |chars|
    ensures DropLanded(chars, skipped, skipped + Units(chars[..n])) == chars[n..]
    decreases n
  {
    if n == 0 {
      assert chars[0..] == chars && chars[..0] == [];
    } else {
      var s := chars[..n];
      UnitsFirst(s);
      assert s[1..] == chars[1..][..n - 1] && s[0] == chars[0];
      UnitsPositive(s);
      DropExact(chars[1..], n - 1, skipped + Size(chars[0]));
      assert chars[1..][n - 1..] == chars[n..];
    }
  }

  lemma {:induction false} UnitsSplit(s: seq<Char>, n: nat)
    requires n <= |s|
    ensures Units(s) == Units(s[..n]) + Units(s[n..])
    decreases |s| - n
  {
    if n == |s| {
      assert s[..n] == s && s[n..] == [];
    } else {
      UnitsSplit(s, n + 1);
      UnitsAppend(s[..n], s[n]);
      assert s[..n + 1] == s[..n] + [s[n]];
      UnitsFirst(s[n..]);
      assert s[n..][1..] == s[n + 1..];
    }
  }

  /** What the helper has learned about an app. */
  datatype Modes = Modes(perCharacter: bool, chunked: bool)

  /** The first chunk of several characters, the one an app is tried on. */
  function Probe(steps: seq<Step>): Option<seq<Char>> {
    if steps == [] then None
    else if steps[0].Text? && |steps[0].chars| > 1 then Some(steps[0].chars)
    else Probe(steps[1..])
  }

  /** An app is tried once, if it is not believed already. */
  function Learned(modes: Modes, tried: Option<seq<Char>>, chunked: bool, takes: Takes, k: nat): Modes {
    if tried.None? || !chunked || modes.chunked then modes
    else if Taken(takes, k, tried.value) == |tried.value| then modes.(chunked := true)
    else modes.(perCharacter := true)
  }

  /** What is believed of a steady app is so. */
  predicate Truthful(modes: Modes, whole: bool) {
    (modes.chunked ==> whole) && (modes.perCharacter ==> !whole)
  }

  /** Typing `text` in the steps of a good plan gives `field` and teaches `learned`. */
  ghost predicate Typed(text: seq<Char>, observable: bool, takes: Takes, modes: Modes, field: seq<Char>,
                        learned: Modes, steps: seq<Step>) {
    var chunked := observable && !modes.perCharacter;
    && Spelled(steps) == text && GoodPlan(steps, if chunked then 20 else 1)
    && field == Delivered(steps, chunked, modes.chunked, takes, 0)
    && learned == Learned(modes, Probe(steps), chunked, takes, 0)
    && (field == text <==> Consistent(steps, chunked, modes.chunked, takes, 0))
  }

  /** A steady app gets the text, and what is learned of it is so. */
  lemma SteadyTyped(text: seq<Char>, observable: bool, takes: Takes, modes: Modes, field: seq<Char>, learned: Modes,
                    steps: seq<Step>, whole: bool)
    requires Typed(text, observable, takes, modes, field, learned, steps) && Steady(takes, whole)
             && Truthful(modes, whole)
    ensures field == text && Truthful(learned, whole)
  {
    hide GoodPlan; hide Spelled; hide Delivered; hide Taken;
    SteadyAppsAreConsistent(steps, observable && !modes.perCharacter, modes.chunked, takes, 0, whole);
    ProbeIsLong(steps);
  }

  lemma {:induction false} ProbeIsLong(steps: seq<Step>)
    ensures Probe(steps).Some? ==> |Probe(steps).value| > 1
  {
    if steps != [] { ProbeIsLong(steps[1..]); }
  }

  /** Everything typed into a steady app over the helper's life arrives, each text exactly and once,
      whatever fields report and whatever is learned on the way. */
  method TypeAll(texts: seq<seq<Char>>, observable: nat -> bool, takes: nat -> Takes, ghost whole: bool)
    returns (fields: seq<seq<Char>>)
    requires forall i :: Steady(takes(i), whole)
    ensures fields == texts
  {
    hide Typed; hide Steady; hide Truthful;
    fields := [];
    var modes := Modes(false, false);
    assert Truthful(modes, whole) by { NothingBelieved(whole); }
    for i := 0 to |texts|
      invariant fields == texts[..i] && Truthful(modes, whole)
    {
      var field, learned := PostTyping(texts[i], observable(i), takes(i), modes);
      ghost var steps :| Typed(texts[i], observable(i), takes(i), modes, field, learned, steps);
      assert Steady(takes(i), whole);
      SteadyTyped(texts[i], observable(i), takes(i), modes, field, learned, steps, whole);
      fields := fields + [field];
      modes := learned;
    }
  }

  lemma NothingBelieved(whole: bool)
    ensures Truthful(Modes(false, false), whole)
  {
  }

  /** Posts text as key events and learns whether the app takes several characters in one. `field` is
      what the field received. */
  method PostTyping(text: seq<Char>, observable: bool, takes: Takes, modes: Modes)
    returns (field: seq<Char>, learned: Modes)
    ensures exists steps: seq<Step> :: Typed(text, observable, takes, modes, field, learned, steps)
  {
    hide GoodPlan; hide Spelled; hide Units; hide Consistent; hide DropLanded; hide Delivered; hide Taken; hide Spell;
    hide Probe; hide Learned;
    var chunked := observable && !modes.perCharacter;
    var verified := modes.chunked;
    learned := modes;
    var plan := TypingPlan(text, if chunked then 20 else 1);
    ghost var start, believed := chunked, verified;
    field := [];
    var events := 0;
    ghost var all := Delivered(plan, start, believed, takes, 0);
    assert plan[0..] == plan && [] + all == all;
    for i := 0 to |plan|
      invariant all == field + Delivered(plan[i..], chunked, verified, takes, events)
      invariant events == 0 ==> chunked == start && verified == believed && learned == modes
      invariant events == 0 && start ==> Probe(plan) == Probe(plan[i..])
      invariant events > 0 ==> learned == Learned(modes, Probe(plan), start, takes, 0) && (verified || !chunked)
    {
      var step := plan[i];
      assert plan[i..][0] == step && plan[i..][1..] == plan[i + 1..];
      if !(step.Text? && chunked && |step.chars| > 1) {
        DeliverPlain(plan[i..], chunked, verified, takes, events);
        Assoc(field, Spell(step), Delivered(plan[i + 1..], chunked, verified, takes, events));
        ProbePast(plan[i..], chunked);
        field := field + Spell(step);
        continue;
      }
      var chars := step.chars;
      var n := Taken(takes, events, chars);
      DeliverChunk(plan[i..], verified, takes, events);
      ProbeHere(plan[i..]);
      LearnedFrom(modes, chars, takes);
      events := events + 1;
      var landed := Units(chars[..n]);
      LandedAll(chars, n);
      if verified {
        Assoc(field, chars[..n], Delivered(plan[i + 1..], true, true, takes, events));
        field := field + chars[..n];
      } else if landed >= Units(chars) {
        Assoc(field, chars, Delivered(plan[i + 1..], true, true, takes, events));
        assert chars[..n] == chars;
        field := field + chars[..n];
        verified := true;
        learned := learned.(chunked := true);
      } else {
        DropExact(chars, n, 0);
        Assoc(field, chars[..n] + chars[n..], Delivered(plan[i + 1..], false, false, takes, events));
        Assoc(field, chars[..n], chars[n..]);
        field := field + chars[..n];
        chunked := false;
        learned := learned.(perCharacter := true);
        field := field + DropLanded(chars, 0, landed);
      }
    }
    assert plan[|plan|..] == [];
    DeliverNothing(chunked, verified, takes, events);
    DeliveryIsExact(plan, start, believed, takes, 0);
    NothingTried(modes, start, takes);
    assert Typed(text, observable, takes, modes, field, learned, plan);
  }

  lemma ProbeHere(steps: seq<Step>)
    requires steps != [] && steps[0].Text? && |steps[0].chars| > 1
    ensures Probe(steps) == Some(steps[0].chars)
  {
  }

  lemma ProbePast(steps: seq<Step>, chunked: bool)
    requires steps != [] && !(steps[0].Text? && chunked && |steps[0].chars| > 1)
    ensures chunked ==> Probe(steps) == Probe(steps[1..])
  {
  }

  lemma LearnedFrom(modes: Modes, chars: seq<Char>, takes: Takes)
    ensures modes.chunked ==> Learned(modes, Some(chars), true, takes, 0) == modes
    ensures !modes.chunked && Taken(takes, 0, chars) == |chars| ==>
              Learned(modes, Some(chars), true, takes, 0) == modes.(chunked := true)
    ensures !modes.chunked && Taken(takes, 0, chars) != |chars| ==>
              Learned(modes, Some(chars), true, takes, 0) == modes.(perCharacter := true)
  {
  }

  lemma NothingTried(modes: Modes, chunked: bool, takes: Takes)
    ensures Probe([]) == None && Learned(modes, None, chunked, takes, 0) == modes
    ensures forall tried :: Learned(modes, tried, false, takes, 0) == modes
  {
  }

  lemma Assoc(a: seq<Char>, b: seq<Char>, c: seq<Char>)
    ensures a + (b + c) == a + b + c
  {
  }

  lemma DeliverNothing(chunked: bool, verified: bool, takes: Takes, k: nat)
    ensures Delivered([], chunked, verified, takes, k) == []
  {
  }

  lemma DeliverPlain(steps: seq<Step>, chunked: bool, verified: bool, takes: Takes, k: nat)
    requires steps != [] && (steps[0].Text? && chunked ==> |steps[0].chars| <= 1)
    ensures Delivered(steps, chunked, verified, takes, k)
            == Spell(steps[0]) + Delivered(steps[1..], chunked, verified, takes, k)
  {
  }

  lemma DeliverChunk(steps: seq<Step>, verified: bool, takes: Takes, k: nat)
    requires steps != [] && steps[0].Text? && |steps[0].chars| > 1
    ensures var chars := steps[0].chars;
            var n := Taken(takes, k, chars);
            && n <= |chars|
            && (verified ==>
                Delivered(steps, true, true, takes, k) == chars[..n] + Delivered(steps[1..], true, true, takes, k + 1))
            && (!verified && n == |chars| ==>
                Delivered(steps, true, false, takes, k) == chars + Delivered(steps[1..], true, true, takes, k + 1))
            && (!verified && n < |chars| ==>
                  Delivered(steps, true, false, takes, k)
                      == chars[..n] + chars[n..] + Delivered(steps[1..], false, false, takes, k + 1))
  {
  }

  lemma LandedAll(chars: seq<Char>, n: nat)
    requires n <= |chars|
    ensures Units(chars[..n]) >= Units(chars) <==> n == |chars|
  {
    UnitsSplit(chars, n);
    UnitsPositive(chars[n..]);
    if n == |chars| { assert chars[..n] == chars; }
  }
}
