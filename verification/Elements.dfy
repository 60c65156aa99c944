/** Stable ids for the elements of an app, whose views may be recycled to show something else. */
module Elements {
  import opened Basics

  type Element = nat
  type Id = nat

  const KEPT_WALKS := 8

  datatype Registry = Registry(
    ids: map<Element, Id>,
    elements: map<Id, Element>,
    fingerprints: map<Id, string>,
    seen: map<Id, nat>,
    next: Id,
    generation: nat)

  const EMPTY := Registry(map[], map[], map[], map[], 1, 0)

  // ----- Steps -----

  function Walked(r: Registry): Registry {
    r.(generation := r.generation + 1)
  }

  /** The element shows other content than when it was last looked up with a fingerprint. */
  predicate Changed(r: Registry, e: Element, fingerprint: Option<string>) {
    && e in r.ids && fingerprint.Some? && r.ids[e] in r.fingerprints
    && r.fingerprints[r.ids[e]] != fingerprint.value
  }

  function Noted(m: map<Id, string>, id: Id, fingerprint: Option<string>): map<Id, string> {
    if fingerprint.Some? then m[id := fingerprint.value] else m
  }

  function IdOf(r: Registry, e: Element, fingerprint: Option<string>): Id {
    if e in r.ids && !Changed(r, e, fingerprint) then r.ids[e] else r.next
  }

  function LookedUp(r: Registry, e: Element, fingerprint: Option<string>): Registry {
    if e in r.ids && !Changed(r, e, fingerprint) then
      r.(fingerprints := Noted(r.fingerprints, r.ids[e], fingerprint), seen := r.seen[r.ids[e] := r.generation])
    else
      var gone := if e in r.ids then {r.ids[e]} else {};
      Registry(r.ids[e := r.next], (r.elements - gone)[r.next := e], Noted(r.fingerprints - gone, r.next, fingerprint),
               (r.seen - gone)[r.next := r.generation], r.next + 1, r.generation)
  }

  /** The ids not refreshed in the last walks. */
  function Stale(r: Registry): set<Id> {
    set i | i in r.seen && r.generation > KEPT_WALKS && r.seen[i] < r.generation - KEPT_WALKS
  }

  function Pruned(r: Registry): Registry {
    PrunedBy(r, Stale(r))
  }

  function PrunedBy(r: Registry, gone: set<Id>): Registry {
    r.(ids := Outside(r, gone), elements := r.elements - gone, fingerprints := r.fingerprints - gone,
       seen := r.seen - gone)
  }

  /** The elements whose ids are not among `gone`. */
  function Outside(r: Registry, gone: set<Id>): map<Element, Id> {
    map e | e in r.ids && r.ids[e] !in gone :: r.ids[e]
  }

  datatype Event = Walk | Lookup(element: Element, fingerprint: Option<string>) | Prune

  function After(r: Registry, event: Event): Registry {
    match event
    case Walk => Walked(r)
    case Lookup(e, f) => LookedUp(r, e, f)
    case Prune => Pruned(r)
  }

  ghost predicate Run(run: seq<Registry>, events: seq<Event>) {
    && |run| == |events| + 1 && run[0] == EMPTY
    && forall i :: 0 <= i < |events| ==> run[i + 1] == After(run[i], events[i])
  }

  // ----- What every step keeps -----

  /** The two tables are inverse; every id in them was issued. */
  predicate Inverse(r: Registry) {
    Mutual(r) && Dated(r)
  }

  predicate Mutual(r: Registry) {
    && (forall e :: e in r.ids ==> r.ids[e] in r.elements && r.elements[r.ids[e]] == e)
    && (forall i :: i in r.elements ==> r.elements[i] in r.ids && r.ids[r.elements[i]] == i && 0 < i < r.next)
    && r.next > 0
  }

  /** Every id has the walk it was last seen in. */
  predicate Dated(r: Registry) {
    && r.seen.Keys == r.elements.Keys && r.fingerprints.Keys <= r.elements.Keys
    && (forall i :: i in r.seen ==> r.seen[i] <= r.generation)
  }

  /** An id issued before means the same element or nothing. */
  predicate OnlyForgets(r: Registry, t: Registry) {
    && r.next <= t.next
    && forall i :: i in t.elements && i < r.next ==> i in r.elements && t.elements[i] == r.elements[i]
  }

  lemma WalkKeeps(r: Registry)
    requires Inverse(r)
    ensures Inverse(Walked(r)) && OnlyForgets(r, Walked(r))
  {
  }

  /** The element keeps its id. */
  lemma SameIdKeeps(r: Registry, e: Element, f: Option<string>)
    requires Inverse(r) && e in r.ids && !Changed(r, e, f)
    ensures Inverse(LookedUp(r, e, f)) && OnlyForgets(r, LookedUp(r, e, f))
  {
  }

  /** The element gets the next id, and loses the one it had. */
  lemma NewIdKeeps(r: Registry, e: Element, f: Option<string>)
    requires Inverse(r) && (e !in r.ids || Changed(r, e, f))
    ensures Inverse(LookedUp(r, e, f)) && OnlyForgets(r, LookedUp(r, e, f))
  {
    hide Changed; hide Mutual; hide Dated; hide LookedUp; hide OnlyForgets;
    var t, gone := LookedUp(r, e, f), if e in r.ids then {r.ids[e]} else {};
    LookupIs(r, e, f);
    assert r.elements - {} == r.elements && r.seen - {} == r.seen && r.fingerprints - {} == r.fingerprints;
    assert t == Registry(r.ids[e := r.next], (r.elements - gone)[r.next := e], Noted(r.fingerprints - gone, r.next, f),
                         (r.seen - gone)[r.next := r.generation], r.next + 1, r.generation);
    NewIdMutual(r, e, gone, t);
    NewIdDated(r, e, f, gone, t);
  }

  lemma NewIdMutual(r: Registry, e: Element, gone: set<Id>, t: Registry)
    requires Mutual(r) && gone == if e in r.ids then {r.ids[e]} else {}
    requires t.ids == r.ids[e := r.next] && t.elements == (r.elements - gone)[r.next := e] && t.next == r.next + 1
    ensures Mutual(t) && OnlyForgets(r, t)
  {
    forall x | x in t.ids ensures t.ids[x] in t.elements && t.elements[t.ids[x]] == x {
      if x != e { assert r.elements[r.ids[x]] == x; }
    }
    forall i | i in t.elements ensures t.elements[i] in t.ids && t.ids[t.elements[i]] == i && 0 < i < t.next {
      if i != r.next { assert i in r.elements && i !in gone; }
    }
  }

  lemma NewIdDated(r: Registry, e: Element, f: Option<string>, gone: set<Id>, t: Registry)
    requires Dated(r) && t.elements == (r.elements - gone)[r.next := e] && t.generation == r.generation
    requires t.seen == (r.seen - gone)[r.next := r.generation]
    requires t.fingerprints == Noted(r.fingerprints - gone, r.next, f)
    ensures Dated(t)
  {
  }

  lemma PruneKeeps(r: Registry, gone: set<Id>)
    requires Inverse(r)
    ensures Inverse(PrunedBy(r, gone)) && OnlyForgets(r, PrunedBy(r, gone))
  {
  }

  lemma AfterKeeps(r: Registry, event: Event)
    requires Inverse(r)
    ensures Inverse(After(r, event)) && OnlyForgets(r, After(r, event))
  {
    hide Inverse; hide OnlyForgets; hide LookedUp; hide PrunedBy; hide Changed; hide Walked;
    match event {
      case Walk => WalkKeeps(r);
      case Lookup(e, f) => if e in r.ids && !Changed(r, e, f) { SameIdKeeps(r, e, f); } else { NewIdKeeps(r, e, f); }
      case Prune => PruneKeeps(r, Stale(r));
    }
  }

  lemma {:induction false} RunKeeps(run: seq<Registry>, events: seq<Event>, n: nat)
    requires Run(run, events) && n < |run|
    ensures Inverse(run[n])
  {
    hide Inverse; hide OnlyForgets; hide After;
    if n == 0 {
      assert Inverse(EMPTY) by { EmptyInverse(); }
    } else {
      RunKeeps(run, events, n - 1);
      AfterKeeps(run[n - 1], events[n - 1]);
      assert run[n - 1 + 1] == After(run[n - 1], events[n - 1]);
    }
  }

  lemma EmptyInverse()
    ensures Inverse(EMPTY)
  {
  }

  /** Over every run the two tables stay inverse, and an id issued before the moment `m` names, ever
      after, the element it named then or nothing: it is never given to another element, and one that
      stopped resolving never resolves again. */
  lemma {:induction false} IdsAreNeverReissued(run: seq<Registry>, events: seq<Event>, m: nat, n: nat)
    requires Run(run, events) && m <= n < |run|
    ensures Inverse(run[n]) && OnlyForgets(run[m], run[n])
    decreases n
  {
    hide Inverse; hide After;
    RunKeeps(run, events, n);
    if m < n {
      IdsAreNeverReissued(run, events, m, n - 1);
      AfterKeeps(run[n - 1], events[n - 1]);
      assert run[n - 1 + 1] == After(run[n - 1], events[n - 1]);
    }
  }

  /** A changed fingerprint gives the element a new id and retires the old one. */
  lemma ChangeRetires(r: Registry, e: Element, fingerprint: Option<string>)
    requires Inverse(r) && Changed(r, e, fingerprint)
    ensures var t := LookedUp(r, e, fingerprint);
            && r.ids[e] !in t.elements && IdOf(r, e, fingerprint) !in r.elements
            && t.ids[e] == IdOf(r, e, fingerprint) != r.ids[e] && t.elements[t.ids[e]] == e
  {
  }

  /** The id, as long as it resolves, has this fingerprint. */
  predicate Marked(r: Registry, id: Id, e: Element, f: string) {
    id < r.next && (id in r.elements ==> r.elements[id] == e && id in r.fingerprints && r.fingerprints[id] == f)
  }

  lemma LookupMarks(r: Registry, e: Element, f: string)
    requires Inverse(r)
    ensures var t := LookedUp(r, e, Some(f)); e in t.ids && Marked(t, t.ids[e], e, f)
  {
  }

  /** Whatever happens, short of looking the element up with a fingerprint. */
  lemma StaysMarked(r: Registry, event: Event, id: Id, e: Element, f: string)
    requires Inverse(r) && Marked(r, id, e, f)
    requires event.Lookup? && event.element == e ==> event.fingerprint.None?
    ensures Marked(After(r, event), id, e, f)
  {
    hide Dated;
    if event.Lookup? { LookupIs(r, event.element, event.fingerprint); hide LookedUp; }
  }

  lemma {:induction false} MarkedFrom(run: seq<Registry>, events: seq<Event>, m: nat, n: nat, e: Element, f: string)
    requires Run(run, events) && m < n < |run| && events[m] == Lookup(e, Some(f))
    requires forall k :: m < k < n && events[k].Lookup? && events[k].element == e ==> events[k].fingerprint.None?
    ensures e in run[m + 1].ids && Marked(run[n], run[m + 1].ids[e], e, f)
    decreases n
  {
    hide Inverse; hide After; hide Marked; hide LookedUp;
    RunKeeps(run, events, n - 1);
    assert run[n - 1 + 1] == After(run[n - 1], events[n - 1]);
    if n == m + 1 {
      LookupMarks(run[m], e, f);
      LookupResolves(run[m], e, Some(f));
    } else {
      MarkedFrom(run, events, m, n - 1, e, f);
      StaysMarked(run[n - 1], events[n - 1], run[m + 1].ids[e], e, f);
    }
  }

  lemma LookupTells(r: Registry, e: Element, id: Id, f: string, g: string)
    requires Inverse(r) && Marked(r, id, e, f) && id in r.elements
    ensures var t := LookedUp(r, e, Some(g));
            e in t.ids && (t.ids[e] != id <==> f != g) && (id !in t.elements <==> f != g)
  {
    assert r.ids[e] == id;
  }

  /** Over every run, an element looked up with one fingerprint and then with another gets another id,
      and its old id stops resolving; looked up with the same one it keeps its id. */
  lemma RecycledViewGetsANewId(run: seq<Registry>, events: seq<Event>, m: nat, n: nat, e: Element, f: string,
                               g: string)
    requires Run(run, events) && m < n < |events|
    requires events[m] == Lookup(e, Some(f)) && events[n] == Lookup(e, Some(g))
    requires forall k :: m < k < n && events[k].Lookup? && events[k].element == e ==> events[k].fingerprint.None?
    ensures e in run[m + 1].ids && e in run[n + 1].ids
    ensures var id := run[m + 1].ids[e];
            id in run[n].elements ==>
              && (run[n + 1].ids[e] != id <==> f != g)
              && (id !in run[n + 1].elements <==> f != g)
  {
    hide Inverse; hide Marked; hide LookedUp; hide After;
    MarkedFrom(run, events, m, n, e, f);
    RunKeeps(run, events, n);
    LookupMarks(run[n], e, g);
    LookupResolves(run[n], e, Some(g));
    var id := run[m + 1].ids[e];
    if id in run[n].elements { LookupTells(run[n], e, id, f, g); }
  }

  /** Forgetting takes exactly the ids not seen in the last eight walks. */
  lemma PruneIsExact(r: Registry)
    requires Inverse(r)
    ensures forall i :: i in Pruned(r).elements <==> i in r.seen && r.generation <= r.seen[i] + 8
  {
  }

  /** No lookup between `m` and `n` finds the element showing something else. */
  ghost predicate Steady(run: seq<Registry>, events: seq<Event>, m: nat, n: nat, e: Element)
    requires |run| == |events| + 1 && n < |run|
  {
    forall k :: m <= k < n && events[k].Lookup? && events[k].element == e ==> !Changed(run[k], e, events[k].fingerprint)
  }

  /** An id handed out in walk `g` resolves to its element through walk `g + 8`, whatever is walked,
      looked up and pruned in between, unless the element comes back showing something else. */
  lemma {:induction false} RefreshedIdResolves(run: seq<Registry>, events: seq<Event>, m: nat, n: nat, e: Element,
                                               f: Option<string>)
    requires Run(run, events) && m < n < |run| && events[m] == Lookup(e, f) && Steady(run, events, m + 1, n, e)
    requires run[n].generation <= run[m].generation + 8
    ensures var id := IdOf(run[m], e, f);
            id in run[n].elements && run[n].elements[id] == e && id in run[n].seen
                && run[n].seen[id] >= run[m].generation
    decreases n
  {
    hide Inverse; hide LookedUp; hide PrunedBy; hide Changed; hide IdOf; hide After;
    RunKeeps(run, events, m);
    RunKeeps(run, events, n - 1);
    var id := IdOf(run[m], e, f);
    assert run[n - 1 + 1] == After(run[n - 1], events[n - 1]);
    if n == m + 1 {
      LookupResolves(run[m], e, f);
    } else {
      GenerationGrows(run[n - 1], events[n - 1]);
      assert Steady(run, events, m + 1, n - 1, e);
      RefreshedIdResolves(run, events, m, n - 1, e, f);
      StillThere(run[n - 1], events[n - 1], id, e, run[m].generation);
    }
  }

  lemma GenerationGrows(r: Registry, event: Event)
    ensures r.generation <= After(r, event).generation
  {
  }

  lemma StillThere(r: Registry, event: Event, id: Id, e: Element, g: nat)
    requires Inverse(r) && id in r.elements && r.elements[id] == e && r.seen[id] >= g
    requires After(r, event).generation <= g + KEPT_WALKS
    requires event.Lookup? && event.element == e ==> !Changed(r, e, event.fingerprint)
    ensures var t := After(r, event); id in t.elements && t.elements[id] == e && id in t.seen && t.seen[id] >= g
  {
  }

  // ----- The object -----

  class ElementRegistry {
    var ids: map<Element, Id>
    var fingerprints: map<Id, string>
    var elements: map<Id, Element>
    var seen: map<Id, nat>
    var next: Id
    var generation: nat

    function View(): Registry
      reads this
    {
      Registry(ids, elements, fingerprints, seen, next, generation)
    }

    constructor ()
      ensures View() == EMPTY && Inverse(View())
    {
      ids, fingerprints, elements, seen, next, generation := map[], map[], map[], map[], 1, 0;
    }

    method BeginWalk()
      requires Inverse(View())
      modifies this`generation
      ensures View() == Walked(old(View())) && Inverse(View())
    {
      generation := generation + 1;
    }

    method IdFor(element: Element, fingerprint: Option<string>) returns (id: Id)
      requires Inverse(View())
      modifies this
      ensures View() == LookedUp(old(View()), element, fingerprint) && Inverse(View())
      ensures id == IdOf(old(View()), element, fingerprint) && id in elements && elements[id] == element
    {
      hide Inverse; hide OnlyForgets; hide LookedUp;
      AfterKeeps(View(), Lookup(element, fingerprint));
      LookupResolves(View(), element, fingerprint);
      LookupIs(View(), element, fingerprint);
      if element in ids {
        id := ids[element];
        if fingerprint.Some? && id in fingerprints && fingerprints[id] != fingerprint.value {
          elements := elements - {id};
          fingerprints := fingerprints - {id};
          seen := seen - {id};
        } else {
          fingerprints := Noted(fingerprints, id, fingerprint);
          seen := seen[id := generation];
          return;
        }
      }
      id := next;
      next := next + 1;
      ids := ids[element := id];
      elements := elements[id := element];
      seen := seen[id := generation];
      fingerprints := Noted(fingerprints, id, fingerprint);
    }

    /** Forgets what was not seen in the last walks. */
    method Forget()
      requires Inverse(View())
      modifies this
      ensures View() == Pruned(old(View())) && Inverse(View())
      ensures forall i :: i in elements <==> i in old(seen) && old(generation) <= old(seen[i]) + 8
    {
      hide Inverse; hide OnlyForgets; hide PrunedBy;
      AfterKeeps(View(), Prune);
      ghost var before := View();
      SamePruned(before);
      if generation <= KEPT_WALKS {
        assert Stale(before) == {};
        PruneIsExact(before);
        return;
      }
      var cutoff := generation - KEPT_WALKS;
      var todo := set i | i in seen && seen[i] < cutoff;
      ghost var stale := todo;
      assert stale == Stale(before) && stale <= before.seen.Keys && stale - todo == {};
      hide Stale;
      while todo != {}
        invariant todo <= stale && View() == PrunedBy(before, stale - todo)
        decreases |todo|
      {
        var id :| id in todo;
        OneOut(before, stale, todo, id);
        if id in elements {
          ids := ids - {elements[id]};
          elements := elements - {id};
        }
        seen := seen - {id};
        fingerprints := fingerprints - {id};
        todo := todo - {id};
      }
      assert stale - todo == Stale(before);
      PruneIsExact(before);
    }
  }

  lemma OneOut(r: Registry, stale: set<Id>, todo: set<Id>, id: Id)
    requires Inverse(r) && id in todo && todo <= stale <= r.seen.Keys
    ensures var p := PrunedBy(r, stale - todo);
            && id in p.elements
            && PrunedBy(r, stale - (todo - {id})) == p.(ids := p.ids - {p.elements[id]}, elements := p.elements - {id},
                                              fingerprints := p.fingerprints - {id}, seen := p.seen - {id})
  {
    var gone := stale - todo;
    assert stale - (todo - {id}) == gone + {id};
    assert Outside(r, gone + {id}) == Outside(r, gone) - {r.elements[id]};
    assert r.elements - (gone + {id}) == r.elements - gone - {id};
    assert r.fingerprints - (gone + {id}) == r.fingerprints - gone - {id};
    assert r.seen - (gone + {id}) == r.seen - gone - {id};
  }

  lemma LookupIs(r: Registry, e: Element, f: Option<string>)
    ensures e in r.ids && !Changed(r, e, f) ==>
              LookedUp(r, e, f)
                  == r.(fingerprints := Noted(r.fingerprints, r.ids[e], f), seen := r.seen[r.ids[e] := r.generation])
    ensures e in r.ids && Changed(r, e, f) ==>
              var i := r.ids[e];
              LookedUp(r, e, f) == Registry(r.ids[e := r.next], (r.elements - {i})[r.next := e],
                                            Noted(r.fingerprints - {i}, r.next, f),
                                            (r.seen - {i})[r.next := r.generation], r.next + 1, r.generation)
    ensures e !in r.ids ==>
              LookedUp(r, e, f)
                  == Registry(r.ids[e := r.next], r.elements[r.next := e], Noted(r.fingerprints, r.next, f),
                                            r.seen[r.next := r.generation], r.next + 1, r.generation)
  {
    assert r.elements - {} == r.elements && r.fingerprints - {} == r.fingerprints && r.seen - {} == r.seen;
  }

  lemma LookupResolves(r: Registry, e: Element, fingerprint: Option<string>)
    requires Inverse(r)
    ensures var t, id := LookedUp(r, e, fingerprint), IdOf(r, e, fingerprint);
            id in t.elements && t.elements[id] == e && id in t.seen && t.seen[id] == r.generation
    ensures After(r, Lookup(e, fingerprint)) == LookedUp(r, e, fingerprint)
  {
  }

  lemma SamePruned(r: Registry)
    ensures PrunedBy(r, {}) == r
  {
    assert Outside(r, {}) == r.ids;
    assert r.elements - {} == r.elements && r.fingerprints - {} == r.fingerprints && r.seen - {} == r.seen;
  }
}
