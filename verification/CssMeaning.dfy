/** The rewrite keeps what a stylesheet means in a browser that has `color-mix()` and `@property`. */
module CssMeaning {
  import opened Basics
  import opened CssLex
  import opened CssParse
  import opened CssSplit
  import opened CssStrip
  import opened CssCascade
  import opened CssReplace

  // ----- Where the rewrite changes something -----

  /** The block takes the place of the rule before it. */
  predicate Replaces(out: seq<Node>, node: Node) {
    && node.Group? && Squash(node.prelude) == COLOR_MIX && out != []
    && ReplaceFallbacks(out[|out| - 1], node.children).Some?
  }

  /** What the rewrite does with the next node is fair to one element in one browser: the condition of
      a replaced block holds and every selector keeps its own declarations; the conditions inside a
      dropped reset do not hold. Everything else it leaves alone. */
  predicate FairAt(v: Viewer, key: string -> string, out: seq<Node>, node: Node) {
    if Replaces(out, node) then
      var before := [out[|out| - 1], node.children[0]];
      var after := ReplaceFallbacks(before[0], node.children).value;
      && v.active(node.prelude) && Respects(v, key, TextsOf(before) + TextsOf(after))
      && SelectorWise(key, before, after)
    else
      IsPropertyReset(node) ==> forall child :: child in node.children ==> !v.active(child.prelude)
  }

  /** The same along the whole rewrite, at every nesting. */
  predicate Fair(v: Viewer, key: string -> string, out: seq<Node>, nodes: seq<Node>)
    decreases nodes
  {
    nodes == [] ||
    (&& (nodes[0].Group? ==> Fair(v, key, [], nodes[0].children))
     && FairAt(v, key, out, StripNode(nodes[0]))
     && Fair(v, key, Place(out, StripNode(nodes[0])), nodes[1..]))
  }

  // ----- The rewrite keeps what wins -----

  lemma BestNone(a: Option<Entry>)
    ensures Best(a, None) == a && Best(None, a) == a
  {
  }

  lemma MixIsNoLayer(p: string)
    requires Squash(p) == COLOR_MIX
    ensures !NamedAt(p, "layer")
  {
    if |p| >= 6 && p[0] == '@' {
      assert p[1..6][0] == p[1] && LowerCase(p[1..6])[0] == Lower(p[1]);
      if !IsSpace(p[1]) {
        assert Squash(p) == [p[0]] + ([p[1]] + Squash(p[1..][1..]));
        assert p[1] == Squash(p)[1] == 's';
      }
    }
  }

  /** A reset for browsers without `@property` says nothing where its conditions do not hold. */
  lemma {:induction false} ResetIsSilent(v: Viewer, children: seq<Node>, layers: seq<string>)
    requires forall child :: child in children ==> child.Group? && !v.active(child.prelude)
    ensures Entries(v, children, layers) == []
  {
    if children != [] {
      assert children == [children[0]] + children[1..];
      ResetIsSilent(v, children[1..], layers);
    }
  }

  lemma MixedIsInner(v: Viewer, node: Node, layers: seq<string>, property: string)
    requires node.Group? && Squash(node.prelude) == COLOR_MIX && v.active(node.prelude) && |node.children| == 1
    ensures Wins(v, [node], layers, property) == Wins(v, [node.children[0]], layers, property)
  {
    hide Squash; hide NamedAt;
    MixIsNoLayer(node.prelude);
    OneWins(v, node, layers, property);
    assert node.children == [node.children[0]];
  }

  lemma ResetWinsNothing(v: Viewer, node: Node, layers: seq<string>, property: string)
    requires IsPropertyReset(node) && forall child :: child in node.children ==> !v.active(child.prelude)
    ensures Wins(v, [node], layers, property) == None
  {
    hide Squash; hide IsResetRule; hide NamedAt;
    OneWins(v, node, layers, property);
    assert forall child :: child in node.children ==> IsResetSupports(child);
    ResetIsSilent(v, node.children, Within(layers, node.prelude));
  }

  lemma OnlyChild(previous: Node, supports: seq<Node>)
    requires ReplaceFallbacks(previous, supports).Some?
    ensures previous.Rule? && |supports| == 1 && supports == [supports[0]] && supports[0].Rule?
  {
    hide Parts; hide Join; hide Override; hide Staying; hide Squash;
  }

  /** A replacement adds what the block wins to what was won before. */
  lemma ReplacedKeeps(v: Viewer, key: string -> string, out: seq<Node>, node: Node, layers: seq<string>,
                      property: string)
    requires Replaces(out, node) && FairAt(v, key, out, node)
    ensures Wins(v, Place(out, node), layers, property)
            == Best(Wins(v, out, layers, property), Wins(v, [node], layers, property))
  {
    hide Squash; hide Wins; hide ReplaceFallbacks; hide Best; hide Respects; hide SelectorWise; hide Others;
    hide SelectorsOf;
    var n := |out| - 1;
    OnlyChild(out[n], node.children);
    var front, last, inner := out[..n], out[n], node.children[0];
    var r := ReplaceFallbacks(last, node.children).value;
    assert out == front + [last] && [last, inner] == [last] + [inner];
    ReplaceKeeps(v, key, last.prelude, last.body, inner.prelude, inner.body, layers, property);
    WinsCat(v, front, r, layers, property);
    WinsCat(v, front, [last], layers, property);
    WinsCat(v, [last], [inner], layers, property);
    MixedIsInner(v, node, layers, property);
    var a, b, c := Wins(v, front, layers, property), Wins(v, [last], layers, property),
        Wins(v, [node], layers, property);
    BestAssociates(a, b, c);
  }

  /** Placing a node adds what it wins to what was won before. */
  lemma PlaceKeeps(v: Viewer, key: string -> string, out: seq<Node>, node: Node, layers: seq<string>, property: string)
    requires FairAt(v, key, out, node)
    ensures Wins(v, Place(out, node), layers, property)
            == Best(Wins(v, out, layers, property), Wins(v, [node], layers, property))
  {
    hide Squash; hide Wins; hide IsPropertyReset; hide ReplaceFallbacks; hide Best;
    if Replaces(out, node) {
      ReplacedKeeps(v, key, out, node, layers, property);
    } else if IsPropertyReset(node) {
      ResetWinsNothing(v, node, layers, property);
      BestNone(Wins(v, out, layers, property));
      ResetIsGroup(node);
    } else {
      WinsCat(v, out, [node], layers, property);
    }
  }

  lemma ResetIsGroup(node: Node)
    requires IsPropertyReset(node)
    ensures node.Group?
  {
  }

  lemma StripNodeKeeps(v: Viewer, key: string -> string, node: Node, layers: seq<string>, property: string)
    requires node.Group? ==> Fair(v, key, [], node.children)
    ensures Wins(v, [StripNode(node)], layers, property) == Wins(v, [node], layers, property)
    decreases node, 0
  {
    hide Strip; hide Entries; hide Fair;
    OneWins(v, node, layers, property);
    OneWins(v, StripNode(node), layers, property);
    if node.Group? {
      StripKeeps(v, key, node.children, Within(layers, node.prelude), property);
    }
  }

  lemma StripIntoKeeps(v: Viewer, key: string -> string, out: seq<Node>, nodes: seq<Node>,
                       layers: seq<string>, property: string)
    requires Fair(v, key, out, nodes)
    ensures Wins(v, StripInto(out, nodes), layers, property)
            == Best(Wins(v, out, layers, property), Wins(v, nodes, layers, property))
    decreases nodes, 0
  {
    hide Wins; hide Place; hide StripNode; hide FairAt; hide Best;
    if nodes == [] {
      NothingWins(v, layers, property);
      BestNone(Wins(v, out, layers, property));
    } else {
      var node := StripNode(nodes[0]);
      StripNodeKeeps(v, key, nodes[0], layers, property);
      PlaceKeeps(v, key, out, node, layers, property);
      StripIntoKeeps(v, key, Place(out, node), nodes[1..], layers, property);
      WinsCat(v, [nodes[0]], nodes[1..], layers, property);
      assert nodes == [nodes[0]] + nodes[1..];
      var first, rest := Wins(v, [nodes[0]], layers, property), Wins(v, nodes[1..], layers, property);
      BestAssociates(Wins(v, out, layers, property), first, rest);
    }
  }

  lemma NothingWins(v: Viewer, layers: seq<string>, property: string)
    ensures Wins(v, [], layers, property) == None
  {
  }

  /** The rewrite keeps the winning declaration of every property of every element it is fair to. */
  lemma StripKeeps(v: Viewer, key: string -> string, nodes: seq<Node>, layers: seq<string>, property: string)
    requires Fair(v, key, [], nodes)
    ensures Wins(v, Strip(nodes), layers, property) == Wins(v, nodes, layers, property)
    decreases nodes, 1
  {
    hide Wins; hide StripInto; hide Fair; hide Best;
    StripIntoKeeps(v, key, [], nodes, layers, property);
    NothingWins(v, layers, property);
    BestNone(Wins(v, nodes, layers, property));
  }

  // ----- A rule and its block: the exact condition -----

  lemma PairStrips(mix: string, previous: Node, inner: Node)
    requires Squash(mix) == COLOR_MIX && previous.Rule? && inner.Rule?
    ensures Strip([previous, Group(mix, [inner])]) ==
            match ReplaceFallbacks(previous, [inner])
            case Some(r) => r
            case None => [previous, Group(mix, [inner])]
  {
    hide Squash; hide ReplaceFallbacks; hide IsPropertyReset;
    var nodes := [previous, Group(mix, [inner])];
    assert nodes[1..] == [Group(mix, [inner])] && nodes[1..][1..] == [] && [inner][1..] == [];
    StripOne(inner);
    MixIsNoReset(Group(mix, [inner]));
    assert Place([], previous) == [previous];
    assert StripInto([], nodes) == StripInto([previous], nodes[1..]);
    assert [previous][..0] == [];
    assert StripInto([previous], nodes[1..]) == StripInto(Place([previous], Group(mix, [inner])), []);
  }

  lemma StripOne(rule: Node)
    requires rule.Rule?
    ensures Strip([rule]) == [rule]
  {
    assert [rule][1..] == [];
    assert StripInto([], [rule]) == StripInto(Place([], rule), []);
  }

  lemma MixIsNoReset(node: Node)
    requires node.Group? && Squash(node.prelude) == COLOR_MIX
    ensures !IsPropertyReset(node)
  {
  }

  /** A stylesheet of one rule and its block means the same after the rewrite, to every element in every
      browser that has `color-mix()` and takes the texts `key` takes for one selector for one, if and
      only if every selector on its own is given the same before and after. */
  lemma PairExact(key: string -> string, mix: string, p: string, b: string, q: string, c: string)
    requires Squash(mix) == COLOR_MIX && ReplaceFallbacks(Rule(p, b), [Rule(q, c)]).Some?
    ensures var nodes, two := [Rule(p, b), Group(mix, [Rule(q, c)])], [Rule(p, b), Rule(q, c)];
            (forall v: Viewer, layers: seq<string>, property: string ::
               v.active(mix) && Respects(v, key, TextsOf(two) + TextsOf(Strip(nodes))) ==>
               Wins(v, Strip(nodes), layers, property) == Wins(v, nodes, layers, property))
            <==> SelectorWise(key, two, Strip(nodes))
  {
    hide Squash; hide ReplaceFallbacks; hide Wins; hide SelectorWise; hide Respects; hide Others; hide SelectorsOf;
    hide Strip;
    var nodes, two := [Rule(p, b), Group(mix, [Rule(q, c)])], [Rule(p, b), Rule(q, c)];
    PairStrips(mix, Rule(p, b), Rule(q, c));
    ReplaceExact(key, p, b, q, c);
    forall v: Viewer, layers: seq<string>, property: string | v.active(mix)
      ensures Wins(v, nodes, layers, property) == Wins(v, two, layers, property)
    {
      PairWins(v, mix, Rule(p, b), Rule(q, c), layers, property);
    }
    if !SelectorWise(key, two, Strip(nodes)) {
      var v: Viewer, layers: seq<string>, property: string :|
        && Respects(v, key, TextsOf(two) + TextsOf(Strip(nodes)))
        && Wins(v, Strip(nodes), layers, property) != Wins(v, two, layers, property);
      var w := v.(active := s => true);
      ReplacedIs(p, b, q, c);
      SameActive(v, w, Strip(nodes), layers, property);
      SameActive(v, w, two, layers, property);
      RespectsActive(v, w, key, TextsOf(two) + TextsOf(Strip(nodes)));
      assert w.active(mix) && Wins(w, Strip(nodes), layers, property) != Wins(w, nodes, layers, property);
    }
  }

  lemma PairWins(v: Viewer, mix: string, previous: Node, inner: Node, layers: seq<string>, property: string)
    requires Squash(mix) == COLOR_MIX && v.active(mix)
    ensures Wins(v, [previous, Group(mix, [inner])], layers, property) == Wins(v, [previous, inner], layers, property)
  {
    hide Squash; hide Wins; hide Best;
    assert [previous, Group(mix, [inner])] == [previous] + [Group(mix, [inner])];
    assert [previous, inner] == [previous] + [inner];
    WinsCat(v, [previous], [Group(mix, [inner])], layers, property);
    WinsCat(v, [previous], [inner], layers, property);
    MixedIsInner(v, Group(mix, [inner]), layers, property);
  }

  lemma RespectsActive(v: Viewer, w: Viewer, key: string -> string, texts: seq<string>)
    requires v.matches == w.matches && v.specificity == w.specificity && Respects(v, key, texts)
    ensures Respects(w, key, texts)
  {
    assert forall a, b :: Alike(v, a, b) <==> Alike(w, a, b);
  }

  /** Rules alone do not ask which conditions hold. */
  lemma {:induction false} SameActive(v: Viewer, w: Viewer, rules: seq<Node>, layers: seq<string>, property: string)
    requires AllRules(rules) && w == v.(active := w.active)
    ensures Wins(w, rules, layers, property) == Wins(v, rules, layers, property)
  {
    if rules == [] {
      NothingWins(v, layers, property);
      NothingWins(w, layers, property);
    } else {
      hide Wins; hide Parts; hide SelectorsOf; hide Best; hide Says; hide Highest; hide RuleClaim;
      var first, rest := rules[0], rules[1..];
      SameActive(v, w, rest, layers, property);
      assert rules == [first] + rest;
      WinsCat(v, [first], rest, layers, property);
      WinsCat(w, [first], rest, layers, property);
      RuleWins(v, first.prelude, first.body, layers, property);
      RuleWins(w, first.prelude, first.body, layers, property);
      SameHighest(v, w, SelectorsOf(first.prelude));
    }
  }

  lemma {:induction false} SameHighest(v: Viewer, w: Viewer, selectors: seq<string>)
    requires v.matches == w.matches && v.specificity == w.specificity
    ensures Highest(v, selectors) == Highest(w, selectors)
  {
    if selectors != [] { SameHighest(v, w, selectors[1..]); }
  }
}
