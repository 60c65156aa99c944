/** What the rewrite must not leave behind, written out on the nodes and their texts: no reset layer,
    and no `color-mix()` block after a rule that can take its declarations, at any depth. */
module CssLeftovers {
  import opened Basics
  import opened CssLex
  import opened CssParse
  import opened CssSplit
  import opened CssStrip

  // ----- The texts -----

  function WithoutSpace(s: string): string {
    Filter(s, c => !IsSpace(c))
  }

  lemma {:induction false} SquashIs(s: string)
    ensures Squash(s) == WithoutSpace(s)
  {
    hide IsSpace;
    if s != "" { SquashIs(s[1..]); }
  }

  /** A declaration's name stands before its first colon; without one the last character does not count. */
  predicate NameEnds(d: string, n: nat) {
    if ':' in d then n < |d| && d[n] == ':' && ':' !in d[..n] else n == if d == "" then 0 else |d| - 1
  }

  /** Two declarations set the same property, in any case. */
  predicate SameProperty(d: string, e: string) {
    exists m: nat, n: nat ::
      NameEnds(d, m) && NameEnds(e, n) && m <= |d| && n <= |e| && SameLetters(Trim(d[..m]), Trim(e[..n]))
  }

  lemma {:induction false} IndexOfIs(s: string, c: char)
    ensures c !in s[..IndexOf(s, c)] && (c in s ==> s[IndexOf(s, c)] == c)
  {
    if s != "" && s[0] != c {
      IndexOfIs(s[1..], c);
      var n := IndexOf(s, c);
      assert s[..n] == [s[0]] + s[1..][..n - 1];
    }
  }

  lemma PropertyEnds(d: string) returns (n: nat)
    ensures n <= |d| && NameEnds(d, n) && PropertyOf(d) == LowerCase(Trim(d[..n]))
    ensures forall m: nat :: NameEnds(d, m) ==> m == n
  {
    hide Trim; hide LowerCase;
    IndexOfIs(d, ':');
    var k := IndexOf(d, ':');
    n := if k < |d| || k == 0 then k else k - 1;
  }

  lemma PropertyIs(d: string, e: string)
    ensures PropertyOf(d) == PropertyOf(e) <==> SameProperty(d, e)
  {
    hide Trim; hide LowerCase; hide PropertyOf; hide NameEnds; hide SameLetters;
    var m := PropertyEnds(d);
    var n := PropertyEnds(e);
    LowerCaseIs(Trim(d[..m]), Trim(e[..n]));
  }

  // ----- The two things to remove -----

  /** A layer of resets, for browsers without `@property`. */
  predicate IsReset(node: Node) {
    && node.Group? && WithoutSpace(node.prelude) == "@layerproperties"
    && forall i :: 0 <= i < |node.children| ==> HoldsResets(node.children[i])
  }

  predicate HoldsResets(node: Node) {
    && node.Group? && "@supports" <= node.prelude
    && forall i :: 0 <= i < |node.children| ==> ResetsOnly(node.children[i])
  }

  predicate ResetsOnly(node: Node) {
    && node.Rule? && "*" <= node.prelude
    && forall d :: d in Parts(node.body, ';') ==> "--" <= d
  }

  /** Every declaration of one rule has one of the same property in the other. */
  predicate HaveFallbacks(declarations: seq<string>, fallbacks: seq<string>) {
    forall d :: d in declarations ==> exists e :: e in fallbacks && SameProperty(d, e)
  }

  /** The selectors without their white space, each once. */
  function Named(selectors: seq<string>): set<string> {
    set x | x in selectors :: WithoutSpace(x)
  }

  /** The rule holds the fallbacks of a block for browsers with `color-mix()`. */
  predicate CanTake(rule: Node, node: Node) {
    && rule.Rule? && !("@" <= rule.prelude)
    && node.Group? && WithoutSpace(node.prelude) == "@supports(color:color-mix(inlab,red,red))"
    && |node.children| == 1 && node.children[0].Rule?
    && HaveFallbacks(Parts(node.children[0].body, ';'), Parts(rule.body, ';'))
    && var moving := Named(Parts(node.children[0].prelude, ','));
       |Filter(Parts(rule.prelude, ','), x => WithoutSpace(x) in moving)| == |moving|
  }

  /** Neither stands anywhere among the nodes or inside them. */
  predicate Clean(nodes: seq<Node>)
    decreases nodes
  {
    forall i :: 0 <= i < |nodes| ==>
      && !IsReset(nodes[i])
      && (i > 0 ==> !CanTake(nodes[i - 1], nodes[i]))
      && (nodes[i].Group? ==> Clean(nodes[i].children))
  }

  // ----- What the rewrite recognises -----

  lemma ResetIs(node: Node)
    ensures IsPropertyReset(node) <==> IsReset(node)
  {
    hide Squash; hide WithoutSpace; hide Parts;
    if node.Group? {
      SquashIs(node.prelude);
      forall i | 0 <= i < |node.children|
        ensures IsResetSupports(node.children[i]) <==> HoldsResets(node.children[i])
      {
        SupportsIs(node.children[i]);
      }
    }
  }

  lemma SupportsIs(node: Node)
    ensures IsResetSupports(node) <==> HoldsResets(node)
  {
    hide Parts;
    if node.Group? {
      forall i | 0 <= i < |node.children|
        ensures IsResetRule(node.children[i]) <==> ResetsOnly(node.children[i])
      {
      }
    }
  }

  /** Putting a declaration in the place of another of its property changes which ones there are in
      no way, so that each declaration can be looked for among the fallbacks as they were. */
  lemma {:induction false} OverrideIs(own: seq<string>, ds: seq<string>)
    ensures Override(own, ds).Some? <==> HaveFallbacks(ds, own)
    decreases |ds|
  {
    hide PropertyOf; hide SameProperty;
    if ds != [] {
      var n := LastOf(own, PropertyOf(ds[0]));
      forall e | e in own ensures PropertyOf(ds[0]) == PropertyOf(e) <==> SameProperty(ds[0], e) {
        PropertyIs(ds[0], e);
      }
      if n == |own| {
        assert ds[0] in ds && !exists e :: e in own && SameProperty(ds[0], e);
      } else {
        assert own[n] in own && SameProperty(ds[0], own[n]);
        OverrideIs(own[n := ds[0]], ds[1..]);
        FallbacksStay(own, n, ds[0], ds[1..]);
        FallbacksFirst(ds, own);
      }
    }
  }

  lemma FallbacksFirst(ds: seq<string>, own: seq<string>)
    requires ds != []
    ensures HaveFallbacks(ds, own) <==> HaveFallbacks([ds[0]], own) && HaveFallbacks(ds[1..], own)
  {
    hide SameProperty;
    assert ds[0] in ds && ds[0] in [ds[0]];
    assert forall d :: d in ds <==> d == ds[0] || d in ds[1..];
  }

  lemma FallbacksStay(own: seq<string>, n: nat, d: string, ds: seq<string>)
    requires n < |own| && PropertyOf(d) == PropertyOf(own[n])
    ensures HaveFallbacks(ds, own[n := d]) <==> HaveFallbacks(ds, own)
  {
    hide PropertyOf; hide SameProperty;
    var new' := own[n := d];
    forall x | x in ds
      ensures (exists e :: e in own && SameProperty(x, e)) <==> (exists e :: e in new' && SameProperty(x, e))
    {
      PropertyIs(x, d);
      PropertyIs(x, own[n]);
      assert d == new'[n] && d in new' && own[n] in own;
      if e :| e in own && SameProperty(x, e) {
        var i :| 0 <= i < |own| && own[i] == e;
        assert i != n ==> new'[i] == e && e in new';
      }
      if e :| e in new' && SameProperty(x, e) {
        var i :| 0 <= i < |new'| && new'[i] == e;
        assert i != n ==> own[i] == e && e in own;
      }
    }
  }

  lemma {:induction false} StayingRest(selectors: seq<string>, moved: set<string>)
    ensures |Staying(selectors, moved)| + |Filter(selectors, x => WithoutSpace(x) in moved)| == |selectors|
  {
    hide Squash; hide WithoutSpace;
    if selectors != [] {
      SquashIs(selectors[0]);
      StayingRest(selectors[1..], moved);
    }
  }

  lemma SquashedIs(selectors: seq<string>)
    ensures Squashed(selectors) == Named(selectors)
  {
    hide Squash; hide WithoutSpace;
    forall x ensures Squash(x) == WithoutSpace(x) {
      SquashIs(x);
    }
    assert forall i :: 0 <= i < |selectors| ==> selectors[i] in selectors;
  }

  lemma ReplacesIs(rule: Node, node: Node)
    ensures node.Group? && Squash(node.prelude) == COLOR_MIX && ReplaceFallbacks(rule, node.children).Some?
            <==> CanTake(rule, node)
  {
    hide Squash; hide WithoutSpace; hide Parts; hide HaveFallbacks; hide Override; hide Staying; hide Filter;
    hide Named; hide Squashed;
    if node.Group? && rule.Rule? && |node.children| == 1 && node.children[0].Rule? {
      var inner := node.children[0];
      SquashIs(node.prelude);
      OverrideIs(Parts(rule.body, ';'), Parts(inner.body, ';'));
      SquashedIs(Parts(inner.prelude, ','));
      StayingRest(Parts(rule.prelude, ','), Squashed(Parts(inner.prelude, ',')));
    } else if node.Group? {
      SquashIs(node.prelude);
    }
  }

  // ----- Nothing is left over -----

  lemma CleanAt(nodes: seq<Node>, i: nat)
    requires Clean(nodes) && i < |nodes|
    ensures !IsReset(nodes[i]) && (i > 0 ==> !CanTake(nodes[i - 1], nodes[i]))
    ensures nodes[i].Group? ==> Clean(nodes[i].children)
  {
    hide IsReset; hide CanTake;
  }

  lemma CleanFront(nodes: seq<Node>, k: nat)
    requires Clean(nodes) && k <= |nodes|
    ensures Clean(nodes[..k])
  {
    hide IsReset; hide CanTake;
  }

  lemma CleanNext(out: seq<Node>, node: Node)
    requires Clean(out) && !IsReset(node) && (out != [] ==> !CanTake(out[|out| - 1], node))
    requires node.Group? ==> Clean(node.children)
    ensures Clean(out + [node])
  {
    hide IsReset; hide CanTake;
  }

  lemma NoGroup(rule: Node, node: Node)
    requires !node.Group?
    ensures !IsReset(node) && !CanTake(rule, node)
  {
  }

  /** What is written in place of a rule are one or two rules. */
  lemma ReplacedRules(rule: Node, supports: seq<Node>)
    requires ReplaceFallbacks(rule, supports).Some?
    ensures var new' := ReplaceFallbacks(rule, supports).value;
            1 <= |new'| <= 2 && new'[0].Rule? && new'[|new'| - 1].Rule?
  {
    hide Squash; hide Parts; hide Override; hide Staying; hide Squashed; hide Join;
  }

  lemma PlaceCleans(out: seq<Node>, node: Node)
    requires Clean(out) && (node.Group? ==> Clean(node.children))
    ensures Clean(Place(out, node))
  {
    hide Squash; hide ReplaceFallbacks; hide IsPropertyReset; hide IsReset; hide CanTake; hide Clean;
    ResetIs(node);
    if out != [] { ReplacesIs(out[|out| - 1], node); }
    if !node.Group? && out != [] {
      NoGroup(out[|out| - 1], node);
    }
    if !node.Group? { NoGroup(node, node); }
    if Place(out, node) == out + [node] && !IsReset(node) && (out != [] ==> !CanTake(out[|out| - 1], node)) {
      CleanNext(out, node);
    } else if node.Group? && out != [] && CanTake(out[|out| - 1], node) {
      var rules := ReplaceFallbacks(out[|out| - 1], node.children).value;
      ReplacedRules(out[|out| - 1], node.children);
      CleanFront(out, |out| - 1);
      RulesClean(out[..|out| - 1], rules);
    }
  }

  lemma RulesClean(out: seq<Node>, rules: seq<Node>)
    requires Clean(out) && 1 <= |rules| <= 2 && rules[0].Rule? && rules[|rules| - 1].Rule?
    ensures Clean(out + rules)
  {
    hide IsReset; hide CanTake; hide Clean;
    var one := out + [rules[0]];
    NoGroup(rules[0], rules[0]);
    if out != [] { NoGroup(out[|out| - 1], rules[0]); }
    CleanNext(out, rules[0]);
    if |rules| == 1 {
      assert out + rules == one;
    } else {
      NoGroup(rules[0], rules[1]);
      CleanNext(one, rules[1]);
      assert out + rules == one + [rules[1]];
    }
  }

  lemma StripIntoCleans(out: seq<Node>, nodes: seq<Node>)
    requires Clean(out)
    ensures Clean(StripInto(out, nodes))
    decreases nodes, 0
  {
    hide Place; hide Clean;
    if nodes != [] {
      if nodes[0].Group? { NothingLeftOver(nodes[0].children); }
      PlaceCleans(out, StripNode(nodes[0]));
      StripIntoCleans(Place(out, StripNode(nodes[0])), nodes[1..]);
    }
  }

  /** At no depth of a rewritten tree is there a reset layer, or a `color-mix()` block right after a
      rule that can take its declarations. */
  lemma NothingLeftOver(nodes: seq<Node>)
    ensures Clean(Strip(nodes))
    decreases nodes, 1
  {
    assert Clean([]);
    StripIntoCleans([], nodes);
  }

  // ----- And nothing else is touched -----

  lemma PlaceAppends(out: seq<Node>, node: Node)
    requires !IsReset(node) && (out != [] ==> !CanTake(out[|out| - 1], node))
    ensures Place(out, node) == out + [node]
  {
    hide Squash; hide ReplaceFallbacks; hide IsPropertyReset; hide IsReset; hide CanTake;
    ResetIs(node);
    if out != [] { ReplacesIs(out[|out| - 1], node); }
  }

  lemma CleanStays(out: seq<Node>, nodes: seq<Node>)
    requires Clean(out + nodes)
    ensures StripInto(out, nodes) == out + nodes
    decreases nodes, 0
  {
    hide Place; hide Clean; hide IsReset; hide CanTake;
    if nodes == [] {
      assert out + nodes == out;
    } else {
      var all := out + nodes;
      CleanAt(all, |out|);
      assert all[|out|] == nodes[0];
      if out != [] { assert all[|out| - 1] == out[|out| - 1]; }
      if nodes[0].Group? { CleanIsKept(nodes[0].children); }
      PlaceAppends(out, nodes[0]);
      assert out + [nodes[0]] + nodes[1..] == all;
      CleanStays(out + [nodes[0]], nodes[1..]);
    }
  }

  lemma CleanIsKept(nodes: seq<Node>)
    requires Clean(nodes)
    ensures Strip(nodes) == nodes
    decreases nodes, 1
  {
    hide Clean;
    assert [] + nodes == nodes;
    CleanStays([], nodes);
  }

  /** The rewrite leaves a tree as it is exactly when there is nothing in it to rewrite, so a second
      rewrite changes nothing. */
  lemma LeftAlone(nodes: seq<Node>)
    ensures Strip(nodes) == nodes <==> Clean(nodes)
    ensures Strip(Strip(nodes)) == Strip(nodes)
  {
    hide Clean; hide StripInto; hide Strip;
    NothingLeftOver(nodes);
    CleanIsKept(Strip(nodes));
    if Clean(nodes) { CleanIsKept(nodes); }
  }
}
