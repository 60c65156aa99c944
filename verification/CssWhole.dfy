/** The rewrite as a whole, from text to text: the stylesheet it writes parses to the stripped tree, so
    a browser that reads it shows what it showed before. */
module CssWhole {
  import opened Basics
  import opened CssLex
  import opened CssParse
  import opened CssSplit
  import opened CssStrip
  import opened CssCascade
  import opened CssReplace
  import opened CssMeaning

  // ----- Braces -----

  /** A balanced text changes nothing about the braces around it. */
  lemma {:induction false} BalancedFront(b: seq<Lexeme>, rest: seq<Lexeme>, depth: int, n: nat)
    requires Balanced(b, depth) && depth >= 1
    ensures Balanced(b + rest, depth + n) <==> Balanced(rest, 1 + n)
  {
    if b == [] {
      assert b + rest == rest;
    } else {
      assert (b + rest)[1..] == b[1..] + rest;
      BalancedFront(b[1..], rest, depth + Level(b[0]), n);
    }
  }

  lemma {:induction false} BalancedSwap(x: seq<Lexeme>, a: seq<Lexeme>, b: seq<Lexeme>, y: seq<Lexeme>, depth: int)
    requires Balanced(a, 1) && Balanced(b, 1) && depth >= 1
    ensures Balanced(x + a + y, depth) <==> Balanced(x + b + y, depth)
  {
    if x == [] {
      assert x + a + y == a + y && x + b + y == b + y;
      BalancedFront(a, y, 1, depth - 1);
      BalancedFront(b, y, 1, depth - 1);
    } else {
      assert (x + a + y)[1..] == x[1..] + a + y && (x + b + y)[1..] == x[1..] + b + y;
      assert (x + a + y)[0] == x[0] == (x + b + y)[0];
      if !(x[0] == Ch('}') && depth == 1) { BalancedSwap(x[1..], a, b, y, depth + Level(x[0])); }
    }
  }

  lemma BalancedTwo(a: seq<Lexeme>, b: seq<Lexeme>)
    requires Balanced(a, 1) && Balanced(b, 1)
    ensures Balanced(a + b, 1)
  {
    BalancedFront(a, b, 1, 0);
  }

  // ----- Lists of nodes -----

  /** Every node is fit, none is an open text. */
  predicate AllFit(nodes: seq<Node>) {
    forall i :: 0 <= i < |nodes| ==> Fit(nodes[i])
  }

  lemma {:induction false} AllFitList(nodes: seq<Node>, tail: seq<Node>)
    requires AllFit(nodes) && FitList(tail)
    ensures FitList(nodes + tail)
  {
    hide Fit; hide Open;
    if nodes == [] {
      assert nodes + tail == tail;
    } else {
      assert (nodes + tail)[1..] == nodes[1..] + tail;
      AllFitList(nodes[1..], tail);
    }
  }

  lemma FitParts(n: Node)
    requires Fit(n)
    ensures Sound(n) && Closed(Lex(Print(n)))
  {
    FitSound(n);
  }

  lemma ClosedCat(a: seq<Lexeme>, b: seq<Lexeme>)
    ensures Closed(a + b) <==> Closed(a) && Closed(b)
  {
    hide Whole;
    if Closed(a + b) {
      forall i | 0 <= i < |a| ensures Whole(a[i]) { assert a[i] == (a + b)[i]; }
      forall i | 0 <= i < |b| ensures Whole(b[i]) { assert b[i] == (a + b)[|a| + i]; }
    }
  }

  /** Fit nodes print to lexemes of their own, whatever follows. */
  lemma {:induction false} SerializeCat(a: seq<Node>, b: seq<Node>)
    requires AllFit(a)
    ensures Lex(Serialize(a + b)) == Lex(Serialize(a)) + Lex(Serialize(b)) && Closed(Lex(Serialize(a)))
  {
    hide Lex; hide LexFrom; hide Print; hide Fit; hide Sound; hide Closed;
    if a == [] {
      assert a + b == b;
      EmptyLexed();
      assert Lex(Serialize(b)) == [] + Lex(Serialize(b));
      NothingClosed();
    } else {
      var n, rest := a[0], a[1..];
      FitParts(n);
      SerializeCat(rest, b);
      assert a == [n] + rest && a + b == [n] + (rest + b);
      SerializeLex(n, rest);
      SerializeLex(n, rest + b);
      ClosedCat(Lex(Print(n)), Lex(Serialize(rest)));
    }
  }

  lemma NothingClosed()
    ensures Closed([])
  {
  }

  lemma SerializeOne(n: Node)
    requires Fit(n)
    ensures Lex(Serialize([n])) == Lex(Print(n)) && Closed(Lex(Print(n)))
  {
    hide Lex; hide LexFrom; hide Print; hide Fit; hide Closed; hide Sound;
    FitParts(n);
    assert [n] + [] == [n];
    SerializeLex(n, []);
    EmptyLexed();
  }

  // ----- What the rewrite may write -----

  /** The braces in the node's text are balanced. */
  predicate Neutral(n: Node) {
    Balanced(Lex(Print(n)), 1)
  }

  predicate AllNeutral(nodes: seq<Node>) {
    forall i :: 0 <= i < |nodes| ==> Neutral(nodes[i])
  }

  /** What the rewrite writes for the next node can be read again: each new rule is fit, and inside a
      group what goes and what comes has balanced braces. */
  predicate PrintsAt(out: seq<Node>, node: Node, inside: bool) {
    if Replaces(out, node) then
      var r := ReplaceFallbacks(out[|out| - 1], node.children).value;
      AllFit(r) && (inside ==> Neutral(out[|out| - 1]) && Neutral(node) && AllNeutral(r))
    else
      inside && IsPropertyReset(node) ==> Neutral(node)
  }

  /** The same along the whole rewrite, at every nesting. */
  predicate Prints(out: seq<Node>, nodes: seq<Node>, inside: bool)
    decreases nodes
  {
    nodes == [] ||
    (&& (nodes[0].Group? ==> Prints([], nodes[0].children, true))
     && PrintsAt(out, StripNode(nodes[0]), inside)
     && Prints(Place(out, StripNode(nodes[0])), nodes[1..], inside))
  }

  // ----- The stripped tree can be printed -----

  lemma {:induction false} NeutralList(nodes: seq<Node>)
    requires AllFit(nodes) && AllNeutral(nodes)
    ensures Balanced(Lex(Serialize(nodes)), 1)
  {
    hide Lex; hide LexFrom; hide Print; hide Fit; hide Balanced; hide Sound;
    if nodes == [] {
      EmptyLexed();
      NothingBalanced();
    } else {
      var n, rest := nodes[0], nodes[1..];
      NeutralList(rest);
      FitParts(n);
      assert nodes == [n] + rest && Neutral(n);
      SerializeLex(n, rest);
      BalancedTwo(Lex(Print(n)), Lex(Serialize(rest)));
    }
  }

  lemma NothingBalanced()
    ensures Balanced([], 1)
  {
  }

  /** Nodes in the middle of a body give way to others. */
  lemma SwapBody(front: seq<Node>, was: seq<Node>, now: seq<Node>, rest: seq<Node>)
    requires AllFit(front) && AllFit(was) && AllFit(now)
    requires Balanced(Lex(Serialize(was)), 1) && Balanced(Lex(Serialize(now)), 1)
    requires FitBody(Serialize(front + was + rest))
    ensures FitBody(Serialize(front + now + rest))
  {
    hide Lex; hide LexFrom; hide Print; hide Fit; hide Balanced; hide Serialize; hide Closed;
    var x, a, b, y := Lex(Serialize(front)), Lex(Serialize(was)), Lex(Serialize(now)), Lex(Serialize(rest));
    assert front + was + rest == front + (was + rest) && front + now + rest == front + (now + rest);
    SerializeCat(front, was + rest);
    SerializeCat(front, now + rest);
    SerializeCat(was, rest);
    SerializeCat(now, rest);
    assert x + (a + y) == x + a + y && x + (b + y) == x + b + y;
    BalancedSwap(x, a, b, y, 1);
    ClosedCat(x, a + y);
    ClosedCat(a, y);
    ClosedCat(b, y);
    ClosedCat(x, b + y);
  }

  lemma GroupLex(p: string, children: seq<Node>)
    requires Fit(Group(p, children))
    ensures Lex(Print(Group(p, children))) == Lex(p) + [Ch('{')] + Lex(Serialize(children)) + [Ch('}')]
  {
    hide Lex; hide LexFrom; hide FitList; hide IsGrouping; hide Serialize;
    BlockLex(p, Serialize(children));
  }

  /** A group's children give way to others inside the group. */
  lemma SwapChildren(front: seq<Node>, p: string, was: seq<Node>, now: seq<Node>, rest: seq<Node>)
    requires AllFit(front) && Fit(Group(p, was)) && Fit(Group(p, now))
    requires FitBody(Serialize(front + [Group(p, was)] + rest))
    ensures FitBody(Serialize(front + [Group(p, now)] + rest))
  {
    hide Lex; hide LexFrom; hide Print; hide Balanced; hide Serialize; hide Closed; hide FitList; hide FitPrelude;
    var g, h := Group(p, was), Group(p, now);
    var x, y := Lex(Serialize(front)), Lex(Serialize(rest));
    assert front + [g] + rest == front + ([g] + rest) && front + [h] + rest == front + ([h] + rest);
    SerializeCat(front, [g] + rest);
    SerializeCat(front, [h] + rest);
    SerializeCat([g], rest);
    SerializeCat([h], rest);
    SerializeOne(g);
    SerializeOne(h);
    GroupLex(p, was);
    GroupLex(p, now);
    var a, b := Lex(Serialize(was)), Lex(Serialize(now));
    var xs, ys := x + Lex(p) + [Ch('{')], [Ch('}')] + y;
    assert x + (Lex(p) + [Ch('{')] + a + [Ch('}')] + y) == xs + a + ys;
    assert x + (Lex(p) + [Ch('{')] + b + [Ch('}')] + y) == xs + b + ys;
    BalancedSwap(xs, a, b, ys, 1);
    ClosedCat(x, Lex(Print(g)) + y);
    ClosedCat(Lex(Print(g)), y);
    ClosedCat(Lex(Print(h)), y);
    ClosedCat(x, Lex(Print(h)) + y);
  }

  /** What `out` and the nodes still to come print stays one body when a node is placed. */
  lemma PlaceBody(out: seq<Node>, node: Node, rest: seq<Node>)
    requires AllFit(out) && Fit(node) && PrintsAt(out, node, true) && FitBody(Serialize(out + [node] + rest))
    ensures FitBody(Serialize(Place(out, node) + rest))
  {
    hide Fit; hide Squash; hide IsPropertyReset; hide ReplaceFallbacks; hide FitBody; hide Neutral; hide Serialize;
    hide Lex;
    if Replaces(out, node) {
      var n := |out| - 1;
      var front, last, r := out[..n], out[n], ReplaceFallbacks(out[n], node.children).value;
      assert out + [node] + rest == front + [last, node] + rest;
      assert AllNeutral([last, node]);
      NeutralList([last, node]);
      NeutralList(r);
      SwapBody(front, [last, node], r, rest);
    } else if IsPropertyReset(node) {
      ResetIsGroup(node);
      assert AllNeutral([node]);
      NeutralList([node]);
      NeutralList([]);
      SwapBody(out, [node], [], rest);
      assert out + [] + rest == out + rest;
    }
  }

  lemma PlaceFits(out: seq<Node>, node: Node, inside: bool)
    requires AllFit(out) && Fit(node) && PrintsAt(out, node, inside)
    ensures AllFit(Place(out, node))
  {
    hide Fit; hide Squash; hide IsPropertyReset; hide ReplaceFallbacks; hide Neutral;
  }

  lemma StripNodeFits(node: Node)
    requires Fit(node) && (node.Group? ==> Prints([], node.children, true))
    ensures Fit(StripNode(node))
    decreases node, 0
  {
    hide FitPrelude; hide FitBody; hide Strip; hide IsGrouping; hide Sound; hide Prints;
    if node.Group? { StripFits(node.children, true); }
  }

  /** The stripped tree prints as it reads; inside a group its text stays one block. */
  lemma StripIntoFits(out: seq<Node>, nodes: seq<Node>, inside: bool)
    requires AllFit(out) && FitList(nodes) && Prints(out, nodes, inside)
    requires inside ==> FitBody(Serialize(out + nodes))
    ensures FitList(StripInto(out, nodes)) && (inside ==> FitBody(Serialize(StripInto(out, nodes))))
    decreases nodes, 0
  {
    hide Fit; hide Open; hide Place; hide StripNode; hide PrintsAt; hide FitBody; hide Serialize; hide Lex;
    hide Print;
    if nodes == [] {
      AllFitList(out, []);
      assert out + [] == out;
    } else if Fit(nodes[0]) {
      var node, rest := StripNode(nodes[0]), nodes[1..];
      StripNodeFits(nodes[0]);
      PlaceFits(out, node, inside);
      if inside {
        assert out + nodes == out + [nodes[0]] + rest;
        StripNodeBody(out, nodes[0], rest);
        PlaceBody(out, node, rest);
      }
      StripIntoFits(Place(out, node), rest, inside);
    } else {
      assert nodes[1..] == [] && nodes == [nodes[0]];
      OpenIsText(nodes[0]);
      PlaceText(out, nodes[0]);
      AllFitList(out, nodes);
      assert StripInto(out, nodes) == out + nodes;
    }
  }

  lemma StripNodeBody(out: seq<Node>, node: Node, rest: seq<Node>)
    requires AllFit(out) && Fit(node) && Fit(StripNode(node)) && FitBody(Serialize(out + [node] + rest))
    ensures FitBody(Serialize(out + [StripNode(node)] + rest))
  {
    hide Fit; hide FitBody; hide Serialize; hide Strip;
    if node.Group? { SwapChildren(out, node.prelude, node.children, Strip(node.children), rest); }
  }

  lemma OpenIsText(n: Node)
    ensures Open(n) ==> n.Text?
  {
  }

  lemma PlaceText(out: seq<Node>, node: Node)
    requires node.Text?
    ensures StripNode(node) == node && Place(out, node) == out + [node]
  {
  }

  lemma StripFits(nodes: seq<Node>, inside: bool)
    requires FitList(nodes) && Prints([], nodes, inside) && (inside ==> FitBody(Serialize(nodes)))
    ensures FitList(Strip(nodes)) && (inside ==> FitBody(Serialize(Strip(nodes))))
    decreases nodes, 1
  {
    hide FitList; hide Prints; hide FitBody; hide Serialize; hide StripInto;
    assert [] + nodes == nodes;
    StripIntoFits([], nodes, inside);
  }

  /** The text the rewrite writes parses to the stripped tree, and every property of every element
      keeps the declaration it had. */
  lemma WithoutPolyfillsKeeps(css: string, v: Viewer, key: string -> string, property: string)
    requires Parse(css).Some? && NoCuts(Parse(css).value)
    requires Fair(v, key, [], Parse(css).value) && Prints([], Parse(css).value, false)
    ensures WithoutLegacyPolyfills(css).Some?
    ensures Parse(WithoutLegacyPolyfills(css).value) == Some(Strip(Parse(css).value))
    ensures Wins(v, Parse(WithoutLegacyPolyfills(css).value).value, [], property)
            == Wins(v, Parse(css).value, [], property)
  {
    hide Lex; hide LexFrom; hide ParseLexemes; hide Serialize; hide FitList; hide Strip; hide SoundList; hide NoCuts;
    hide Wins; hide Fair; hide Prints;
    var nodes := Parse(css).value;
    ShowLex(css);
    ParseSound(Lex(css));
    StripFits(nodes, false);
    FitListSound(Strip(nodes));
    SoundParses(Strip(nodes));
    StripKeeps(v, key, nodes, [], property);
  }
}
