/** Stylesheets as Tailwind writes them: flat rules with nothing unbalanced, in which a rule has every
    selector of the block that replaces part of it. On all of them the rewrite is fair and what it writes
    can be read, whatever it replaces and drops. */
module CssRegular {
  import opened Basics
  import opened CssLex
  import opened CssParse
  import opened CssSplit
  import opened CssStrip
  import opened CssCascade
  import opened CssReplace
  import opened CssMeaning
  import opened CssWhole

  // ----- Rules -----

  predicate Known(selectors: seq<string>, vocabulary: set<string>) {
    forall i :: 0 <= i < |selectors| ==> selectors[i] in vocabulary
  }

  /** Selectors of the vocabulary that differ in white space only mean the same to the browser. */
  predicate SquashMeans(v: Viewer, vocabulary: set<string>) {
    forall a, b :: a in vocabulary && b in vocabulary && Squash(a) == Squash(b) ==> Alike(v, a, b)
  }

  predicate NotAtRule(selectors: seq<string>) {
    forall i :: 0 <= i < |selectors| ==> !StartsWith(selectors[i], "@")
  }

  /** A style rule: selectors from the vocabulary and flat declarations. */
  predicate RegularRule(p: string, b: string, vocabulary: set<string>) {
    var selectors, ds := Parts(p, ','), Parts(b, ';');
    && AllTidy(selectors, ',') && Known(selectors, vocabulary) && NotAtRule(selectors)
    && AllTidy(ds, ';') && AllNamed(ds)
  }

  predicate Regular(node: Node, vocabulary: set<string>)
    decreases node, 0
  {
    match node
    case Text(_) => true
    case Rule(p, b) => StartsWith(p, "@") || RegularRule(p, b, vocabulary)
    case Group(_, children) => Regulars(children, vocabulary)
  }

  predicate Regulars(nodes: seq<Node>, vocabulary: set<string>)
    decreases nodes
  {
    nodes == [] || (Regular(nodes[0], vocabulary) && Regulars(nodes[1..], vocabulary))
  }

  /** The conditions of `color-mix()` blocks hold, and those inside a reset do not. */
  predicate ModernHere(v: Viewer, node: Node) {
    node.Group? ==>
      && (Squash(node.prelude) == COLOR_MIX ==> v.active(node.prelude))
      && (IsPropertyReset(node) ==> forall child :: child in node.children ==> !v.active(child.prelude))
  }

  predicate Modern(v: Viewer, nodes: seq<Node>)
    decreases nodes
  {
    nodes == [] ||
    (ModernHere(v, StripNode(nodes[0])) && (nodes[0].Group? ==> Modern(v, nodes[0].children)) && Modern(v, nodes[1..]))
  }

  lemma {:induction false} RegularsCat(a: seq<Node>, b: seq<Node>, vocabulary: set<string>)
    ensures Regulars(a + b, vocabulary) <==> Regulars(a, vocabulary) && Regulars(b, vocabulary)
  {
    hide Regular;
    if a == [] {
      assert a + b == b;
    } else {
      assert (a + b)[1..] == a[1..] + b;
      RegularsCat(a[1..], b, vocabulary);
    }
  }

  // ----- A replacement of regular rules -----

  lemma OverrideRegular(own: seq<string>, ds: seq<string>)
    requires Override(own, ds).Some? && AllTidy(own, ';') && AllNamed(own) && AllTidy(ds, ';') && AllNamed(ds)
    ensures AllTidy(Override(own, ds).value, ';') && AllNamed(Override(own, ds).value)
  {
    hide Override; hide Tidy; hide WellNamed;
    OverrideFrom(own, ds);
    var mixed := Override(own, ds).value;
    forall i | 0 <= i < |mixed| ensures Tidy(mixed[i], ';') && WellNamed(mixed[i]) { assert mixed[i] in mixed; }
  }

  lemma StayingRegular(p: string, q: string, vocabulary: set<string>)
    requires var all := Parts(p, ',');
             AllTidy(all, ',') && Known(all, vocabulary) && NotAtRule(all)
    ensures var others := Others(p, q);
            AllTidy(others, ',') && Known(others, vocabulary) && NotAtRule(others)
  {
    hide Staying; hide Tidy; hide Squash; hide Parts;
    var all, moved := Parts(p, ','), Squashed(Parts(q, ','));
    StayingIs(all, moved);
    var others := Others(p, q);
    forall i | 0 <= i < |others|
      ensures Tidy(others[i], ',') && others[i] in vocabulary && !StartsWith(others[i], "@")
    {
      assert others[i] in others && others[i] in all;
    }
  }

  lemma TrimAt(s: string)
    requires s != "" && s[0] == '@'
    ensures Trim(s) != "" && Trim(s)[0] == '@'
  {
    assert TrimStart(s) == s;
    TrimEndAt(s);
  }

  lemma {:induction false} TrimEndAt(s: string)
    requires s != "" && s[0] == '@'
    ensures TrimEnd(s) != "" && TrimEnd(s)[0] == '@'
  {
    if IsSpace(s[|s| - 1]) { TrimEndAt(s[..|s| - 1]); }
  }

  /** The first part of an at-rule's prelude starts as the at-rule does. */
  lemma AtParts(p: string)
    requires StartsWith(p, "@")
    ensures Parts(p, ',') != [] && StartsWith(Parts(p, ',')[0], "@")
  {
    hide Trim;
    var ts := Lex(p);
    assert First(p, 0) == Ch('@') && ts[0] == Ch('@');
    var runs := Runs(ts, ',', 0);
    assert runs[0][0] == Ch('@');
    assert Show(runs[0]) == "@" + Show(runs[0][1..]);
    TrimAt(Show(runs[0]));
    assert Parts(p, ',')[0] == Trim(Show(runs[0]));
  }

  lemma SquashStart(s: string)
    requires s != "" && !IsSpace(s[0])
    ensures Squash(s) != "" && Squash(s)[0] == s[0]
  {
  }

  lemma {:induction false} TrimmedStart(s: string)
    requires s != "" && Trim(s) == s
    ensures !IsSpace(s[0])
  {
    if IsSpace(s[0]) { TrimStartShorter(s[1..]); }
  }

  lemma AtIsInk()
    ensures !IsSpace('@')
  {
  }

  /** The inner rule is a style rule too: its selectors are among those of the rule before. */
  lemma InnerIsStyleRule(selectors: seq<string>, q: string)
    requires AllTidy(selectors, ',') && NotAtRule(selectors) && Squashed(Parts(q, ',')) <= Squashed(selectors)
    ensures !StartsWith(q, "@")
  {
    hide Parts; hide Squash; hide Lex; hide Trim; hide Solid; hide IsSpace;
    if StartsWith(q, "@") {
      var inner := Parts(q, ',');
      AtParts(q);
      assert Squash(inner[0]) in Squashed(inner);
      var i :| 0 <= i < |selectors| && Squash(selectors[i]) == Squash(inner[0]);
      assert Tidy(selectors[i], ',');
      TrimmedStart(selectors[i]);
      SquashStart(selectors[i]);
      AtIsInk();
      SquashStart(inner[0]);
    }
  }

  /** The rule has every selector of the block. */
  predicate Has(p: string, q: string) {
    Squashed(Parts(q, ',')) <= Squashed(Parts(p, ','))
  }

  /** Regular rules of which the first has every selector of the second are well shaped. */
  lemma RegularSite(p: string, b: string, q: string, c: string, vocabulary: set<string>)
    requires Regular(Rule(p, b), vocabulary) && Regular(Rule(q, c), vocabulary)
    requires ReplaceFallbacks(Rule(p, b), [Rule(q, c)]).Some? && Has(p, q)
    ensures WellShaped(p, b, q, c)
    ensures RegularRule(p, b, vocabulary) && RegularRule(q, c, vocabulary)
    ensures AllTidy(Others(p, q), ',') && Known(Others(p, q), vocabulary) && NotAtRule(Others(p, q))
    ensures AllTidy(Mixed(b, c).value, ';') && AllNamed(Mixed(b, c).value)
  {
    hide Parts; hide Squash; hide Staying; hide Tidy; hide WellNamed; hide Override; hide ReplaceFallbacks;
    hide Squashed; hide Join;
    ReplacedIs(p, b, q, c);
    var all := Parts(p, ',');
    InnerIsStyleRule(all, q);
    OverrideRegular(Parts(b, ';'), Parts(c, ';'));
    StayingRegular(p, q, vocabulary);
    PartsOfJoin(Others(p, q), ',');
    PartsOfJoin(Mixed(b, c).value, ';');
  }

  /** So the replacement is fair. */
  lemma RegularSelectorWise(p: string, b: string, q: string, c: string, vocabulary: set<string>)
    requires Regular(Rule(p, b), vocabulary) && Regular(Rule(q, c), vocabulary)
    requires ReplaceFallbacks(Rule(p, b), [Rule(q, c)]).Some? && Has(p, q)
    ensures SelectorWise(Squash, [Rule(p, b), Rule(q, c)], ReplaceFallbacks(Rule(p, b), [Rule(q, c)]).value)
  {
    hide Parts; hide Squash; hide Tidy; hide ReplaceFallbacks; hide Regular; hide SelectorWise; hide KeepsAll;
    hide NamesAll; hide Others;
    RegularSite(p, b, q, c, vocabulary);
    SquashExact(p, b, q, c);
    ReplaceExact(Squash, p, b, q, c);
  }

  lemma RegularRespects(v: Viewer, before: seq<Node>, after: seq<Node>, vocabulary: set<string>)
    requires SquashMeans(v, vocabulary) && Regulars(before, vocabulary) && Regulars(after, vocabulary)
    ensures Respects(v, Squash, TextsOf(before) + TextsOf(after))
  {
    hide Squash; hide TextsOf; hide Regulars; hide Alike;
    TextsKnown(before, vocabulary);
    TextsKnown(after, vocabulary);
  }

  lemma {:induction false} TextsKnown(nodes: seq<Node>, vocabulary: set<string>)
    requires Regulars(nodes, vocabulary)
    ensures forall s :: s in TextsOf(nodes) ==> s in vocabulary
  {
    hide Parts; hide Tidy; hide WellNamed;
    if nodes != [] { TextsKnown(nodes[1..], vocabulary); }
  }

  /** The rules a replacement writes are regular again. */
  lemma ReplaceRegular(p: string, b: string, q: string, c: string, vocabulary: set<string>)
    requires Regular(Rule(p, b), vocabulary) && Regular(Rule(q, c), vocabulary)
    requires ReplaceFallbacks(Rule(p, b), [Rule(q, c)]).Some? && Has(p, q)
    ensures Regulars(ReplaceFallbacks(Rule(p, b), [Rule(q, c)]).value, vocabulary)
  {
    hide Parts; hide Squash; hide Tidy; hide ReplaceFallbacks; hide Join; hide Staying; hide WellNamed; hide Override;
    RegularSite(p, b, q, c, vocabulary);
    ReplacedIs(p, b, q, c);
    StayingRegular(p, q, vocabulary);
    var others, mixed := Others(p, q), Mixed(b, c).value;
    PartsOfJoin(others, ',');
    PartsOfJoin(mixed, ';');
    var r := ReplaceFallbacks(Rule(p, b), [Rule(q, c)]).value;
    if others == [] {
      assert Regular(r[0], vocabulary) && r[1..] == [];
    } else {
      assert Regular(r[0], vocabulary) && Regular(r[1], vocabulary);
      assert r[1..] == [r[1]] && r[1..][1..] == [];
      assert Regulars(r[1..], vocabulary);
    }
  }

  // ----- Regular stylesheets are treated fairly -----

  predicate CoversAt(out: seq<Node>, node: Node) {
    Replaces(out, node) ==> Has(out[|out| - 1].prelude, node.children[0].prelude)
  }

  /** Wherever a block takes the place of a rule, the rule has every selector of the block. */
  predicate Covers(out: seq<Node>, nodes: seq<Node>)
    decreases nodes
  {
    nodes == [] ||
    (&& (nodes[0].Group? ==> Covers([], nodes[0].children))
     && CoversAt(out, StripNode(nodes[0]))
     && Covers(Place(out, StripNode(nodes[0])), nodes[1..]))
  }

  lemma PlaceRegular(out: seq<Node>, node: Node, vocabulary: set<string>)
    requires Regulars(out, vocabulary) && Regular(node, vocabulary) && CoversAt(out, node)
    ensures Regulars(Place(out, node), vocabulary)
  {
    hide Regular; hide ReplaceFallbacks; hide IsPropertyReset; hide Squash; hide Has;
    if Replaces(out, node) {
      var n := |out| - 1;
      var last, inner := LastAndInner(out, node, vocabulary);
      assert out == out[..n] + [last];
      ReplaceRegular(last.prelude, last.body, inner.prelude, inner.body, vocabulary);
      RegularsCat(out[..n], [last], vocabulary);
      RegularsCat(out[..n], ReplaceFallbacks(last, node.children).value, vocabulary);
    } else {
      RegularsCat(out, [node], vocabulary);
    }
  }

  lemma LastAndInner(out: seq<Node>, node: Node, vocabulary: set<string>) returns (last: Node, inner: Node)
    requires Replaces(out, node) && Regulars(out, vocabulary) && Regular(node, vocabulary)
    ensures last == out[|out| - 1] && last.Rule? && inner.Rule? && node.children == [inner]
    ensures Regular(last, vocabulary) && Regular(inner, vocabulary)
  {
    hide ReplaceFallbacks; hide Squash; hide RegularRule;
    var n := |out| - 1;
    OnlyChild(out[n], node.children);
    last, inner := out[n], node.children[0];
    assert out == out[..n] + [last];
    RegularsCat(out[..n], [last], vocabulary);
  }

  lemma StripRegular(out: seq<Node>, nodes: seq<Node>, vocabulary: set<string>)
    requires Regulars(out, vocabulary) && Regulars(nodes, vocabulary) && Covers(out, nodes)
    ensures Regulars(StripInto(out, nodes), vocabulary)
    decreases nodes
  {
    hide RegularRule; hide Place;
    if nodes != [] {
      if nodes[0].Group? {
        StripRegular([], nodes[0].children, vocabulary);
        assert StripNode(nodes[0]) == Group(nodes[0].prelude, StripInto([], nodes[0].children));
      }
      PlaceRegular(out, StripNode(nodes[0]), vocabulary);
      StripRegular(Place(out, StripNode(nodes[0])), nodes[1..], vocabulary);
    }
  }

  lemma StripNodeRegular(node: Node, vocabulary: set<string>)
    requires Regular(node, vocabulary) && (node.Group? ==> Covers([], node.children))
    ensures Regular(StripNode(node), vocabulary)
  {
    hide RegularRule;
    if node.Group? { StripRegular([], node.children, vocabulary); }
  }

  lemma FairHere(v: Viewer, out: seq<Node>, node: Node, vocabulary: set<string>)
    requires Regulars(out, vocabulary) && Regular(node, vocabulary) && CoversAt(out, node)
    requires SquashMeans(v, vocabulary) && ModernHere(v, node)
    ensures FairAt(v, Squash, out, node)
  {
    hide Squash; hide ReplaceFallbacks; hide Tidy; hide SelectorWise; hide Respects; hide SquashMeans; hide Parts;
    hide Has; hide Regular; hide TextsOf;
    if Replaces(out, node) {
      var last, inner := LastAndInner(out, node, vocabulary);
      var p, b, q, c := last.prelude, last.body, inner.prelude, inner.body;
      var before, after := [Rule(p, b), Rule(q, c)], ReplaceFallbacks(last, node.children).value;
      assert before[1..] == [inner] && before[1..][1..] == [] && Regulars(before[1..], vocabulary);
      ReplaceRegular(p, b, q, c, vocabulary);
      RegularSelectorWise(p, b, q, c, vocabulary);
      RegularRespects(v, before, after, vocabulary);
    }
  }

  /** In a browser with `color-mix()` and `@property` that takes no two of the selectors for different
      ones that the rewrite takes for one, the rewrite is fair to every regular stylesheet. */
  lemma RegularIsFair(v: Viewer, out: seq<Node>, nodes: seq<Node>, vocabulary: set<string>)
    requires Regulars(out, vocabulary) && Regulars(nodes, vocabulary) && Covers(out, nodes)
    requires SquashMeans(v, vocabulary) && Modern(v, nodes)
    ensures Fair(v, Squash, out, nodes)
    decreases nodes
  {
    hide Squash; hide FairAt; hide Place; hide SquashMeans; hide StripNode; hide ModernHere; hide RegularRule;
    if nodes != [] {
      if nodes[0].Group? { RegularIsFair(v, [], nodes[0].children, vocabulary); }
      StripNodeRegular(nodes[0], vocabulary);
      FairHere(v, out, StripNode(nodes[0]), vocabulary);
      PlaceRegular(out, StripNode(nodes[0]), vocabulary);
      RegularIsFair(v, Place(out, StripNode(nodes[0])), nodes[1..], vocabulary);
    }
  }

  // ----- Plain texts -----

  predicate BraceFree(ts: seq<Lexeme>) {
    forall i :: 0 <= i < |ts| ==> Level(ts[i]) == 0
  }

  lemma {:induction false} BraceFreeBalanced(ts: seq<Lexeme>)
    requires BraceFree(ts)
    ensures Balanced(ts, 1)
  {
    if ts != [] { BraceFreeBalanced(ts[1..]); }
  }

  lemma BlockBalanced(p: seq<Lexeme>, b: seq<Lexeme>)
    requires BraceFree(p) && Balanced(b, 1)
    ensures Balanced(p + [Ch('{')] + b + [Ch('}')], 1)
  {
    var close := [Ch('}')];
    assert close[1..] == [] && Balanced(close, 2);
    BalancedFront(b, close, 1, 1);
    var block := [Ch('{')] + (b + close);
    assert block[1..] == b + close && Balanced(block, 1);
    BraceFreeBalanced(p);
    BalancedTwo(p, block);
    assert p + [Ch('{')] + b + close == p + block;
  }

  lemma {:induction false} FlatCat(a: seq<Lexeme>, b: seq<Lexeme>, parens: int)
    requires Flat(a, parens) && Flat(b, 0)
    ensures Flat(a + b, parens)
  {
    if a == [] {
      assert a + b == b;
    } else {
      assert (a + b)[1..] == a[1..] + b;
      FlatCat(a[1..], b, parens + Nest(a[0]));
    }
  }

  /** A selector that stands on its own: brackets matched, no brace, no comment in front. */
  predicate PlainSelector(x: string) {
    Lex(x) != [] && Flat(Lex(x), 0) && BraceFree(Lex(x)) && !IsComment(Lex(x)[0]) && !Blank(Lex(x)[0])
  }

  predicate PlainSelectors(xs: seq<string>) {
    forall i :: 0 <= i < |xs| ==> PlainSelector(xs[i])
  }

  predicate FlatDeclarations(ds: seq<string>) {
    forall i :: 0 <= i < |ds| ==> BraceFree(Lex(ds[i]))
  }

  /** Selectors without stray brackets and bodies without nested blocks; inside groups, no brace in a
      prelude or statement. */
  predicate Plain(node: Node, inside: bool)
    decreases node, 0
  {
    match node
    case Text(t) => inside ==> BraceFree(Lex(t))
    case Rule(p, b) =>
      && (inside ==> BraceFree(Lex(p)))
      && (StartsWith(p, "@") || (PlainSelectors(Parts(p, ',')) && FlatDeclarations(Parts(b, ';'))))
    case Group(p, children) => (inside ==> BraceFree(Lex(p))) && Plains(children, true)
  }

  predicate Plains(nodes: seq<Node>, inside: bool)
    decreases nodes
  {
    nodes == [] || (Plain(nodes[0], inside) && Plains(nodes[1..], inside))
  }

  lemma {:induction false} PlainsCat(a: seq<Node>, b: seq<Node>, inside: bool)
    ensures Plains(a + b, inside) <==> Plains(a, inside) && Plains(b, inside)
  {
    hide Plain;
    if a == [] {
      assert a + b == b;
    } else {
      assert (a + b)[1..] == a[1..] + b;
      PlainsCat(a[1..], b, inside);
    }
  }

  /** The text of nodes that are fit and plain is balanced. */
  lemma NodeBalanced(n: Node)
    requires Fit(n) && Plain(n, true)
    ensures Neutral(n)
  {
    hide Lex; hide LexFrom; hide FitList; hide IsGrouping; hide Sound; hide BraceFree; hide Balanced; hide Flat;
    hide Trim;
    if n.Text? {
      BraceFreeBalanced(Lex(n.text));
    } else {
      var b := if n.Rule? then n.body else Serialize(n.children);
      BlockLex(n.prelude, b);
      BlockBalanced(Lex(n.prelude), Lex(b));
    }
  }

  // ----- What a replacement of plain rules prints -----

  lemma {:induction false} TrimEndMeans(s: string)
    ensures TrimEnd(s) == s <==> s == "" || !IsSpace(s[|s| - 1])
  {
  }

  lemma TrimMeans(s: string)
    requires s != ""
    ensures Trim(s) == s <==> !IsSpace(s[0]) && !IsSpace(s[|s| - 1])
  {
    if Trim(s) == s {
      TrimmedStart(s);
      assert TrimStart(s) == s;
      TrimEndMeans(s);
    } else if !IsSpace(s[0]) {
      assert TrimStart(s) == s;
      TrimEndMeans(s);
    }
  }

  lemma {:induction false} JoinedPrelude(xs: seq<string>)
    requires xs != [] && AllTidy(xs, ',') && PlainSelectors(xs)
    ensures FitPrelude(Join(xs, ',')) && Join(xs, ',') != "" && BraceFree(Lex(Join(xs, ',')))
  {
    hide Lex; hide LexFrom; hide Trim; hide SkipEnd; hide IsSpace; hide Solid; hide IsComment; hide Blank;
    var x := xs[0];
    assert Tidy(x, ',') && PlainSelector(x);
    if |xs| > 1 {
      var rest := xs[1..];
      var r := Join(rest, ',');
      assert forall i :: 0 <= i < |rest| ==> rest[i] == xs[i + 1];
      assert AllTidy(rest, ',') && PlainSelectors(rest);
      JoinedPrelude(rest);
      var p := x + [','] + r;
      JoinLex(x, r, ',');
      FlatCat([Ch(',')], Lex(r), 0);
      FlatCat(Lex(x), [Ch(',')] + Lex(r), 0);
      assert Lex(x) + [Ch(',')] + Lex(r) == Lex(x) + ([Ch(',')] + Lex(r));
      TrimMeans(x);
      TrimMeans(r);
      TrimMeans(p);
      assert p[0] == x[0] && p[|p| - 1] == r[|r| - 1];
    }
  }

  lemma {:induction false} JoinedBody(ds: seq<string>)
    requires AllTidy(ds, ';') && FlatDeclarations(ds)
    ensures FitBody(Join(ds, ';'))
    ensures BraceFree(Lex(Join(ds, ';')))
  {
    hide Lex; hide LexFrom; hide Trim; hide SkipEnd; hide Solid;
    if ds == [] {
      EmptyLexed();
    } else {
      assert Tidy(ds[0], ';');
      if |ds| > 1 {
        var rest := ds[1..];
        assert forall i :: 0 <= i < |rest| ==> rest[i] == ds[i + 1];
        assert AllTidy(rest, ';') && FlatDeclarations(rest);
        JoinedBody(rest);
        JoinLex(ds[0], Join(rest, ';'), ';');
      }
    }
    BraceFreeBalanced(Lex(Join(ds, ';')));
  }

  lemma NotGrouping(p: string)
    requires p != "" && !StartsWith(p, "@")
    ensures !IsGrouping(p)
  {
  }

  lemma ReplaceFits(p: string, b: string, q: string, c: string, vocabulary: set<string>, inside: bool)
    requires Regular(Rule(p, b), vocabulary) && Fit(Rule(p, b)) && Plain(Rule(p, b), inside)
    requires Regular(Rule(q, c), vocabulary) && Fit(Rule(q, c)) && Plain(Rule(q, c), true)
    requires ReplaceFallbacks(Rule(p, b), [Rule(q, c)]).Some? && Has(p, q)
    ensures var r := ReplaceFallbacks(Rule(p, b), [Rule(q, c)]).value; AllFit(r) && Plains(r, inside)
  {
    hide Parts; hide Join; hide Override; hide Staying; hide Squash; hide Tidy; hide WellNamed; hide PlainSelector;
    hide FitPrelude; hide FitBody; hide Lex; hide IsGrouping; hide BraceFree; hide ReplaceFallbacks;
    RegularSite(p, b, q, c, vocabulary);
    ReplacedIs(p, b, q, c);
    var others, mixed := Others(p, q), Mixed(b, c).value;
    MixedFlat(b, c);
    PartsOfJoin(mixed, ';');
    JoinedBody(mixed);
    OthersPlain(p, q);
    PartsOfJoin(others, ',');
    var r := ReplaceFallbacks(Rule(p, b), [Rule(q, c)]).value;
    if others == [] {
      assert Plain(r[0], inside) && r[1..] == [];
    } else {
      JoinedPrelude(others);
      OthersRead(p, q);
      NotAt(others);
      NotGrouping(Join(others, ','));
      assert Plain(r[0], inside) && Plain(r[1], inside);
      assert r[1..] == [r[1]] && r[1..][1..] == [];
      assert Plains(r[1..], inside);
    }
  }

  lemma NotAt(others: seq<string>)
    requires others != [] && AllTidy(others, ',') && NotAtRule(others)
    ensures !StartsWith(Join(others, ','), "@")
  {
    assert Tidy(others[0], ',');
    JoinStart(others, ',');
    assert !StartsWith(others[0], "@");
  }

  lemma MixedFlat(b: string, c: string)
    requires Mixed(b, c).Some? && FlatDeclarations(Parts(b, ';')) && FlatDeclarations(Parts(c, ';'))
    ensures FlatDeclarations(Mixed(b, c).value)
  {
    hide Override; hide Lex; hide BraceFree; hide Parts;
    OverrideFrom(Parts(b, ';'), Parts(c, ';'));
    var mixed := Mixed(b, c).value;
    forall i | 0 <= i < |mixed| ensures BraceFree(Lex(mixed[i])) { assert mixed[i] in mixed; }
  }

  lemma OthersPlain(p: string, q: string)
    requires PlainSelectors(Parts(p, ','))
    ensures PlainSelectors(Others(p, q))
  {
    hide PlainSelector; hide Staying; hide Squash; hide Parts;
    StayingIs(Parts(p, ','), Squashed(Parts(q, ',')));
    var others := Others(p, q);
    forall i | 0 <= i < |others| ensures PlainSelector(others[i]) { assert others[i] in others; }
  }

  // ----- Plain stylesheets can be written -----

  lemma {:induction false} PlainsAre(nodes: seq<Node>, inside: bool)
    ensures Plains(nodes, inside) <==> forall i :: 0 <= i < |nodes| ==> Plain(nodes[i], inside)
  {
    hide Plain;
    if nodes != [] {
      PlainsAre(nodes[1..], inside);
      assert forall i :: 0 <= i < |nodes| - 1 ==> nodes[1..][i] == nodes[i + 1];
    }
  }

  lemma PlainNeutral(nodes: seq<Node>)
    requires AllFit(nodes) && Plains(nodes, true)
    ensures AllNeutral(nodes)
  {
    hide Fit; hide Plain; hide Neutral;
    PlainsAre(nodes, true);
    forall i | 0 <= i < |nodes| ensures Neutral(nodes[i]) { NodeBalanced(nodes[i]); }
  }

  lemma PlacePlain(out: seq<Node>, node: Node, vocabulary: set<string>, inside: bool)
    requires AllFit(out) && Plains(out, inside) && Regulars(out, vocabulary)
    requires Fit(node) && Plain(node, inside) && Regular(node, vocabulary) && CoversAt(out, node)
    ensures PrintsAt(out, node, inside) && Plains(Place(out, node), inside)
  {
    hide Fit; hide Regular; hide Squash; hide IsPropertyReset; hide ReplaceFallbacks; hide Plain; hide Neutral;
    hide Has;
    if Replaces(out, node) {
      var n := |out| - 1;
      var last, inner := LastAndInner(out, node, vocabulary);
      FitChild(node, inner, inside);
      PlainsAre(out, inside);
      PlainsAre(out[..n], inside);
      ReplaceFits(last.prelude, last.body, inner.prelude, inner.body, vocabulary, inside);
      var r := ReplaceFallbacks(last, node.children).value;
      PlainsCat(out[..n], r, inside);
      if inside {
        NodeBalanced(last);
        NodeBalanced(node);
        PlainNeutral(r);
      }
    } else {
      PlainsCat(out, [node], inside);
      PlainsAre([node], inside);
      if inside { NodeBalanced(node); }
    }
  }

  lemma FitChild(node: Node, inner: Node, inside: bool)
    requires node.Group? && Fit(node) && Plain(node, inside) && node.children == [inner] && inner.Rule?
    ensures Fit(inner) && Plain(inner, true)
  {
    hide FitPrelude; hide FitBody; hide Open; hide IsGrouping;
    OpenIsText(inner);
  }

  /** Every plain and regular list of nodes can be rewritten and read again. */
  lemma PlainPrints(out: seq<Node>, nodes: seq<Node>, vocabulary: set<string>, inside: bool)
    requires AllFit(out) && Plains(out, inside) && Regulars(out, vocabulary)
    requires FitList(nodes) && Plains(nodes, inside) && Regulars(nodes, vocabulary) && Covers(out, nodes)
    requires inside ==> FitBody(Serialize(out + nodes))
    ensures Prints(out, nodes, inside) && Plains(StripInto(out, nodes), inside)
    decreases nodes, 0
  {
    hide Fit; hide Open; hide Plain; hide Regular; hide Place; hide StripNode; hide CoversAt; hide FitBody;
    hide Serialize; hide PrintsAt;
    if nodes == [] {
    } else if Fit(nodes[0]) {
      var node, rest := StripNode(nodes[0]), nodes[1..];
      NodePrints(nodes[0], vocabulary, inside);
      StripNodeRegular(nodes[0], vocabulary);
      StripNodeFits(nodes[0]);
      PlacePlain(out, node, vocabulary, inside);
      PlaceFits(out, node, inside);
      PlaceRegular(out, node, vocabulary);
      if inside {
        assert out + nodes == out + [nodes[0]] + rest;
        StripNodeBody(out, nodes[0], rest);
        PlaceBody(out, node, rest);
      }
      PlainPrints(Place(out, node), rest, vocabulary, inside);
    } else {
      assert nodes[1..] == [] && nodes == [nodes[0]];
      OpenIsText(nodes[0]);
      PlaceText(out, nodes[0]);
      TextPrints(out, nodes[0], inside);
      PlainsCat(out, nodes, inside);
      assert StripInto(out, nodes) == out + nodes;
    }
  }

  lemma TextPrints(out: seq<Node>, node: Node, inside: bool)
    requires node.Text?
    ensures PrintsAt(out, node, inside)
  {
    hide ReplaceFallbacks; hide Neutral;
  }

  lemma NodePrints(node: Node, vocabulary: set<string>, inside: bool)
    requires Fit(node) && Plain(node, inside) && Regular(node, vocabulary)
    requires node.Group? ==> Covers([], node.children)
    ensures node.Group? ==> Prints([], node.children, true)
    ensures Plain(StripNode(node), inside)
    decreases node, 0
  {
    hide FitPrelude; hide FitBody; hide IsGrouping; hide RegularRule; hide PlainSelectors; hide FlatDeclarations;
    hide Sound; hide StripInto; hide Prints;
    if node.Group? {
      assert [] + node.children == node.children;
      PlainPrints([], node.children, vocabulary, true);
    }
  }

  /** Text to text: a regular and plain stylesheet keeps its meaning. */
  lemma RegularStylesheetsKeep(css: string, v: Viewer, vocabulary: set<string>, property: string)
    requires Parse(css).Some? && NoCuts(Parse(css).value)
    requires Regulars(Parse(css).value, vocabulary) && Plains(Parse(css).value, false) && Covers([], Parse(css).value)
    requires SquashMeans(v, vocabulary) && Modern(v, Parse(css).value)
    ensures WithoutLegacyPolyfills(css).Some?
    ensures Parse(WithoutLegacyPolyfills(css).value) == Some(Strip(Parse(css).value))
    ensures Wins(v, Parse(WithoutLegacyPolyfills(css).value).value, [], property)
            == Wins(v, Parse(css).value, [], property)
  {
    hide Lex; hide LexFrom; hide ParseLexemes; hide Serialize; hide FitList; hide Strip; hide SoundList; hide NoCuts;
    hide Wins; hide Fair; hide Prints; hide Plains; hide Regulars; hide SquashMeans; hide Modern; hide Squash;
    var nodes := Parse(css).value;
    ShowLex(css);
    ParseSound(Lex(css));
    EmptyLists(vocabulary);
    RegularIsFair(v, [], nodes, vocabulary);
    PlainPrints([], nodes, vocabulary, false);
    WithoutPolyfillsKeeps(css, v, Squash, property);
  }

  lemma EmptyLists(vocabulary: set<string>)
    ensures Plains([], false) && Regulars([], vocabulary)
  {
  }

  // ----- No selector twice in a list -----

  predicate Distinct(selectors: seq<string>) {
    forall i, j :: 0 <= i < j < |selectors| ==> Squash(selectors[i]) != Squash(selectors[j])
  }

  /** No rule names a selector twice. */
  predicate Unrepeating(node: Node)
    decreases node, 0
  {
    match node
    case Text(_) => true
    case Rule(p, _) => StartsWith(p, "@") || Distinct(Parts(p, ','))
    case Group(_, children) => AllUnrepeating(children)
  }

  predicate AllUnrepeating(nodes: seq<Node>)
    decreases nodes
  {
    nodes == [] || (Unrepeating(nodes[0]) && AllUnrepeating(nodes[1..]))
  }

  lemma {:induction false} UnrepeatingCat(a: seq<Node>, b: seq<Node>)
    ensures AllUnrepeating(a + b) <==> AllUnrepeating(a) && AllUnrepeating(b)
  {
    hide Unrepeating;
    if a == [] {
      assert a + b == b;
    } else {
      assert (a + b)[1..] == a[1..] + b;
      UnrepeatingCat(a[1..], b);
    }
  }

  lemma {:induction false} StayingDistinct(selectors: seq<string>, moved: set<string>)
    requires Distinct(selectors)
    ensures Distinct(Staying(selectors, moved))
  {
    hide Squash;
    if selectors != [] {
      var rest, left := selectors[1..], Staying(selectors[1..], moved);
      assert forall i :: 0 <= i < |rest| ==> rest[i] == selectors[i + 1];
      assert Distinct(rest);
      StayingDistinct(rest, moved);
      StayingIs(rest, moved);
      if Squash(selectors[0]) !in moved {
        var others := [selectors[0]] + left;
        forall i, j | 0 <= i < j < |others| ensures Squash(others[i]) != Squash(others[j]) {
          assert others[j] == left[j - 1] && left[j - 1] in rest;
          if i > 0 { assert others[i] == left[i - 1]; }
        }
      }
    }
  }

  /** The count comparison then finds every selector of the block in the rule. */
  lemma DistinctHas(p: string, b: string, q: string, c: string)
    requires ReplaceFallbacks(Rule(p, b), [Rule(q, c)]).Some? && Distinct(Parts(p, ','))
    ensures Has(p, q)
  {
    hide Parts; hide Squash; hide Staying; hide ReplaceFallbacks; hide Squashed;
    ReplacedIs(p, b, q, c);
    CountFinds(Parts(p, ','), Squashed(Parts(q, ',')));
  }

  lemma ReplaceUnrepeating(p: string, b: string, q: string, c: string, vocabulary: set<string>)
    requires Regular(Rule(p, b), vocabulary) && Regular(Rule(q, c), vocabulary) && Has(p, q)
    requires Unrepeating(Rule(p, b)) && Unrepeating(Rule(q, c))
    requires ReplaceFallbacks(Rule(p, b), [Rule(q, c)]).Some?
    ensures AllUnrepeating(ReplaceFallbacks(Rule(p, b), [Rule(q, c)]).value)
  {
    hide Parts; hide Squash; hide ReplaceFallbacks; hide Join; hide Staying; hide Regular; hide Has; hide Distinct;
    RegularSite(p, b, q, c, vocabulary);
    ReplacedIs(p, b, q, c);
    StayingDistinct(Parts(p, ','), Squashed(Parts(q, ',')));
    var r := ReplaceFallbacks(Rule(p, b), [Rule(q, c)]).value;
    if Others(p, q) == [] {
      assert Unrepeating(r[0]) && r[1..] == [];
    } else {
      assert Unrepeating(r[0]) && Unrepeating(r[1]);
      assert r[1..] == [r[1]] && r[1..][1..] == [];
      assert AllUnrepeating(r[1..]);
    }
  }

  lemma PlaceUnrepeating(out: seq<Node>, node: Node, vocabulary: set<string>)
    requires Regulars(out, vocabulary) && Regular(node, vocabulary) && AllUnrepeating(out) && Unrepeating(node)
    ensures CoversAt(out, node) && AllUnrepeating(Place(out, node))
  {
    hide Regular; hide ReplaceFallbacks; hide IsPropertyReset; hide Squash; hide Has; hide Distinct;
    if Replaces(out, node) {
      var n := |out| - 1;
      var last, inner := LastAndInner(out, node, vocabulary);
      assert out == out[..n] + [last];
      UnrepeatingCat(out[..n], [last]);
      ReplacedIs(last.prelude, last.body, inner.prelude, inner.body);
      DistinctHas(last.prelude, last.body, inner.prelude, inner.body);
      ReplaceUnrepeating(last.prelude, last.body, inner.prelude, inner.body, vocabulary);
      UnrepeatingCat(out[..n], ReplaceFallbacks(last, node.children).value);
    } else {
      UnrepeatingCat(out, [node]);
    }
  }

  /** A condition on the text alone: where no rule names a selector twice, every rule has the selectors of
      the block that replaces part of it, also of what an earlier block left. */
  lemma UnrepeatingCovers(out: seq<Node>, nodes: seq<Node>, vocabulary: set<string>)
    requires Regulars(out, vocabulary) && Regulars(nodes, vocabulary) && AllUnrepeating(out) && AllUnrepeating(nodes)
    ensures Covers(out, nodes) && AllUnrepeating(StripInto(out, nodes))
    decreases nodes
  {
    hide RegularRule; hide Place; hide CoversAt; hide Distinct;
    if nodes != [] {
      var node := StripNode(nodes[0]);
      if nodes[0].Group? {
        UnrepeatingCovers([], nodes[0].children, vocabulary);
        assert Strip(nodes[0].children) == StripInto([], nodes[0].children);
      }
      StripNodeRegular(nodes[0], vocabulary);
      PlaceUnrepeating(out, node, vocabulary);
      PlaceRegular(out, node, vocabulary);
      UnrepeatingCovers(Place(out, node), nodes[1..], vocabulary);
    }
  }

  /** Text to text, with a condition on the parsed text alone. */
  lemma UnrepeatingStylesheetsKeep(css: string, v: Viewer, vocabulary: set<string>, property: string)
    requires Parse(css).Some? && NoCuts(Parse(css).value) && AllUnrepeating(Parse(css).value)
    requires Regulars(Parse(css).value, vocabulary) && Plains(Parse(css).value, false)
    requires SquashMeans(v, vocabulary) && Modern(v, Parse(css).value)
    ensures WithoutLegacyPolyfills(css).Some?
    ensures Parse(WithoutLegacyPolyfills(css).value) == Some(Strip(Parse(css).value))
    ensures Wins(v, Parse(WithoutLegacyPolyfills(css).value).value, [], property)
            == Wins(v, Parse(css).value, [], property)
  {
    hide Parse; hide Wins; hide Plains; hide Regulars; hide SquashMeans; hide Modern; hide Strip; hide NoCuts;
    hide WithoutLegacyPolyfills; hide Covers; hide StripInto; hide Squash;
    EmptyLists(vocabulary);
    UnrepeatingCovers([], Parse(css).value, vocabulary);
    RegularStylesheetsKeep(css, v, vocabulary, property);
  }
}
