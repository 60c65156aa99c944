/** The rewrite on a stylesheet as Tailwind writes it, from text to text: a rule in a layer and its
    `color-mix()` block after it. */
module CssSample {
  import opened Basics
  import opened CssLex
  import opened CssParse
  import opened CssSplit
  import opened CssStrip
  import opened CssMeaning
  import opened CssWhole
  import opened CssRegular
  import opened CssLimits
  import opened CssLeftovers

  // ----- Any such text -----

  /** A prelude that can be written before a block anywhere. */
  predicate Head(p: string) {
    FitPrelude(p) && BraceFree(Lex(p))
  }

  /** One declaration, without nested blocks. */
  predicate Declaration(d: string) {
    Tidy(d, ';') && BraceFree(Lex(d))
  }

  /** One selector, of no at-rule. */
  predicate Selector(p: string) {
    Head(p) && Tidy(p, ',') && p[0] != '@'
  }

  function Written(p: string, d: string): string {
    p + "{" + d + "}"
  }

  lemma RuleFits(p: string, d: string)
    requires Selector(p) && Declaration(d)
    ensures Fit(Rule(p, d)) && Neutral(Rule(p, d)) && Print(Rule(p, d)) == Written(p, d)
  {
    hide Lex; hide LexFrom; hide FitPrelude; hide IsGrouping; hide Solid; hide Flat;
    BraceFreeBalanced(Lex(d));
    NotGrouping(p);
    HeadCloses(p);
    BlockLex(p, d);
    BlockBalanced(Lex(p), Lex(d));
  }

  lemma HeadCloses(p: string)
    requires FitPrelude(p)
    ensures Closed(Lex(p))
  {
  }

  lemma GroupFits(g: string, children: seq<Node>)
    requires Head(g) && IsGrouping(g) && AllFit(children) && AllNeutral(children)
    ensures Fit(Group(g, children)) && Neutral(Group(g, children))
    ensures Print(Group(g, children)) == Written(g, Serialize(children))
  {
    hide Lex; hide LexFrom; hide FitPrelude; hide IsGrouping; hide Fit; hide Neutral; hide Serialize; hide Balanced;
    NeutralList(children);
    SerializeCat(children, []);
    assert children + [] == children;
    AllFitList(children, []);
    GroupParts(g, children);
    GroupLex(g, children);
    BlockBalanced(Lex(g), Lex(Serialize(children)));
    NeutralIs(Group(g, children));
    PrintGroup(g, children);
  }

  lemma PrintGroup(g: string, children: seq<Node>)
    ensures Print(Group(g, children)) == Written(g, Serialize(children))
  {
  }

  lemma NeutralIs(n: Node)
    ensures Neutral(n) <==> Balanced(Lex(Print(n)), 1)
  {
  }

  lemma GroupParts(g: string, children: seq<Node>)
    requires FitPrelude(g) && IsGrouping(g) && FitList(children)
    requires Closed(Lex(Serialize(children))) && Balanced(Lex(Serialize(children)), 1)
    ensures Fit(Group(g, children))
  {
  }

  lemma PrintTwo(a: Node, b: Node)
    ensures Serialize([a, b]) == Print(a) + Print(b) && Serialize([a]) == Print(a)
  {
    hide Print;
    assert [a, b][1..] == [b] && [b][1..] == [] && [a][1..] == [];
    assert Serialize([]) == "";
    assert Serialize([b]) == Print(b) + Serialize([]);
  }

  /** The tree that such a text parses to. */
  function Tree(g: string, mix: string, p: string, d: string, e: string): Node {
    Group(g, [Rule(p, d), Group(mix, [Rule(p, e)])])
  }

  lemma TreeParses(g: string, mix: string, p: string, d: string, e: string)
    requires Head(g) && IsGrouping(g) && Head(mix) && IsGrouping(mix)
    requires Selector(p) && Declaration(d) && Declaration(e)
    ensures Parse(Written(g, Written(p, d) + Written(mix, Written(p, e)))) == Some([Tree(g, mix, p, d, e)])
  {
    hide Lex; hide LexFrom; hide Fit; hide Neutral; hide Serialize; hide Print; hide Written; hide Head;
    hide IsGrouping; hide Selector; hide Declaration; hide FitList;
    var a, b := Rule(p, d), Rule(p, e);
    RuleFits(p, d);
    RuleFits(p, e);
    GroupFits(mix, [b]);
    var block := Group(mix, [b]);
    GroupFits(g, [a, block]);
    PrintTwo(b, b);
    PrintTwo(a, block);
    var tree := Tree(g, mix, p, d, e);
    PrintTwo(tree, tree);
    FitOne(tree);
    FitListSound([tree]);
    SoundParses([tree]);
  }

  lemma FitOne(n: Node)
    requires Fit(n)
    ensures FitList([n])
  {
    hide Fit;
    assert [n][1..] == [] && FitList([]);
  }

  lemma TreeStrips(g: string, mix: string, p: string, d: string, e: string)
    requires WithoutSpace(mix) == "@supports(color:color-mix(inlab,red,red))"
    requires Selector(p) && Declaration(d) && Declaration(e) && SameProperty(d, e)
    ensures Strip([Tree(g, mix, p, d, e)]) == [Group(g, [Rule(p, e)])]
  {
    hide Squash; hide Parts; hide Tidy; hide WithoutSpace; hide SameProperty; hide PropertyOf; hide Head;
    hide BraceFree; hide Lex; hide Staying;
    SquashIs(mix);
    PropertyIs(d, e);
    PartsOfJoin([p], ',');
    PartsOfJoin([d], ';');
    PartsOfJoin([e], ';');
    assert Squash(p) in Squashed([p]) by { assert [p][0] == p; }
    assert Squashed([p]) == {Squash(p)};
    NoneOfOne(p);
    Replaced(mix, p, d, p, e);
    RuleStays(g, [Rule(p, d), Group(mix, [Rule(p, e)])], Rule(p, e));
  }

  lemma NoneOfOne(p: string)
    requires Squash(p) in Squashed([p])
    ensures Staying([p], Squashed([p])) == []
  {
    hide Squash;
    assert [p][1..] == [] && Staying([], Squashed([p])) == [];
  }

  /** A group left with one rule is no reset. */
  lemma RuleStays(g: string, children: seq<Node>, rule: Node)
    requires Strip(children) == [rule] && rule.Rule?
    ensures Strip([Group(g, children)]) == [Group(g, [rule])]
  {
    hide Squash; hide ReplaceFallbacks; hide IsResetRule;
    var node := Group(g, [rule]);
    assert !IsResetSupports(node.children[0]);
    assert StripNode(Group(g, children)) == node;
    assert Place([], node) == [node];
    assert [Group(g, children)][1..] == [];
    assert StripInto([], [Group(g, children)]) == StripInto(Place([], node), []);
  }

  /** A rule in a group and the block right after it, however its condition is spaced, become the rule
      with the declaration of the block. */
  lemma BlockInAGroup(g: string, mix: string, p: string, d: string, e: string)
    requires Head(g) && IsGrouping(g) && Head(mix) && IsGrouping(mix)
    requires WithoutSpace(mix) == "@supports(color:color-mix(inlab,red,red))"
    requires Selector(p) && Declaration(d) && Declaration(e) && SameProperty(d, e)
    ensures WithoutLegacyPolyfills(g + "{" + p + "{" + d + "}" + mix + "{" + p + "{" + e + "}}}")
            == Some(g + "{" + p + "{" + e + "}}")
  {
    hide Lex; hide LexFrom; hide Parse; hide Strip; hide Head; hide IsGrouping; hide Selector; hide Declaration;
    hide SameProperty; hide WithoutSpace; hide Print; hide Serialize;
    TreeParses(g, mix, p, d, e);
    TreeStrips(g, mix, p, d, e);
    SameText(g, mix, p, d, e);
    var rule := Rule(p, e);
    PrintTwo(rule, rule);
    PrintTwo(Group(g, [rule]), rule);
    PrintGroup(g, [rule]);
    PrintRule(p, e);
    assert g + "{" + (p + "{" + e + "}") + "}" == g + "{" + p + "{" + e + "}}";
  }

  lemma PrintRule(p: string, e: string)
    ensures Print(Rule(p, e)) == p + "{" + e + "}"
  {
  }

  lemma SameText(g: string, mix: string, p: string, d: string, e: string)
    ensures Written(g, Written(p, d) + Written(mix, Written(p, e)))
            == g + "{" + p + "{" + d + "}" + mix + "{" + p + "{" + e + "}}}"
  {
    var inner := p + "{" + e + "}";
    assert mix + "{" + inner + "}" == mix + "{" + p + "{" + e + "}}";
    assert Written(g, Written(p, d) + Written(mix, Written(p, e)))
        == g + "{" + (p + "{" + d + "}") + (mix + "{" + p + "{" + e + "}}") + "}";
  }

  // ----- One of them, in full -----

  /** Text with nothing to skip, no block, no bracket and no end of a statement. */
  predicate Bare(s: string) {
    forall i :: 0 <= i < |s| ==> s[i] !in "\\\"'/{}[];"
  }

  function Chars(s: string): seq<Lexeme> {
    if s == "" then [] else [Ch(s[0])] + Chars(s[1..])
  }

  /** How many parentheses are opened and not closed. */
  function Opened(s: string): int {
    if s == "" then 0 else (if s[0] == '(' then 1 else if s[0] == ')' then -1 else 0) + Opened(s[1..])
  }

  lemma {:induction false} BareLex(s: string)
    requires Bare(s)
    ensures Lex(s) == Chars(s) && Closed(Chars(s)) && BraceFree(Chars(s))
  {
    if s != "" {
      LexHead(s);
      assert SkipEnd(s, 0) == 0;
      BareLex(s[1..]);
    }
  }

  lemma {:induction false} BareFlat(s: string, depth: int)
    requires Bare(s)
    ensures Flat(Chars(s), depth) <==> depth + Opened(s) == 0
    ensures Solid(Chars(s), ';', depth) <==> depth + Opened(s) == 0
  {
    if s != "" {
      var ts := Chars(s);
      assert ts[0] == Ch(s[0]) && ts[1..] == Chars(s[1..]);
      assert s[0] != '{' && s[0] != '}' && s[0] != ';' && s[0] != '[' && s[0] != ']';
      BareFlat(s[1..], depth + Nest(ts[0]));
    }
  }

  lemma {:induction false} OpenedCat(a: string, b: string)
    ensures Opened(a + b) == Opened(a) + Opened(b)
  {
    if a == "" {
      assert a + b == b;
    } else {
      assert (a + b)[1..] == a[1..] + b;
      OpenedCat(a[1..], b);
    }
  }

  lemma {:induction false} OpensNothing(a: string)
    requires '(' !in a && ')' !in a
    ensures Opened(a) == 0
  {
    if a != "" { OpensNothing(a[1..]); }
  }

  lemma BareFits(s: string)
    requires Bare(s) && Opened(s) == 0 && s != "" && !IsSpace(s[0]) && !IsSpace(s[|s| - 1])
    ensures Head(s) && Declaration(s)
  {
    hide Lex; hide IsSpace; hide Flat; hide Solid; hide Trim; hide Opened; hide Bare;
    BareLex(s);
    BareFlat(s, 0);
    InkEnds(s);
    assert Chars(s)[0] == Ch(s[0]);
  }

  /** Two parentheses, one in the other. */
  lemma TwoNested(a: string, b: string, c: string)
    requires '(' !in a && ')' !in a && '(' !in b && ')' !in b && '(' !in c && ')' !in c
    ensures Opened(a) == 0 && Opened(a + "(" + b + "(" + c + "))") == 0 && Opened(a + "(" + b + ")") == 0
  {
    hide Opened;
    OpensNothing(a);
    OpensNothing(b);
    OpensNothing(c);
    OneEach();
    OpenedCat(a, "(");
    OpenedCat(a + "(", b);
    OpenedCat(a + "(" + b, ")");
    OpenedCat(a + "(" + b, "(");
    OpenedCat(a + "(" + b + "(", c);
    OpenedCat(a + "(" + b + "(" + c, "))");
  }

  lemma OneEach()
    ensures Opened("(") == 1 && Opened(")") == -1 && Opened("))") == -2
  {
    assert "("[1..] == "" && ")"[1..] == "" && "))"[1..] == ")";
    assert Opened("") == 0;
  }

  lemma BareCat(a: string, b: string)
    requires Bare(a) && Bare(b)
    ensures Bare(a + b)
  {
  }

  const SUPPORTS := "@supports (color: color-mix(in lab, red, red))"

  lemma SupportsStart()
    ensures "@supports" + " " + "(color:" + " " + "color-mix" == "@supports (color: color-mix"
  {
  }

  lemma SupportsEnd()
    ensures "(in" + " " + "lab," + " " + "red," + " " + "red))" == "(in lab, red, red))"
  {
  }

  lemma SupportsHalves()
    ensures SUPPORTS == "@supports (color: color-mix" + "(in lab, red, red))"
  {
  }

  lemma SupportsSpaced()
    ensures SUPPORTS == "@supports" + " " + ("(color:" + " " + ("color-mix" + ("(in" + " " + ("lab," + " "
                        + ("red," + " " + "red))")))))
  {
    SupportsStart();
    SupportsEnd();
    SupportsHalves();
    Spaced("@supports", "(color:", "color-mix", "(in", "lab,", "red,", "red))");
  }

  lemma Spaced(a: string, b: string, c: string, d: string, e: string, f: string, g: string)
    ensures a + " " + b + " " + c + (d + " " + e + " " + f + " " + g)
            == a + " " + (b + " " + (c + (d + " " + (e + " " + (f + " " + g)))))
  {
  }

  lemma SupportsNested()
    ensures SUPPORTS == "@supports " + "(" + "color: color-mix" + "(" + "in lab, red, red" + "))"
  {
    SupportsHalves();
    assert "@supports " + "(" + "color: color-mix" == "@supports (color: color-mix";
    assert "(" + "in lab, red, red" + "))" == "(in lab, red, red))";
    Nested("@supports " + "(" + "color: color-mix", "in lab, red, red");
  }

  lemma Nested(a: string, b: string)
    ensures a + ("(" + b + "))") == a + "(" + b + "))"
  {
  }

  lemma SupportsFits()
    ensures Head(SUPPORTS)
  {
    hide Head; hide Declaration; hide Opened; hide Bare; hide SUPPORTS;
    SupportsNested();
    TwoNested("@supports ", "color: color-mix", "in lab, red, red");
    SupportsBare();
    SupportsInk();
    BareFits(SUPPORTS);
  }

  lemma SupportsBare()
    ensures Bare(SUPPORTS)
  {
    hide SUPPORTS; hide Bare;
    SupportsNested();
    BarePieces();
    BareCat("@supports ", "(");
    BareCat("@supports " + "(", "color: color-mix");
    BareCat("@supports " + "(" + "color: color-mix", "(");
    BareCat("@supports " + "(" + "color: color-mix" + "(", "in lab, red, red");
    BareCat("@supports " + "(" + "color: color-mix" + "(" + "in lab, red, red", "))");
  }

  lemma BarePieces()
    ensures Bare("@supports ") && Bare("(") && Bare("color: color-mix") && Bare("in lab, red, red") && Bare("))")
  {
  }

  lemma SupportsInk()
    ensures SUPPORTS != "" && !IsSpace(SUPPORTS[0]) && !IsSpace(SUPPORTS[|SUPPORTS| - 1])
  {
    hide SUPPORTS;
    SupportsNested();
    assert SUPPORTS[0] == '@' && SUPPORTS[|SUPPORTS| - 1] == ')';
  }

  lemma SupportsNamed()
    ensures IsGrouping(SUPPORTS)
  {
    hide SUPPORTS; hide LowerCase;
    SupportsSpaced();
    var s := SUPPORTS;
    assert s[1..9] == "supports" by { assert s[..9] == "@supports"; }
    assert LowerCase("supports") == "supports" by { LowerAlready("supports"); }
    assert s[9] == ' ';
    assert GROUPING[1] == "supports" && NamedAt(s, GROUPING[1]);
  }

  lemma LowerAlready(s: string)
    requires forall i :: 0 <= i < |s| ==> 'a' <= s[i] <= 'z'
    ensures LowerCase(s) == s
  {
  }

  lemma {:induction false} InkOnly(s: string)
    requires forall i :: 0 <= i < |s| ==> !IsSpace(s[i])
    ensures WithoutSpace(s) == s
  {
    hide IsSpace;
    if s != "" {
      InkOnly(s[1..]);
      assert s == [s[0]] + s[1..];
    }
  }

  lemma WithoutSpaceCat(a: string, b: string)
    ensures WithoutSpace(a + b) == WithoutSpace(a) + WithoutSpace(b)
  {
    FilterIs(a, b, ' ', c => !IsSpace(c));
  }

  lemma SupportsSquashed()
    ensures WithoutSpace(SUPPORTS) == "@supports(color:color-mix(inlab,red,red))"
  {
    hide WithoutSpace; hide SUPPORTS;
    SupportsSpaced();
    SpaceGoes("@supports", "(color:" + " " + ("color-mix" + ("(in" + " " + ("lab," + " " + ("red," + " " + "red))")))));
    SpaceGoes("(color:", "color-mix" + ("(in" + " " + ("lab," + " " + ("red," + " " + "red))"))));
    WithoutSpaceCat("color-mix", "(in" + " " + ("lab," + " " + ("red," + " " + "red))")));
    InkOnly("color-mix");
    SpaceGoes("(in", "lab," + " " + ("red," + " " + "red))"));
    SpaceGoes("lab,", "red," + " " + "red))");
    SpaceGoes("red,", "red))");
    InkOnly("red))");
    Unspaced();
  }

  lemma Unspaced()
    ensures "@supports" + ("(color:" + ("color-mix" + ("(in" + ("lab," + ("red," + "red))")))))
            == "@supports(color:color-mix(inlab,red,red))"
  {
    assert "@supports" + "(color:" + "color-mix" == "@supports(color:color-mix";
    assert "(in" + ("lab," + ("red," + "red))")) == "(inlab,red,red))";
    assert "@supports(color:color-mix" + "(inlab,red,red))" == "@supports(color:color-mix(inlab,red,red))";
  }

  lemma SpaceGoes(a: string, b: string)
    requires forall i :: 0 <= i < |a| ==> !IsSpace(a[i])
    ensures WithoutSpace(a + " " + b) == a + WithoutSpace(b)
  {
    hide WithoutSpace;
    InkOnly(a);
    WithoutSpaceCat(a, " ");
    WithoutSpaceCat(a + " ", b);
    assert WithoutSpace(" ") == "" by { OneSpace(); }
  }

  lemma OneSpace()
    ensures WithoutSpace(" ") == ""
  {
    assert " "[1..] == "";
  }

  lemma LayerFits()
    ensures Head("@layer utilities") && IsGrouping("@layer utilities")
  {
    hide Head; hide Declaration; hide Opened; hide NamedAt;
    OpensNothing("@layer utilities");
    BareFits("@layer utilities");
    LayerNamed();
    assert GROUPING[2] == "layer";
  }

  lemma LayerNamed()
    ensures NamedAt("@layer utilities", "layer")
  {
    hide LowerCase;
    assert "@layer utilities"[1..6] == "layer";
    LowerAlready("layer");
  }

  lemma FallbackFits()
    ensures Declaration("color:red") && NameEnds("color:red", 5) && "color:red"[..5] == "color"
  {
    hide Head; hide Declaration; hide Opened;
    OpensNothing("color:red");
    BareFits("color:red");
  }

  const MIXED := "color:color-mix(in lab,red,red)"

  lemma MixedPieces()
    ensures MIXED == "color:color-mix" + "(" + "in lab,red,red" + ")"
  {
  }

  lemma MixedFits()
    ensures Declaration(MIXED) && NameEnds(MIXED, 5) && MIXED[..5] == "color"
  {
    hide Head; hide Declaration; hide Opened; hide MIXED; hide Bare; hide IsSpace;
    MixedPieces();
    var a, b := "color:color-mix", "in lab,red,red";
    TwoNested(a, b, "");
    BareCat(a, "(") by { ShortBare(); }
    BareCat(a + "(", b) by { ShortBare(); }
    BareCat(a + "(" + b, ")") by { ShortBare(); }
    assert !IsSpace('c') && !IsSpace(')') by { ColorInk(); }
    assert MIXED[0] == 'c' && MIXED[|MIXED| - 1] == ')';
    BareFits(MIXED);
    assert a[..5] == "color" && MIXED[..5] == a[..5] && MIXED[5] == ':';
  }

  lemma ShortBare()
    ensures Bare("color:color-mix") && Bare("(") && Bare("in lab,red,red") && Bare(")")
  {
  }

  lemma ColorInk()
    ensures !IsSpace('c') && !IsSpace(')')
  {
  }

  lemma ColorsAgree()
    ensures SameProperty("color:red", MIXED)
  {
    hide Declaration; hide MIXED; hide Trim; hide NameEnds;
    FallbackFits();
    MixedFits();
    assert SameLetters(Trim("color"), Trim("color"));
    MixedPieces();
    assert |MIXED| >= 5;
    assert NameEnds("color:red", 5) && NameEnds(MIXED, 5);
  }

  lemma SelectorFits()
    ensures Selector(".a")
  {
    hide Head; hide Tidy; hide Opened;
    OpensNothing(".a");
    BareFits(".a");
    WordIsTidy(".a", ',');
  }

  /** A utility with an opacity, in its layer: the fallback and the block become one rule. */
  lemma UtilityIsRewritten()
    ensures WithoutLegacyPolyfills("@layer utilities" + "{" + ".a" + "{" + "color:red" + "}"
                                   + "@supports (color: color-mix(in lab, red, red))"
                                   + "{" + ".a" + "{" + "color:color-mix(in lab,red,red)" + "}}}")
            == Some("@layer utilities" + "{" + ".a" + "{" + "color:color-mix(in lab,red,red)" + "}}")
  {
    hide Head; hide IsGrouping; hide Selector; hide Declaration; hide SameProperty; hide WithoutSpace;
    hide WithoutLegacyPolyfills;
    LayerFits();
    SupportsFits();
    SupportsNamed();
    SupportsSquashed();
    SelectorFits();
    FallbackFits();
    MixedFits();
    ColorsAgree();
    BlockInAGroup("@layer utilities", SUPPORTS, ".a", "color:red", MIXED);
  }
}
