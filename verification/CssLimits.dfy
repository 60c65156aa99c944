/** Stylesheets outside the shape the rewrite is for, on which it loses or changes something, after one
    of that shape, which it splits and keeps. */
module CssLimits {
  import opened Basics
  import opened CssLex
  import opened CssParse
  import opened CssSplit
  import opened CssStrip
  import opened CssCascade
  import opened CssReplace
  import opened CssMeaning

  // ----- Texts without anything to escape, quote or nest -----

  predicate Simple(c: char, sep: char) {
    && c != '\\' && c != '"' && c != '\'' && c != '/'
    && c != '(' && c != ')' && c != '[' && c != ']' && c != sep
  }

  predicate Word(s: string, sep: char) {
    s != "" && !IsSpace(s[0]) && !IsSpace(s[|s| - 1]) && forall i :: 0 <= i < |s| ==> Simple(s[i], sep)
  }

  lemma {:induction false} SimpleFrom(s: string, sep: char, i: nat)
    requires i <= |s| && forall k :: 0 <= k < |s| ==> Simple(s[k], sep)
    ensures Closed(LexFrom(s, i)) && Solid(LexFrom(s, i), sep, 0)
    decreases |s| - i
  {
    if i < |s| {
      SimpleFrom(s, sep, i + 1);
      assert LexFrom(s, i) == [Ch(s[i])] + LexFrom(s, i + 1);
      assert LexFrom(s, i)[1..] == LexFrom(s, i + 1);
    }
  }

  lemma WordIsTidy(s: string, sep: char)
    requires Word(s, sep)
    ensures Tidy(s, sep)
  {
    hide LexFrom;
    SimpleFrom(s, sep, 0);
    InkEnds(s);
  }

  lemma InkEnds(s: string)
    requires s != "" && !IsSpace(s[0]) && !IsSpace(s[|s| - 1])
    ensures Trim(s) == s
  {
    assert TrimStart(s) == s && TrimEnd(s) == s;
  }

  lemma OneWord(s: string, sep: char)
    requires (sep == ',' || sep == ';') && Word(s, sep)
    ensures Parts(s, sep) == [s]
  {
    hide Parts; hide Tidy; hide Word;
    WordIsTidy(s, sep);
    PartsOfJoin([s], sep);
  }

  lemma TwoWords(s: string, t: string)
    requires Word(s, ',') && Word(t, ',')
    ensures Parts(s + [','] + t, ',') == [s, t]
  {
    hide Parts; hide Tidy; hide Word;
    WordIsTidy(s, ',');
    WordIsTidy(t, ',');
    PartsOfJoin([s, t], ',');
    assert [s, t][1..] == [t];
  }

  lemma SquashLetters()
    ensures Squash("a") == "a" && Squash("b") == "b" && Squash("ab") == "ab" && Squash("a b") == "ab"
  {
    assert "a"[1..] == "" && "b"[1..] == "" && "ab"[1..] == "b" && "a b"[1..] == " b" && " b"[1..] == "b";
    assert Squash("a") == "a" && Squash("b") == "b";
    assert Squash(" b") == "b";
    assert Squash("ab") == "a" + Squash("b") && Squash("a b") == "a" + Squash(" b");
  }

  // ----- A rule, its block, and one element -----

  function Itself(s: string): string {
    s
  }

  /** A rule and the `color-mix()` block after it, however its condition is spaced. */
  function Pair(mix: string, p: string, b: string, q: string, c: string): seq<Node> {
    [Rule(p, b), Group(mix, [Rule(q, c)])]
  }

  /** What reaches an element that one selector matches. */
  lemma PairSees(mix: string, p: string, b: string, q: string, c: string, x: string, property: string)
    requires Squash(mix) == COLOR_MIX
    ensures Wins(Only(Itself, x), Pair(mix, p, b, q, c), [], property)
            == RuleClaim(0, Some(0), Reaches(x in SelectorsOf(q), Says(Parts(c, ';'), property),
                                             x in SelectorsOf(p), Says(Parts(b, ';'), property)), property)
  {
    hide Squash; hide Parts; hide Wins; hide Says; hide SelectorsOf; hide Reaches; hide RuleClaim;
    var two := [Rule(p, b), Rule(q, c)];
    PairWins(Only(Itself, x), mix, Rule(p, b), Rule(q, c), [], property);
    OnlySees(Itself, x, two, [], property);
    DeclaredTwo(Itself, p, b, q, c, x, property);
    ItselfKeys(SelectorsOf(p));
    ItselfKeys(SelectorsOf(q));
  }

  lemma RuleSees(p: string, b: string, x: string, property: string)
    ensures Wins(Only(Itself, x), [Rule(p, b)], [], property)
            == RuleClaim(0, Some(0), if x in SelectorsOf(p) then Says(Parts(b, ';'), property) else None, property)
  {
    hide Parts; hide Wins; hide Says; hide SelectorsOf; hide RuleClaim;
    OnlySees(Itself, x, [Rule(p, b)], [], property);
    DeclaredOne(Itself, p, b, x, property);
    ItselfKeys(SelectorsOf(p));
  }

  lemma ItselfKeys(selectors: seq<string>)
    ensures Keys(selectors, Itself) == set s | s in selectors
  {
  }

  /** All selectors of the rule move, and its one declaration gives way. */
  lemma Replaced(mix: string, p: string, d: string, q: string, e: string)
    requires Squash(mix) == COLOR_MIX && !StartsWith(p, "@") && Others(p, q) == []
    requires |Parts(p, ',')| == |Squashed(Parts(q, ','))|
    requires Parts(d, ';') == [d] && Parts(e, ';') == [e] && PropertyOf(d) == PropertyOf(e)
    ensures Strip(Pair(mix, p, d, q, e)) == [Rule(p, e)]
  {
    hide Squash; hide Parts; hide Staying; hide Squashed; hide PropertyOf;
    PairStrips(mix, Rule(p, d), Rule(q, e));
    assert [e][1..] == [] && [d][0 := e] == [e];
    assert LastOf([d], PropertyOf(e)) == 0;
    assert Override([d], [e]) == Override([e], []) == Some([e]);
  }

  lemma OneSays(d: string, name: string, value: string, property: string)
    requires ':' in d && NameOf(d) == name && ValueOf(d) == value
    ensures Says([d], property) == if property == name then Some(value) else None
  {
    assert [d][1..] == [];
  }

  /** A declaration of a property with a one-letter name. */
  lemma Letters(d: string)
    requires Word(d, ';') && |d| == 3 && 'a' <= d[0] <= 'z' && d[1] == ':'
    ensures PropertyOf(d) == [d[0]] && NameOf(d) == [d[0]] && ValueOf(d) == [':', d[2]] && ':' in d
    ensures Parts(d, ';') == [d]
  {
    hide Parts;
    OneWord(d, ';');
    assert d[1..][0] == ':' && IndexOf(d[1..], ':') == 0;
    assert IndexOf(d, ':') == 1 && d[..1] == [d[0]];
    InkEnds([d[0]]);
    assert LowerCase([d[0]]) == [d[0]];
  }

  // ----- What the rewrite is for -----

  /** A rule of two words and a block for the first. */
  lemma Moved(mix: string, p: string, s: string, t: string, d: string, e: string)
    requires Squash(mix) == COLOR_MIX && p == s + [','] + t && Word(s, ',') && Word(t, ',') && !StartsWith(p, "@")
    requires Squash(s) != Squash(t)
    requires Parts(d, ';') == [d] && Parts(e, ';') == [e] && PropertyOf(d) == PropertyOf(e)
    ensures Strip(Pair(mix, p, d, s, e)) == [Rule(t, d), Rule(s, e)]
  {
    hide Squash; hide Parts; hide PropertyOf; hide Word;
    TwoWords(s, t);
    OneWord(s, ',');
    var moved := Squashed([s]);
    assert Squash([s][0]) in moved;
    assert moved == {Squash(s)};
    assert [s, t][1..] == [t] && [t][1..] == [];
    assert Staying([t], moved) == [t];
    assert Staying([s, t], moved) == [t];
    PairStrips(mix, Rule(p, d), Rule(s, e));
    assert [e][1..] == [] && [d][0 := e] == [e];
    assert LastOf([d], PropertyOf(e)) == 0;
    assert Override([d], [e]) == Override([e], []) == Some([e]);
  }

  lemma SquashInk(s: string)
    requires s != "" && !IsSpace(s[0])
    ensures Squash(s) != "" && Squash(s)[0] == s[0]
  {
  }

  lemma Shaped(p: string, s: string, t: string, d: string, e: string)
    requires p == s + [','] + t && Word(s, ',') && Word(t, ',') && !StartsWith(s, "@") && !StartsWith(t, "@")
    requires Squash(s) != Squash(t) && Word(d, ';') && Word(e, ';') && WellNamed(d) && WellNamed(e)
    requires PropertyOf(d) == PropertyOf(e)
    ensures Others(p, s) == [t] && WellShaped(p, d, s, e) && ReplaceFallbacks(Rule(p, d), [Rule(s, e)]).Some?
    ensures Parts(p, ',') == [s, t] && Parts(s, ',') == [s]
  {
    hide Squash; hide Parts; hide PropertyOf; hide Word; hide NameOf; hide Tidy;
    TwoWords(s, t);
    OneWord(s, ',');
    OneWord(d, ';');
    OneWord(e, ';');
    OneWord(t, ',');
    assert Join([t], ',') == t && Join([e], ';') == e;
    FirstOfTwo(p, s, t);
    var moved := Squashed([s]);
    assert Squash([s][0]) in moved;
    assert moved == {Squash(s)};
    assert [s, t][1..] == [t] && [t][1..] == [];
    assert Staying([t], moved) == [t];
    assert Staying([s, t], moved) == [t];
    assert [e][1..] == [] && [d][0 := e] == [e];
    assert LastOf([d], PropertyOf(e)) == 0;
    assert Override([d], [e]) == Override([e], []) == Some([e]);
  }

  lemma FirstOfTwo(p: string, s: string, t: string)
    requires p == s + [','] + t && Word(s, ',') && !StartsWith(s, "@")
    ensures !StartsWith(p, "@")
  {
    assert p[0] == s[0];
  }

  /** A rule for two selectors before a block for one of them: the rewrite gives each a rule of its own,
      and everything that wins is kept for every element in every browser with `color-mix()`. */
  lemma MergedSelectorsAreSplit(mix: string, v: Viewer, layers: seq<string>, property: string)
    requires Squash(mix) == COLOR_MIX && v.active(mix)
    ensures Strip(Pair(mix, "a,b", "c:d", "a", "c:e")) == [Rule("b", "c:d"), Rule("a", "c:e")]
    ensures Wins(v, Strip(Pair(mix, "a,b", "c:d", "a", "c:e")), layers, property)
            == Wins(v, Pair(mix, "a,b", "c:d", "a", "c:e"), layers, property)
  {
    hide Parts; hide Squash; hide Wins; hide Strip; hide Says; hide PropertyOf; hide NameOf; hide ValueOf;
    hide WellShaped; hide ReplaceFallbacks; hide Others;
    assert "a" + [','] + "b" == "a,b" && "a,b"[0] == 'a' && "a"[0] == 'a' && "b"[0] == 'b';
    SquashLetters();
    Letters("c:d");
    Letters("c:e");
    Moved(mix, "a,b", "a", "b", "c:d", "c:e");
    Shaped("a,b", "a", "b", "c:d", "c:e");
    PairStrips(mix, Rule("a,b", "c:d"), Rule("a", "c:e"));
    TextExact("a,b", "c:d", "a", "c:e");
    assert ["a", "b"][0] == "a" && ["a", "b"][1] == "b";
    PairWins(v, mix, Rule("a,b", "c:d"), Rule("a", "c:e"), layers, property);
  }

  // ----- A selector twice in the rule -----

  lemma RepeatedMoves()
    ensures Parts("a,a", ',') == ["a", "a"] && Parts("a,b", ',') == ["a", "b"]
    ensures Others("a,a", "a,b") == [] && |Squashed(Parts("a,b", ','))| == 2
  {
    hide Parts; hide Squash;
    TwoWords("a", "a");
    TwoWords("a", "b");
    assert "a" + [','] + "a" == "a,a" && "a" + [','] + "b" == "a,b";
    SquashLetters();
    var moved := Squashed(["a", "b"]);
    assert Squash(["a", "b"][0]) in moved && Squash(["a", "b"][1]) in moved;
    assert moved == {"a", "b"};
    assert ["a", "a"][1..] == ["a"] && ["a"][1..] == [];
    assert Staying(["a"], moved) == [];
  }

  /** A selector list that repeats itself passes the count for one that lacks a selector: `b` had the
      replacement and has nothing after the rewrite. */
  lemma RepeatedSelectorLosesAnother(mix: string)
    requires Squash(mix) == COLOR_MIX
    ensures var nodes, v := Pair(mix, "a,a", "c:d", "a,b", "c:e"), Only(Itself, "b");
            && Wins(v, nodes, [], "c") == Some(Entry(0, 0, "c", ":e"))
            && Wins(v, Strip(nodes), [], "c") == None
  {
    hide Parts; hide Squash; hide Wins; hide Strip; hide Says; hide Pair; hide PropertyOf; hide NameOf; hide ValueOf;
    hide Squashed; hide Staying; hide Others;
    RepeatedMoves();
    assert "a,a"[0] == 'a' && "a,b"[0] == 'a';
    Letters("c:d");
    Letters("c:e");
    Replaced(mix, "a,a", "c:d", "a,b", "c:e");
    PairSees(mix, "a,a", "c:d", "a,b", "c:e", "b", "c");
    RuleSees("a,a", "c:e", "b", "c");
    OneSays("c:e", "c", ":e", "c");
    assert ["a", "b"][1] == "b";
  }

  // ----- White space in a selector -----

  /** Deleting all white space before comparing takes `a b` for `ab`: an element only `a b` matches gets
      the replacement meant for `ab`. */
  lemma BlankSelectorTakenForAnother(mix: string)
    requires Squash(mix) == COLOR_MIX
    ensures var nodes, v := Pair(mix, "a b", "c:d", "ab", "c:e"), Only(Itself, "a b");
            && Wins(v, nodes, [], "c") == Some(Entry(0, 0, "c", ":d"))
            && Wins(v, Strip(nodes), [], "c") == Some(Entry(0, 0, "c", ":e"))
  {
    hide Parts; hide Squash; hide Wins; hide Strip; hide Says; hide Pair; hide PropertyOf; hide NameOf; hide ValueOf;
    hide Tidy;
    OneWord("a b", ',');
    OneWord("ab", ',');
    SquashLetters();
    assert "a b"[0] == 'a' && "ab"[0] == 'a';
    var moved := Squashed(["ab"]);
    assert Squash(["ab"][0]) in moved;
    assert moved == {"ab"};
    assert ["a b"][1..] == [] && Staying(["a b"], moved) == [];
    Letters("c:d");
    Letters("c:e");
    Replaced(mix, "a b", "c:d", "ab", "c:e");
    PairSees(mix, "a b", "c:d", "ab", "c:e", "a b", "c");
    RuleSees("a b", "c:e", "a b", "c");
    OneSays("c:d", "c", ":d", "c");
    OneSays("c:e", "c", ":e", "c");
    assert "ab" != "a b" && ["a b"][0] == "a b";
  }

  // ----- A custom property in upper case -----

  lemma CustomNames(x: char, y: char)
    requires 'a' <= x <= 'z' || 'A' <= x <= 'Z'
    ensures var d := "--" + [x, ':', y];
            && ':' in d && NameOf(d) == "--" + [x] && PropertyOf(d) == "--" + [Lower(x)] && ValueOf(d) == [':', y]
  {
    var d := "--" + [x, ':', y];
    assert d[1..][1..][1..][0] == ':';
    assert IndexOf(d[1..][1..][1..], ':') == 0;
    assert IndexOf(d[1..][1..], ':') == 1;
    assert IndexOf(d[1..], ':') == 2;
    assert IndexOf(d, ':') == 3;
    var name := "--" + [x];
    assert d[..3] == name && d[3] == ':';
    InkEnds(name);
    assert LowerCase(name) == "--" + [Lower(x)];
    assert "--" <= name;
  }

  /** The names of custom properties keep their case in a browser, and lose it in the comparison: `--x`
      had a value of its own and has none after the rewrite. */
  lemma UpperCaseCustomPropertyIsLost(mix: string)
    requires Squash(mix) == COLOR_MIX
    ensures var nodes, v := Pair(mix, "a", "--x:1", "a", "--X:2"), Only(Itself, "a");
            && Wins(v, nodes, [], "--x") == Some(Entry(0, 0, "--x", ":1"))
            && Wins(v, Strip(nodes), [], "--x") == None
  {
    hide Parts; hide Squash; hide Wins; hide Strip; hide Says; hide Pair; hide PropertyOf; hide NameOf; hide ValueOf;
    hide Tidy;
    OneWord("a", ',');
    SquashLetters();
    assert "a"[0] == 'a';
    var moved := Squashed(["a"]);
    assert Squash(["a"][0]) in moved;
    assert moved == {"a"};
    assert ["a"][1..] == [] && Staying(["a"], moved) == [];
    OneWord("--x:1", ';');
    OneWord("--X:2", ';');
    CustomNames('x', '1');
    CustomNames('X', '2');
    assert "--" + ['x', ':', '1'] == "--x:1" && "--" + ['X', ':', '2'] == "--X:2";
    assert "--" + ['x'] == "--x" && "--" + ['X'] == "--X" && "--x"[2] != "--X"[2];
    Replaced(mix, "a", "--x:1", "a", "--X:2");
    PairSees(mix, "a", "--x:1", "a", "--X:2", "a", "--x");
    RuleSees("a", "--X:2", "a", "--x");
    OneSays("--x:1", "--x", [':', '1'], "--x");
    OneSays("--X:2", "--X", [':', '2'], "--x");
    assert ["a"][0] == "a";
  }

  // ----- A selector that begins as an at-rule does -----

  /** Left alone in its list, a selector that begins with `@` makes the rule an at-rule. */
  lemma AtSelectorIsLost(mix: string)
    requires Squash(mix) == COLOR_MIX
    ensures var nodes, v := Pair(mix, "a,@b", "c:d", "a", "c:e"), Only(Itself, "@b");
            && Wins(v, nodes, [], "c") == Some(Entry(0, 0, "c", ":d"))
            && Wins(v, Strip(nodes), [], "c") == None
  {
    hide Parts; hide Squash; hide Wins; hide Strip; hide Says; hide PropertyOf; hide NameOf; hide ValueOf; hide Pair;
    OneWord("a", ',');
    TwoWords("a", "@b");
    assert "a" + [','] + "@b" == "a,@b" && "a,@b"[0] == 'a' && "@b"[0] == '@';
    SquashInk("@b");
    SquashLetters();
    Letters("c:d");
    Letters("c:e");
    Moved(mix, "a,@b", "a", "@b", "c:d", "c:e");
    PairSees(mix, "a,@b", "c:d", "a", "c:e", "@b", "c");
    OneSays("c:d", "c", ":d", "c");
    assert ["a", "@b"][1] == "@b";
    NobodySees("@b", "c:d", "a", "c:e", "@b", "c");
  }

  lemma NobodySees(p: string, b: string, q: string, c: string, x: string, property: string)
    requires x !in SelectorsOf(p) && x !in SelectorsOf(q)
    ensures Wins(Only(Itself, x), [Rule(p, b), Rule(q, c)], [], property) == None
  {
    hide Parts; hide Wins; hide Says; hide SelectorsOf;
    OnlySees(Itself, x, [Rule(p, b), Rule(q, c)], [], property);
    DeclaredTwo(Itself, p, b, q, c, x, property);
    ItselfKeys(SelectorsOf(p));
    ItselfKeys(SelectorsOf(q));
  }

  // ----- An escaped blank in front of a comma -----

  /** The split trims the escaped blank that ends a selector, and the join writes the comma after what is
      left of the escape. */
  lemma EscapedListLexes()
    ensures Parts("a\\ ,b,c", ',') == ["a\\", "b", "c"] && Parts("a\\,b", ',') == ["a\\,b"]
  {
    hide Lex; hide Trim; hide Runs; hide Show; hide Texts;
    var x, list := "a\\ ", "b,c";
    assert "a\\" + [' '] == x && "\\" + [' '] == "\\ ";
    assert Lex(x) == [Ch('a'), Skip("\\ ")] by { EscapeLexes(' '); }
    assert Lex("a\\,b") == [Ch('a'), Skip("\\,"), Ch('b')] by { EscapedCommaLexes(); }
    TwoWords("b", "c");
    assert "b" + [','] + "c" == list && x + [','] + list == "a\\ ,b,c";
    EscapeIsSolid();
    JoinLex(x, list, ',');
    SolidRuns(Lex(x), Lex(list), ',', 0);
    SolidRuns(Lex("a\\,b"), [], ',', 0);
    ShowLex(x);
    ShowLex("a\\,b");
    TrimEscape();
    var runs := Runs(Lex(list), ',', 0);
    TextsFirst(Lex(x), runs);
    TextsFirst(Lex("a\\,b"), []);
    assert [Lex("a\\,b")] + [] == [Lex("a\\,b")];
    TextsNothing();
  }

  lemma EscapeLexes(c: char)
    ensures Lex("a\\" + [c]) == [Ch('a'), Skip("\\" + [c])]
  {
    var s := "a\\" + [c];
    assert s[1..3] == "\\" + [c];
    assert First(s, 0) == Ch('a') && Next(s, 0) == 1 && First(s, 1) == Skip(s[1..3]) && Next(s, 1) == 3;
    assert LexFrom(s, 3) == [] && LexFrom(s, 1) == [Skip(s[1..3])];
  }

  lemma EscapedCommaLexes()
    ensures Lex("a\\,b") == [Ch('a'), Skip("\\,"), Ch('b')]
  {
    var s := "a\\,b";
    assert s[1..3] == "\\,";
    assert First(s, 0) == Ch('a') && Next(s, 0) == 1 && First(s, 1) == Skip("\\,") && Next(s, 1) == 3;
    assert First(s, 3) == Ch('b') && Next(s, 3) == 4;
    assert LexFrom(s, 4) == [] && LexFrom(s, 3) == [Ch('b')] && LexFrom(s, 1) == [Skip("\\,"), Ch('b')];
  }

  lemma EscapeIsSolid()
    ensures Closed([Ch('a'), Skip("\\ ")]) && Solid([Ch('a'), Skip("\\ ")], ',', 0)
    ensures Solid([Ch('a'), Skip("\\,"), Ch('b')], ',', 0)
  {
    assert "\\ " + "}" == "\\ }" && SkipEnd("\\ }", 0) == 2;
    var one, two := [Ch('a'), Skip("\\ ")], [Ch('a'), Skip("\\,"), Ch('b')];
    assert one[1..] == [Skip("\\ ")] && one[1..][1..] == [];
    assert Solid(one[1..], ',', 0);
    assert two[1..] == [Skip("\\,"), Ch('b')] && two[1..][1..] == [Ch('b')] && two[1..][1..][1..] == [];
    assert Solid(two[1..][1..], ',', 0);
    assert Solid(two[1..], ',', 0);
  }

  lemma TrimEscape()
    ensures Trim("a\\ ") == "a\\" && Trim("a\\,b") == "a\\,b"
  {
    var s := "a\\ ";
    assert TrimStart(s) == s && s[..2] == "a\\";
    assert TrimEnd(s) == TrimEnd(s[..2]) == "a\\";
    InkEnds("a\\,b");
  }

  lemma TextsFirst(run: seq<Lexeme>, runs: seq<seq<Lexeme>>)
    ensures Texts([run] + runs) == (if Trim(Show(run)) == "" then [] else [Trim(Show(run))]) + Texts(runs)
  {
    hide Trim; hide Show;
    assert ([run] + runs)[1..] == runs;
  }

  lemma TextsNothing()
    ensures Texts([]) == []
  {
  }

  lemma EscapedSelectorsMove()
    ensures Others("a\\ ,b,c", "c") == ["a\\", "b"] && Squashed(Parts("c", ',')) == {"c"}
    ensures Join(["a\\", "b"], ',') == "a\\,b"
  {
    hide Parts; hide Squash; hide IsSpace; hide Staying; hide Squashed; hide Join;
    EscapedListLexes();
    EscapedWords();
    assert "a\\"[0] != "c"[0] && "b" != "c";
    TwoStay("a\\", "b", "c");
    assert "a\\" + [','] + "b" == "a\\,b";
  }

  lemma TwoStay(s: string, t: string, u: string)
    requires Squash(s) != Squash(u) && Squash(t) != Squash(u)
    ensures Squashed([u]) == {Squash(u)} && Staying([s, t, u], Squashed([u])) == [s, t]
    ensures Join([s, t], ',') == s + [','] + t
  {
    hide Squash;
    var all, moved := [s, t, u], Squashed([u]);
    assert Squash([u][0]) in moved;
    assert moved == {Squash(u)};
    assert all[1..] == [t, u] && [t, u][1..] == [u] && [u][1..] == [];
    assert Staying([u], moved) == [];
    assert Staying([t, u], moved) == [t];
    assert [s] + [t] == [s, t] && [s, t][1..] == [t];
  }

  lemma EscapedWords()
    ensures Parts("c", ',') == ["c"] && Squash("a\\") == "a\\" && Squash("b") == "b" && Squash("c") == "c"
  {
    hide Parts; hide Squash;
    OneWord("c", ',');
    InkSquash("a\\");
    InkSquash("b");
    InkSquash("c");
  }

  lemma {:induction false} InkSquash(s: string)
    requires forall i :: 0 <= i < |s| ==> !IsSpace(s[i])
    ensures Squash(s) == s
  {
    if s != "" {
      InkSquash(s[1..]);
      assert s == [s[0]] + s[1..];
    }
  }

  /** The selectors left behind are not read again as they are: `b` had a value and has none after the
      rewrite. */
  lemma EscapedBlankJoinsSelectors(mix: string)
    requires Squash(mix) == COLOR_MIX
    ensures var nodes, v := Pair(mix, "a\\ ,b,c", "x:d", "c", "x:e"), Only(Itself, "b");
            && Strip(nodes) == [Rule("a\\,b", "x:d"), Rule("c", "x:e")] && !Rereads("a\\ ,b,c", "c")
            && Wins(v, nodes, [], "x") == Some(Entry(0, 0, "x", ":d"))
            && Wins(v, Strip(nodes), [], "x") == None
  {
    hide Parts; hide Squash; hide Wins; hide Strip; hide Says; hide PropertyOf; hide NameOf; hide ValueOf;
    hide Others; hide Join; hide Squashed; hide Override;
    var p := "a\\ ,b,c";
    EscapedListLexes();
    EscapedSelectorsMove();
    OneWord("c", ',');
    Letters("x:d");
    Letters("x:e");
    Overridden("x:d", "x:e");
    assert p[0] == 'a' && "a\\,b"[0] == 'a' && "c"[0] == 'c';
    PairStrips(mix, Rule(p, "x:d"), Rule("c", "x:e"));
    JoinOne("x:e");
    SplitInTwo(p, "x:d", "c", "x:e", ["a\\", "b"], ["x:e"]);
    PairSees(mix, p, "x:d", "c", "x:e", "b", "x");
    OneSays("x:d", "x", ":d", "x");
    assert ["a\\", "b", "c"][1] == "b" && "b" != "c";
    NobodySees("a\\,b", "x:d", "c", "x:e", "b", "x");
  }

  lemma JoinOne(d: string)
    ensures Join([d], ';') == d
  {
  }

  lemma Overridden(d: string, e: string)
    requires PropertyOf(d) == PropertyOf(e)
    ensures Override([d], [e]) == Some([e])
  {
    hide PropertyOf;
    assert [e][1..] == [] && [d][0 := e] == [e];
    assert LastOf([d], PropertyOf(e)) == 0;
  }

  lemma SplitInTwo(p: string, b: string, q: string, c: string, others: seq<string>, mixed: seq<string>)
    requires !StartsWith(p, "@") && Others(p, q) == others != [] && Mixed(b, c) == Some(mixed)
    requires |Parts(p, ',')| - |others| == |Squashed(Parts(q, ','))|
    ensures ReplaceFallbacks(Rule(p, b), [Rule(q, c)])
            == Some([Rule(Join(others, ','), b), Rule(q, Join(mixed, ';'))])
  {
    hide Parts; hide Squash; hide Join; hide Override; hide Staying; hide Squashed;
  }

  // ----- An escaped blank -----

  /** A rule whose prelude ends in an escaped blank: printing what was parsed and parsing it again
      does not give the rule back. */
  lemma EscapedBlankIsLost()
    ensures Parse("\\ {}") == Some([Rule("\\", "")])
    ensures Parse(Serialize([Rule("\\", "")])) != Some([Rule("\\", "")])
  {
    hide Parse; hide Serialize; hide Dangling;
    EscapedBlankParses();
    RoundTrip("\\ {}");
    BackslashDangles();
  }

  lemma BackslashDangles()
    ensures Dangling("\\")
  {
    assert Lex("\\") == [First("\\", 0)] + LexFrom("\\", 1);
  }

  lemma EscapedBlankParses()
    ensures Parse("\\ {}") == Some([Rule("\\", "")])
  {
    hide IsGrouping; hide Lex; hide Show; hide Trim; hide ReadNode; hide ReadBlock; hide PreludeEnd; hide IsSpace;
    hide BodyEnd; hide Block;
    var ts := [Skip("\\ "), Ch('{'), Ch('}')];
    EscapedBlankLexes();
    EscapedBlankReads();
    ReadNodeIs(ts);
    BlockAt(ts, 1, 0);
    assert ts[..1] == [Skip("\\ ")] && ts[2..2] == [] && ts[3..] == [];
    TrimBackslash();
    EmptyBlock();
    assert ReadNode(ts) == Some((Rule("\\", ""), 3));
    assert ParseLexemes([]) == Some([]);
    assert [Rule("\\", "")] + [] == [Rule("\\", "")];
  }

  lemma EmptyBlock()
    ensures Block("\\", []) == Some(Rule("\\", "")) && Show([Skip("\\ ")]) == "\\ "
  {
    NotGroupingBackslash();
    assert [Skip("\\ ")][1..] == [];
    assert Show([Skip("\\ ")]) == "\\ " + Show([]);
  }

  lemma EscapedBlankLexes()
    ensures Lex("\\ {}") == [Skip("\\ "), Ch('{'), Ch('}')]
  {
    var s := "\\ {}";
    assert s[0..2] == "\\ ";
    assert First(s, 0) == Skip("\\ ") && Next(s, 0) == 2 && First(s, 2) == Ch('{') && Next(s, 2) == 3
           && First(s, 3) == Ch('}') && Next(s, 3) == 4;
    assert LexFrom(s, 4) == [] && LexFrom(s, 3) == [Ch('}')] && LexFrom(s, 2) == [Ch('{'), Ch('}')];
  }

  lemma EscapedBlankReads()
    ensures var ts := [Skip("\\ "), Ch('{'), Ch('}')];
            PreludeEnd(ts, 0) == 1 && BodyEnd(ts[2..], 1) == Some(0) && !Blank(ts[0]) && !IsComment(ts[0])
  {
    hide PreludeEnd;
    var ts := [Skip("\\ "), Ch('{'), Ch('}')];
    PreludeEndIs(ts, 1, 0);
    assert ts[..1] == [Skip("\\ ")] && ts[..1][1..] == [] && Flat(ts[..1], 0);
    assert ts[2..] == [Ch('}')] && "\\ "[0] == '\\';
  }

  lemma TrimBackslash()
    ensures Trim("\\ ") == "\\"
  {
    assert TrimStart("\\ ") == "\\ ";
    assert "\\ "[..1] == "\\";
    assert TrimEnd("\\ ") == TrimEnd("\\ "[..1]) == "\\";
  }

  lemma NotGroupingBackslash()
    ensures !IsGrouping("\\")
  {
  }
}
