/** The stylesheet parser and printer, and what printing and parsing again gives back. */
module CssParse {
  import opened Basics
  import opened CssLex

  datatype Node =
    | Text(text: string)
    | Rule(prelude: string, body: string)
    | Group(prelude: string, children: seq<Node>)

  // ----- At-rules whose body holds rules -----

  predicate IsWord(c: char) {
    'a' <= c <= 'z' || 'A' <= c <= 'Z' || '0' <= c <= '9' || c == '_'
  }

  predicate NamedAt(p: string, name: string) {
    && |p| > |name| && p[0] == '@' && LowerCase(p[1..1 + |name|]) == name
    && (|p| == 1 + |name| || !IsWord(p[1 + |name|]))
  }

  const GROUPING := ["media", "supports", "layer", "container", "scope", "starting-style", "document"]

  predicate IsGrouping(p: string) {
    exists i :: 0 <= i < |GROUPING| && NamedAt(p, GROUPING[i])
  }

  // ----- Where a prelude and a block end -----

  predicate Ends(t: Lexeme) {
    t == Ch('{') || t == Ch(';') || t == Ch('}')
  }

  function Nest(t: Lexeme): int {
    if t == Ch('(') then 1 else if t == Ch(')') then -1 else 0
  }

  function Level(t: Lexeme): int {
    if t == Ch('{') then 1 else if t == Ch('}') then -1 else 0
  }

  /** The first `{`, `;` or `}` outside parentheses. */
  function PreludeEnd(ts: seq<Lexeme>, parens: int): (n: nat)
    ensures n <= |ts|
  {
    if ts == [] || (parens == 0 && Ends(ts[0])) then 0 else 1 + PreludeEnd(ts[1..], parens + Nest(ts[0]))
  }

  /** The brace that closes the outermost of the `depth` open blocks. */
  function BodyEnd(ts: seq<Lexeme>, depth: int): (r: Option<nat>)
    ensures r.Some? ==> r.value < |ts|
  {
    if ts == [] then None
    else if ts[0] == Ch('}') && depth == 1 then Some(0)
    else
      var r := BodyEnd(ts[1..], depth + Level(ts[0]));
      if r.Some? then Some(r.value + 1) else None
  }

  // ----- Parsing -----

  predicate Blank(t: Lexeme) {
    t.Ch? && IsSpace(t.c)
  }

  predicate IsComment(t: Lexeme) {
    t.Skip? && "/*" <= t.text
  }

  /** The node at the front of `ts` and how many lexemes it takes; none when its block never closes. */
  function ReadNode(ts: seq<Lexeme>): (r: Option<(Node, nat)>)
    requires ts != []
    ensures r.Some? ==> 1 <= r.value.1 <= |ts|
    decreases |ts|, 1
  {
    var j := PreludeEnd(ts, 0);
    if IsComment(ts[0]) then Some((Text(ts[0].text), 1))
    else if j == |ts| then Some((Text(Show(ts)), j))
    else if ts[j] == Ch('{') then ReadBlock(ts, j)
    else Some((Text(Show(ts[..j + 1])), j + 1))
  }

  /** The node whose prelude ends at `j`, where its block opens. */
  function ReadBlock(ts: seq<Lexeme>, j: nat): (r: Option<(Node, nat)>)
    requires j < |ts|
    ensures r.Some? ==> 1 <= r.value.1 <= |ts|
    decreases |ts|, 0
  {
    match BodyEnd(ts[j + 1..], 1)
    case None => None
    case Some(n) =>
      match Block(Trim(Show(ts[..j])), ts[j + 1..j + 1 + n])
      case None => None
      case Some(node) => Some((node, j + n + 2))
  }

  /** A rule, or a group of the nodes inside. */
  function Block(prelude: string, inner: seq<Lexeme>): Option<Node>
    decreases |inner|, 3
  {
    if !IsGrouping(prelude) then Some(Rule(prelude, Show(inner)))
    else
      var children := ParseLexemes(inner);
      if children.None? then None else Some(Group(prelude, children.value))
  }

  function ParseLexemes(ts: seq<Lexeme>): Option<seq<Node>>
    decreases |ts|, 2
  {
    if ts == [] then Some([])
    else if Blank(ts[0]) then ParseLexemes(ts[1..])
    else
      var first := ReadNode(ts);
      if first.None? then None
      else
        var rest := ParseLexemes(ts[first.value.1..]);
        if rest.None? then None else Some([first.value.0] + rest.value)
  }

  /** The nodes of a stylesheet; none when a block is never closed. */
  function Parse(css: string): Option<seq<Node>> {
    ParseLexemes(Lex(css))
  }

  // ----- Printing -----

  function Print(node: Node): string
    decreases node, 0
  {
    match node
    case Text(text) => text
    case Rule(prelude, body) => prelude + "{" + body + "}"
    case Group(prelude, children) => prelude + "{" + Serialize(children) + "}"
  }

  function Serialize(nodes: seq<Node>): string
    decreases nodes
  {
    if nodes == [] then "" else Print(nodes[0]) + Serialize(nodes[1..])
  }

  // ----- Ends found in one sequence are found in another that starts the same -----

  /** `ts` holds no end of a prelude and leaves no parenthesis open. */
  predicate Flat(ts: seq<Lexeme>, parens: int) {
    if ts == [] then parens == 0 else !(parens == 0 && Ends(ts[0])) && Flat(ts[1..], parens + Nest(ts[0]))
  }

  /** `ts` closes every block it opens and none of the `depth` around it but ends in the outermost. */
  predicate Balanced(ts: seq<Lexeme>, depth: int) {
    if ts == [] then depth == 1 else !(ts[0] == Ch('}') && depth == 1) && Balanced(ts[1..], depth + Level(ts[0]))
  }

  lemma {:induction false} PreludeEndIs(ts: seq<Lexeme>, k: nat, parens: int)
    requires k < |ts|
    ensures PreludeEnd(ts, parens) == k <==> Ends(ts[k]) && Flat(ts[..k], parens)
  {
    if k > 0 {
      PreludeEndIs(ts[1..], k - 1, parens + Nest(ts[0]));
      assert ts[..k][1..] == ts[1..][..k - 1];
    }
  }

  lemma {:induction false} BodyEndIs(ts: seq<Lexeme>, k: nat, depth: int)
    requires k < |ts|
    ensures BodyEnd(ts, depth) == Some(k) <==> ts[k] == Ch('}') && Balanced(ts[..k], depth)
  {
    if k > 0 {
      BodyEndIs(ts[1..], k - 1, depth + Level(ts[0]));
      assert ts[..k][1..] == ts[1..][..k - 1];
    }
  }

  // ----- White space between lexemes carries no structure -----

  function Ink(ts: seq<Lexeme>): seq<Lexeme> {
    if ts == [] then [] else (if Blank(ts[0]) then [] else [ts[0]]) + Ink(ts[1..])
  }

  predicate AllBlank(ts: seq<Lexeme>) {
    forall i :: 0 <= i < |ts| ==> Blank(ts[i])
  }

  lemma {:induction false} InkCat(a: seq<Lexeme>, b: seq<Lexeme>)
    ensures Ink(a + b) == Ink(a) + Ink(b)
  {
    if a == [] {
      assert a + b == b;
    } else {
      assert (a + b)[1..] == a[1..] + b;
      InkCat(a[1..], b);
    }
  }

  lemma {:induction false} InkBlank(ts: seq<Lexeme>)
    requires AllBlank(ts)
    ensures Ink(ts) == []
  {
    if ts != [] { InkBlank(ts[1..]); }
  }

  lemma InkStep(ts: seq<Lexeme>)
    ensures ts == [] ==> Ink(ts) == []
    ensures ts != [] && Blank(ts[0]) ==> Ink(ts) == Ink(ts[1..])
    ensures ts != [] && !Blank(ts[0]) ==> Ink(ts) != [] && Ink(ts)[0] == ts[0] && Ink(ts)[1..] == Ink(ts[1..])
  {
    hide IsSpace;
  }

  lemma BalancedStep(ts: seq<Lexeme>, depth: int)
    requires ts != []
    ensures Balanced(ts, depth) <==> !(ts[0] == Ch('}') && depth == 1) && Balanced(ts[1..], depth + Level(ts[0]))
    ensures Blank(ts[0]) ==> Level(ts[0]) == 0 && ts[0] != Ch('}')
  {
  }

  lemma {:induction false} InkBalanced(ts: seq<Lexeme>, depth: int)
    ensures Balanced(ts, depth) <==> Balanced(Ink(ts), depth)
  {
    hide Ink; hide Balanced; hide IsSpace;
    InkStep(ts);
    if ts != [] {
      InkBalanced(ts[1..], depth + Level(ts[0]));
      BalancedStep(ts, depth);
      if !Blank(ts[0]) { BalancedStep(Ink(ts), depth); }
    }
  }

  lemma {:induction false} FlatCut(a: seq<Lexeme>, b: seq<Lexeme>, parens: int)
    requires AllBlank(b) && Flat(a + b, parens)
    ensures Flat(a, parens)
    decreases |a| + |b|
  {
    if a == [] {
      assert a + b == b;
      if b != [] {
        assert [] + b[1..] == b[1..];
        FlatCut([], b[1..], parens);
      }
    } else {
      assert (a + b)[1..] == a[1..] + b;
      FlatCut(a[1..], b, parens + Nest(a[0]));
    }
  }

  // ----- What trimming a prelude can cut -----

  /** The text ends in a backslash whose character is gone. */
  predicate Dangling(p: string) {
    Lex(p) != [] && Lex(p)[|Lex(p)| - 1] == Skip("\\")
  }

  lemma {:induction false} QuoteLast(s: string, i: nat, q: char)
    requires i <= |s| && QuoteEnd(s, i, q) < |s|
    ensures i < QuoteEnd(s, i, q) && s[QuoteEnd(s, i, q) - 1] == q
    decreases |s| - i
  {
    if s[i] != q { QuoteLast(s, if s[i] == '\\' then i + 2 else i + 1, q); }
  }

  lemma {:induction false} CommentLast(s: string, i: nat)
    requires i <= |s| && CommentEnd(s, i) < |s|
    ensures i < CommentEnd(s, i) && s[CommentEnd(s, i) - 1] == '/'
    decreases |s| - i
  {
    if !(s[i] == '*' && s[i + 1] == '/') { CommentLast(s, i + 1); }
  }

  /** A whole escape, string or comment starts with ink, and ends with ink unless it escapes a blank. */
  lemma WholeEnds(t: Lexeme)
    requires t.Skip? && Whole(t)
    ensures !IsSpace(t.text[0])
    ensures IsSpace(t.text[|t.text| - 1]) ==> |t.text| == 2 && t.text[0] == '\\'
  {
    var s := t.text + "}";
    if s[0] == '"' || s[0] == '\'' { QuoteLast(s, 1, s[0]); }
    else if s[0] == '/' { CommentLast(s, 2); }
    assert s[|t.text| - 1] == t.text[|t.text| - 1];
  }

  lemma ShowLast(ts: seq<Lexeme>)
    requires ts != []
    ensures Show(ts) == Show(ts[..|ts| - 1]) + Image(ts[|ts| - 1])
  {
    hide Show; hide Image;
    var n := |ts| - 1;
    assert ts == ts[..n] + [ts[n]];
    ShowCat(ts[..n], [ts[n]]);
    ShowFirst(ts[n], []);
    assert [ts[n]] + [] == [ts[n]];
    ShowNothing();
  }

  lemma DanglingCut(ts: seq<Lexeme>)
    requires Lexed(ts) && Closed(ts)
    ensures Dangling(Show(ts) + "\\")
  {
    LexCat(Show(ts), "\\");
    assert Lex("\\") == [First("\\", 0)] + LexFrom("\\", 1);
  }

  /** Trimming the end of a text drops blank lexemes, unless it splits an escape. */
  lemma {:induction false} TrimEndShow(ts: seq<Lexeme>) returns (m: nat)
    requires Lexed(ts) && Closed(ts) && !Dangling(TrimEnd(Show(ts)))
    ensures m <= |ts| && TrimEnd(Show(ts)) == Show(ts[..m]) && AllBlank(ts[m..])
  {
    hide Lex; hide LexFrom; hide Whole; hide Dangling; hide IsSpace; hide Show;
    if ts == [] {
      m := 0;
      EmptyLexed();
      assert ts[..0] == [];
    } else {
      var n := |ts| - 1;
      ShowLast(ts);
      LexedPrefix(ts, n);
      assert Closed(ts[..n]);
      var t := ts[n];
      if Blank(t) {
        TrimBlank(ts);
        m := TrimEndShow(ts[..n]);
        assert ts[..n][..m] == ts[..m] && ts[m..] == ts[..n][m..] + [t];
      } else {
        m := |ts|;
        assert ts[..m] == ts && ts[m..] == [];
        if t.Skip? { TrimSkip(ts); } else { TrimInk(ts); }
      }
    }
  }

  lemma TrimBlank(ts: seq<Lexeme>)
    requires ts != [] && Blank(ts[|ts| - 1])
    ensures TrimEnd(Show(ts)) == TrimEnd(Show(ts[..|ts| - 1]))
  {
    hide IsSpace; hide Show;
    ShowLast(ts);
    var s := Show(ts);
    assert s[|s| - 1] == ts[|ts| - 1].c && s[..|s| - 1] == Show(ts[..|ts| - 1]);
  }

  lemma TrimInk(ts: seq<Lexeme>)
    requires ts != [] && ts[|ts| - 1].Ch? && !Blank(ts[|ts| - 1])
    ensures TrimEnd(Show(ts)) == Show(ts)
  {
    hide IsSpace; hide Show;
    ShowLast(ts);
    var s := Show(ts);
    assert s[|s| - 1] == ts[|ts| - 1].c;
  }

  lemma BackslashIsInk()
    ensures !IsSpace('\\')
  {
  }

  lemma TrimSkip(ts: seq<Lexeme>)
    requires ts != [] && Lexed(ts) && Closed(ts) && ts[|ts| - 1].Skip? && !Dangling(TrimEnd(Show(ts)))
    ensures TrimEnd(Show(ts)) == Show(ts)
  {
    hide Lex; hide LexFrom; hide Dangling; hide IsSpace; hide Show; hide SkipEnd;
    var n := |ts| - 1;
    var s, t := Show(ts), ts[|ts| - 1];
    assert Whole(t);
    WholeEnds(t);
    ShowLast(ts);
    assert s[|s| - 1] == t.text[|t.text| - 1];
    if IsSpace(s[|s| - 1]) {
      var cut := s[..|s| - 1];
      assert cut == Show(ts[..n]) + "\\";
      BackslashIsInk();
      assert TrimEnd(s) == TrimEnd(cut) == cut;
      LexedPrefix(ts, n);
      assert Closed(ts[..n]);
      DanglingCut(ts[..n]);
      assert false;
    }
  }

  // ----- Nodes that read back as they print -----

  /** A prelude a block can be written after. */
  predicate FitPrelude(p: string) {
    && Trim(p) == p && Closed(Lex(p)) && Flat(Lex(p), 0)
    && (p != "" ==> Lex(p) != [] && !IsComment(Lex(p)[0]) && !Blank(Lex(p)[0]))
  }

  predicate FitBody(b: string) {
    Closed(Lex(b)) && Balanced(Lex(b), 1)
  }

  lemma BraceLex()
    ensures Lex("{") == [Ch('{')] && Lex("}") == [Ch('}')]
  {
    assert LexFrom("{", 1) == [] && LexFrom("}", 1) == [];
  }

  lemma BlockLex(p: string, b: string)
    requires Closed(Lex(p)) && Closed(Lex(b))
    ensures Lex(p + "{" + b + "}") == Lex(p) + [Ch('{')] + Lex(b) + [Ch('}')]
    ensures Closed(Lex(p + "{" + b + "}")) && !EndsSlash(Lex(p + "{" + b + "}"))
  {
    hide Lex; hide LexFrom;
    BraceLex();
    LexCat(p, "{");
    LexCat(p + "{", b);
    LexCat(p + "{" + b, "}");
  }

  /** What reading a printed block gives. */
  lemma BlockRead(p: string, b: string)
    requires FitPrelude(p) && FitBody(b)
    ensures var u := Lex(p + "{" + b + "}");
            && u != [] && !Blank(u[0]) && Closed(u) && !EndsSlash(u) && PreludeEnd(u, 0) < |u| && !IsComment(u[0])
            && ReadNode(u) == match Block(p, Lex(b)) case None => None case Some(node) => Some((node, |u|))
  {
    hide Lex; hide LexFrom; hide Trim; hide Block; hide Whole; hide Show; hide IsSpace;
    var u := Lex(p + "{" + b + "}");
    var j, n := |Lex(p)|, |Lex(b)|;
    BlockLex(p, b);
    assert u[..j] == Lex(p) && u[j + 1..][..n] == Lex(b) && u[j + 1..j + 1 + n] == Lex(b);
    PreludeEndIs(u, j, 0);
    BodyEndIs(u[j + 1..], n, 1);
    ShowLex(p);
    if p == "" { EmptyLexed(); BraceIsInk(); }
    assert ReadNode(u) == ReadBlock(u, j);
  }

  lemma BraceIsInk()
    ensures !IsSpace('{')
  {
  }

  /** The text of `n`, on its own or before any other, is read as `n` and no further. */
  predicate Sound(n: Node) {
    var u := Lex(Print(n));
    && u != [] && !Blank(u[0]) && Closed(u) && !EndsSlash(u)
    && ReadNode(u) == Some((n, |u|)) && (IsComment(u[0]) || PreludeEnd(u, 0) < |u|)
  }

  /** A text that is read as `n` when nothing follows it. */
  predicate Open(n: Node) {
    var u := Lex(Print(n));
    n.Text? && u != [] && !Blank(u[0]) && ReadNode(u) == Some((n, |u|))
  }

  predicate SoundList(nodes: seq<Node>) {
    forall i :: 0 <= i < |nodes| ==> Sound(nodes[i]) || (i == |nodes| - 1 && Open(nodes[i]))
  }

  lemma SamePrelude(ts: seq<Lexeme>, us: seq<Lexeme>, k: nat)
    requires k <= |ts| && k <= |us| && us[..k] == ts[..k] && PreludeEnd(ts, 0) < k
    ensures PreludeEnd(us, 0) == PreludeEnd(ts, 0)
    ensures us[..PreludeEnd(ts, 0)] == ts[..PreludeEnd(ts, 0)] && us[PreludeEnd(ts, 0)] == ts[PreludeEnd(ts, 0)]
    ensures us[..PreludeEnd(ts, 0) + 1] == ts[..PreludeEnd(ts, 0) + 1]
  {
    hide PreludeEnd; hide Flat;
    var j := PreludeEnd(ts, 0);
    assert us[..j] == us[..k][..j] && ts[..j] == ts[..k][..j];
    assert us[j] == us[..k][j] && ts[j] == ts[..k][j];
    assert us[..j + 1] == us[..j] + [us[j]] && ts[..j + 1] == ts[..j] + [ts[j]];
    PreludeEndIs(ts, j, 0);
    PreludeEndIs(us, j, 0);
  }

  lemma SameBody(ts: seq<Lexeme>, us: seq<Lexeme>, j: nat, n: nat)
    requires j + 1 + n < |ts| && j + 1 + n < |us| && us[..j + n + 2] == ts[..j + n + 2]
    requires BodyEnd(ts[j + 1..], 1) == Some(n)
    ensures BodyEnd(us[j + 1..], 1) == Some(n) && us[j + 1..j + 1 + n] == ts[j + 1..j + 1 + n]
  {
    hide BodyEnd; hide Balanced;
    assert us[j + 1..j + 1 + n] == us[..j + n + 2][j + 1..j + 1 + n];
    assert ts[j + 1..j + 1 + n] == ts[..j + n + 2][j + 1..j + 1 + n];
    assert us[j + 1..][..n] == us[j + 1..j + 1 + n] && ts[j + 1..][..n] == ts[j + 1..j + 1 + n];
    assert us[j + 1 + n] == us[..j + n + 2][j + 1 + n] && ts[j + 1 + n] == ts[..j + n + 2][j + 1 + n];
    BodyEndIs(ts[j + 1..], n, 1);
    BodyEndIs(us[j + 1..], n, 1);
  }

  lemma ReadNodeIs(ts: seq<Lexeme>)
    requires ts != []
    ensures IsComment(ts[0]) ==> ReadNode(ts) == Some((Text(ts[0].text), 1))
    ensures !IsComment(ts[0]) && PreludeEnd(ts, 0) < |ts| ==>
              var j := PreludeEnd(ts, 0);
              ReadNode(ts) == if ts[j] == Ch('{') then ReadBlock(ts, j) else Some((Text(Show(ts[..j + 1])), j + 1))
  {
    hide ReadBlock; hide Show; hide PreludeEnd;
  }

  /** A node whose end is seen is read the same from every sequence that starts with it. */
  lemma ReadPrefix(ts: seq<Lexeme>, us: seq<Lexeme>)
    requires ts != [] && ReadNode(ts).Some?
    requires IsComment(ts[0]) || PreludeEnd(ts, 0) < |ts|
    requires var k := ReadNode(ts).value.1; k <= |us| && us[..k] == ts[..k]
    ensures us != [] && ReadNode(us) == ReadNode(ts)
  {
    hide ReadBlock; hide Show; hide PreludeEnd; hide ReadNode;
    ReadNodeIs(ts);
    var k := ReadNode(ts).value.1;
    assert us != [] && us[0] == ts[0] by { assert us[0] == us[..k][0] && ts[..k][0] == ts[0]; }
    ReadNodeIs(us);
    assert us[0] == us[..k][0] && ts[..k][0] == ts[0];
    if !IsComment(ts[0]) {
      var j := PreludeEnd(ts, 0);
      if ts[j] == Ch('{') { ReadBlockPrefix(ts, us, j); }
      SamePrelude(ts, us, k);
    }
  }

  lemma ReadBlockPrefix(ts: seq<Lexeme>, us: seq<Lexeme>, j: nat)
    requires j < |ts| && ReadBlock(ts, j).Some?
    requires var k := ReadBlock(ts, j).value.1; k <= |us| && us[..k] == ts[..k]
    ensures j + 2 <= ReadBlock(ts, j).value.1 && ReadBlock(us, j) == ReadBlock(ts, j)
  {
    hide Block; hide Trim; hide Show; hide BodyEnd; hide ReadBlock;
    var n := BlockEnds(ts, j);
    var k := j + n + 2;
    assert us[..j] == us[..k][..j] && ts[..j] == ts[..k][..j];
    SameBody(ts, us, j, n);
    BlockAt(ts, j, n);
    BlockAt(us, j, n);
  }

  lemma BlockEnds(ts: seq<Lexeme>, j: nat) returns (n: nat)
    requires j < |ts| && ReadBlock(ts, j).Some?
    ensures BodyEnd(ts[j + 1..], 1) == Some(n) && ReadBlock(ts, j).value.1 == j + n + 2 && j + 1 + n < |ts|
  {
    hide Block; hide Trim; hide Show; hide BodyEnd;
    n := BodyEnd(ts[j + 1..], 1).value;
  }

  lemma BlockAt(ts: seq<Lexeme>, j: nat, n: nat)
    requires j + 1 + n < |ts| && BodyEnd(ts[j + 1..], 1) == Some(n)
    ensures ReadBlock(ts, j) ==
            match Block(Trim(Show(ts[..j])), ts[j + 1..j + 1 + n])
            case None => None
            case Some(node) => Some((node, j + n + 2))
  {
    hide Block; hide Trim; hide Show; hide BodyEnd;
  }

  /** Printing nodes that read back and parsing the result gives the nodes. */
  lemma {:induction false} SoundParses(nodes: seq<Node>)
    requires SoundList(nodes)
    ensures Parse(Serialize(nodes)) == Some(nodes)
  {
    hide Lex; hide LexFrom; hide Print; hide ReadNode; hide Whole; hide IsSpace;
    if nodes == [] {
      EmptyLexed();
    } else {
      var u, rest := Lex(Print(nodes[0])), nodes[1..];
      assert SoundList(rest) by {
        assert forall i :: 0 <= i < |rest| ==> rest[i] == nodes[i + 1];
      }
      SoundParses(rest);
      var s := Serialize(nodes);
      if Sound(nodes[0]) {
        LexCat(Print(nodes[0]), Serialize(rest));
        var ts := Lex(s);
        assert ts[..|u|] == u && u[..|u|] == u && ts[|u|..] == Lex(Serialize(rest));
        ReadPrefix(u, ts);
      } else {
        assert rest == [];
        EmptyLexed();
        assert s == Print(nodes[0]);
        assert u[|u|..] == [];
      }
      assert nodes == [nodes[0]] + rest;
    }
  }

  // ----- Trees that read back as they print -----

  /** A block a printed tree may hold: its parts end where they are written to end. */
  predicate Fit(n: Node)
    decreases n, 0
  {
    match n
    case Text(_) => Sound(n)
    case Rule(p, b) => FitPrelude(p) && FitBody(b) && !IsGrouping(p)
    case Group(p, children) => FitPrelude(p) && IsGrouping(p) && FitList(children) && FitBody(Serialize(children))
  }

  predicate FitList(nodes: seq<Node>)
    decreases nodes
  {
    nodes == [] || ((Fit(nodes[0]) || (|nodes| == 1 && Open(nodes[0]))) && FitList(nodes[1..]))
  }

  lemma FitSound(n: Node)
    requires Fit(n)
    ensures Sound(n)
    decreases n, 0
  {
    hide Lex; hide LexFrom; hide FitPrelude; hide FitBody; hide IsSpace; hide PreludeEnd; hide ReadNode;
    if n.Rule? {
      BlockRead(n.prelude, n.body);
      ShowLex(n.body);
    } else if n.Group? {
      FitListSound(n.children);
      SoundParses(n.children);
      BlockRead(n.prelude, Serialize(n.children));
    }
  }

  lemma FitListSound(nodes: seq<Node>)
    requires FitList(nodes)
    ensures SoundList(nodes)
    decreases nodes
  {
    hide Sound; hide Open; hide Fit;
    if nodes != [] {
      if Fit(nodes[0]) { FitSound(nodes[0]); }
      FitListSound(nodes[1..]);
      SoundCons(nodes[0], nodes[1..], |nodes| == 1);
      assert nodes == [nodes[0]] + nodes[1..];
    }
  }

  lemma SoundCons(n: Node, rest: seq<Node>, end: bool)
    requires Sound(n) || (Open(n) && end)
    requires SoundList(rest) && (end ==> rest == [])
    ensures SoundList([n] + rest)
  {
    hide Sound; hide Open;
    var nodes := [n] + rest;
    forall i | 0 <= i < |nodes| ensures Sound(nodes[i]) || (i == |nodes| - 1 && Open(nodes[i])) {
      if i > 0 { assert nodes[i] == rest[i - 1]; }
    }
  }

  // ----- Parsed nodes read back, unless trimming split an escape -----

  /** No prelude in the tree lost the blank its last backslash escaped. */
  predicate NoCut(node: Node)
    decreases node, 0
  {
    match node
    case Text(_) => true
    case Rule(p, _) => !Dangling(p)
    case Group(p, children) => !Dangling(p) && NoCuts(children)
  }

  predicate NoCuts(nodes: seq<Node>)
    decreases nodes
  {
    nodes == [] || (NoCut(nodes[0]) && NoCuts(nodes[1..]))
  }

  lemma {:induction false} TrimEndTwice(s: string)
    ensures TrimEnd(TrimEnd(s)) == TrimEnd(s)
  {
    if s != "" && IsSpace(s[|s| - 1]) { TrimEndTwice(s[..|s| - 1]); }
  }

  lemma InkFirst(ts: seq<Lexeme>)
    requires ts != [] && Lexed(ts) && Whole(ts[0]) && !Blank(ts[0])
    ensures Show(ts) != "" && !IsSpace(Show(ts)[0])
  {
    hide IsSpace;
    LexedFirst(ts);
    if ts[0].Skip? { WholeEnds(ts[0]); }
  }

  /** The prelude in front of a block, trimmed: a block can be written after it again. */
  lemma PreludeFits(head: seq<Lexeme>) returns (m: nat)
    requires Lexed(head) && Closed(head) && Flat(head, 0)
    requires head != [] ==> !Blank(head[0]) && !IsComment(head[0])
    requires !Dangling(Trim(Show(head)))
    ensures m <= |head| && Lex(Trim(Show(head))) == head[..m] && AllBlank(head[m..])
    ensures FitPrelude(Trim(Show(head)))
  {
    hide Lex; hide LexFrom; hide Whole; hide Dangling; hide IsSpace; hide Show;
    var p := Trim(Show(head));
    if head != [] { InkFirst(head); } else { EmptyLexed(); }
    assert TrimStart(Show(head)) == Show(head);
    m := TrimEndShow(head);
    LexedPrefix(head, m);
    assert Lex(p) == head[..m];
    assert head == head[..m] + head[m..];
    FlatCut(head[..m], head[m..], 0);
    TrimEndTwice(Show(head));
    if p != "" {
      if m == 0 { EmptyLexed(); }
      assert p[0] == Show(head)[0];
    }
    assert Trim(p) == p;
  }

  /** Printing a block changes nothing but the blanks before its brace and between its nodes. */
  lemma BlockInk(p: string, b: string, head: seq<Lexeme>, m: nat, inner: seq<Lexeme>)
    requires m <= |head| && Lex(p) == head[..m] && AllBlank(head[m..])
    requires Closed(Lex(p)) && Closed(Lex(b)) && Ink(Lex(b)) == Ink(inner)
    ensures Ink(Lex(p + "{" + b + "}")) == Ink(head + [Ch('{')] + inner + [Ch('}')])
  {
    hide Lex; hide LexFrom; hide Whole; hide Ink;
    BlockLex(p, b);
    InkCat(head[..m], head[m..]);
    assert head == head[..m] + head[m..];
    InkBlank(head[m..]);
    assert Ink(head) == Ink(Lex(p));
    InkCat(Lex(p) + [Ch('{')] + Lex(b), [Ch('}')]);
    InkCat(Lex(p) + [Ch('{')], Lex(b));
    InkCat(Lex(p), [Ch('{')]);
    InkCat(head + [Ch('{')] + inner, [Ch('}')]);
    InkCat(head + [Ch('{')], inner);
    InkCat(head, [Ch('{')]);
  }

  /** A node with a block reads back as it prints. */
  lemma BlockSound(ts: seq<Lexeme>, j: nat)
    requires Lexed(ts) && j < |ts| && PreludeEnd(ts, 0) == j && ts[j] == Ch('{')
    requires !Blank(ts[0]) && !IsComment(ts[0])
    requires ReadBlock(ts, j).Some? && NoCut(ReadBlock(ts, j).value.0)
    ensures var (n, k) := ReadBlock(ts, j).value;
            Fit(n) && Closed(Lex(Print(n))) && Ink(Lex(Print(n))) == Ink(ts[..k])
    decreases |ts|, 0
  {
    hide Lex; hide LexFrom; hide Dangling; hide IsSpace; hide Show; hide PreludeEnd; hide Balanced; hide Flat;
    hide Trim; hide Ink; hide FitPrelude; hide ReadBlock; hide Block; hide Closed; hide Fit; hide Print;
    var node := ReadBlock(ts, j).value.0;
    var n := BlockPieces(ts, j);
    var head, inner := ts[..j], ts[j + 1..j + 1 + n];
    BlockIs(Trim(Show(head)), inner);
    var m := PreludeFits(head);
    BlockFits(node, head, m, inner);
  }

  /** The two parts of a block that is read. */
  lemma BlockPieces(ts: seq<Lexeme>, j: nat) returns (n: nat)
    requires Lexed(ts) && j < |ts| && PreludeEnd(ts, 0) == j && ts[j] == Ch('{') && ReadBlock(ts, j).Some?
    ensures j + 1 + n < |ts| && ReadBlock(ts, j).value.1 == j + n + 2
    ensures Block(Trim(Show(ts[..j])), ts[j + 1..j + 1 + n]) == Some(ReadBlock(ts, j).value.0)
    ensures Lexed(ts[..j]) && Closed(ts[..j]) && Flat(ts[..j], 0)
    ensures var inner := ts[j + 1..j + 1 + n]; Lexed(inner) && Closed(inner) && Balanced(inner, 1)
    ensures ts[..j + n + 2] == ts[..j] + [Ch('{')] + ts[j + 1..j + 1 + n] + [Ch('}')]
  {
    hide Lex; hide LexFrom; hide Whole; hide Show; hide BodyEnd; hide PreludeEnd; hide Balanced; hide Flat; hide Trim;
    hide ReadBlock; hide Block;
    n := BlockEnds(ts, j);
    BlockAt(ts, j, n);
    LexedPrefix(ts, j);
    LexedSlice(ts, j + 1, j + 1 + n);
    PreludeEndIs(ts, j, 0);
    BodyEndIs(ts[j + 1..], n, 1);
    assert ts[j + 1..][..n] == ts[j + 1..j + 1 + n];
    BlockSpan(ts, j, n);
  }

  lemma BlockIs(p: string, inner: seq<Lexeme>)
    requires Block(p, inner).Some?
    ensures var node := Block(p, inner).value;
            && !node.Text? && node.prelude == p && (node.Group? <==> IsGrouping(p))
            && (node.Rule? ==> node.body == Show(inner))
            && (node.Group? ==> ParseLexemes(inner) == Some(node.children))
            && (NoCut(node) ==> !Dangling(p))
  {
    hide ParseLexemes; hide IsGrouping; hide Show; hide Dangling;
  }

  /** A node whose parts are fit is fit, and prints to what it was read from but for white space. */
  lemma BlockFits(node: Node, head: seq<Lexeme>, m: nat, inner: seq<Lexeme>)
    requires !node.Text? && FitPrelude(node.prelude) && NoCut(node) && (node.Group? <==> IsGrouping(node.prelude))
    requires m <= |head| && Lex(node.prelude) == head[..m] && AllBlank(head[m..])
    requires Lexed(inner) && Closed(inner) && Balanced(inner, 1)
    requires node.Rule? ==> node.body == Show(inner)
    requires node.Group? ==> ParseLexemes(inner) == Some(node.children)
    ensures Fit(node) && Closed(Lex(Print(node)))
    ensures Ink(Lex(Print(node))) == Ink(head + [Ch('{')] + inner + [Ch('}')])
    decreases |inner|, 4
  {
    hide Lex; hide LexFrom; hide Whole; hide Dangling; hide IsSpace; hide Show; hide Balanced; hide Ink;
    hide FitPrelude; hide IsGrouping; hide AllBlank; hide ParseLexemes;
    var p, b := node.prelude, if node.Rule? then node.body else Serialize(node.children);
    FitClosed(p);
    if node.Group? { ChildrenFit(inner); }
    assert Print(node) == p + "{" + b + "}";
    BlockLex(p, b);
    BlockInk(p, b, head, m, inner);
  }

  lemma BlockSpan(ts: seq<Lexeme>, j: nat, n: nat)
    requires j + 1 + n < |ts| && ts[j] == Ch('{') && ts[j + 1 + n] == Ch('}')
    ensures ts[..j + n + 2] == ts[..j] + [Ch('{')] + ts[j + 1..j + 1 + n] + [Ch('}')]
  {
  }

  lemma ChildrenFit(inner: seq<Lexeme>)
    requires Lexed(inner) && Closed(inner) && Balanced(inner, 1)
    requires ParseLexemes(inner).Some? && NoCuts(ParseLexemes(inner).value)
    ensures FitList(ParseLexemes(inner).value)
    ensures var b := Serialize(ParseLexemes(inner).value);
            FitBody(b) && Parse(b) == ParseLexemes(inner) && Ink(Lex(b)) == Ink(inner)
    decreases |inner|, 3
  {
    hide Lex; hide LexFrom; hide Whole; hide ParseLexemes; hide Balanced; hide Ink; hide SoundList; hide FitList;
    hide Serialize;
    var nodes := ParseLexemes(inner).value;
    ParseSound(inner);
    FitListSound(nodes);
    SoundParses(nodes);
    InkBalanced(inner, 1);
    InkBalanced(Lex(Serialize(nodes)), 1);
  }

  lemma FitClosed(p: string)
    requires FitPrelude(p)
    ensures Closed(Lex(p))
  {
  }

  lemma CommentSound(ts: seq<Lexeme>)
    requires Lexed(ts) && ts != [] && IsComment(ts[0])
    ensures var n := Text(ts[0].text);
            Lex(Print(n)) == ts[..1] && (Fit(n) || (Open(n) && 1 == |ts|))
  {
    hide Lex; hide LexFrom; hide Whole;
    LexedFirst(ts);
    assert ts[..1] == [ts[0]];
  }

  lemma StatementSound(ts: seq<Lexeme>, j: nat)
    requires Lexed(ts) && j < |ts| && PreludeEnd(ts, 0) == j && ts[j] != Ch('{')
    requires !Blank(ts[0]) && !IsComment(ts[0])
    ensures var n := Text(Show(ts[..j + 1]));
            Lex(Print(n)) == ts[..j + 1] && Fit(n)
  {
    hide Lex; hide LexFrom; hide Whole; hide IsSpace; hide PreludeEnd; hide ReadBlock; hide Show; hide Balanced;
    hide Ink; hide FitList; hide FitBody; hide IsGrouping; hide Serialize; hide NoCut; hide BodyEnd;
    var u := ts[..j + 1];
    LexedPrefix(ts, j);
    LexedPrefix(ts, j + 1);
    PreludeEndIs(ts, j, 0);
    CloseEnd(ts, j);
    SamePrelude(ts, u, j + 1);
    assert Lex(Print(Text(Show(u)))) == u;
    assert u[..j + 1] == u;
  }

  lemma ReadSound(ts: seq<Lexeme>)
    requires Lexed(ts) && ts != [] && !Blank(ts[0])
    requires ReadNode(ts).Some? && NoCut(ReadNode(ts).value.0)
    ensures var (n, k) := ReadNode(ts).value;
            && (Fit(n) || (Open(n) && k == |ts|))
            && (Closed(ts[..k]) ==> Closed(Lex(Print(n)))) && Ink(Lex(Print(n))) == Ink(ts[..k])
    decreases |ts|, 1
  {
    hide Lex; hide LexFrom; hide Whole; hide Dangling; hide IsSpace; hide Ink; hide ReadBlock; hide Fit;
    hide PreludeEnd; hide Show;
    var (n, k) := ReadNode(ts).value;
    var j := PreludeEnd(ts, 0);
    if IsComment(ts[0]) {
      CommentSound(ts);
    } else if j == |ts| {
      assert ts[..k] == ts;
      assert Lex(Print(n)) == ts;
    } else if ts[j] == Ch('{') {
      BlockSound(ts, j);
    } else {
      StatementSound(ts, j);
    }
  }

  lemma CloseEnd(ts: seq<Lexeme>, j: nat)
    requires j < |ts| && Closed(ts[..j]) && ts[j].Ch?
    ensures Closed(ts[..j + 1])
  {
    assert ts[..j + 1] == ts[..j] + [ts[j]];
  }

  /** Every parsed node reads back as it prints, and printing loses white space only. */
  lemma ParseSound(ts: seq<Lexeme>)
    requires Lexed(ts) && ParseLexemes(ts).Some? && NoCuts(ParseLexemes(ts).value)
    ensures var nodes := ParseLexemes(ts).value;
            && FitList(nodes)
            && (Closed(ts) ==> Closed(Lex(Serialize(nodes))) && Ink(Lex(Serialize(nodes))) == Ink(ts))
    decreases |ts|, 2
  {
    hide Lex; hide LexFrom; hide Whole; hide IsSpace; hide ReadNode; hide Print; hide NoCut; hide Sound; hide Open;
    hide Fit; hide ParseLexemes; hide Ink; hide Serialize;
    ParseStep(ts);
    if ts == [] {
      EmptyLexed();
      SerializeNothing();
    } else if Blank(ts[0]) {
      LexedFirst(ts);
      InkStep(ts);
      ParseSound(ts[1..]);
    } else {
      var (n, k) := ReadNode(ts).value;
      var rest := ts[k..];
      var others := ParseLexemes(rest).value;
      ReadSound(ts);
      LexedSuffix(ts, k);
      ParseStep(rest);
      assert ([n] + others)[1..] == others;
      ParseSound(rest);
      if Fit(n) { FitSound(n); }
      if Closed(ts) {
        assert Closed(ts[..k]) && Closed(ts[k..]);
        SerializeLex(n, others);
        InkCat(ts[..k], rest);
        assert ts == ts[..k] + rest;
        InkCat(Lex(Print(n)), Lex(Serialize(others)));
      }
    }
  }

  lemma ParseStep(ts: seq<Lexeme>)
    requires ParseLexemes(ts).Some?
    ensures ts == [] ==> ParseLexemes(ts) == Some([])
    ensures ts != [] && Blank(ts[0]) ==> ParseLexemes(ts) == ParseLexemes(ts[1..])
    ensures ts != [] && !Blank(ts[0]) ==>
              && ReadNode(ts).Some?
              && var (n, k) := ReadNode(ts).value;
                 && ParseLexemes(ts[k..]).Some?
                 && ParseLexemes(ts) == Some([n] + ParseLexemes(ts[k..]).value)
  {
    hide ReadNode; hide IsSpace;
  }

  lemma SerializeNothing()
    ensures Serialize([]) == "" && Ink([]) == []
  {
  }

  lemma SerializeLex(n: Node, rest: seq<Node>)
    requires Closed(Lex(Print(n))) && (Sound(n) || rest == [])
    ensures Serialize([n] + rest) == Print(n) + Serialize(rest)
    ensures Lex(Serialize([n] + rest)) == Lex(Print(n)) + Lex(Serialize(rest))
  {
    hide Lex; hide LexFrom; hide Print; hide ReadNode;
    assert ([n] + rest)[1..] == rest;
    LexCat(Print(n), Serialize(rest));
  }

  // ----- Only such nodes read back -----

  lemma {:induction false} TrimShorter(s: string)
    ensures |Trim(s)| <= |s| && (|Trim(s)| == |s| ==> Trim(s) == s)
  {
    TrimStartShorter(s);
  }

  lemma {:induction false} TrimStartShorter(s: string)
    ensures |TrimStart(s)| <= |s| && (|TrimStart(s)| == |s| ==> TrimStart(s) == s)
  {
    if s != "" && IsSpace(s[0]) { TrimStartShorter(s[1..]); }
  }

  lemma ShowSplit(ts: seq<Lexeme>, k: nat)
    requires k <= |ts|
    ensures Show(ts) == Show(ts[..k]) + Show(ts[k..])
  {
    assert ts == ts[..k] + ts[k..];
    ShowCat(ts[..k], ts[k..]);
  }

  lemma ShowBlock(head: seq<Lexeme>, inner: seq<Lexeme>)
    ensures Show(head + [Ch('{')] + inner + [Ch('}')]) == Show(head) + "{" + Show(inner) + "}"
  {
    hide Show;
    ShowCat(head + [Ch('{')] + inner, [Ch('}')]);
    ShowCat(head + [Ch('{')], inner);
    ShowCat(head, [Ch('{')]);
    ShowBraces();
  }

  lemma ShowBraces()
    ensures Show([Ch('{')]) == "{" && Show([Ch('}')]) == "}"
  {
    assert Show([Ch('{')]) == "{" + Show([]) && Show([Ch('}')]) == "}" + Show([]);
  }

  /** The parts a node with a block was read from. */
  lemma BlockParts(ts: seq<Lexeme>, j: nat) returns (head: seq<Lexeme>, inner: seq<Lexeme>, m: nat)
    requires j < |ts| && ts[j] == Ch('{') && ReadBlock(ts, j).Some?
    ensures j + m + 2 <= |ts| && head == ts[..j] && inner == ts[j + 1..j + 1 + m]
    ensures ReadBlock(ts, j).value.1 == j + m + 2 && ts[..j + m + 2] == head + [Ch('{')] + inner + [Ch('}')]
    ensures Block(Trim(Show(head)), inner) == Some(ReadBlock(ts, j).value.0)
  {
    hide Trim; hide Block; hide BodyEnd; hide Show; hide ReadBlock; hide Balanced;
    m := BlockEnds(ts, j);
    head, inner := ts[..j], ts[j + 1..j + 1 + m];
    BlockAt(ts, j, m);
    BodyEndIs(ts[j + 1..], m, 1);
    BlockSpan(ts, j, m);
  }

  lemma BlockShorter(ts: seq<Lexeme>, j: nat)
    requires j < |ts| && ts[j] == Ch('{') && ReadBlock(ts, j).Some?
    ensures var (n, k) := ReadBlock(ts, j).value; |Print(n)| <= |Show(ts[..k])|
    decreases |ts|, 0
  {
    hide Trim; hide Show; hide ReadBlock; hide ParseLexemes; hide IsGrouping;
    var head, inner, m := BlockParts(ts, j);
    var n := ReadBlock(ts, j).value.0;
    ShowBlock(head, inner);
    TrimShorter(Show(head));
    if n.Group? { ParseShorter(inner); }
  }

  lemma ReadShorter(ts: seq<Lexeme>)
    requires ts != [] && ReadNode(ts).Some?
    ensures var (n, k) := ReadNode(ts).value; |Print(n)| <= |Show(ts[..k])|
    decreases |ts|, 1
  {
    hide ReadBlock;
    var j := PreludeEnd(ts, 0);
    if IsComment(ts[0]) {
      assert ts[..1][0] == ts[0];
    } else if j == |ts| {
      assert ts[..j] == ts;
    } else if ts[j] == Ch('{') {
      BlockShorter(ts, j);
    }
  }

  /** Parsing and printing never lengthens a text. */
  lemma ParseShorter(ts: seq<Lexeme>)
    requires ParseLexemes(ts).Some?
    ensures |Serialize(ParseLexemes(ts).value)| <= |Show(ts)|
    decreases |ts|, 2
  {
    hide ReadNode; hide Print; hide IsSpace;
    if ts != [] {
      if Blank(ts[0]) {
        ParseShorter(ts[1..]);
      } else {
        var (n, k) := ReadNode(ts).value;
        ReadShorter(ts);
        ParseShorter(ts[k..]);
        ShowSplit(ts, k);
        var nodes := ParseLexemes(ts).value;
        assert nodes[0] == n && nodes[1..] == ParseLexemes(ts[k..]).value;
      }
    }
  }

  lemma ClosedIsNotDangling(p: string)
    requires Closed(Lex(p))
    ensures !Dangling(p)
  {
    hide Lex; hide LexFrom;
    var ts := Lex(p);
    if Dangling(p) {
      assert Whole(ts[|ts| - 1]);
      BackslashNotWhole();
    }
  }

  lemma BackslashNotWhole()
    ensures !Whole(Skip("\\"))
  {
    assert "\\" + "}" == "\\}";
  }

  /** A node printed on its own text was not cut. */
  lemma ExactBlock(ts: seq<Lexeme>, j: nat)
    requires Lexed(ts) && j < |ts| && ts[j] == Ch('{') && ReadBlock(ts, j).Some?
    requires var (n, k) := ReadBlock(ts, j).value; Show(ts[..k]) == Print(n)
    ensures NoCut(ReadBlock(ts, j).value.0)
    decreases ReadBlock(ts, j).value.0, 0
  {
    hide Lex; hide LexFrom; hide Trim; hide BodyEnd; hide Show; hide Dangling; hide Whole; hide ReadBlock;
    hide ParseLexemes;
    var (n, k) := ReadBlock(ts, j).value;
    var head, inner, m := BlockParts(ts, j);
    ShowBlock(head, inner);
    if n.Group? { ParseShorter(inner); }
    TrimShorter(Show(head));
    LexedPrefix(ts, j);
    assert n.prelude == Trim(Show(head)) == Show(head);
    ClosedIsNotDangling(n.prelude);
    if n.Group? {
      var b := Serialize(n.children);
      assert Show(head) + "{" + Show(inner) + "}" == Show(head) + "{" + b + "}";
      SameMiddle(Show(head) + "{", Show(inner), b, "}");
      LexedSlice(ts, j + 1, j + 1 + m);
      ExactIsUncut(n.children);
    }
  }

  lemma SameMiddle(a: string, x: string, y: string, z: string)
    requires a + x + z == a + y + z
    ensures x == y
  {
    assert |x| == |y|;
    assert x == (a + x + z)[|a|..|a| + |x|] && y == (a + y + z)[|a|..|a| + |y|];
  }

  /** Nodes that printing and parsing give back hold no prelude that lost an escaped blank. */
  lemma ExactIsUncut(nodes: seq<Node>)
    requires Parse(Serialize(nodes)) == Some(nodes)
    ensures NoCuts(nodes)
    decreases nodes, 1
  {
    hide Lex; hide LexFrom; hide Print; hide ReadNode; hide IsSpace; hide Image; hide NoCut;
    if nodes != [] {
      var y := Serialize(nodes);
      var ts := Lex(y);
      ShowLex(y);
      LexedFirst(ts);
      if Blank(ts[0]) { ParseShorter(ts[1..]); }
      var (n, k) := ReadNode(ts).value;
      ShowSplit(ts, k);
      ReadShorter(ts);
      ParseShorter(ts[k..]);
      LexedSuffix(ts, k);
      assert n == nodes[0] && ParseLexemes(ts[k..]) == Some(nodes[1..]);
      assert |Show(ts[..k])| == |Print(n)|;
      assert Show(ts[..k]) == y[..|Print(n)|] == Print(n);
      assert Show(ts[k..]) == y[|Print(n)|..] == Serialize(nodes[1..]);
      ExactIsUncut(nodes[1..]);
      ExactNode(ts);
    }
  }

  lemma ExactNode(ts: seq<Lexeme>)
    requires Lexed(ts) && ts != [] && ReadNode(ts).Some?
    requires var (n, k) := ReadNode(ts).value; Show(ts[..k]) == Print(n)
    ensures NoCut(ReadNode(ts).value.0)
    decreases ReadNode(ts).value.0, 1
  {
    hide Lex; hide LexFrom; hide ReadBlock; hide Show;
    var j := PreludeEnd(ts, 0);
    if !IsComment(ts[0]) && j < |ts| && ts[j] == Ch('{') { ExactBlock(ts, j); }
  }

  /** Parsing what was printed gives the nodes back exactly when no prelude ended in an escaped blank. */
  lemma RoundTrip(css: string)
    requires Parse(css).Some?
    ensures Parse(Serialize(Parse(css).value)) == Parse(css) <==> NoCuts(Parse(css).value)
  {
    hide Lex; hide LexFrom; hide ParseLexemes; hide Serialize; hide SoundList; hide FitList;
    var nodes := Parse(css).value;
    if Parse(Serialize(nodes)) == Some(nodes) {
      ExactIsUncut(nodes);
    }
    if NoCuts(nodes) {
      ShowLex(css);
      ParseSound(Lex(css));
      FitListSound(nodes);
      SoundParses(nodes);
    }
  }
}
