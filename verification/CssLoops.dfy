/** The loops of the scanner, the parser, the splitter and the rewrite, each proved to compute the
    function that specifies it. */
module CssLoops {
  import opened Basics
  import opened CssLex
  import opened CssParse
  import opened CssSplit
  import opened CssStrip

  // ----- Positions in the text and positions among its lexemes -----

  /** The lexeme at `i` and those after it. */
  lemma Step(css: string, i: nat)
    requires i < |css|
    ensures LexFrom(css, i) != [] && LexFrom(css, i)[0] == First(css, i)
            && LexFrom(css, i)[1..] == LexFrom(css, Next(css, i))
    ensures Image(First(css, i)) == css[i..Next(css, i)]
  {
    hide First; hide Next; hide Image;
    FirstImage(css, i);
  }

  /** Where the prelude that runs on at `i` ends. */
  function PreludeAt(css: string, i: nat, parens: int): (k: nat)
    requires i <= |css|
    ensures i <= k <= |css|
    decreases |css| - i
  {
    if i == |css| || (parens == 0 && Ends(First(css, i))) then i
    else PreludeAt(css, Next(css, i), parens + Nest(First(css, i)))
  }

  /** Where the block that runs on at `i` closes. */
  function BodyAt(css: string, i: nat, depth: int): (k: Option<nat>)
    requires i <= |css|
    ensures k.Some? ==> i <= k.value < |css|
    decreases |css| - i
  {
    if i == |css| then None
    else if First(css, i) == Ch('}') && depth == 1 then Some(i)
    else BodyAt(css, Next(css, i), depth + Level(First(css, i)))
  }

  /** Position `k` of the text is position `n` among the lexemes from `i` on. */
  predicate At(css: string, i: nat, k: nat, n: nat) {
    && i <= k <= |css| && n <= |LexFrom(css, i)|
    && css[i..k] == Show(LexFrom(css, i)[..n]) && LexFrom(css, k) == LexFrom(css, i)[n..]
  }

  lemma AtStart(css: string, i: nat)
    requires i <= |css|
    ensures At(css, i, i, 0)
  {
    hide LexFrom;
    var ts := LexFrom(css, i);
    assert ts[..0] == [] && ts[0..] == ts;
    EmptyLexed();
  }

  lemma AtNext(css: string, i: nat, k: nat, n: nat)
    requires i < |css| && At(css, Next(css, i), k, n)
    ensures At(css, i, k, n + 1)
  {
    hide LexFrom; hide First; hide Next; hide Image;
    Step(css, i);
    var ts := LexFrom(css, i);
    assert ts[..n + 1][1..] == ts[1..][..n] && ts[..n + 1][0] == ts[0];
    assert ts[n + 1..] == ts[1..][n..];
    assert css[i..k] == css[i..Next(css, i)] + css[Next(css, i)..k];
  }

  lemma {:induction false} PreludeAtIs(css: string, i: nat, parens: int)
    requires i <= |css|
    ensures At(css, i, PreludeAt(css, i, parens), PreludeEnd(LexFrom(css, i), parens))
    decreases |css| - i
  {
    hide First; hide Next; hide At; hide LexFrom;
    if i == |css| {
      AtStart(css, i);
      LexEnd(css);
    } else {
      Step(css, i);
      if parens == 0 && Ends(First(css, i)) {
        AtStart(css, i);
      } else {
        PreludeAtIs(css, Next(css, i), parens + Nest(First(css, i)));
        AtNext(css, i, PreludeAt(css, i, parens), PreludeEnd(LexFrom(css, i), parens) - 1);
      }
    }
  }

  lemma LexEnd(css: string)
    ensures LexFrom(css, |css|) == []
  {
  }

  lemma {:induction false} BodyAtIs(css: string, i: nat, depth: int)
    requires i <= |css|
    ensures BodyAt(css, i, depth).Some? <==> BodyEnd(LexFrom(css, i), depth).Some?
    ensures BodyAt(css, i, depth).Some? ==>
            At(css, i, BodyAt(css, i, depth).value, BodyEnd(LexFrom(css, i), depth).value)
    decreases |css| - i
  {
    hide First; hide Next; hide At; hide LexFrom;
    if i == |css| {
      LexEnd(css);
    } else {
      Step(css, i);
      if First(css, i) == Ch('}') && depth == 1 {
        AtStart(css, i);
      } else {
        BodyAtIs(css, Next(css, i), depth + Level(First(css, i)));
        if BodyAt(css, i, depth).Some? {
          AtNext(css, i, BodyAt(css, i, depth).value, BodyEnd(LexFrom(css, i), depth).value - 1);
        }
      }
    }
  }

  // ----- The scanner -----

  /** Just past the escape, string or comment at `i`, or past the end of the text when it is cut off. */
  method SkipStringOrComment(css: string, i: nat) returns (r: nat)
    requires i < |css|
    ensures i <= r && SkipEnd(css, i) == if r < |css| then r else |css|
    ensures css[i] == '/' ==> r == SkipEnd(css, i)
  {
    var c := css[i];
    if c == '\\' { return i + 2; }
    if c == '"' || c == '\'' {
      var j := i + 1;
      while j < |css| && css[j] != c
        invariant i < j <= |css| + 1
        invariant j <= |css| ==> QuoteEnd(css, j, c) == QuoteEnd(css, i + 1, c)
        invariant j == |css| + 1 ==> QuoteEnd(css, i + 1, c) == |css|
      {
        j := j + if css[j] == '\\' then 2 else 1;
      }
      return j + 1;
    }
    if c == '/' && i + 1 < |css| && css[i + 1] == '*' {
      return CommentEnd(css, i + 2);
    }
    return i;
  }

  lemma PlainStep(css: string, i: nat)
    requires i < |css|
    ensures SkipEnd(css, i) == i ==> First(css, i) == Ch(css[i]) && Next(css, i) == i + 1
    ensures SkipEnd(css, i) > i ==> First(css, i).Skip? && Next(css, i) == SkipEnd(css, i)
  {
  }

  /** The brace that closes the block opened at `open`; none when there is none. */
  method ClosingBrace(css: string, open: nat) returns (r: Option<nat>)
    requires open < |css| && css[open] == '{'
    ensures r == BodyAt(css, open + 1, 1)
  {
    hide SkipEnd; hide First; hide Next;
    var depth := 0;
    var i := open;
    BraceOpens(css, open);
    while i < |css|
      invariant open <= i
      invariant (if i <= |css| then BodyAt(css, i, depth) else None) == BodyAt(css, open, 0)
    {
      var skipped := SkipStringOrComment(css, i);
      PlainStep(css, i);
      if skipped != i {
        i := skipped;
      } else {
        if css[i] == '{' {
          depth := depth + 1;
        } else if css[i] == '}' {
          depth := depth - 1;
          if depth == 0 { return Some(i); }
        }
        i := i + 1;
      }
    }
    r := None;
  }

  lemma BraceOpens(css: string, open: nat)
    requires open < |css| && css[open] == '{'
    ensures BodyAt(css, open, 0) == BodyAt(css, open + 1, 1)
  {
    PlainStep(css, open);
  }

  /** The end of the prelude that starts at `i`. */
  method PreludeScan(css: string, i: nat) returns (j: nat)
    requires i <= |css|
    ensures PreludeAt(css, i, 0) == if j < |css| then j else |css|
  {
    hide SkipEnd; hide First; hide Next;
    j := i;
    var parens := 0;
    while j < |css|
      invariant (if j <= |css| then PreludeAt(css, j, parens) else |css|) == PreludeAt(css, i, 0)
    {
      var skipped := SkipStringOrComment(css, j);
      PlainStep(css, j);
      if skipped != j {
        j := skipped;
      } else {
        if css[j] == '(' {
          parens := parens + 1;
        } else if css[j] == ')' {
          parens := parens - 1;
        } else if parens == 0 && (css[j] == '{' || css[j] == ';' || css[j] == '}') {
          break;
        }
        j := j + 1;
      }
    }
  }

  // ----- The parser -----

  function Prepend(nodes: seq<Node>, r: Option<seq<Node>>): Option<seq<Node>> {
    match r case None => None case Some(rest) => Some(nodes + rest)
  }

  lemma PrependOne(nodes: seq<Node>, n: Node, r: Option<seq<Node>>)
    ensures Prepend(nodes, Prepend([n], r)) == Prepend(nodes + [n], r)
  {
    if r.Some? { assert nodes + ([n] + r.value) == nodes + [n] + r.value; }
  }

  /** How parsing goes on at `i`. */
  function Going(css: string, i: nat): Option<seq<Node>>
    requires i <= |css|
  {
    ParseLexemes(LexFrom(css, i))
  }

  lemma SpaceStep(css: string, i: nat)
    requires i < |css| && IsSpace(css[i])
    ensures Going(css, i) == Going(css, i + 1)
  {
    hide LexFrom; hide ReadNode;
    Step(css, i);
    PlainStep(css, i);
  }

  lemma CommentStep(css: string, i: nat)
    requires i + 1 < |css| && css[i] == '/' && css[i + 1] == '*'
    ensures Going(css, i) == Prepend([Text(css[i..SkipEnd(css, i)])], Going(css, SkipEnd(css, i)))
  {
    hide LexFrom; hide CommentEnd;
    Step(css, i);
    PlainStep(css, i);
    var ts := LexFrom(css, i);
    assert First(css, i) == Skip(css[i..SkipEnd(css, i)]);
    assert IsComment(ts[0]) by { assert css[i..SkipEnd(css, i)][..2] == "/*"; }
    assert ReadNode(ts) == Some((Text(ts[0].text), 1));
  }

  /** What the first lexeme of a node that is no comment looks like. */
  lemma NodeStart(css: string, i: nat)
    requires i < |css| && !IsSpace(css[i]) && !(i + 1 < |css| && css[i] == '/' && css[i + 1] == '*')
    ensures LexFrom(css, i) != [] && !Blank(LexFrom(css, i)[0]) && !IsComment(LexFrom(css, i)[0])
  {
    hide LexFrom; hide QuoteEnd; hide CommentEnd;
    Step(css, i);
    PlainStep(css, i);
    var t := First(css, i);
    if t.Skip? && |t.text| >= 2 { assert t.text[0] == css[i] && t.text[1] == css[i + 1]; }
  }

  lemma StatementStep(css: string, i: nat)
    requires i < |css| && !IsSpace(css[i]) && !(i + 1 < |css| && css[i] == '/' && css[i + 1] == '*')
    requires var j := PreludeAt(css, i, 0); j == |css| || css[j] != '{'
    ensures var j := PreludeAt(css, i, 0);
            var k := if j < |css| then j + 1 else j;
            Going(css, i) == Prepend([Text(css[i..k])], Going(css, k))
  {
    hide LexFrom; hide First; hide Next; hide Show; hide PreludeEnd; hide PreludeAt; hide ReadBlock;
    NodeStart(css, i);
    PreludeAtIs(css, i, 0);
    var ts, j := LexFrom(css, i), PreludeAt(css, i, 0);
    var n := PreludeEnd(ts, 0);
    if j == |css| {
      LexEnd(css);
      assert ts[n..] == [] && ts[..n] == ts && n == |ts|;
      assert ReadNode(ts) == Some((Text(Show(ts)), n));
      assert Going(css, i) == Prepend([Text(Show(ts))], ParseLexemes(ts[n..]));
    } else {
      EndsPlain(css, i);
      Step(css, j);
      assert ts[n] == ts[n..][0] == Ch(css[j]);
      AtOne(css, i, j, n);
    }
  }

  lemma EndsPlain(css: string, i: nat)
    requires i <= |css| && PreludeAt(css, i, 0) < |css|
    ensures var j := PreludeAt(css, i, 0); First(css, j) == Ch(css[j]) && Next(css, j) == j + 1 && Ends(First(css, j))
  {
    EndsPlainFrom(css, i, 0);
    PlainStep(css, PreludeAt(css, i, 0));
  }

  lemma {:induction false} EndsPlainFrom(css: string, i: nat, parens: int)
    requires i <= |css| && PreludeAt(css, i, parens) < |css|
    ensures Ends(First(css, PreludeAt(css, i, parens)))
    decreases |css| - i
  {
    hide First; hide Next;
    if !(parens == 0 && Ends(First(css, i))) {
      EndsPlainFrom(css, Next(css, i), parens + Nest(First(css, i)));
    }
  }

  /** One plain character further on. */
  lemma AtOne(css: string, i: nat, k: nat, n: nat)
    requires At(css, i, k, n) && k < |css| && First(css, k) == Ch(css[k]) && Next(css, k) == k + 1
    ensures At(css, i, k + 1, n + 1)
  {
    hide LexFrom; hide First; hide Next;
    Step(css, k);
    var ts := LexFrom(css, i);
    assert ts[n..][0] == ts[n] && ts[n..][1..] == ts[n + 1..];
    assert ts[..n + 1] == ts[..n] + [ts[n]];
    ShowLast(ts[..n + 1]);
    assert ts[..n + 1][..n] == ts[..n];
    assert css[i..k + 1] == css[i..k] + [css[k]];
  }

  lemma BlockStep(css: string, i: nat, children: Option<seq<Node>>)
    requires i < |css| && !IsSpace(css[i]) && !(i + 1 < |css| && css[i] == '/' && css[i + 1] == '*')
    requires PreludeAt(css, i, 0) < |css| && css[PreludeAt(css, i, 0)] == '{'
    requires var j := PreludeAt(css, i, 0);
             BodyAt(css, j + 1, 1).Some? && IsGrouping(Trim(css[i..j])) ==>
                 children == Parse(css[j + 1..BodyAt(css, j + 1, 1).value])
    ensures var j := PreludeAt(css, i, 0);
            var prelude, close := Trim(css[i..j]), BodyAt(css, j + 1, 1);
            && (close.None? ==> Going(css, i) == None)
            && (close.Some? && IsGrouping(prelude) && children.None? ==> Going(css, i) == None)
            && (close.Some? && IsGrouping(prelude) && children.Some? ==>
                  Going(css, i) == Prepend([Group(prelude, children.value)], Going(css, close.value + 1)))
            && (close.Some? && !IsGrouping(prelude) ==>
                  Going(css, i) == Prepend([Rule(prelude, css[j + 1..close.value])], Going(css, close.value + 1)))
  {
    hide LexFrom; hide First; hide Next; hide Show; hide PreludeEnd; hide PreludeAt; hide BodyEnd; hide BodyAt;
    hide Trim; hide IsGrouping; hide At; hide Block;
    var ts, j := LexFrom(css, i), PreludeAt(css, i, 0);
    var close := BodyAt(css, j + 1, 1);
    NodeStart(css, i);
    var m := BlockOpens(css, i);
    if close.Some? {
      var n := BlockCloses(css, i, m);
      assert ReadNode(ts) == ReadBlock(ts, m);
      BlockNode(css[j + 1..close.value], Trim(css[i..j]), ts[m + 1..m + 1 + n]);
    } else {
      assert ReadNode(ts) == ReadBlock(ts, m);
    }
  }

  lemma BlockOpens(css: string, i: nat) returns (m: nat)
    requires i <= |css| && PreludeAt(css, i, 0) < |css| && css[PreludeAt(css, i, 0)] == '{'
    ensures var ts, j := LexFrom(css, i), PreludeAt(css, i, 0);
            && m < |ts| && PreludeEnd(ts, 0) == m && ts[m] == Ch('{') && At(css, i, j, m)
            && LexFrom(css, j + 1) == ts[m + 1..] && Show(ts[..m]) == css[i..j]
            && (BodyAt(css, j + 1, 1).Some? <==> BodyEnd(ts[m + 1..], 1).Some?)
  {
    hide LexFrom; hide First; hide Next; hide Show; hide PreludeEnd; hide PreludeAt; hide BodyEnd; hide BodyAt;
    var ts, j := LexFrom(css, i), PreludeAt(css, i, 0);
    PreludeAtIs(css, i, 0);
    m := PreludeEnd(ts, 0);
    EndsPlain(css, i);
    Step(css, j);
    assert ts[m..][0] == ts[m] && ts[m..][1..] == ts[m + 1..];
    BodyAtIs(css, j + 1, 1);
  }

  lemma BlockCloses(css: string, i: nat, m: nat) returns (n: nat)
    requires i <= |css| && PreludeAt(css, i, 0) < |css| && css[PreludeAt(css, i, 0)] == '{'
    requires m < |LexFrom(css, i)| && LexFrom(css, PreludeAt(css, i, 0) + 1) == LexFrom(css, i)[m + 1..]
    requires BodyAt(css, PreludeAt(css, i, 0) + 1, 1).Some?
    ensures var ts, j := LexFrom(css, i), PreludeAt(css, i, 0);
            var close := BodyAt(css, j + 1, 1).value;
            && m + 1 + n < |ts| && BodyEnd(ts[m + 1..], 1) == Some(n) && Show(ts[m + 1..m + 1 + n]) == css[j + 1..close]
            && Lexed(ts[m + 1..m + 1 + n]) && LexFrom(css, close + 1) == ts[m + n + 2..]
  {
    hide LexFrom; hide First; hide Next; hide Show; hide PreludeEnd; hide PreludeAt; hide BodyEnd; hide BodyAt;
    var ts, j := LexFrom(css, i), PreludeAt(css, i, 0);
    var close := BodyAt(css, j + 1, 1).value;
    BodyAtIs(css, j + 1, 1);
    var us := ts[m + 1..];
    n := BodyEnd(us, 1).value;
    BodyEndIs(us, n, 1);
    assert us[..n] == ts[m + 1..m + 1 + n];
    Step(css, close);
    assert us[n..][0] == us[n] && us[n..][1..] == ts[m + n + 2..];
    ShowLexFrom(css, close);
    CloseIsPlain(css, close);
    ShowLexFrom(css, j + 1);
    var d: int := j + 1;
    LexShift(css, css[j + 1..], j + 1, 0 - d);
    LexedPrefix(us, n);
  }

  lemma CloseIsPlain(css: string, k: nat)
    requires k < |css| && First(css, k) == Ch('}')
    ensures Next(css, k) == k + 1
  {
  }

  lemma BlockNode(body: string, prelude: string, inner: seq<Lexeme>)
    requires Lexed(inner) && Show(inner) == body
    ensures Block(prelude, inner) ==
            if !IsGrouping(prelude) then Some(Rule(prelude, body))
            else match Parse(body) case None => None case Some(children) => Some(Group(prelude, children))
  {
  }

  /** Parses a stylesheet; none where the source throws. */
  method ParseCss(css: string) returns (r: Option<seq<Node>>)
    ensures r == Parse(css)
    decreases |css|
  {
    hide LexFrom; hide First; hide Next; hide SkipEnd; hide Trim; hide IsGrouping; hide PreludeAt; hide BodyAt;
    hide IsSpace; hide ParseLexemes;
    var nodes: seq<Node> := [];
    var i := 0;
    assert Prepend([], Going(css, 0)) == Going(css, 0) by { PrependNothing(Going(css, 0)); }
    while i < |css|
      invariant i <= |css|
      invariant Parse(css) == Prepend(nodes, Going(css, i))
    {
      while i < |css| && IsSpace(css[i])
        invariant i <= |css|
        invariant Parse(css) == Prepend(nodes, Going(css, i))
      {
        SpaceStep(css, i);
        i := i + 1;
      }
      if i >= |css| { break; }
      if i + 1 < |css| && css[i] == '/' && css[i + 1] == '*' {
        var end := SkipStringOrComment(css, i);
        CommentStep(css, i);
        CommentEnds(css, i);
        PrependOne(nodes, Text(css[i..end]), Going(css, end));
        nodes := nodes + [Text(css[i..end])];
        i := end;
        continue;
      }
      var j := PreludeScan(css, i);
      if j >= |css| || css[j] != '{' {
        var k := if j + 1 < |css| then j + 1 else |css|;
        StatementStep(css, i);
        PrependOne(nodes, Text(css[i..k]), Going(css, k));
        nodes := nodes + [Text(css[i..k])];
        i := k;
        continue;
      }
      var close := ClosingBrace(css, j);
      PreludeStarts(css, i);
      var prelude := Trim(css[i..j]);
      var children: Option<seq<Node>> := None;
      if close.Some? && IsGrouping(prelude) {
        children := ParseCss(css[j + 1..close.value]);
      }
      BlockStep(css, i, children);
      if close.None? || (IsGrouping(prelude) && children.None?) { return None; }
      var body := css[j + 1..close.value];
      var node := if IsGrouping(prelude) then Group(prelude, children.value) else Rule(prelude, body);
      PrependOne(nodes, node, Going(css, close.value + 1));
      nodes := nodes + [node];
      i := close.value + 1;
    }
    NothingLeft(css);
    assert nodes + [] == nodes;
    r := Some(nodes);
  }

  lemma PrependNothing(r: Option<seq<Node>>)
    ensures Prepend([], r) == r
  {
    if r.Some? { assert [] + r.value == r.value; }
  }

  lemma NothingLeft(css: string)
    ensures Going(css, |css|) == Some([])
  {
  }

  lemma CommentEnds(css: string, i: nat)
    requires i + 1 < |css| && css[i] == '/' && css[i + 1] == '*'
    ensures SkipEnd(css, i) > i
  {
  }

  lemma PreludeStarts(css: string, i: nat)
    requires i < |css|
    ensures i <= PreludeAt(css, i, 0)
  {
  }

  // ----- The splitter -----

  function Shown(runs: seq<seq<Lexeme>>): seq<string> {
    seq(|runs|, i requires 0 <= i < |runs| => Show(runs[i]))
  }

  /** Trimmed, empty ones dropped. */
  function Tidied(raw: seq<string>): seq<string> {
    if raw == [] then [] else (if Trim(raw[0]) == "" then [] else [Trim(raw[0])]) + Tidied(raw[1..])
  }

  lemma {:induction false} TidiedShown(runs: seq<seq<Lexeme>>)
    ensures Tidied(Shown(runs)) == Texts(runs)
  {
    hide Trim; hide Show;
    if runs != [] {
      TidiedShown(runs[1..]);
      assert Shown(runs)[1..] == Shown(runs[1..]);
    }
  }

  /** The pieces still to come at `i`, the first one begun at `start`. */
  function Coming(text: string, start: nat, i: nat, sep: char, depth: int): seq<string>
    requires start <= i <= |text|
  {
    var runs := Shown(Runs(LexFrom(text, i), sep, depth));
    [text[start..i] + runs[0]] + runs[1..]
  }

  lemma ComingEnd(text: string, start: nat, sep: char, depth: int)
    requires start <= |text|
    ensures Coming(text, start, |text|, sep, depth) == [text[start..]]
  {
    LexEnd(text);
    EmptyLexed();
    assert Runs([], sep, depth) == [[]];
    assert Shown([[]]) == [""];
    assert text[start..|text|] + "" == text[start..];
  }

  lemma ComingSeparator(text: string, start: nat, i: nat, sep: char)
    requires start <= i < |text| && First(text, i) == Ch(sep) && Next(text, i) == i + 1
    ensures Coming(text, start, i, sep, 0) == [text[start..i]] + Coming(text, i + 1, i + 1, sep, 0)
  {
    hide LexFrom; hide First; hide Next; hide Show;
    Step(text, i);
    EmptyLexed();
    var runs := Runs(LexFrom(text, i + 1), sep, 0);
    assert Runs(LexFrom(text, i), sep, 0) == [[]] + runs;
    var shown := Shown(runs);
    assert Shown([[]] + runs) == [""] + shown && ([""] + shown)[1..] == shown;
    assert text[start..i] + "" == text[start..i];
    assert text[i + 1..i + 1] + shown[0] == shown[0];
    assert [shown[0]] + shown[1..] == shown;
  }

  lemma ComingOn(text: string, start: nat, i: nat, sep: char, depth: int)
    requires start <= i < |text| && !(First(text, i) == Ch(sep) && depth == 0)
    ensures Coming(text, start, i, sep, depth)
            == Coming(text, start, Next(text, i), sep, depth + Bracket(First(text, i)))
  {
    hide LexFrom; hide First; hide Next; hide Image;
    Step(text, i);
    var k := Next(text, i);
    var t := First(text, i);
    var runs := Runs(LexFrom(text, k), sep, depth + Bracket(t));
    assert Runs(LexFrom(text, i), sep, depth) == [[t] + runs[0]] + runs[1..];
    assert ([t] + runs[0])[1..] == runs[0];
    assert Show([t] + runs[0]) == Image(t) + Show(runs[0]);
    var shown, longer := Shown(runs), Shown([[t] + runs[0]] + runs[1..]);
    assert longer[0] == Image(t) + shown[0] && longer[1..] == shown[1..];
    assert text[start..k] + shown[0] == text[start..i] + (text[i..k] + shown[0]);
  }

  /** Splits on `sep` outside strings, comments, escapes, parentheses and brackets. */
  method SplitTopLevel(text: string, sep: char) returns (parts: seq<string>)
    requires sep == ',' || sep == ';'
    ensures parts == Parts(text, sep)
  {
    hide LexFrom; hide First; hide Next; hide SkipEnd; hide Coming; hide Runs; hide Shown; hide Tidied; hide Trim;
    var out: seq<string> := [];
    var start, depth := 0, 0;
    var i := 0;
    WholeComing(text, sep);
    ghost var all := Shown(Runs(Lex(text), sep, 0));
    while i < |text|
      invariant start <= i && start <= |text|
      invariant all == out + Coming(text, start, if i <= |text| then i else |text|, sep, depth)
    {
      var skipped := SkipStringOrComment(text, i);
      PlainStep(text, i);
      if skipped != i {
        ComingOn(text, start, i, sep, depth);
        i := skipped;
        continue;
      }
      if text[i] == '(' || text[i] == '[' {
        ComingOn(text, start, i, sep, depth);
        depth := depth + 1;
      } else if text[i] == ')' || text[i] == ']' {
        ComingOn(text, start, i, sep, depth);
        depth := depth - 1;
      } else if text[i] == sep && depth == 0 {
        ComingSeparator(text, start, i, sep);
        out := out + [text[start..i]];
        start := i + 1;
      } else {
        ComingOn(text, start, i, sep, depth);
      }
      i := i + 1;
    }
    ComingEnd(text, start, sep, depth);
    out := out + [text[start..]];
    TidiedShown(Runs(Lex(text), sep, 0));
    parts := Tidied(out);
  }

  lemma WholeComing(text: string, sep: char)
    ensures Coming(text, 0, 0, sep, 0) == Shown(Runs(Lex(text), sep, 0))
  {
    hide LexFrom; hide Runs;
    var runs := Shown(Runs(Lex(text), sep, 0));
    assert text[0..0] + runs[0] == runs[0];
  }

  // ----- The rewrite -----

  method ReplaceFallbacksOf(previous: Option<Node>, supports: seq<Node>) returns (r: Option<seq<Node>>)
    ensures r == if previous.None? then None else ReplaceFallbacks(previous.value, supports)
  {
    hide Parts; hide Join; hide PropertyOf; hide Squash; hide LastOf;
    if previous.None? || !previous.value.Rule? || StartsWith(previous.value.prelude, "@") { return None; }
    if |supports| != 1 || !supports[0].Rule? { return None; }
    var inner := supports[0];
    var own := SplitTopLevel(previous.value.body, ';');
    var ds := SplitTopLevel(inner.body, ';');
    ghost var before := own;
    for i := 0 to |ds|
      invariant Override(before, ds) == Override(own, ds[i..])
    {
      var index := LastOf(own, PropertyOf(ds[i]));
      assert ds[i..][0] == ds[i] && ds[i..][1..] == ds[i + 1..];
      if index == |own| { return None; }
      own := own[index := ds[i]];
    }
    assert ds[|ds|..] == [];
    var body := Join(own, ';');
    var selectors := SplitTopLevel(previous.value.prelude, ',');
    var inners := SplitTopLevel(inner.prelude, ',');
    var moved := Squashed(inners);
    var others := Staying(selectors, moved);
    if |selectors| - |others| != |moved| { return None; }
    if others == [] { return Some([Rule(previous.value.prelude, body)]); }
    return Some([Rule(Join(others, ','), previous.value.body), Rule(inner.prelude, body)]);
  }

  method StripNodes(nodes: seq<Node>) returns (out: seq<Node>)
    ensures out == Strip(nodes)
    decreases nodes
  {
    hide ReplaceFallbacks; hide IsPropertyReset; hide Squash;
    out := [];
    assert nodes[0..] == nodes;
    for i := 0 to |nodes|
      invariant Strip(nodes) == StripInto(out, nodes[i..])
    {
      var node := nodes[i];
      assert nodes[i..][0] == node && nodes[i..][1..] == nodes[i + 1..];
      if node.Group? {
        var children := StripNodes(node.children);
        var replaced: Option<seq<Node>> := None;
        if Squash(node.prelude) == COLOR_MIX {
          replaced := ReplaceFallbacksOf(if out == [] then None else Some(out[|out| - 1]), children);
        }
        var group := Group(node.prelude, children);
        assert group == StripNode(node);
        if replaced.Some? {
          out := out[..|out| - 1] + replaced.value;
        } else if !IsPropertyReset(group) {
          out := out + [group];
        }
      } else {
        out := out + [node];
      }
    }
    assert nodes[|nodes|..] == [];
  }

  method RemovePolyfills(css: string) returns (r: Option<string>)
    ensures r == WithoutLegacyPolyfills(css)
  {
    hide Parse; hide Strip; hide Serialize;
    var nodes := ParseCss(css);
    if nodes.None? { return None; }
    var out := StripNodes(nodes.value);
    r := Some(Serialize(out));
  }
}
