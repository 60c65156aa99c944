/** The scanner, the parser and the splitter said again by positions in the text: one character at a
    time, with the brackets before a position counted. Nothing here looks at lexemes. */
module CssPositions {
  import opened Basics
  import opened CssLex
  import opened CssParse
  import opened CssSplit
  import opened CssLoops

  // ----- Where a position is -----

  /** Inside what a character stands. */
  datatype Mode =
    | Out
    | Escape                   // the character after a backslash
    | Quote(q: char)           // in a string
    | QuoteEscape(q: char)     // the character after a backslash in a string
    | Opening                  // the star that opens a comment
    | Comment
    | Closing                  // the slash that closes a comment

  function After(mode: Mode, c: char, next: Option<char>): Mode {
    match mode
    case Out =>
      if c == '\\' then Escape
      else if c == '"' || c == '\'' then Quote(c)
      else if c == '/' && next == Some('*') then Opening
      else Out
    case Escape => Out
    case Quote(q) => if c == q then Out else if c == '\\' then QuoteEscape(q) else Quote(q)
    case QuoteEscape(q) => Quote(q)
    case Opening => Comment
    case Comment => if c == '*' && next == Some('/') then Closing else Comment
    case Closing => Out
  }

  function ModeAt(s: string, k: nat): Mode
    requires k <= |s|
  {
    if k == 0 then Out else After(ModeAt(s, k - 1), s[k - 1], if k < |s| then Some(s[k]) else None)
  }

  /** How many of these characters stand before position `k` outside escapes, strings and comments. */
  function Before(s: string, chars: string, k: nat): nat
    requires k <= |s|
  {
    if k == 0 then 0
    else Before(s, chars, k - 1) + if ModeAt(s, k - 1) == Out && s[k - 1] in chars then 1 else 0
  }

  // ----- The scanner steps from outside to outside -----

  lemma {:induction false} QuoteModes(s: string, j: nat, q: char)
    requires j <= |s| && ModeAt(s, j) == Quote(q) && q != '\\'
    ensures forall m :: j <= m < QuoteEnd(s, j, q) ==> ModeAt(s, m) != Out
    ensures QuoteEnd(s, j, q) < |s| ==> ModeAt(s, QuoteEnd(s, j, q)) == Out
    decreases |s| - j
  {
    if j < |s| && s[j] != q {
      if s[j] == '\\' {
        if j + 1 < |s| {
          assert ModeAt(s, j + 1) == QuoteEscape(q);
          QuoteModes(s, j + 2, q);
        }
      } else {
        QuoteModes(s, j + 1, q);
      }
    }
  }

  lemma {:induction false} CommentModes(s: string, j: nat)
    requires j <= |s| && ModeAt(s, j) == Comment
    ensures forall m :: j <= m < CommentEnd(s, j) && m < |s| ==> ModeAt(s, m) != Out
    ensures CommentEnd(s, j) < |s| ==> ModeAt(s, CommentEnd(s, j)) == Out
    decreases |s| - j
  {
    if j + 1 < |s| {
      if s[j] == '*' && s[j + 1] == '/' {
        assert ModeAt(s, j + 1) == Closing;
      } else {
        CommentModes(s, j + 1);
      }
    }
  }

  lemma StepModes(s: string, i: nat)
    requires i < |s| && ModeAt(s, i) == Out
    ensures forall m :: i < m < Next(s, i) ==> ModeAt(s, m) != Out
    ensures Next(s, i) < |s| ==> ModeAt(s, Next(s, i)) == Out
    ensures Next(s, i) > i + 1 ==> First(s, i).Skip?
    ensures First(s, i).Skip? <==> ModeAt(s, i + 1) != Out
    ensures First(s, i).Ch? ==> First(s, i) == Ch(s[i]) && Next(s, i) == i + 1
  {
    if s[i] == '\\' {
      assert ModeAt(s, i + 1) == Escape;
    } else if s[i] == '"' || s[i] == '\'' {
      assert ModeAt(s, i + 1) == Quote(s[i]);
      QuoteModes(s, i + 1, s[i]);
    } else if i + 1 < |s| && s[i] == '/' && s[i + 1] == '*' {
      assert ModeAt(s, i + 1) == Opening && ModeAt(s, i + 2) == Comment;
      CommentModes(s, i + 2);
    }
  }

  /** Counting goes from step to step too. */
  lemma StepCounts(s: string, chars: string, i: nat)
    requires i < |s| && ModeAt(s, i) == Out
    ensures Before(s, chars, Next(s, i)) == Before(s, chars, i) + if s[i] in chars then 1 else 0
  {
    StepModes(s, i);
    InsideCounts(s, chars, i + 1, Next(s, i));
  }

  lemma {:induction false} InsideCounts(s: string, chars: string, i: nat, k: nat)
    requires i <= k <= |s| && forall m :: i <= m < k ==> ModeAt(s, m) != Out
    ensures Before(s, chars, k) == Before(s, chars, i)
  {
    hide ModeAt;
    if i < k { InsideCounts(s, chars, i, k - 1); }
  }

  // ----- Where a prelude ends and a block closes -----

  /** A brace or semicolon outside escapes, strings and comments, with no parenthesis open. */
  predicate EndsPrelude(s: string, k: nat) {
    && k < |s| && ModeAt(s, k) == Out && s[k] in "{;}"
    && Before(s, "(", k) == Before(s, ")", k)
  }

  lemma {:induction false} PreludeFrom(s: string, i: nat, parens: int)
    requires i <= |s| && (i < |s| ==> ModeAt(s, i) == Out)
    requires i < |s| ==> parens == Before(s, "(", i) - Before(s, ")", i)
    ensures var k := PreludeAt(s, i, parens);
            (k < |s| ==> EndsPrelude(s, k)) && forall j :: i <= j < k ==> !EndsPrelude(s, j)
    decreases |s| - i
  {
    hide ModeAt; hide Before;
    if i < |s| {
      hide First; hide Next;
      StepModes(s, i);
      PlainEnds(s, i);
      if !(parens == 0 && Ends(First(s, i))) {
        StepCounts(s, "(", i);
        StepCounts(s, ")", i);
        PreludeFrom(s, Next(s, i), parens + Nest(First(s, i)));
      }
    }
  }

  /** What the first character of a lexeme says about the lexeme. */
  lemma PlainEnds(s: string, i: nat)
    requires i < |s|
    ensures Ends(First(s, i)) <==> s[i] in "{;}"
    ensures Nest(First(s, i)) == if s[i] in "(" then 1 else if s[i] in ")" then -1 else 0
    ensures Level(First(s, i)) == if s[i] in "{" then 1 else if s[i] in "}" then -1 else 0
    ensures Bracket(First(s, i)) == if s[i] in "([" then 1 else if s[i] in ")]" then -1 else 0
    ensures First(s, i) == Ch('}') <==> s[i] == '}'
  {
  }

  /** The scan for the end of a prelude stops at the first such place, or at the end of the text. */
  lemma PreludeByPosition(s: string)
    ensures var k := PreludeAt(s, 0, 0);
            && (k < |s| ==> EndsPrelude(s, k))
            && (forall j :: 0 <= j < k ==> !EndsPrelude(s, j))
  {
    PreludeFrom(s, 0, 0);
  }

  /** A closing brace outside escapes, strings and comments, with as many braces opened as closed
      between the brace at `open` and it. */
  predicate ClosesBlock(s: string, open: nat, k: nat) {
    && open < k < |s| && ModeAt(s, k) == Out && s[k] == '}'
    && Before(s, "{", k) - Before(s, "{", open + 1) == Before(s, "}", k) - Before(s, "}", open + 1)
  }

  lemma {:induction false} BodyFrom(s: string, open: nat, i: nat, depth: int)
    requires open < i <= |s| && (i < |s| ==> ModeAt(s, i) == Out)
    requires i < |s| ==> depth - 1 == Before(s, "{", i) - Before(s, "{", open + 1)
                                      - (Before(s, "}", i) - Before(s, "}", open + 1))
    ensures var r := BodyAt(s, i, depth);
            && (r.Some? ==> ClosesBlock(s, open, r.value) && forall j :: i <= j < r.value ==> !ClosesBlock(s, open, j))
            && (r.None? ==> forall j :: i <= j < |s| ==> !ClosesBlock(s, open, j))
    decreases |s| - i
  {
    hide ModeAt; hide Before;
    if i < |s| {
      hide First; hide Next;
      StepModes(s, i);
      PlainEnds(s, i);
      if !(First(s, i) == Ch('}') && depth == 1) {
        StepCounts(s, "{", i);
        StepCounts(s, "}", i);
        BodyFrom(s, open, Next(s, i), depth + Level(First(s, i)));
      }
    }
  }

  /** The block opened at `open` closes at the first such place, or nowhere. */
  lemma BodyByPosition(s: string, open: nat)
    requires open < |s| && ModeAt(s, open) == Out && s[open] == '{'
    ensures var r := BodyAt(s, open + 1, 1);
            && (r.Some? ==> ClosesBlock(s, open, r.value) && forall j :: 0 <= j < r.value ==> !ClosesBlock(s, open, j))
            && (r.None? ==> forall j :: 0 <= j < |s| ==> !ClosesBlock(s, open, j))
  {
    hide ModeAt; hide Before; hide BodyAt;
    AfterBrace(s, open);
    BodyFrom(s, open, open + 1, 1);
    if BodyAt(s, open + 1, 1).Some? {
      assert forall j :: 0 <= j <= open ==> !ClosesBlock(s, open, j);
    }
  }

  lemma AfterBrace(s: string, open: nat)
    requires open < |s| && ModeAt(s, open) == Out && s[open] == '{'
    ensures ModeAt(s, open + 1) == Out
  {
  }

  // ----- Where a list is split -----

  /** A separator outside escapes, strings and comments, with as many brackets opened as closed before. */
  predicate Splits(s: string, sep: char, k: nat) {
    && k < |s| && s[k] == sep && ModeAt(s, k) == Out
    && Before(s, "([", k) == Before(s, ")]", k)
  }

  /** The texts between such separators, the first one begun at `start`. */
  function Between(s: string, sep: char, start: nat, i: nat): seq<string>
    requires start <= i <= |s|
    decreases |s| - i
  {
    if i == |s| then [s[start..]]
    else if Splits(s, sep, i) then [s[start..i]] + Between(s, sep, i + 1, i + 1)
    else Between(s, sep, start, i + 1)
  }

  lemma {:induction false} BetweenOn(s: string, sep: char, start: nat, i: nat, k: nat)
    requires start <= i <= k <= |s| && forall m :: i <= m < k ==> !Splits(s, sep, m)
    ensures Between(s, sep, start, i) == Between(s, sep, start, k)
    decreases k - i
  {
    hide Splits;
    if i < k { BetweenOn(s, sep, start, i + 1, k); }
  }

  lemma {:induction false} ComingFrom(s: string, sep: char, start: nat, i: nat, depth: int)
    requires (sep == ',' || sep == ';') && start <= i <= |s| && (i < |s| ==> ModeAt(s, i) == Out)
    requires i < |s| ==> depth == Before(s, "([", i) - Before(s, ")]", i)
    ensures Coming(s, start, i, sep, depth) == Between(s, sep, start, i)
    decreases |s| - i
  {
    hide ModeAt; hide Before; hide Coming; hide First; hide Next; hide Bracket;
    if i == |s| {
      ComingEnd(s, start, sep, depth);
    } else {
      StepModes(s, i);
      PlainEnds(s, i);
      StepCounts(s, "([", i);
      StepCounts(s, ")]", i);
      SeparatorIsPlain(s, sep, i);
      if First(s, i) == Ch(sep) && depth == 0 {
        ComingSeparator(s, start, i, sep);
        ComingFrom(s, sep, i + 1, i + 1, 0);
      } else {
        ComingOn(s, start, i, sep, depth);
        ComingFrom(s, sep, start, Next(s, i), depth + Bracket(First(s, i)));
        BetweenOn(s, sep, start, i, Next(s, i));
      }
    }
  }

  lemma SeparatorIsPlain(s: string, sep: char, i: nat)
    requires i < |s| && (sep == ',' || sep == ';')
    ensures First(s, i) == Ch(sep) <==> s[i] == sep
    ensures s[i] == sep ==> Bracket(First(s, i)) == 0
  {
  }

  /** The texts, trimmed. */
  function Trimmed(raw: seq<string>): seq<string> {
    if raw == [] then [] else [Trim(raw[0])] + Trimmed(raw[1..])
  }

  /** The parts of a list are the trimmed, non-empty texts between its separators. */
  lemma PartsByPosition(s: string, sep: char)
    requires sep == ',' || sep == ';'
    ensures Parts(s, sep) == Filter(Trimmed(Between(s, sep, 0, 0)), x => x != "")
  {
    hide Between; hide Runs; hide Lex; hide Trim; hide Tidied; hide Shown; hide Coming; hide Trimmed; hide Filter;
    ComingFrom(s, sep, 0, 0, 0);
    WholeComing(s, sep);
    TidiedShown(Runs(Lex(s), sep, 0));
    TidiedIsFilter(Between(s, sep, 0, 0));
  }

  lemma {:induction false} TidiedIsFilter(raw: seq<string>)
    ensures Tidied(raw) == Filter(Trimmed(raw), x => x != "")
  {
    hide Trim;
    if raw != [] {
      TidiedIsFilter(raw[1..]);
      assert Trimmed(raw)[1..] == Trimmed(raw[1..]);
    }
  }

  // ----- What is white space, and what trimming leaves -----

  /** Among the ASCII characters. */
  lemma AsciiSpace(c: char)
    requires c as int < 128
    ensures IsSpace(c) <==> 9 <= c as int <= 13 || c as int == 32
  {
  }

  predicate AllSpace(s: string) {
    forall i :: 0 <= i < |s| ==> IsSpace(s[i])
  }

  /** What is trimmed off is white space, and what is left has none at its ends. */
  lemma TrimIs(s: string) returns (a: string, b: string)
    ensures s == a + Trim(s) + b && AllSpace(a) && AllSpace(b)
    ensures Trim(s) != "" ==> !IsSpace(Trim(s)[0]) && !IsSpace(Trim(s)[|Trim(s)| - 1])
  {
    hide IsSpace;
    a := TrimStartIs(s);
    b := TrimEndIs(TrimStart(s));
    assert s == a + (Trim(s) + b);
  }

  lemma {:induction false} TrimStartIs(s: string) returns (a: string)
    ensures s == a + TrimStart(s) && AllSpace(a)
    ensures TrimStart(s) != "" ==> !IsSpace(TrimStart(s)[0])
  {
    hide IsSpace;
    if s != "" && IsSpace(s[0]) {
      a := TrimStartIs(s[1..]);
      a := [s[0]] + a;
    } else {
      a := "";
    }
  }

  lemma {:induction false} TrimEndIs(s: string) returns (b: string)
    ensures s == TrimEnd(s) + b && AllSpace(b)
    ensures TrimEnd(s) != "" ==> !IsSpace(TrimEnd(s)[|TrimEnd(s)| - 1])
  {
    hide IsSpace;
    if s != "" && IsSpace(s[|s| - 1]) {
      b := TrimEndIs(s[..|s| - 1]);
      b := b + [s[|s| - 1]];
    } else {
      b := "";
    }
  }

  // ----- What a stylesheet parses to -----

  /** The name of an at-rule that holds rules, in any case, and then no letter, digit or underscore. */
  predicate WrittenGroup(p: string) {
    exists n :: 1 <= n <= |p| && p[0] == '@' && HoldsRules(p[1..n]) && (n < |p| ==> EndsName(p[n]))
  }

  predicate HoldsRules(name: string) {
    || SameLetters(name, "media") || SameLetters(name, "supports") || SameLetters(name, "layer")
    || SameLetters(name, "container") || SameLetters(name, "scope") || SameLetters(name, "starting-style")
    || SameLetters(name, "document")
  }

  predicate EndsName(c: char) {
    !('a' <= c <= 'z') && !('A' <= c <= 'Z') && !('0' <= c <= '9') && c != '_'
  }

  lemma NamedIs(p: string, name: string)
    requires LowerCase(name) == name
    ensures NamedAt(p, name) <==>
            |name| < |p| && p[0] == '@' && SameLetters(p[1..1 + |name|], name)
            && (1 + |name| < |p| ==> EndsName(p[1 + |name|]))
  {
    hide LowerCase; hide SameLetters;
    if |name| < |p| { LowerCaseIs(p[1..1 + |name|], name); }
  }

  lemma NamesAreLower()
    ensures forall i :: 0 <= i < |GROUPING| ==> LowerCase(GROUPING[i]) == GROUPING[i]
  {
  }

  lemma GroupingIs(p: string)
    ensures IsGrouping(p) <==> WrittenGroup(p)
  {
    hide LowerCase; hide NamedAt; hide EndsName;
    NamesAreLower();
    forall i | 0 <= i < |GROUPING|
      ensures NamedAt(p, GROUPING[i]) <==>
              |GROUPING[i]| < |p| && p[0] == '@' && SameLetters(p[1..1 + |GROUPING[i]|], GROUPING[i])
              && (1 + |GROUPING[i]| < |p| ==> EndsName(p[1 + |GROUPING[i]|]))
    {
      NamedIs(p, GROUPING[i]);
    }
    if IsGrouping(p) {
      var i :| 0 <= i < |GROUPING| && NamedAt(p, GROUPING[i]);
      HoldsIs(p[1..1 + |GROUPING[i]|], i);
    }
    if WrittenGroup(p) {
      var n :| 1 <= n <= |p| && p[0] == '@' && HoldsRules(p[1..n]) && (n < |p| ==> EndsName(p[n]));
      var i := HoldsOne(p[1..n]);
    }
  }

  lemma HoldsIs(name: string, i: nat)
    requires i < |GROUPING| && SameLetters(name, GROUPING[i])
    ensures HoldsRules(name)
  {
    hide SameLetters;
  }

  lemma HoldsOne(name: string) returns (i: nat)
    requires HoldsRules(name)
    ensures i < |GROUPING| && SameLetters(name, GROUPING[i]) && |name| == |GROUPING[i]|
  {
    i := if SameLetters(name, "media") then 0
         else if SameLetters(name, "supports") then 1
         else if SameLetters(name, "layer") then 2
         else if SameLetters(name, "container") then 3
         else if SameLetters(name, "scope") then 4
         else if SameLetters(name, "starting-style") then 5
         else 6;
  }

  lemma GoingOn(css: string, k: nat)
    requires k <= |css|
    ensures Going(css, k) == Parse(css[k..])
  {
    hide LexFrom; hide ParseLexemes;
    LexShift(css, css[k..], k, 0 - k);
  }

  /** White space between nodes is skipped. */
  lemma SpaceByPosition(css: string)
    ensures css == "" ==> Parse(css) == Some([])
    ensures css != "" && IsSpace(css[0]) ==> Parse(css) == Parse(css[1..])
  {
    hide IsSpace; hide LexFrom; hide ReadNode;
    if css == "" {
      EmptyLexed();
    } else if IsSpace(css[0]) {
      SpaceStep(css, 0);
      GoingOn(css, 1);
    }
  }

  /** Neither white space nor a comment stands first. */
  predicate StartsNode(css: string) {
    css != "" && !IsSpace(css[0]) && !("/*" <= css)
  }

  predicate ClosesComment(css: string, j: int) {
    0 <= j && j + 1 < |css| && css[j] == '*' && css[j + 1] == '/'
  }

  /** A comment is a text of its own, up to the first mark that closes it or the end. */
  lemma CommentByPosition(css: string, n: nat)
    requires "/*" <= css
    requires 2 <= n <= |css| && forall j :: 2 <= j && ClosesComment(css, j) ==> n <= j + 2
    requires n < |css| ==> 4 <= n && ClosesComment(css, n - 2)
    ensures Parse(css) == Prepend([Text(css[..n])], Parse(css[n..]))
  {
    hide LexFrom; hide ParseLexemes;
    assert css[0] == '/' && css[1] == '*';
    CommentStep(css, 0);
    CommentEndIs(css, 2, n);
    GoingOn(css, n);
    assert css[0..n] == css[..n];
  }

  lemma {:induction false} CommentEndIs(css: string, i: nat, n: nat)
    requires i <= n <= |css| && forall j :: i <= j && ClosesComment(css, j) ==> n <= j + 2
    requires n < |css| ==> i + 2 <= n && ClosesComment(css, n - 2)
    ensures CommentEnd(css, i) == n
    decreases |css| - i
  {
    if i + 1 < |css| {
      if css[i] == '*' && css[i + 1] == '/' {
        assert ClosesComment(css, i);
      } else {
        CommentEndIs(css, i + 1, n);
      }
    }
  }

  /** Without a block a node is a text, up to the first semicolon or closing brace or the end. */
  lemma StatementByPosition(css: string, k: nat)
    requires StartsNode(css) && k <= |css| && forall j :: 0 <= j < k ==> !EndsPrelude(css, j)
    ensures k == |css| ==> Parse(css) == Some([Text(css)])
    ensures EndsPrelude(css, k) && css[k] != '{' ==>
            Parse(css) == Prepend([Text(css[..k + 1])], Parse(css[k + 1..]))
  {
    hide LexFrom; hide ParseLexemes; hide IsSpace; hide EndsPrelude; hide PreludeAt;
    PreludeByPosition(css);
    if k == |css| {
      PreludeEnds(css, k);
      assert PreludeAt(css, 0, 0) == k && css[0..k] == css;
      StatementStep(css, 0);
      NothingLeft(css);
      assert [Text(css)] + [] == [Text(css)];
    } else if EndsPrelude(css, k) && css[k] != '{' {
      assert PreludeAt(css, 0, 0) == k;
      StatementStep(css, 0);
      GoingOn(css, k + 1);
      assert css[0..k + 1] == css[..k + 1];
    }
  }

  lemma PreludeEnds(s: string, k: nat)
    ensures EndsPrelude(s, k) ==> k < |s| && ModeAt(s, k) == Out
  {
  }

  /** A block, read with everything before its opening brace as its prelude: a group of what is
      inside where the prelude names one of the at-rules that hold rules, and a rule with what is
      inside as its text everywhere else. */
  lemma BlockByPosition(css: string, open: nat, close: nat)
    requires StartsNode(css)
    requires EndsPrelude(css, open) && css[open] == '{' && forall j :: 0 <= j < open ==> !EndsPrelude(css, j)
    requires ClosesBlock(css, open, close) && forall j :: open < j < close ==> !ClosesBlock(css, open, j)
    ensures var prelude, body := Trim(css[..open]), css[open + 1..close];
            Parse(css) ==
            if WrittenGroup(prelude)
            then match Parse(body)
                 case None => None
                 case Some(children) => Prepend([Group(prelude, children)], Parse(css[close + 1..]))
            else Prepend([Rule(prelude, body)], Parse(css[close + 1..]))
  {
    hide LexFrom; hide ParseLexemes; hide IsSpace; hide EndsPrelude; hide PreludeAt; hide BodyAt; hide ClosesBlock;
    hide IsGrouping; hide WrittenGroup; hide Trim; hide ModeAt; hide Before;
    PreludeEnds(css, open);
    PreludeByPosition(css);
    BodyByPosition(css, open);
    ClosesLater(css, open, close);
    assert PreludeAt(css, 0, 0) == open;
    assert BodyAt(css, open + 1, 1) == Some(close);
    var prelude, body := Trim(css[..open]), css[open + 1..close];
    GroupingIs(prelude);
    assert css[0..open] == css[..open];
    BlockStep(css, 0, Parse(body));
    GoingOn(css, close + 1);
  }

  lemma ClosesLater(s: string, open: nat, k: nat)
    requires ClosesBlock(s, open, k)
    ensures open < k < |s|
  {
  }

  /** Without the brace that closes it there is no answer. */
  lemma OpenBlockByPosition(css: string, open: nat)
    requires StartsNode(css)
    requires EndsPrelude(css, open) && css[open] == '{' && forall j :: 0 <= j < open ==> !EndsPrelude(css, j)
    requires forall j :: open < j < |css| ==> !ClosesBlock(css, open, j)
    ensures Parse(css) == None
  {
    hide LexFrom; hide ParseLexemes; hide IsSpace; hide EndsPrelude; hide PreludeAt; hide BodyAt; hide IsGrouping;
    hide Trim; hide ModeAt; hide Before;
    PreludeEnds(css, open);
    PreludeByPosition(css);
    BodyByPosition(css, open);
    assert PreludeAt(css, 0, 0) == open;
    BlockStep(css, 0, None);
  }
}
