/** The scanner of the stylesheet rewrite: escapes, strings and comments, the end of a prelude and
    the brace that closes a block. Every function looks at the rest of the text, so that what it
    finds can be moved to another text that starts the same way. */
module CssLex {

  /** The characters `\s` and `trim` treat as white space. */
  predicate IsSpace(c: char) {
    || '\t' <= c <= '\r' || c == ' ' || c == '\U{A0}' || c == '\U{1680}' || '\U{2000}' <= c <= '\U{200A}'
    || c == '\U{2028}' || c == '\U{2029}' || c == '\U{202F}' || c == '\U{205F}' || c == '\U{3000}' || c == '\U{FEFF}'
  }

  function TrimStart(s: string): string {
    if s != "" && IsSpace(s[0]) then TrimStart(s[1..]) else s
  }

  function TrimEnd(s: string): (r: string)
    ensures r <= s
  {
    if s != "" && IsSpace(s[|s| - 1]) then TrimEnd(s[..|s| - 1]) else s
  }

  function Trim(s: string): string {
    TrimEnd(TrimStart(s))
  }

  // ----- Escapes, strings and comments -----

  /** Just past the quote that closes the string around position `j`, or the end of the text. */
  function QuoteEnd(s: string, j: nat, q: char): (n: nat)
    requires j <= |s|
    ensures j <= n <= |s|
    decreases |s| - j
  {
    if j == |s| then j
    else if s[j] == q then j + 1
    else if s[j] == '\\' then (if j + 1 == |s| then j + 1 else QuoteEnd(s, j + 2, q))
    else QuoteEnd(s, j + 1, q)
  }

  /** Just past the mark that closes the comment around position `j`, or the end of the text. */
  function CommentEnd(s: string, j: nat): (n: nat)
    requires j <= |s|
    ensures j <= n <= |s|
    decreases |s| - j
  {
    if j + 1 >= |s| then |s|
    else if s[j] == '*' && s[j + 1] == '/' then j + 2
    else CommentEnd(s, j + 1)
  }

  /** Just past the escape, string or comment that starts at `i`, or `i` when there is none. */
  function SkipEnd(s: string, i: nat): (n: nat)
    requires i < |s|
    ensures i <= n <= |s|
  {
    if s[i] == '\\' then (if i + 1 == |s| then i + 1 else i + 2)
    else if s[i] == '"' || s[i] == '\'' then QuoteEnd(s, i + 1, s[i])
    else if i + 1 < |s| && s[i] == '/' && s[i + 1] == '*' then CommentEnd(s, i + 2)
    else i
  }

  // ----- Lexemes -----

  /** What the scanner steps over at once: one character, or a whole escape, string or comment. */
  datatype Lexeme = Ch(c: char) | Skip(text: string)

  /** Where the lexeme that starts at `i` ends. */
  function Next(s: string, i: nat): (n: nat)
    requires i < |s|
    ensures i < n <= |s|
  {
    if SkipEnd(s, i) > i then SkipEnd(s, i) else i + 1
  }

  function First(s: string, i: nat): Lexeme
    requires i < |s|
  {
    if SkipEnd(s, i) > i then Skip(s[i..Next(s, i)]) else Ch(s[i])
  }

  /** The lexemes of `s` from `i` on. */
  function LexFrom(s: string, i: nat): seq<Lexeme>
    requires i <= |s|
    decreases |s| - i
  {
    if i == |s| then [] else [First(s, i)] + LexFrom(s, Next(s, i))
  }

  function Lex(s: string): seq<Lexeme> {
    LexFrom(s, 0)
  }

  function Image(t: Lexeme): string {
    match t case Ch(c) => [c] case Skip(text) => text
  }

  function Show(ts: seq<Lexeme>): string {
    if ts == [] then "" else Image(ts[0]) + Show(ts[1..])
  }

  lemma FirstImage(s: string, i: nat)
    requires i < |s|
    ensures Image(First(s, i)) == s[i..Next(s, i)]
  {
  }

  lemma LexStep(s: string, i: nat)
    requires i <= |s|
    ensures i == |s| ==> LexFrom(s, i) == []
    ensures i < |s| ==> LexFrom(s, i) == [First(s, i)] + LexFrom(s, Next(s, i))
  {
    hide First; hide Next;
  }

  lemma ShowFirst(t: Lexeme, ts: seq<Lexeme>)
    ensures Show([t] + ts) == Image(t) + Show(ts)
  {
    hide Image;
    assert ([t] + ts)[1..] == ts;
  }

  lemma ShowNothing()
    ensures Show([]) == ""
  {
  }

  lemma {:induction false} ShowLexFrom(s: string, i: nat)
    requires i <= |s|
    ensures Show(LexFrom(s, i)) == s[i..]
    decreases |s| - i
  {
    hide First; hide Next; hide Image; hide LexFrom; hide Show;
    LexStep(s, i);
    if i < |s| {
      var k := Next(s, i);
      FirstImage(s, i);
      ShowLexFrom(s, k);
      ShowFirst(First(s, i), LexFrom(s, k));
      assert s[i..] == s[i..k] + s[k..];
    } else {
      ShowNothing();
    }
  }

  lemma ShowLex(s: string)
    ensures Show(Lex(s)) == s
  {
    ShowLexFrom(s, 0);
    assert s[0..] == s;
  }

  lemma {:induction false} ShowCat(a: seq<Lexeme>, b: seq<Lexeme>)
    ensures Show(a + b) == Show(a) + Show(b)
  {
    if a == [] {
      assert a + b == b;
    } else {
      assert (a + b)[1..] == a[1..] + b;
      ShowCat(a[1..], b);
    }
  }

  /** The lexeme ends where it does whatever follows it. */
  predicate Whole(t: Lexeme) {
    match t case Ch(_) => true case Skip(text) => text != "" && SkipEnd(text + "}", 0) == |text|
  }

  predicate Closed(ts: seq<Lexeme>) {
    forall i :: 0 <= i < |ts| ==> Whole(ts[i])
  }

  /** A `*` written next would turn the last character into the start of a comment. */
  predicate EndsSlash(ts: seq<Lexeme>) {
    ts != [] && ts[|ts| - 1] == Ch('/')
  }

  // ----- A whole lexeme does not depend on what follows it or where it stands -----

  /** The characters of `s` from `i` to `e` are those of `z`, `d` places further. */
  predicate Agree(s: string, z: string, i: nat, e: nat, d: int) {
    i <= e <= |s| && 0 <= i + d && e + d <= |z| && forall p :: i <= p < e ==> s[p] == z[p + d]
  }

  lemma {:induction false} QuoteStable(s: string, z: string, i: nat, e: nat, d: int, q: char)
    requires Agree(s, z, i, e, d)
    requires if e == |s| then e + d == |z| else QuoteEnd(s, i, q) <= e
    ensures QuoteEnd(z, i + d, q) == QuoteEnd(s, i, q) + d
    decreases e - i
  {
    if i + 2 <= e && s[i] != q && s[i] == '\\' {
      QuoteStable(s, z, i + 2, e, d, q);
    } else if i < e && s[i] != q && s[i] != '\\' {
      QuoteStable(s, z, i + 1, e, d, q);
    }
  }

  lemma {:induction false} CommentStable(s: string, z: string, i: nat, e: nat, d: int)
    requires Agree(s, z, i, e, d)
    requires if e == |s| then e + d == |z| else CommentEnd(s, i) <= e
    ensures CommentEnd(z, i + d) == CommentEnd(s, i) + d
    decreases e - i
  {
    if i + 2 <= e && !(s[i] == '*' && s[i + 1] == '/') {
      CommentStable(s, z, i + 1, e, d);
    }
  }

  lemma SkipStable(s: string, z: string, i: nat, e: nat, d: int)
    requires Agree(s, z, i, e, d) && i < e
    requires if e == |s| then e + d == |z| else SkipEnd(s, i) <= e
    requires s[i] == '/' && i + 1 == e < |z| - d ==> z[e + d] != '*'
    ensures SkipEnd(z, i + d) == SkipEnd(s, i) + d
  {
    if s[i] == '"' || s[i] == '\'' {
      QuoteStable(s, z, i + 1, e, d, s[i]);
    } else if i + 2 <= e && s[i] == '/' && s[i + 1] == '*' {
      CommentStable(s, z, i + 2, e, d);
    }
  }

  lemma FirstShift(s: string, z: string, i: nat, d: int)
    requires Agree(s, z, i, |s|, d) && |s| + d == |z| && i < |s|
    ensures First(z, i + d) == First(s, i) && Next(z, i + d) == Next(s, i) + d
  {
    SkipStable(s, z, i, |s|, d);
    assert s[i..Next(s, i)] == z[i + d..Next(s, i) + d];
  }

  /** Lexing depends on nothing but the text from there on. */
  lemma {:induction false} LexShift(s: string, z: string, i: nat, d: int)
    requires Agree(s, z, i, |s|, d) && |s| + d == |z|
    ensures LexFrom(z, i + d) == LexFrom(s, i)
    decreases |s| - i
  {
    hide First; hide Next; hide LexFrom;
    LexStep(s, i);
    LexStep(z, i + d);
    if i < |s| {
      FirstShift(s, z, i, d);
      LexShift(s, z, Next(s, i), d);
    }
  }

  lemma FirstCat(a: string, b: string, i: nat)
    requires i < |a| && Whole(First(a, i))
    requires First(a, i) == Ch('/') && i + 1 == |a| ==> b == "" || b[0] != '*'
    ensures First(a + b, i) == First(a, i) && Next(a + b, i) == Next(a, i)
  {
    var t, k := First(a, i), Next(a, i);
    if t.Skip? {
      SkipStable(t.text + "}", a + b, 0, |t.text|, i);
    }
    assert (a + b)[i..k] == a[i..k];
  }

  lemma LexFromFirst(s: string, i: nat)
    requires i < |s| && Closed(LexFrom(s, i))
    ensures Whole(First(s, i)) && Closed(LexFrom(s, Next(s, i)))
    ensures EndsSlash(LexFrom(s, Next(s, i))) || (Next(s, i) == |s| && First(s, i) == Ch('/')) ==>
            EndsSlash(LexFrom(s, i))
  {
    assert Whole(LexFrom(s, i)[0]);
    assert LexFrom(s, Next(s, i)) == LexFrom(s, i)[1..];
  }

  lemma LexFromNext(a: string, b: string, i: nat)
    requires i < |a| && Closed(LexFrom(a, i))
    requires EndsSlash(LexFrom(a, i)) ==> b == "" || b[0] != '*'
    ensures LexFrom(a + b, i) == [First(a, i)] + LexFrom(a + b, Next(a, i))
  {
    LexFromFirst(a, i);
    FirstCat(a, b, i);
  }

  /** Lexing distributes over texts that meet between lexemes. */
  lemma {:induction false} LexFromCat(a: string, b: string, i: nat)
    requires i <= |a| && Closed(LexFrom(a, i))
    requires EndsSlash(LexFrom(a, i)) ==> b == "" || b[0] != '*'
    ensures LexFrom(a + b, i) == LexFrom(a, i) + LexFrom(b, 0)
    decreases |a| - i
  {
    hide First; hide Next; hide SkipEnd;
    if i == |a| {
      LexShift(b, a + b, 0, |a|);
    } else {
      LexFromNext(a, b, i);
      LexFromFirst(a, i);
      LexFromCat(a, b, Next(a, i));
    }
  }

  lemma LexCat(a: string, b: string)
    requires Closed(Lex(a))
    requires EndsSlash(Lex(a)) ==> b == "" || b[0] != '*'
    ensures Lex(a + b) == Lex(a) + Lex(b)
  {
    LexFromCat(a, b, 0);
  }

  // ----- Slices of a lexed text -----

  predicate Lexed(ts: seq<Lexeme>) {
    Lex(Show(ts)) == ts
  }

  /** A text that is one lexeme: the lexeme read at `i` reads as itself on its own. */
  lemma FirstAlone(s: string, i: nat)
    requires i < |s|
    ensures Lex(Image(First(s, i))) == [First(s, i)]
    ensures Next(s, i) < |s| ==> Whole(First(s, i))
    ensures First(s, i) == Ch('/') && i + 1 < |s| ==> s[i + 1] != '*'
  {
    var k := Next(s, i);
    var x := s[i..k];
    FirstImage(s, i);
    OwnEnd(s, i);
    if First(s, i).Skip? && k < |s| { SkipStable(s, x + "}", i, k, 0 - i); }
    assert x[0..k - i] == x;
    assert First(x, 0) == First(s, i) && LexFrom(x, k - i) == [];
    assert Lex(x) == [First(x, 0)] + LexFrom(x, k - i);
  }

  lemma {:induction false} QuoteOwn(s: string, x: string, i: nat, d: int, q: char)
    requires i <= |s| && Agree(s, x, i, QuoteEnd(s, i, q), d) && QuoteEnd(s, i, q) + d == |x|
    ensures QuoteEnd(x, i + d, q) == |x|
    decreases |s| - i
  {
    if i < |s| && s[i] != q && !(s[i] == '\\' && i + 1 == |s|) {
      QuoteOwn(s, x, if s[i] == '\\' then i + 2 else i + 1, d, q);
    }
  }

  lemma {:induction false} CommentOwn(s: string, x: string, i: nat, d: int)
    requires i <= |s| && Agree(s, x, i, CommentEnd(s, i), d) && CommentEnd(s, i) + d == |x|
    ensures CommentEnd(x, i + d) == |x|
    decreases |s| - i
  {
    if i + 1 < |s| && !(s[i] == '*' && s[i + 1] == '/') {
      CommentOwn(s, x, i + 1, d);
    }
  }

  lemma OwnEnd(s: string, i: nat)
    requires i < |s|
    ensures Next(s[i..Next(s, i)], 0) == Next(s, i) - i
    ensures SkipEnd(s, i) > i <==> SkipEnd(s[i..Next(s, i)], 0) > 0
  {
    var x := s[i..Next(s, i)];
    if s[i] == '"' || s[i] == '\'' {
      QuoteOwn(s, x, i + 1, 0 - i, s[i]);
    } else if i + 1 < |s| && s[i] == '/' && s[i + 1] == '*' {
      CommentOwn(s, x, i + 2, 0 - i);
    }
  }

  lemma LexHead(s: string)
    requires s != ""
    ensures Lex(s) == [First(s, 0)] + Lex(s[Next(s, 0)..])
  {
    hide First; hide Next;
    LexShift(s, s[Next(s, 0)..], Next(s, 0), 0 - Next(s, 0));
  }

  lemma LexedFirst(ts: seq<Lexeme>)
    requires Lexed(ts) && ts != []
    ensures Image(ts[0]) != "" && Show(ts) == Image(ts[0]) + Show(ts[1..])
    ensures Lexed(ts[1..]) && Lex(Image(ts[0])) == [ts[0]]
    ensures |ts| > 1 ==> Whole(ts[0])
    ensures |ts| > 1 && ts[0] == Ch('/') ==> Show(ts[1..]) != "" && Show(ts[1..])[0] != '*'
  {
    var s := Show(ts);
    assert s != "" by { EmptyLexed(); }
    var k := Next(s, 0);
    LexHead(s);
    LexedFirstParts(ts, s, k);
  }

  lemma LexedFirstParts(ts: seq<Lexeme>, s: string, k: nat)
    requires ts != [] && s == Show(ts) && s != "" && k == Next(s, 0)
    requires ts == Lex(s) == [First(s, 0)] + Lex(s[k..])
    ensures Image(ts[0]) != "" && Show(ts) == Image(ts[0]) + Show(ts[1..])
    ensures Lexed(ts[1..]) && Lex(Image(ts[0])) == [ts[0]]
    ensures |ts| > 1 ==> Whole(ts[0])
    ensures |ts| > 1 && ts[0] == Ch('/') ==> Show(ts[1..]) != "" && Show(ts[1..])[0] != '*'
  {
    hide First; hide Next; hide Image; hide SkipEnd; hide Whole; hide Lex; hide LexFrom;
    FirstImage(s, 0);
    FirstAlone(s, 0);
    assert ts[0] == First(s, 0) && ts[1..] == Lex(s[k..]);
    ShowLex(s[k..]);
    assert s == s[0..k] + s[k..];
    if |ts| > 1 { assert s[k..] != "" by { EmptyLexed(); } }
    if ts[0] == Ch('/') { assert Image(ts[0]) == "/" by { SlashImage(); } }
  }

  lemma SlashImage()
    ensures Image(Ch('/')) == "/"
  {
  }

  lemma EmptyLexed()
    ensures Lex("") == [] && Show([]) == ""
  {
  }

  lemma {:induction false} LexedSuffix(ts: seq<Lexeme>, j: nat)
    requires Lexed(ts) && j <= |ts|
    ensures Lexed(ts[j..])
  {
    if j > 0 {
      LexedFirst(ts);
      LexedSuffix(ts[1..], j - 1);
      assert ts[1..][j - 1..] == ts[j..];
    } else {
      assert ts[0..] == ts;
    }
  }

  lemma LexedPrefixHead(ts: seq<Lexeme>, j: nat)
    requires Lexed(ts) && 0 < j <= |ts|
    ensures Show(ts) != "" && Show(ts[..j]) != "" && Show(ts[..j])[0] == Show(ts)[0]
  {
    LexedFirst(ts);
    assert ts[..j][0] == ts[0];
  }

  /** Everything before the last lexeme is whole, and lexes to itself. */
  lemma {:induction false} LexedPrefix(ts: seq<Lexeme>, j: nat)
    requires Lexed(ts) && j <= |ts|
    ensures Lexed(ts[..j]) && (j < |ts| ==> Closed(ts[..j]))
  {
    hide Lex; hide Image; hide Whole;
    if j == 0 {
      assert ts[..0] == [];
      EmptyLexed();
    } else {
      LexedFirst(ts);
      LexedPrefix(ts[1..], j - 1);
      var r := ts[1..][..j - 1];
      assert ts[..j] == [ts[0]] + r;
      assert ts[..j][1..] == r;
      if r != [] {
        LexedPrefixHead(ts[1..], j - 1);
        LexCat(Image(ts[0]), Show(r));
      } else {
        assert Show(ts[..j]) == Image(ts[0]);
      }
    }
  }

  lemma LexedSlice(ts: seq<Lexeme>, i: nat, j: nat)
    requires Lexed(ts) && i <= j <= |ts|
    ensures Lexed(ts[i..j]) && (j < |ts| ==> Closed(ts[i..j]))
  {
    LexedSuffix(ts, i);
    LexedPrefix(ts[i..], j - i);
    assert ts[i..][..j - i] == ts[i..j];
  }
}
