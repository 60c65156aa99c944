/** Splitting selector lists and declaration lists, and joining them again. */
module CssSplit {
  import opened CssLex

  function Bracket(t: Lexeme): int {
    if t == Ch('(') || t == Ch('[') then 1 else if t == Ch(')') || t == Ch(']') then -1 else 0
  }

  /** The runs of lexemes between separators outside parentheses and brackets. */
  function Runs(ts: seq<Lexeme>, sep: char, depth: int): (r: seq<seq<Lexeme>>)
    ensures r != []
  {
    if ts == [] then [[]]
    else if ts[0] == Ch(sep) && depth == 0 then [[]] + Runs(ts[1..], sep, 0)
    else
      var r := Runs(ts[1..], sep, depth + Bracket(ts[0]));
      [[ts[0]] + r[0]] + r[1..]
  }

  /** The runs as trimmed texts, empty ones dropped. */
  function Texts(runs: seq<seq<Lexeme>>): seq<string> {
    if runs == [] then []
    else
      var x := Trim(Show(runs[0]));
      (if x == "" then [] else [x]) + Texts(runs[1..])
  }

  function Parts(text: string, sep: char): seq<string> {
    Texts(Runs(Lex(text), sep, 0))
  }

  function Join(parts: seq<string>, sep: char): string {
    if parts == [] then ""
    else if |parts| == 1 then parts[0]
    else parts[0] + [sep] + Join(parts[1..], sep)
  }

  // ----- Joined parts split again -----

  /** `ts` holds no separator that counts and leaves no bracket open. */
  predicate Solid(ts: seq<Lexeme>, sep: char, depth: int) {
    if ts == [] then depth == 0 else !(depth == 0 && ts[0] == Ch(sep)) && Solid(ts[1..], sep, depth + Bracket(ts[0]))
  }

  /** A separator written after `x` counts, and none inside it does. */
  predicate Tidy(x: string, sep: char) {
    x != "" && Trim(x) == x && Closed(Lex(x)) && Solid(Lex(x), sep, 0)
  }

  predicate AllTidy(parts: seq<string>, sep: char) {
    forall i :: 0 <= i < |parts| ==> Tidy(parts[i], sep)
  }

  lemma RunsStep(ts: seq<Lexeme>, sep: char, depth: int)
    ensures ts == [] ==> Runs(ts, sep, depth) == [[]]
    ensures ts != [] && ts[0] == Ch(sep) && depth == 0 ==> Runs(ts, sep, depth) == [[]] + Runs(ts[1..], sep, 0)
    ensures ts != [] && !(ts[0] == Ch(sep) && depth == 0) ==>
              var r := Runs(ts[1..], sep, depth + Bracket(ts[0])); Runs(ts, sep, depth) == [[ts[0]] + r[0]] + r[1..]
  {
    hide Bracket;
  }

  lemma {:induction false} SolidRuns(ts: seq<Lexeme>, rest: seq<Lexeme>, sep: char, depth: int)
    requires Solid(ts, sep, depth)
    ensures Runs(ts + [Ch(sep)] + rest, sep, depth) == [ts] + Runs(rest, sep, 0)
    ensures Runs(ts, sep, depth) == [ts]
  {
    hide Runs; hide Bracket;
    var us := ts + [Ch(sep)] + rest;
    RunsStep(ts, sep, depth);
    RunsStep(us, sep, depth);
    if ts == [] {
      assert us == [Ch(sep)] + rest && us[1..] == rest;
    } else {
      assert us[1..] == ts[1..] + [Ch(sep)] + rest && us[0] == ts[0];
      SolidRuns(ts[1..], rest, sep, depth + Bracket(ts[0]));
      assert [ts[0]] + ts[1..] == ts;
    }
  }

  lemma SepLex(sep: char)
    requires sep == ',' || sep == ';'
    ensures Lex([sep]) == [Ch(sep)]
  {
    assert LexFrom([sep], 1) == [];
  }

  lemma JoinLex(x: string, rest: string, sep: char)
    requires sep == ',' || sep == ';'
    requires Closed(Lex(x))
    ensures Lex(x + [sep] + rest) == Lex(x) + [Ch(sep)] + Lex(rest)
  {
    hide Lex; hide LexFrom;
    SepLex(sep);
    LexCat(x, [sep]);
    LexCat(x + [sep], rest);
  }

  /** Splitting what was joined gives the parts. */
  lemma {:induction false} PartsOfJoin(parts: seq<string>, sep: char)
    requires (sep == ',' || sep == ';') && AllTidy(parts, sep)
    ensures Parts(Join(parts, sep), sep) == parts
  {
    hide Lex; hide LexFrom; hide Trim; hide Whole; hide Show;
    if parts == [] {
      EmptyLexed();
      TrimEmpty();
      assert Runs([], sep, 0) == [[]];
      assert Texts([[]]) == Texts([[]][1..]);
    } else {
      var x := parts[0];
      assert Tidy(x, sep);
      ShowLex(x);
      if |parts| == 1 {
        SolidRuns(Lex(x), [], sep, 0);
        assert Texts([Lex(x)]) == [x] + Texts([Lex(x)][1..]);
      } else {
        var rest := parts[1..];
        assert AllTidy(rest, sep);
        PartsOfJoin(rest, sep);
        JoinLex(x, Join(rest, sep), sep);
        SolidRuns(Lex(x), Lex(Join(rest, sep)), sep, 0);
        var runs := Runs(Lex(Join(rest, sep)), sep, 0);
        assert ([Lex(x)] + runs)[1..] == runs;
      }
    }
  }

  lemma TrimEmpty()
    ensures Trim("") == ""
  {
  }
}
