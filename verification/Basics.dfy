/** What several of the modules need. */
module Basics {

  datatype Option<+T> = None | Some(value: T)

  type Byte = x: int | 0 <= x < 256

  /** A 4-byte big-endian number. */
  function BigEndian(a: nat, b: nat, c: nat, d: nat): nat {
    ((a * 256 + b) * 256 + c) * 256 + d
  }

  /** Lower-casing, of ASCII letters. */
  function Lower(c: char): char {
    if 'A' <= c <= 'Z' then (c as int + 32) as char else c
  }

  function LowerCase(s: string): string {
    seq(|s|, i requires 0 <= i < |s| => Lower(s[i]))
  }

  /** The first is the second, a lower-case letter, or the upper-case form of it. */
  predicate IsCaseOf(c: char, lower: char) {
    c == lower || ('a' <= lower <= 'z' && c as int + 32 == lower as int)
  }

  /** Two texts are the same but for the case of ASCII letters. */
  predicate SameLetters(a: string, b: string) {
    |a| == |b| && forall i :: 0 <= i < |a| ==> IsCaseOf(a[i], b[i]) || IsCaseOf(b[i], a[i])
  }

  /** Lower-casing makes texts equal exactly when they differ in the case of letters only. */
  lemma LowerCaseIs(a: string, b: string)
    ensures LowerCase(a) == LowerCase(b) <==> SameLetters(a, b)
  {
    if SameLetters(a, b) {
      assert forall i :: 0 <= i < |a| ==> LowerCase(a)[i] == LowerCase(b)[i];
    } else if |a| == |b| {
      var i :| 0 <= i < |a| && !IsCaseOf(a[i], b[i]) && !IsCaseOf(b[i], a[i]);
      assert LowerCase(a)[i] != LowerCase(b)[i];
    } else {
      assert |LowerCase(a)| != |LowerCase(b)|;
    }
  }

  /** The elements that `keep` is true of, in order. */
  function Filter<T>(all: seq<T>, keep: T -> bool): seq<T> {
    if all == [] then [] else (if keep(all[0]) then [all[0]] else []) + Filter(all[1..], keep)
  }

  /** That, and nothing else: one element stays or goes, and lists are filtered part by part. */
  lemma {:induction false} FilterIs<T>(a: seq<T>, b: seq<T>, x: T, keep: T -> bool)
    ensures Filter([x], keep) == (if keep(x) then [x] else [])
    ensures Filter(a + b, keep) == Filter(a, keep) + Filter(b, keep)
  {
    assert [x][1..] == [];
    if a == [] {
      assert a + b == b;
    } else {
      assert (a + b)[1..] == a[1..] + b;
      FilterIs(a[1..], b, x, keep);
    }
  }
}
