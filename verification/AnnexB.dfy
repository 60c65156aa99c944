/** The H.264 byte path: a sample's length-prefixed NAL units become an Annex B stream in place, and a
    scanner cuts such a stream back into units, which get their lengths again. */
module AnnexB {
  import opened Basics

  type Unit = seq<Byte>

  const START_CODE: seq<Byte> := [0, 0, 0, 1]

  // ----- Length-prefixed samples -----

  /** A 4-byte big-endian number. */
  function Number(s: seq<Byte>): nat
    requires |s| >= 4
  {
    BigEndian(s[0], s[1], s[2], s[3])
  }

  function Prefix(n: nat): (p: seq<Byte>)
    requires n < 0x1_0000_0000
    ensures |p| == 4 && Number(p) == n
    ensures n == p[0] as int * 0x100_0000 + p[1] as int * 0x1_0000 + p[2] as int * 0x100 + p[3] as int
  {
    Divide(n);
    Divide(n / 256);
    Divide(n / 256 / 256);
    [n / 256 / 256 / 256, n / 256 / 256 % 256, n / 256 % 256, n % 256]
  }

  lemma Divide(n: nat)
    ensures n == n / 256 * 256 + n % 256
  {
  }

  lemma Compose(q: nat, r: nat)
    requires r < 256
    ensures (q * 256 + r) / 256 == q && (q * 256 + r) % 256 == r
  {
  }

  lemma NumberIsPrefix(s: seq<Byte>)
    requires |s| == 4
    ensures Number(s) < 0x1_0000_0000 && Prefix(Number(s)) == s
  {
    var a: nat, b: nat, c: nat, d: nat := s[0], s[1], s[2], s[3];
    Compose(a, b);
    Compose(a * 256 + b, c);
    Compose((a * 256 + b) * 256 + c, d);
  }

  /** The bytes are exactly non-empty units, each after its length. */
  predicate Tiles(s: seq<Byte>) {
    s == [] || (|s| >= 4 && 0 < Number(s) <= |s| - 4 && Tiles(s[4 + Number(s)..]))
  }

  /** The bytes with start codes in place of the lengths, as far as the lengths make sense. */
  function Rewritten(s: seq<Byte>): (r: seq<Byte>)
    ensures |r| == |s|
  {
    if |s| < 4 || Number(s) == 0 || Number(s) > |s| - 4 then s
    else START_CODE + s[4..4 + Number(s)] + Rewritten(s[4 + Number(s)..])
  }

  predicate IsUnit(u: Unit) {
    0 < |u| < 0x1_0000_0000
  }

  predicate AllUnits(us: seq<Unit>) {
    forall i :: 0 <= i < |us| ==> IsUnit(us[i])
  }

  function Lengthed(us: seq<Unit>): seq<Byte>
    requires AllUnits(us)
  {
    if us == [] then [] else Prefix(|us[0]|) + us[0] + Lengthed(us[1..])
  }

  function Coded(us: seq<Unit>): seq<Byte> {
    if us == [] then [] else START_CODE + us[0] + Coded(us[1..])
  }

  function UnitsIn(s: seq<Byte>): seq<Unit>
    requires Tiles(s)
  {
    if s == [] then [] else [s[4..4 + Number(s)]] + UnitsIn(s[4 + Number(s)..])
  }

  lemma NumberTake(s: seq<Byte>)
    requires |s| >= 4
    ensures Number(s[..4]) == Number(s)
  {
  }

  /** Bytes that tile are the units they hold, and rewriting them gives those units' stream. */
  lemma {:induction false} TilesAreUnits(s: seq<Byte>)
    requires Tiles(s)
    ensures AllUnits(UnitsIn(s)) && Lengthed(UnitsIn(s)) == s && Rewritten(s) == Coded(UnitsIn(s))
  {
    hide Number; hide Prefix;
    if s != [] {
      var n := Number(s);
      var rest := s[4 + n..];
      TilesAreUnits(rest);
      NumberIsPrefix(s[..4]);
      NumberTake(s);
      assert s == s[..4] + s[4..4 + n] + rest;
      ConsUnit(s[4..4 + n], UnitsIn(rest));
    }
  }

  lemma ConsUnit(u: Unit, us: seq<Unit>)
    requires IsUnit(u) && AllUnits(us)
    ensures AllUnits([u] + us)
    ensures Lengthed([u] + us) == Prefix(|u|) + u + Lengthed(us)
    ensures Coded([u] + us) == START_CODE + u + Coded(us)
  {
    hide Prefix;
    assert ([u] + us)[1..] == us;
  }

  /** Units after their lengths tile, into those units. */
  lemma {:induction false} UnitsTile(us: seq<Unit>)
    requires AllUnits(us)
    ensures Tiles(Lengthed(us)) && UnitsIn(Lengthed(us)) == us
  {
    if us != [] {
      var s, n := Lengthed(us), |us[0]|;
      assert IsUnit(us[0]);
      UnitsTile(us[1..]);
      assert s[..4] == Prefix(n) && Number(s) == Number(s[..4]) by { NumberTake(s); }
      assert s[4..4 + n] == us[0] && s[4 + n..] == Lengthed(us[1..]);
    }
  }

  /** Rewrites each length from `start` on as a start code; false when the lengths do not tile. */
  method StartCodes(packet: array<Byte>, start: nat) returns (ok: bool)
    modifies packet
    ensures start <= packet.Length ==>
              && (ok <==> Tiles(old(packet[start..])))
              && packet[..] == old(packet[..start]) + Rewritten(old(packet[start..]))
    ensures start > packet.Length ==> !ok && packet[..] == old(packet[..])
  {
    hide Number; hide BigEndian; hide Tiles; hide Rewritten;
    if start > packet.Length { return false; }
    var offset := start;
    ghost var sample := packet[start..];
    assert packet[..] == packet[..start] + sample;
    while offset + 4 <= packet.Length
      invariant start <= offset <= packet.Length
      invariant packet[offset..] == old(packet[offset..])
      invariant Tiles(sample) <==> Tiles(packet[offset..])
      invariant old(packet[..start]) + Rewritten(sample) == packet[..offset] + Rewritten(packet[offset..])
    {
      ghost var rest := packet[offset..];
      var length := BigEndian(packet[offset], packet[offset + 1], packet[offset + 2], packet[offset + 3]);
      assert length == Number(rest) by { NumberIs(rest); }
      if !(length > 0 && length <= packet.Length - offset - 4) {
        assert packet[..] == packet[..offset] + rest;
        Stuck(rest);
        return false;
      }
      ghost var before := packet[..offset];
      WriteCode(packet, offset);
      var next := offset + 4 + length;
      Advance(before, rest, packet[..], offset, next);
      assert old(packet[offset..])[4 + length..] == old(packet[next..]);
      offset := next;
    }
    assert packet[..] == packet[..offset] + packet[offset..];
    Stuck(packet[offset..]);
    ok := offset == packet.Length;
  }

  method WriteCode(packet: array<Byte>, offset: nat)
    requires offset + 4 <= packet.Length
    modifies packet
    ensures packet[..offset] == old(packet[..offset]) && packet[offset..offset + 4] == START_CODE
    ensures packet[offset + 4..] == old(packet[offset + 4..])
  {
    packet[offset], packet[offset + 1], packet[offset + 2], packet[offset + 3] := 0, 0, 0, 1;
  }

  /** Where the rewrite stops. */
  lemma Stuck(s: seq<Byte>)
    requires |s| < 4 || Number(s) == 0 || Number(s) > |s| - 4
    ensures Rewritten(s) == s && (Tiles(s) <==> s == [])
  {
  }

  lemma NumberIs(s: seq<Byte>)
    requires |s| >= 4
    ensures Number(s) == BigEndian(s[0], s[1], s[2], s[3])
  {
  }

  /** One turn of the rewrite. */
  lemma Advance(before: seq<Byte>, rest: seq<Byte>, bytes: seq<Byte>, offset: nat, next: nat)
    requires |rest| >= 4 && 0 < Number(rest) <= |rest| - 4 && next == offset + 4 + Number(rest)
    requires |before| == offset && |bytes| == offset + |rest|
    requires bytes[..offset] == before && bytes[offset..offset + 4] == START_CODE && bytes[offset + 4..] == rest[4..]
    ensures bytes[next..] == rest[4 + Number(rest)..]
            && before + Rewritten(rest) == bytes[..next] + Rewritten(bytes[next..])
    ensures Tiles(rest) <==> Tiles(bytes[next..])
  {
    hide Number; hide Rewritten; hide Tiles;
    var n := Number(rest);
    var tail := rest[4 + n..];
    TileStep(rest);
    assert bytes[next..] == tail by { Cut(bytes, rest, offset, n); }
    assert bytes[..next] == before + START_CODE + rest[4..4 + n] by { Cut(bytes, rest, offset, n); }
    assert before + (START_CODE + rest[4..4 + n] + Rewritten(tail))
           == before + START_CODE + rest[4..4 + n] + Rewritten(tail);
  }

  lemma TileStep(s: seq<Byte>)
    requires |s| >= 4 && 0 < Number(s) <= |s| - 4
    ensures Rewritten(s) == START_CODE + s[4..4 + Number(s)] + Rewritten(s[4 + Number(s)..])
    ensures Tiles(s) <==> Tiles(s[4 + Number(s)..])
  {
    hide Number;
  }

  lemma Cut(bytes: seq<Byte>, rest: seq<Byte>, offset: nat, n: nat)
    requires 4 + n <= |rest| && |bytes| == offset + |rest|
    requires bytes[offset..offset + 4] == START_CODE && bytes[offset + 4..] == rest[4..]
    ensures bytes[offset + 4 + n..] == rest[4 + n..]
    ensures bytes[..offset + 4 + n] == bytes[..offset] + START_CODE + rest[4..4 + n]
  {
    assert bytes[offset + 4 + n..] == bytes[offset + 4..][n..] && rest[4 + n..] == rest[4..][n..];
    assert bytes[offset + 4..offset + 4 + n] == bytes[offset + 4..][..n] && rest[4..4 + n] == rest[4..][..n];
    assert bytes[..offset + 4 + n] == bytes[..offset] + bytes[offset..offset + 4] + bytes[offset + 4..offset + 4 + n];
  }

  // ----- Cutting a stream back into units -----

  /** Length of the start code at `i`, 0 when there is none. */
  function CodeAt(b: seq<Byte>, i: nat): (n: nat)
    ensures n == 0 || ((n == 3 || n == 4) && i + n <= |b|)
  {
    if i + 4 <= |b| && b[i] == 0 && b[i + 1] == 0 && b[i + 2] == 0 && b[i + 3] == 1 then 4
    else if i + 3 <= |b| && b[i] == 0 && b[i + 1] == 0 && b[i + 2] == 1 then 3
    else 0
  }

  /** The pieces still to come at `i`, the current one begun at `start`, or before the first code. */
  function Pieces(b: seq<Byte>, i: nat, start: int): seq<Unit>
    requires i <= |b| && start <= i
    decreases |b| - i
  {
    if i + 3 > |b| then (if 0 <= start < |b| then [b[start..]] else [])
    else if CodeAt(b, i) > 0 then
      (if start >= 0 then [b[start..i]] else []) + Pieces(b, i + CodeAt(b, i), i + CodeAt(b, i))
    else Pieces(b, i + 1, start)
  }

  function NonEmpty(us: seq<Unit>): seq<Unit> {
    if us == [] then [] else (if us[0] == [] then [] else [us[0]]) + NonEmpty(us[1..])
  }

  function Units(b: seq<Byte>): seq<Unit> {
    NonEmpty(Pieces(b, 0, -1))
  }

  lemma {:induction false} NonEmptyCat(a: seq<Unit>, b: seq<Unit>)
    ensures NonEmpty(a + b) == NonEmpty(a) + NonEmpty(b)
  {
    if a == [] {
      assert a + b == b;
    } else {
      assert (a + b)[1..] == a[1..] + b;
      NonEmptyCat(a[1..], b);
    }
  }

  lemma CodeIs(b: seq<Byte>, i: nat)
    requires i + 3 <= |b|
    ensures var three := b[i] == 0 && b[i + 1] == 0 && b[i + 2] == 1;
            var four := i + 4 <= |b| && b[i] == 0 && b[i + 1] == 0 && b[i + 2] == 0 && b[i + 3] == 1;
            CodeAt(b, i) == if four then 4 else if three then 3 else 0
  {
  }

  lemma PiecesStep(b: seq<Byte>, i: nat, start: int)
    requires start <= i <= |b|
    ensures i + 3 > |b| ==> Pieces(b, i, start) == if 0 <= start < |b| then [b[start..]] else []
    ensures i + 3 <= |b| && CodeAt(b, i) == 0 ==> Pieces(b, i, start) == Pieces(b, i + 1, start)
    ensures i + 3 <= |b| && CodeAt(b, i) > 0 ==>
              Pieces(b, i, start)
              == (if start >= 0 then [b[start..i]] else []) + Pieces(b, i + CodeAt(b, i), i + CodeAt(b, i))
  {
  }

  /** Annex B to NAL units, without their start codes. */
  method CutUnits(bytes: seq<Byte>) returns (result: seq<Unit>)
    ensures result == Units(bytes)
  {
    hide CodeAt; hide NonEmpty; hide Pieces;
    var pieces: seq<Unit> := [];
    var index, start := 0, -1;
    while index + 3 <= |bytes|
      invariant start <= index <= |bytes|
      invariant Pieces(bytes, 0, -1) == pieces + Pieces(bytes, index, start)
    {
      var three := bytes[index] == 0 && bytes[index + 1] == 0 && bytes[index + 2] == 1;
      var four := index + 4 <= |bytes| && bytes[index] == 0 && bytes[index + 1] == 0 && bytes[index + 2] == 0
          && bytes[index + 3] == 1;
      CodeIs(bytes, index);
      PiecesStep(bytes, index, start);
      if three || four {
        if start >= 0 { pieces := pieces + [bytes[start..index]]; }
        index := index + if four then 4 else 3;
        start := index;
      } else {
        index := index + 1;
      }
    }
    assert pieces + [] == pieces;
    PiecesStep(bytes, index, start);
    if 0 <= start < |bytes| { pieces := pieces + [bytes[start..]]; }
    result := NonEmpty(pieces);
  }

  // ----- Which units survive -----

  /** The unit holds the three bytes a start code ends in. */
  predicate Emulates(u: Unit) {
    exists k :: 0 <= k && k + 3 <= |u| && u[k] == 0 && u[k + 1] == 0 && u[k + 2] == 1
  }

  predicate Clean(us: seq<Unit>) {
    forall i :: 0 <= i < |us| ==> !Emulates(us[i])
  }

  /** Before `e`, where a start code or the end stands, no code is seen from `i` on. */
  predicate Quiet(b: seq<Byte>, i: nat, e: nat) {
    forall k :: i <= k < e ==> CodeAt(b, k) == 0
  }

  lemma {:induction false} SkipQuiet(b: seq<Byte>, i: nat, e: nat, start: int)
    requires i <= e <= |b| && start <= i && Quiet(b, i, e)
    requires e + 3 <= |b|
    ensures Pieces(b, i, start) == Pieces(b, e, start)
    decreases e - i
  {
    if i < e { SkipQuiet(b, i + 1, e, start); }
  }

  lemma {:induction false} QuietToEnd(b: seq<Byte>, i: nat, start: nat)
    requires start <= i <= |b| && start < |b| && Quiet(b, i, |b|)
    ensures Pieces(b, i, start) == [b[start..]]
    decreases |b| - i
  {
    if i + 3 <= |b| { QuietToEnd(b, i + 1, start); }
  }

  /** `u` stands at `s` in the stream, and the next start code or the end follows it. */
  predicate Stands(b: seq<Byte>, s: nat, u: Unit) {
    var e := s + |u|;
    e <= |b| && b[s..e] == u && (e == |b| || (e + 4 <= |b| && b[e..e + 4] == START_CODE))
  }

  /** The scanner sees a code inside a unit exactly when the unit emulates one. */
  lemma QuietUnit(b: seq<Byte>, s: nat, u: Unit)
    requires Stands(b, s, u)
    ensures Quiet(b, s, s + |u|) <==> !Emulates(u)
  {
    var e := s + |u|;
    assert forall k :: 0 <= k < |u| ==> u[k] == b[s + k];
    if Emulates(u) {
      var k :| 0 <= k && k + 3 <= |u| && u[k] == 0 && u[k + 1] == 0 && u[k + 2] == 1;
      assert CodeAt(b, s + k) > 0;
    } else {
      forall p | s <= p < e ensures CodeAt(b, p) == 0 { NoCode(b, s, u, p); }
    }
  }

  lemma NoCode(b: seq<Byte>, s: nat, u: Unit, p: nat)
    requires Stands(b, s, u) && !Emulates(u) && s <= p < s + |u|
    ensures CodeAt(b, p) == 0
  {
    var e := s + |u|;
    assert forall k :: s <= k < e ==> b[k] == u[k - s];
    if e < |b| {
      assert b[e] == b[e..e + 4][0] && b[e + 1] == b[e..e + 4][1] && b[e + 2] == b[e..e + 4][2];
    }
    if p + 3 <= e { assert !(u[p - s] == 0 && u[p - s + 1] == 0 && u[p - s + 2] == 1); }
    if p + 4 <= e { assert !(u[p - s + 1] == 0 && u[p - s + 1 + 1] == 0 && u[p - s + 1 + 2] == 1); }
  }

  // ----- Counting what the scanner takes away -----

  function Total(us: seq<Unit>): nat {
    if us == [] then 0 else |us[0]| + Total(us[1..])
  }

  lemma {:induction false} TotalCat(a: seq<Unit>, b: seq<Unit>)
    ensures Total(a + b) == Total(a) + Total(b)
  {
    if a == [] {
      assert a + b == b;
    } else {
      assert (a + b)[1..] == a[1..] + b;
      TotalCat(a[1..], b);
    }
  }

  lemma {:induction false} TotalNonEmpty(us: seq<Unit>)
    ensures Total(NonEmpty(us)) == Total(us)
  {
    if us != [] {
      TotalNonEmpty(us[1..]);
      if us[0] != [] { assert NonEmpty(us)[1..] == NonEmpty(us[1..]); }
      else { assert NonEmpty(us) == NonEmpty(us[1..]); }
    }
  }

  /** How many bytes the codes seen from `i` on take. */
  function CodeBytes(b: seq<Byte>, i: nat): nat
    requires i <= |b|
    decreases |b| - i
  {
    if i + 3 > |b| then 0
    else if CodeAt(b, i) > 0 then CodeAt(b, i) + CodeBytes(b, i + CodeAt(b, i))
    else CodeBytes(b, i + 1)
  }

  lemma {:induction false} TotalPieces(b: seq<Byte>, i: nat, start: nat)
    requires start <= i <= |b|
    ensures Total(Pieces(b, i, start)) == |b| - start - CodeBytes(b, i)
    decreases |b| - i
  {
    hide CodeAt;
    if i + 3 > |b| {
      if start < |b| { assert Total([b[start..]]) == |b| - start + Total([b[start..]][1..]); }
    } else if CodeAt(b, i) > 0 {
      var n := i + CodeAt(b, i);
      TotalPieces(b, n, n);
      var ps := Pieces(b, n, n);
      assert ([b[start..i]] + ps)[1..] == ps;
    } else {
      TotalPieces(b, i + 1, start);
    }
  }

  /** A code seen inside a unit ends inside it. */
  lemma CodeInside(b: seq<Byte>, s: nat, u: Unit, p: nat)
    requires Stands(b, s, u) && s <= p < s + |u|
    ensures p + CodeAt(b, p) <= s + |u|
  {
    var e := s + |u|;
    if e < |b| {
      assert b[e] == b[e..e + 4][0] && b[e + 1] == b[e..e + 4][1] && b[e + 2] == b[e..e + 4][2];
    }
  }

  lemma {:induction false} BytesInside(b: seq<Byte>, i: nat, s: nat, u: Unit)
    requires Stands(b, s, u) && s <= i <= s + |u|
    ensures CodeBytes(b, i) >= CodeBytes(b, s + |u|)
    ensures CodeBytes(b, i) == CodeBytes(b, s + |u|) <==> Quiet(b, i, s + |u|)
    decreases |b| - i
  {
    var e := s + |u|;
    if i < e {
      CodeInside(b, s, u, i);
      if i + 3 <= |b| {
        BytesInside(b, if CodeAt(b, i) > 0 then i + CodeAt(b, i) else i + 1, s, u);
      } else {
        assert forall k :: i <= k < e ==> CodeAt(b, k) == 0;
      }
    }
  }

  /** The stream from `p` on is that of `us`. */
  predicate Streams(b: seq<Byte>, p: nat, us: seq<Unit>) {
    p <= |b| && b[p..] == Coded(us)
  }

  lemma StreamsFirst(b: seq<Byte>, p: nat, us: seq<Unit>)
    requires Streams(b, p, us) && us != []
    ensures p + 4 + |us[0]| <= |b| && CodeAt(b, p) == 4 && Stands(b, p + 4, us[0])
            && Streams(b, p + 4 + |us[0]|, us[1..])
  {
    var c, s := b[p..], p + 4;
    var e := s + |us[0]|;
    assert c == START_CODE + us[0] + Coded(us[1..]);
    assert c[..4] == START_CODE && c[4..4 + |us[0]|] == us[0] && c[4 + |us[0]|..] == Coded(us[1..]);
    assert b[s..e] == c[4..4 + |us[0]|] && b[e..] == c[4 + |us[0]|..];
    assert forall k :: 0 <= k < 4 ==> c[k] == START_CODE[k];
    assert b[p] == c[0] && b[p + 1] == c[1] && b[p + 2] == c[2] && b[p + 3] == c[3];
    if us[1..] != [] {
      assert Coded(us[1..])[..4] == START_CODE;
      assert b[e..e + 4] == b[e..][..4];
    }
  }

  lemma {:induction false} StreamBytes(b: seq<Byte>, p: nat, us: seq<Unit>)
    requires Streams(b, p, us)
    ensures CodeBytes(b, p) >= 4 * |us|
    ensures CodeBytes(b, p) == 4 * |us| <==> Clean(us)
    ensures |b| - p == Total(us) + 4 * |us|
    decreases |us|
  {
    hide CodeAt; hide Stands; hide Emulates;
    if us != [] {
      StreamsFirst(b, p, us);
      var s, rest := p + 4, us[1..];
      StreamBytes(b, s + |us[0]|, rest);
      BytesInside(b, s, s, us[0]);
      QuietUnit(b, s, us[0]);
      assert Clean(us) <==> !Emulates(us[0]) && Clean(rest) by {
        assert forall i :: 0 <= i < |rest| ==> rest[i] == us[i + 1];
        assert forall i :: 0 < i < |us| ==> us[i] == rest[i - 1];
      }
    }
  }

  predicate NoneEmpty(us: seq<Unit>) {
    forall i :: 0 <= i < |us| ==> us[i] != []
  }

  lemma {:induction false} CleanStream(b: seq<Byte>, p: nat, us: seq<Unit>, start: int)
    requires Streams(b, p, us) && start <= p && Clean(us) && NoneEmpty(us)
    ensures Pieces(b, p, start) == (if start >= 0 && (us != [] || start < p) then [b[start..p]] else []) + us
    decreases |us|
  {
    hide CodeAt; hide Emulates; hide Stands;
    if us == [] {
      assert p == |b|;
      if start >= 0 { assert b[start..p] == b[start..]; }
      var lead := if start >= 0 && start < p then [b[start..p]] else [];
      assert lead + us == lead;
    } else {
      var u, s, rest := us[0], p + 4, us[1..];
      var e := s + |u|;
      StreamsFirst(b, p, us);
      QuietUnit(b, s, u);
      assert forall i :: 0 <= i < |rest| ==> rest[i] == us[i + 1];
      assert us == [u] + rest;
      assert b[s..e] == u by { StandsThere(b, s, u); }
      if rest == [] {
        assert e == |b| && b[s..] == b[s..e];
        QuietToEnd(b, s, s);
      } else {
        StreamsFirst(b, e, rest);
        SkipQuiet(b, s, e, s);
        CleanStream(b, e, rest, s);
      }
      assert Pieces(b, s, s) == us;
    }
  }

  lemma StandsThere(b: seq<Byte>, s: nat, u: Unit)
    requires Stands(b, s, u)
    ensures b[s..s + |u|] == u
  {
  }

  lemma {:induction false} NonEmptySame(us: seq<Unit>)
    requires NoneEmpty(us)
    ensures NonEmpty(us) == us
  {
    if us != [] {
      assert forall i :: 0 <= i < |us| - 1 ==> us[1..][i] == us[i + 1];
      NonEmptySame(us[1..]);
    }
  }

  /** Cutting a stream gives back its units exactly when none of them emulates a start code. */
  lemma CutInverse(us: seq<Unit>)
    requires NoneEmpty(us)
    ensures Units(Coded(us)) == us <==> Clean(us)
  {
    hide CodeAt; hide Emulates; hide Stands;
    var b := Coded(us);
    assert b[0..] == b;
    StreamBytes(b, 0, us);
    if Clean(us) {
      CleanStream(b, 0, us, -1);
      assert [] + us == us;
      NonEmptySame(us);
    } else if us != [] {
      StreamsFirst(b, 0, us);
      TotalPieces(b, 4, 4);
      TotalNonEmpty(Pieces(b, 4, 4));
      assert Pieces(b, 0, -1) == [] + Pieces(b, 4, 4) == Pieces(b, 4, 4);
      assert CodeBytes(b, 0) == 4 + CodeBytes(b, 4);
    }
  }

  // ----- The whole way: sample, stream, sample -----

  /** The NAL unit type of a unit, 0 for an empty one. */
  function Type(u: Unit): nat {
    if u == [] then 0 else u[0] % 32
  }

  predicate IsSlice(u: Unit) {
    Type(u) != 7 && Type(u) != 8 && Type(u) != 9
  }

  /** The units that go to the decoder: parameter sets and delimiters stay out. */
  function Slices(us: seq<Unit>): seq<Unit> {
    if us == [] then [] else (if IsSlice(us[0]) then [us[0]] else []) + Slices(us[1..])
  }

  /** Gives every slice its 4-byte length; a length that does not fit stops the source. */
  method BuildSample(nals: seq<Unit>) returns (sample: seq<Byte>)
    requires AllUnits(nals)
    ensures AllUnits(Slices(nals)) && sample == Lengthed(Slices(nals))
    ensures Tiles(sample) && UnitsIn(sample) == Filter(nals, u => u == [] || u[0] % 32 !in {7, 8, 9})
  {
    hide Prefix; hide IsSlice;
    sample := [];
    ghost var done: seq<Unit> := [];
    for i := 0 to |nals|
      invariant AllUnits(done) && sample == Lengthed(done)
      invariant Slices(nals) == done + Slices(nals[i..])
    {
      var nal := nals[i];
      assert nals[i..][0] == nal && nals[i..][1..] == nals[i + 1..];
      if IsSlice(nal) {
        LengthedLast(done, nal);
        sample := sample + Prefix(|nal|) + nal;
        done := done + [nal];
      }
    }
    assert nals[|nals|..] == [] && done + [] == done;
    UnitsTile(done);
    SlicesIs(nals);
  }

  lemma {:induction false} SlicesIs(us: seq<Unit>)
    ensures Slices(us) == Filter(us, u => u == [] || u[0] % 32 !in {7, 8, 9})
  {
    if us != [] {
      SlicesIs(us[1..]);
      assert IsSlice(us[0]) <==> us[0] == [] || us[0][0] % 32 !in {7, 8, 9};
    }
  }

  lemma {:induction false} LengthedCat(a: seq<Unit>, b: seq<Unit>)
    requires AllUnits(a) && AllUnits(b)
    ensures AllUnits(a + b) && Lengthed(a + b) == Lengthed(a) + Lengthed(b)
  {
    hide Prefix;
    if a == [] {
      assert a + b == b;
    } else {
      assert (a + b)[1..] == a[1..] + b;
      LengthedCat(a[1..], b);
    }
  }

  lemma LengthedLast(us: seq<Unit>, u: Unit)
    requires AllUnits(us) && IsUnit(u)
    ensures AllUnits(us + [u]) && Lengthed(us + [u]) == Lengthed(us) + Prefix(|u|) + u
  {
    hide Prefix;
    LengthedCat(us, [u]);
    assert [u][1..] == [] && Lengthed([u]) == Prefix(|u|) + u + Lengthed([]);
  }

  lemma {:induction false} CodedCat(a: seq<Unit>, b: seq<Unit>)
    ensures Coded(a + b) == Coded(a) + Coded(b)
  {
    if a == [] {
      assert a + b == b;
    } else {
      assert (a + b)[1..] == a[1..] + b;
      CodedCat(a[1..], b);
    }
  }

  lemma {:induction false} SlicesCat(a: seq<Unit>, b: seq<Unit>)
    ensures Slices(a + b) == Slices(a) + Slices(b)
  {
    hide IsSlice;
    if a == [] {
      assert a + b == b;
    } else {
      assert (a + b)[1..] == a[1..] + b;
      SlicesCat(a[1..], b);
    }
  }

  lemma {:induction false} SlicesAre(us: seq<Unit>)
    ensures |Slices(us)| <= |us|
    ensures |Slices(us)| == |us| ==> Slices(us) == us
    ensures |Slices(us)| == |us| <==> forall i :: 0 <= i < |us| ==> IsSlice(us[i])
  {
    hide IsSlice;
    if us != [] {
      SlicesAre(us[1..]);
      assert forall i :: 0 <= i < |us| - 1 ==> us[1..][i] == us[i + 1];
      assert forall i :: 0 < i < |us| ==> us[i] == us[1..][i - 1];
    }
  }

  lemma {:induction false} NoSlices(us: seq<Unit>)
    requires forall i :: 0 <= i < |us| ==> !IsSlice(us[i])
    ensures Slices(us) == []
  {
    if us != [] { NoSlices(us[1..]); }
  }

  lemma {:induction false} SlicesUnits(us: seq<Unit>)
    requires AllUnits(us)
    ensures AllUnits(Slices(us))
  {
    hide IsSlice; hide IsUnit;
    if us != [] { SlicesUnits(us[1..]); }
  }

  /** The payload one side writes: parameter sets, then the rewritten sample. */
  function Payload(parameterSets: seq<Unit>, sample: seq<Byte>): seq<Byte> {
    Coded(parameterSets) + Rewritten(sample)
  }

  /** The units the other side cuts from a payload are the parameter sets and the sample's own,
      exactly when none of them emulates a start code. */
  lemma PayloadUnits(parameterSets: seq<Unit>, sample: seq<Byte>)
    requires AllUnits(parameterSets) && Tiles(sample)
    ensures Units(Payload(parameterSets, sample)) == parameterSets + UnitsIn(sample)
            <==> Clean(parameterSets + UnitsIn(sample))
  {
    hide Tiles; hide UnitsIn; hide Rewritten; hide Units; hide Emulates;
    TilesAreUnits(sample);
    CodedCat(parameterSets, UnitsIn(sample));
    CutInverse(parameterSets + UnitsIn(sample));
  }

  // ----- Any stream -----

  /** Codes are seen at the same places when a start code follows. */
  lemma SameCode(x: seq<Byte>, y: seq<Byte>, i: nat)
    requires i < |x| && |y| >= 4 && y[..4] == START_CODE
    ensures CodeAt(x + y, i) == CodeAt(x, i)
  {
    assert y[0] == y[..4][0] && y[1] == y[..4][1] && y[2] == y[..4][2];
  }

  lemma {:induction false} PiecesShift(x: seq<Byte>, y: seq<Byte>, i: nat, start: nat)
    requires start <= i <= |y|
    ensures Pieces(x + y, |x| + i, |x| + start) == Pieces(y, i, start)
    decreases |y| - i
  {
    hide CodeAt;
    var b := x + y;
    ShiftedCode(x, y, i);
    assert b[|x| + start..|x| + i] == y[start..i] && b[|x| + start..] == y[start..];
    if i + 3 <= |y| {
      var n := CodeAt(y, i);
      if n > 0 { PiecesShift(x, y, i + n, i + n); } else { PiecesShift(x, y, i + 1, start); }
    }
  }

  lemma ShiftedCode(x: seq<Byte>, y: seq<Byte>, i: nat)
    ensures CodeAt(x + y, |x| + i) == CodeAt(y, i)
  {
  }

  lemma {:induction false} PiecesSplit(x: seq<Byte>, y: seq<Byte>, i: nat, start: int)
    requires start <= i <= |x| && |y| >= 4 && y[..4] == START_CODE
    ensures NonEmpty(Pieces(x + y, i, start)) == NonEmpty(Pieces(x, i, start)) + NonEmpty(Pieces(y, 0, -1))
    decreases |x| - i
  {
    hide CodeAt; hide NonEmpty;
    var b := x + y;
    if i < |x| {
      SameCode(x, y, i);
      var n := CodeAt(x, i);
      if n == 0 {
        PiecesSplit(x, y, i + 1, start);
      } else {
        PiecesSplit(x, y, i + n, i + n);
        var piece := if start >= 0 then [b[start..i]] else [];
        assert start >= 0 ==> b[start..i] == x[start..i];
        NonEmptyCat(piece, Pieces(b, i + n, i + n));
        NonEmptyCat(piece, Pieces(x, i + n, i + n));
      }
    } else {
      FirstCode(x, y);
      PiecesShift(x, y, 4, 4);
      var piece := if start >= 0 then [b[start..i]] else [];
      assert start >= 0 ==> b[start..i] == x[start..];
      NonEmptyCat(piece, Pieces(y, 4, 4));
      assert Pieces(y, 0, -1) == [] + Pieces(y, 4, 4) == Pieces(y, 4, 4);
      LastPiece(x, start);
    }
  }

  lemma FirstCode(x: seq<Byte>, y: seq<Byte>)
    requires |y| >= 4 && y[..4] == START_CODE
    ensures CodeAt(x + y, |x|) == 4 && CodeAt(y, 0) == 4
  {
    assert y[0] == y[..4][0] && y[1] == y[..4][1] && y[2] == y[..4][2] && y[3] == y[..4][3];
  }

  lemma LastPiece(x: seq<Byte>, start: int)
    requires start <= |x|
    ensures NonEmpty(if start >= 0 then [x[start..]] else []) == NonEmpty(Pieces(x, |x|, start))
  {
  }

  /** A stream after any bytes is cut as it would be alone. */
  lemma UnitsSplit(x: seq<Byte>, us: seq<Unit>)
    ensures Units(x + Coded(us)) == Units(x) + Units(Coded(us))
  {
    if us == [] {
      assert x + Coded(us) == x && Units(x) + [] == Units(x);
    } else {
      hide NonEmpty; hide Pieces;
      assert Coded(us)[..4] == START_CODE;
      PiecesSplit(x, Coded(us), 0, -1);
    }
  }

  /** Nothing the scanner cuts holds a start code. */
  lemma {:induction false} PiecesClean(b: seq<Byte>, i: nat, start: int)
    requires start <= i <= |b| && forall k :: 0 <= k && start <= k < i ==> CodeAt(b, k) == 0
    ensures Clean(Pieces(b, i, start))
    decreases |b| - i
  {
    hide Emulates;
    if i + 3 > |b| {
      if 0 <= start < |b| {
        NoCodeInside(b, start, |b|);
        assert b[start..] == b[start..|b|];
      }
    } else if CodeAt(b, i) > 0 {
      var n := CodeAt(b, i);
      PiecesClean(b, i + n, i + n);
      if start >= 0 { NoCodeInside(b, start, i); }
    } else {
      PiecesClean(b, i + 1, start);
    }
  }

  lemma NoCodeInside(b: seq<Byte>, start: nat, end: nat)
    requires start <= end <= |b| && forall k :: start <= k && k + 3 <= end ==> CodeAt(b, k) == 0
    ensures !Emulates(b[start..end])
  {
    var u := b[start..end];
    forall k | 0 <= k && k + 3 <= |u| ensures !(u[k] == 0 && u[k + 1] == 0 && u[k + 2] == 1) {
      assert CodeAt(b, start + k) == 0;
    }
  }

  lemma {:induction false} NonEmptyClean(us: seq<Unit>)
    requires Clean(us)
    ensures Clean(NonEmpty(us))
  {
    hide Emulates;
    if us != [] { NonEmptyClean(us[1..]); }
  }

  lemma {:induction false} SlicesClean(us: seq<Unit>)
    requires Clean(us)
    ensures Clean(Slices(us)) && forall i :: 0 <= i < |Slices(us)| ==> IsSlice(Slices(us)[i])
  {
    hide Emulates; hide IsSlice;
    if us != [] { SlicesClean(us[1..]); }
  }

  /** The decoder gets the sample back byte for byte if and only if no unit of the sample holds a start
      code or is a parameter set or a delimiter, and nothing cut from the parameter sets is taken for a
      slice. */
  lemma SampleSurvives(parameterSets: seq<Unit>, sample: seq<Byte>)
    requires Tiles(sample)
    ensures var nals, own := Units(Payload(parameterSets, sample)), UnitsIn(sample);
            (AllUnits(Slices(nals)) && Lengthed(Slices(nals)) == sample)
            <==> && Clean(own) && (forall i :: 0 <= i < |own| ==> own[i] != [] && own[i][0] % 32 !in {7, 8, 9})
                 && forall u :: u in Units(Coded(parameterSets)) ==> u != [] && u[0] % 32 in {7, 8, 9}
  {
    hide Tiles; hide UnitsIn; hide Rewritten; hide Emulates; hide Lengthed; hide IsSlice; hide Clean; hide Pieces;
    hide NonEmpty; hide Slices;
    var own, payload := UnitsIn(sample), Payload(parameterSets, sample);
    var nals, sets := Units(payload), Units(Coded(parameterSets));
    TilesAreUnits(sample);
    UnitsSplit(Coded(parameterSets), own);
    SlicesCat(sets, Units(Coded(own)));
    SlicesAre(own);
    OwnTypes(own);
    SlicesNone(sets);
    if AllUnits(Slices(nals)) && Lengthed(Slices(nals)) == sample {
      UnitsTile(Slices(nals));
      PiecesClean(payload, 0, -1);
      NonEmptyClean(Pieces(payload, 0, -1));
      SlicesClean(nals);
      CutInverse(own);
      assert |Slices(nals)| == |Slices(sets)| + |own|;
    }
    if Clean(own) {
      CutInverse(own);
      assert [] + own == own;
    }
  }

  lemma OwnTypes(us: seq<Unit>)
    requires AllUnits(us)
    ensures (forall i :: 0 <= i < |us| ==> IsSlice(us[i]))
            <==> forall i :: 0 <= i < |us| ==> us[i] != [] && us[i][0] % 32 !in {7, 8, 9}
  {
    forall i | 0 <= i < |us| ensures IsSlice(us[i]) <==> us[i] != [] && us[i][0] % 32 !in {7, 8, 9} {
      assert IsUnit(us[i]);
    }
  }

  lemma {:induction false} SlicesNone(us: seq<Unit>)
    ensures Slices(us) == [] <==> forall u :: u in us ==> u != [] && u[0] % 32 in {7, 8, 9}
  {
    if us != [] {
      SlicesNone(us[1..]);
      assert IsSlice(us[0]) <==> us[0] == [] || us[0][0] % 32 !in {7, 8, 9};
      assert us[0] in us && forall u :: u in us <==> u == us[0] || u in us[1..];
    }
  }

  /** Parameter sets that hold no start code are cut as they are, and none is a slice. */
  lemma ParameterSetsStay(parameterSets: seq<Unit>)
    requires AllUnits(parameterSets) && Clean(parameterSets)
    requires forall i :: 0 <= i < |parameterSets| ==> parameterSets[i] != [] && parameterSets[i][0] % 32 in {7, 8}
    ensures Units(Coded(parameterSets)) == parameterSets && Slices(Units(Coded(parameterSets))) == []
  {
    hide Units; hide Coded; hide Clean;
    CutInverse(parameterSets);
    NoSlices(parameterSets);
  }

  /** A unit that holds 00 00 01 arrives as the two units around it. */
  lemma EmulationSplits(u: Unit, w: Unit)
    requires u != [] && w != [] && u[|u| - 1] != 0 && !Emulates(u) && !Emulates(w)
    ensures Units(Coded([u + [0, 0, 1] + w])) == [u, w]
  {
    hide CodeAt; hide Pieces; hide Emulates;
    var all: Unit, none: seq<Unit> := u + [0, 0, 1] + w, [];
    var b, s, t := START_CODE + all, 4 + |u|, 7 + |u|;
    assert [all][1..] == none && Coded(none) == [];
    assert Coded([all]) == b + Coded(none) == b;
    EmulationLayout(u, w, b);
    SkipQuiet(b, 4, s, 4);
    QuietToEnd(b, t, t);
    PiecesStep(b, s, 4);
    PiecesStep(b, 0, -1);
    assert Pieces(b, 0, -1) == [] + Pieces(b, 4, 4) == [u] + [w] == [u, w];
    NonEmptySame([u, w]);
  }

  /** Where codes stand in such a stream. */
  lemma EmulationLayout(u: Unit, w: Unit, b: seq<Byte>)
    requires u != [] && w != [] && u[|u| - 1] != 0 && !Emulates(u) && !Emulates(w)
    requires b == START_CODE + (u + [0, 0, 1] + w)
    ensures var s, t := 4 + |u|, 7 + |u|;
            && |b| == t + |w| && b[4..s] == u && b[t..] == w
            && CodeAt(b, 0) == 4 && CodeAt(b, s) == 3 && Quiet(b, 4, s) && Quiet(b, t, |b|)
  {
    hide Emulates;
    var s, t := 4 + |u|, 7 + |u|;
    assert b == START_CODE + u + ([0, 0, 1] + w);
    assert b[4..s] == u && b[t..] == w;
    assert b[0] == 0 && b[1] == 0 && b[2] == 0 && b[3] == 1 && b[s] == 0 && b[s + 1] == 0 && b[s + 2] == 1;
    forall k | 4 <= k < s ensures CodeAt(b, k) == 0 { QuietBefore(b, u, k); }
    forall k | t <= k < |b| ensures CodeAt(b, k) == 0 { QuietAfter(b, w, t, k); }
  }

  lemma QuietBefore(b: seq<Byte>, u: Unit, k: nat)
    requires u != [] && u[|u| - 1] != 0 && !Emulates(u) && 4 <= k < 4 + |u|
    requires |b| >= 7 + |u| && b[4..4 + |u|] == u && b[4 + |u|] == 0 && b[5 + |u|] == 0
    ensures CodeAt(b, k) == 0
  {
    assert forall j :: 0 <= j < |u| ==> b[4 + j] == u[j];
    assert b[3 + |u|] == u[|u| - 1];
    if k + 3 <= 4 + |u| { assert !(u[k - 4] == 0 && u[k - 4 + 1] == 0 && u[k - 4 + 2] == 1); }
    if k + 4 <= 4 + |u| { assert !(u[k - 3] == 0 && u[k - 3 + 1] == 0 && u[k - 3 + 2] == 1); }
  }

  lemma QuietAfter(b: seq<Byte>, w: Unit, t: nat, k: nat)
    requires t <= k < |b| && b[t..] == w && !Emulates(w)
    ensures CodeAt(b, k) == 0
  {
    assert forall j :: 0 <= j < |w| ==> b[t + j] == w[j];
    if k + 3 <= |b| { assert !(w[k - t] == 0 && w[k - t + 1] == 0 && w[k - t + 2] == 1); }
    if k + 4 <= |b| { assert !(w[k - t + 1] == 0 && w[k - t + 1 + 1] == 0 && w[k - t + 1 + 2] == 1); }
  }
}
