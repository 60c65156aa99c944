/** Cutting byte streams that arrive in chunks: request lines, and length-prefixed packets. */
module Framing {
  import opened Basics

  type Bytes = seq<Byte>

  const NEWLINE: Byte := 10
  const KEEP := 4096

  function Concat(chunks: seq<Bytes>): Bytes {
    if chunks == [] then [] else Concat(chunks[..|chunks| - 1]) + chunks[|chunks| - 1]
  }

  // ----- Lines -----

  /** One line; of an over-long one only the start is kept. */
  datatype Line = Whole(bytes: Bytes) | Overlong(prefix: Bytes)

  function Prefix(b: Bytes, n: nat): Bytes {
    if |b| <= n then b else b[..n]
  }

  /** A line as the reader reports it. */
  function Framed(limit: nat, line: Bytes): Line {
    if |line| <= limit then Whole(line) else Overlong(Prefix(line[..limit + 1], KEEP))
  }

  function IndexOf(b: Bytes): (n: nat)
    ensures n <= |b| && (n < |b| ==> b[n] == NEWLINE) && NEWLINE !in b[..n]
  {
    if b == [] || b[0] == NEWLINE then 0 else 1 + IndexOf(b[1..])
  }

  /** The newline-delimited lines of a stream. */
  function Lines(limit: nat, stream: Bytes): seq<Line>
    decreases |stream|
  {
    var n := IndexOf(stream);
    if n == |stream| then [] else [Framed(limit, stream[..n])] + Lines(limit, stream[n + 1..])
  }

  /** What follows the last newline. */
  function Tail(stream: Bytes): Bytes
    decreases |stream|
  {
    var n := IndexOf(stream);
    if n == |stream| then stream else Tail(stream[n + 1..])
  }

  lemma {:induction false} IndexOfByte(b: Bytes, x: Byte)
    requires NEWLINE !in b
    ensures IndexOf(b + [x]) == (if x == NEWLINE then |b| else |b| + 1) && IndexOf(b) == |b|
  {
    if b != [] {
      assert (b + [x])[1..] == b[1..] + [x];
      assert b[0] in b;
      IndexOfByte(b[1..], x);
    } else if x != NEWLINE {
      assert (b + [x])[1..] == [];
    }
  }

  lemma {:induction false} IndexOfCat(b: Bytes, more: Bytes)
    requires IndexOf(b) < |b|
    ensures IndexOf(b + more) == IndexOf(b)
  {
    if b[0] != NEWLINE {
      assert (b + more)[1..] == b[1..] + more;
      IndexOfCat(b[1..], more);
    }
  }

  /** The first line and what follows it. */
  lemma {:induction false} LinesStep(limit: nat, stream: Bytes)
    ensures var n := IndexOf(stream);
            && (n == |stream| ==> Lines(limit, stream) == [] && Tail(stream) == stream)
            && (n < |stream| ==>
                  && Lines(limit, stream) == [Framed(limit, stream[..n])] + Lines(limit, stream[n + 1..])
                  && Tail(stream) == Tail(stream[n + 1..]))
  {
    hide IndexOf; hide Framed;
  }

  /** One byte more: a newline closes the tail, anything else joins it. */
  lemma {:induction false} OneByte(limit: nat, stream: Bytes, x: Byte)
    ensures Lines(limit, stream + [x])
            == Lines(limit, stream) + if x == NEWLINE then [Framed(limit, Tail(stream))] else []
    ensures Tail(stream + [x]) == if x == NEWLINE then [] else Tail(stream) + [x]
    ensures NEWLINE !in Tail(stream)
    decreases |stream|
  {
    hide IndexOf; hide Framed; hide Lines; hide Tail;
    var n := IndexOf(stream);
    LinesStep(limit, stream);
    LinesStep(limit, stream + [x]);
    if n < |stream| {
      var rest := stream[n + 1..];
      IndexOfCat(stream, [x]);
      assert (stream + [x])[n + 1..] == rest + [x] && (stream + [x])[..n] == stream[..n];
      OneByte(limit, rest, x);
    } else {
      assert stream[..n] == stream;
      IndexOfByte(stream, x);
      if x == NEWLINE {
        assert (stream + [x])[..n] == stream && (stream + [x])[n + 1..] == [];
        NoLines(limit);
      }
    }
  }

  /** A stream of lines, each with its newline. */
  function Ended(lines: seq<Bytes>): Bytes {
    if lines == [] then [] else lines[0] + [10] + Ended(lines[1..])
  }

  /** Lines written one after another are reported one by one, an over-long one by its first bytes. */
  lemma {:induction false} LinesEnded(limit: nat, lines: seq<Bytes>, tail: Bytes)
    requires 10 !in tail && forall line :: line in lines ==> 10 !in line
    ensures |Lines(limit, Ended(lines) + tail)| == |lines| && Tail(Ended(lines) + tail) == tail
    ensures forall i :: 0 <= i < |lines| ==>
              Lines(limit, Ended(lines) + tail)[i]
              == if |lines[i]| <= limit then Whole(lines[i])
                 else Overlong(lines[i][..if limit < 4096 then limit + 1 else 4096])
  {
    hide IndexOf; hide Lines; hide Tail; hide Framed;
    var stream := Ended(lines) + tail;
    LinesStep(limit, stream);
    if lines == [] {
      assert stream == tail;
      IndexOfByte(tail, 10);
    } else {
      var line, rest := lines[0], Ended(lines[1..]) + tail;
      assert stream == line + [10] + rest;
      IndexOfByte(line, 10);
      IndexOfCat(line + [10], rest);
      assert stream[..|line|] == line && stream[|line| + 1..] == rest;
      LinesEnded(limit, lines[1..], tail);
      FramedIs(limit, line);
    }
  }

  lemma FramedIs(limit: nat, line: Bytes)
    ensures |line| <= limit ==> Framed(limit, line) == Whole(line)
    ensures |line| > limit ==> Framed(limit, line) == Overlong(line[..if limit < 4096 then limit + 1 else 4096])
  {
    if |line| > limit >= 4096 { assert line[..limit + 1][..4096] == line[..4096]; }
  }

  /** What the reader holds of an unfinished line. */
  function Held(limit: nat, tail: Bytes): Bytes {
    if |tail| <= limit then tail else Prefix(tail[..limit + 1], KEEP)
  }

  /** What one byte does to what is held, and what is held of a line that a newline ends. */
  lemma HeldOn(limit: nat, tail: Bytes, byte: Byte)
    ensures Held(limit, []) == []
    ensures Framed(limit, tail) == if |tail| > limit then Overlong(Held(limit, tail)) else Whole(Held(limit, tail))
    ensures |tail| > limit ==> Held(limit, tail + [byte]) == Held(limit, tail)
    ensures |tail| <= limit ==> Held(limit, tail) == tail
    ensures |tail| < limit ==> Held(limit, tail + [byte]) == tail + [byte]
    ensures |tail| == limit ==> Held(limit, tail + [byte]) == Prefix(tail + [byte], KEEP)
  {
    hide Prefix;
    if |tail| > limit { assert (tail + [byte])[..limit + 1] == tail[..limit + 1]; }
    if |tail| == limit { assert (tail + [byte])[..limit + 1] == tail + [byte]; }
  }

  lemma HeldSize(limit: nat, tail: Bytes)
    ensures |Held(limit, tail)| <= if |tail| > limit then KEEP else limit
  {
  }

  class LineFramer {
    const limit: nat
    var pending: Bytes
    var overflowing: bool
    ghost var stream: Bytes      // everything fed so far

    ghost predicate Valid()
      reads this
    {
      pending == Held(limit, Tail(stream)) && overflowing == (|Tail(stream)| > limit)
    }

    constructor (limit: nat := 8 * 1024 * 1024)
      ensures Valid() && stream == [] && this.limit == limit
    {
      this.limit := limit;
      pending, overflowing, stream := [], false, [];
    }

    /** Takes any number of bytes and returns the lines they complete. */
    method Feed(bytes: Bytes) returns (lines: seq<Line>)
      requires Valid()
      modifies this
      ensures Valid() && stream == old(stream) + bytes
      ensures Lines(limit, stream) == Lines(limit, old(stream)) + lines
      ensures |pending| <= if overflowing then 4096 else limit
    {
      hide Lines; hide Tail; hide Held; hide Framed; hide Prefix;
      lines := [];
      for i := 0 to |bytes|
        invariant Valid() && stream == old(stream) + bytes[..i]
        invariant Lines(limit, stream) == Lines(limit, old(stream)) + lines
      {
        var byte := bytes[i];
        OneByte(limit, stream, byte);
        assert bytes[..i + 1] == bytes[..i] + [byte];
        ghost var tail := Tail(stream);
        HeldOn(limit, tail, byte);
        stream := stream + [byte];
        if byte == NEWLINE {
          lines := lines + [if overflowing then Overlong(pending) else Whole(pending)];
          pending := [];
          overflowing := false;
          continue;
        }
        if overflowing { continue; }
        pending := pending + [byte];
        if |pending| > limit {
          overflowing := true;
          pending := Prefix(pending, KEEP);
        }
      }
      assert bytes[..|bytes|] == bytes;
      HeldSize(limit, Tail(stream));
    }
  }

  /** However the stream was cut into chunks, the lines reported are those of the stream. */
  method FeedAll(limit: nat, chunks: seq<Bytes>) returns (lines: seq<Line>)
    ensures lines == Lines(limit, Concat(chunks))
  {
    hide Lines; hide Tail;
    var framer := new LineFramer(limit);
    lines := [];
    NoLines(limit);
    for i := 0 to |chunks|
      invariant framer.Valid() && fresh(framer) && framer.limit == limit && framer.stream == Concat(chunks[..i])
      invariant lines == Lines(limit, framer.stream)
    {
      assert chunks[..i + 1][..i] == chunks[..i] && chunks[..i + 1][i] == chunks[i];
      var more := framer.Feed(chunks[i]);
      lines := lines + more;
    }
    assert chunks[..|chunks|] == chunks;
  }

  lemma NoLines(limit: nat)
    ensures Lines(limit, []) == [] && Tail([]) == []
  {
  }

  // ----- Packets -----

  datatype Packet = Packet(header: Bytes, payload: Bytes)

  const MAX_HEADER := 4096
  const MAX_PAYLOAD := 16 * 1024 * 1024

  /** One whole packet at the front of `data`, and how much it takes. `size` reads a header's payload
      size, or nothing when the header does not parse. */
  function TakePacket(size: Bytes -> Option<int>, data: Bytes): (r: Option<(Packet, nat)>)
    ensures r.Some? ==> 4 < r.value.1 <= |data|
  {
    if |data| < 4 then None
    else
      var length := BigEndian(data[0], data[1], data[2], data[3]);
      if length == 0 || length > MAX_HEADER || |data| < 4 + length then None
      else
        var header := data[4..4 + length];
        match size(header)
        case None => None
        case Some(bytes) =>
          if bytes < 0 || bytes > MAX_PAYLOAD || |data| < 4 + length + bytes then None
          else Some((Packet(header, data[4 + length..4 + length + bytes]), 4 + length + bytes))
  }

  /** The packets at the front of `data`, as many as are whole. */
  function Packets(size: Bytes -> Option<int>, data: Bytes): seq<Packet>
    decreases |data|
  {
    match TakePacket(size, data)
    case None => []
    case Some((packet, used)) => [packet] + Packets(size, data[used..])
  }

  /** What is left after them. */
  function Rest(size: Bytes -> Option<int>, data: Bytes): Bytes
    decreases |data|
  {
    match TakePacket(size, data)
    case None => data
    case Some((_, used)) => Rest(size, data[used..])
  }

  /** A packet the reader takes: a header of 1 to 4096 bytes, and the payload of the size it says, at
      most 16 MiB. */
  predicate Sendable(size: Bytes -> Option<int>, p: Packet) {
    0 < |p.header| <= 4096 && size(p.header) == Some(|p.payload|) && |p.payload| <= 16 * 1024 * 1024
  }

  predicate AllSendable(size: Bytes -> Option<int>, packets: seq<Packet>) {
    forall i :: 0 <= i < |packets| ==> Sendable(size, packets[i])
  }

  /** A packet as it is written: the length of its header, big-endian, then header and payload. */
  function Written(p: Packet): Bytes
    requires |p.header| <= 4096
  {
    [0, 0, |p.header| / 256, |p.header| % 256] + p.header + p.payload
  }

  function AllWritten(size: Bytes -> Option<int>, packets: seq<Packet>): Bytes
    requires AllSendable(size, packets)
  {
    if packets == [] then []
        else assert Sendable(size, packets[0]); Written(packets[0]) + AllWritten(size, packets[1..])
  }

  /** What is taken from the front of the data is a packet as it is written, and one that is written
      there is taken. */
  lemma TakeIsWritten(size: Bytes -> Option<int>, data: Bytes, p: Packet, used: nat)
    ensures TakePacket(size, data) == Some((p, used))
            <==> Sendable(size, p) && |Written(p)| == used && Written(p) <= data
  {
    if TakePacket(size, data) == Some((p, used)) {
      FrontLength(data);
      var n := |p.header|;
      assert data[..4 + n + |p.payload|] == data[..4] + data[4..4 + n] + data[4 + n..4 + n + |p.payload|];
    }
    if Sendable(size, p) && |Written(p)| == used && Written(p) <= data {
      var n := |p.header|;
      assert data[..used] == Written(p);
      assert data[0] == 0 && data[1] == 0 && data[2] == n / 256 && data[3] == n % 256;
      assert data[4..4 + n] == Written(p)[4..4 + n] == p.header;
      assert data[4 + n..used] == Written(p)[4 + n..] == p.payload;
    }
  }

  /** A length of at most 4096 has two bytes. */
  lemma FrontLength(data: Bytes)
    requires |data| >= 4 && BigEndian(data[0], data[1], data[2], data[3]) <= 4096
    ensures var n := BigEndian(data[0], data[1], data[2], data[3]);
            data[..4] == [0, 0, n / 256, n % 256]
  {
  }

  /** Packets written one after another are read back one by one, and what follows them as it would be
      alone. */
  lemma {:induction false} WrittenPackets(size: Bytes -> Option<int>, packets: seq<Packet>, more: Bytes)
    requires AllSendable(size, packets)
    ensures Packets(size, AllWritten(size, packets) + more) == packets + Packets(size, more)
    ensures Rest(size, AllWritten(size, packets) + more) == Rest(size, more)
  {
    hide TakePacket; hide Written;
    var data := AllWritten(size, packets) + more;
    if packets == [] {
      assert data == more;
    } else {
      var p := packets[0];
      assert Sendable(size, p) && AllSendable(size, packets[1..]);
      var used := |Written(p)|;
      assert data == Written(p) + (AllWritten(size, packets[1..]) + more);
      TakeIsWritten(size, data, p, used);
      assert data[used..] == AllWritten(size, packets[1..]) + more;
      WrittenPackets(size, packets[1..], more);
    }
  }

  /** Whatever arrived is the packets read from it, as they are written, and what is left. */
  lemma {:induction false} ReadPackets(size: Bytes -> Option<int>, data: Bytes)
    ensures AllSendable(size, Packets(size, data))
    ensures data == AllWritten(size, Packets(size, data)) + Rest(size, data)
    decreases |data|
  {
    hide TakePacket; hide Written;
    if TakePacket(size, data).Some? {
      var (p, used) := TakePacket(size, data).value;
      TakeIsWritten(size, data, p, used);
      ReadPackets(size, data[used..]);
      var all := Packets(size, data);
      assert all[0] == p && all[1..] == Packets(size, data[used..]);
      assert data == Written(p) + data[used..];
    }
  }

  /** A packet that is whole stays the same packet when more arrives. */
  lemma TakeStable(size: Bytes -> Option<int>, data: Bytes, more: Bytes)
    requires TakePacket(size, data).Some?
    ensures TakePacket(size, data + more) == TakePacket(size, data)
  {
    hide BigEndian;
    var d := data + more;
    var length := BigEndian(data[0], data[1], data[2], data[3]);
    assert d[4..4 + length] == data[4..4 + length];
    var bytes := size(data[4..4 + length]).value;
    assert d[4 + length..4 + length + bytes] == data[4 + length..4 + length + bytes];
  }

  /** Reading what arrived first and then the rest with what was left gives the same packets. */
  lemma {:induction false} PacketsCat(size: Bytes -> Option<int>, data: Bytes, more: Bytes)
    ensures Packets(size, data + more) == Packets(size, data) + Packets(size, Rest(size, data) + more)
    ensures Rest(size, data + more) == Rest(size, Rest(size, data) + more)
    decreases |data|
  {
    hide TakePacket;
    if TakePacket(size, data).Some? {
      var used := TakePacket(size, data).value.1;
      TakeStable(size, data, more);
      assert (data + more)[used..] == data[used..] + more;
      PacketsCat(size, data[used..], more);
    }
  }

  /** A front that no packet can ever start with. */
  predicate Malformed(size: Bytes -> Option<int>, data: Bytes) {
    |data| >= 4 &&
    var length := BigEndian(data[0], data[1], data[2], data[3]);
    || length == 0 || length > 4096
    || (|data| >= 4 + length &&
        match size(data[4..4 + length]) case None => true case Some(bytes) => bytes < 0 || bytes > 16 * 1024 * 1024)
  }

  /** Enough has arrived to know the header at the front. */
  predicate HeaderSeen(data: Bytes) {
    |data| >= 4 &&
    var length := BigEndian(data[0], data[1], data[2], data[3]);
    length == 0 || length > 4096 || |data| >= 4 + length
  }

  /** Once the header at the front is known, the reader never yields a packet again, whatever arrives, if
      and only if the front is malformed. */
  lemma MalformedStopsTheReader(size: Bytes -> Option<int>, data: Bytes)
    requires HeaderSeen(data)
    ensures Malformed(size, data) <==> forall more: Bytes :: Packets(size, data + more) == []
    ensures Malformed(size, data) ==> forall more: Bytes :: Rest(size, data + more) == data + more
  {
    if Malformed(size, data) {
      forall more: Bytes ensures Packets(size, data + more) == [] && Rest(size, data + more) == data + more {
        MalformedStays(size, data, more);
      }
    } else {
      var more := PayloadToCome(size, data);
      assert Packets(size, data + more) != [];
    }
  }

  lemma MalformedStays(size: Bytes -> Option<int>, data: Bytes, more: Bytes)
    requires Malformed(size, data)
    ensures TakePacket(size, data + more).None?
  {
    hide BigEndian;
    var d := data + more;
    var length := BigEndian(data[0], data[1], data[2], data[3]);
    if 0 < length <= MAX_HEADER { assert d[4..4 + length] == data[4..4 + length]; }
  }

  /** Some bytes that complete the packet. */
  lemma PayloadToCome(size: Bytes -> Option<int>, data: Bytes) returns (more: Bytes)
    requires HeaderSeen(data) && !Malformed(size, data)
    ensures TakePacket(size, data + more).Some?
  {
    hide BigEndian;
    var length := BigEndian(data[0], data[1], data[2], data[3]);
    var bytes := size(data[4..4 + length]).value;
    more := seq(bytes, _ => 0);
    assert (data + more)[4..4 + length] == data[4..4 + length];
  }

  /** Four zero bytes are such a front, whatever follows and however headers are read. */
  lemma ZeroLengthStopsTheReader(size: Bytes -> Option<int>, more: Bytes)
    ensures Packets(size, [0, 0, 0, 0] + more) == []
  {
    MalformedStays(size, [0, 0, 0, 0], more);
  }

  class PacketReader {
    const size: Bytes -> Option<int>
    var pending: Bytes

    constructor (size: Bytes -> Option<int>)
      ensures pending == [] && this.size == size
    {
      this.size := size;
      pending := [];
    }

    /** A chunk from the input: every packet it completes is handled at once. */
    method Receive(chunk: Bytes) returns (packets: seq<Packet>)
      modifies this`pending
      ensures packets == Packets(size, old(pending) + chunk) && pending == Rest(size, old(pending) + chunk)
    {
      hide TakePacket;
      pending := pending + chunk;
      packets := [];
      var next := TakePacket(size, pending);
      while next.Some?
        invariant next == TakePacket(size, pending)
        invariant Packets(size, old(pending) + chunk) == packets + Packets(size, pending)
        invariant Rest(size, old(pending) + chunk) == Rest(size, pending)
        decreases |pending|
      {
        packets := packets + [next.value.0];
        pending := pending[next.value.1..];
        next := TakePacket(size, pending);
      }
    }
  }

  /** However the stream was cut into chunks, the packets are those of the whole stream. */
  method ReceiveAll(size: Bytes -> Option<int>, chunks: seq<Bytes>) returns (packets: seq<Packet>)
    ensures packets == Packets(size, Concat(chunks))
  {
    hide TakePacket;
    var reader := new PacketReader(size);
    packets := [];
    NoPackets(size);
    for i := 0 to |chunks|
      invariant fresh(reader) && reader.size == size
      invariant packets == Packets(size, Concat(chunks[..i])) && reader.pending == Rest(size, Concat(chunks[..i]))
    {
      assert chunks[..i + 1][..i] == chunks[..i] && chunks[..i + 1][i] == chunks[i];
      PacketsCat(size, Concat(chunks[..i]), chunks[i]);
      var more := reader.Receive(chunks[i]);
      packets := packets + more;
    }
    assert chunks[..|chunks|] == chunks;
  }

  lemma NoPackets(size: Bytes -> Option<int>)
    ensures Packets(size, []) == [] && Rest(size, []) == []
  {
  }
}
