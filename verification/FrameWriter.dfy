/** The frame socket: one packet being written, the newest packet of each session queued behind it,
    sessions in turn. */
module FrameWriter {
  import opened Basics

  type Packet = seq<Byte>

  datatype Published = Published(session: string, packet: Packet)

  /** What the source keeps: the packet being written and how far, the newest packet of each session,
      the order of turns, and whether the write source is suspended. */
  datatype Queue = Queue(
    current: Option<Packet>,
    offset: nat,
    latest: map<string, Packet>,
    order: seq<string>,
    suspended: bool)

  /** What happened: packets in publishing order, which of them are queued, started and retired, the
      bytes the socket took, and the resumes (true) and suspends of the write source. */
  datatype History = History(
    published: seq<Published>,
    queued: map<string, nat>,
    started: seq<nat>,
    retired: set<nat>,
    written: seq<Byte>,
    signals: seq<bool>)

  datatype State = State(q: Queue, h: History)

  const INITIAL := State(Queue(None, 0, map[], [], true), History([], map[], [], {}, [], []))

  function Without(order: seq<string>, session: string): seq<string> {
    if order == [] then [] else (if order[0] == session then [] else [order[0]]) + Without(order[1..], session)
  }

  // ----- Steps -----

  function Publish(s: State, session: string, packet: Packet): State {
    var q, h := s.q, s.h;
    State(
      q.(order := if session in q.latest then q.order else q.order + [session],
         latest := q.latest[session := packet], suspended := false),
      h.(queued := h.queued[session := |h.published|], published := h.published + [Published(session, packet)],
         signals := if q.suspended then h.signals + [true] else h.signals))
  }

  function Retire(s: State, session: string): State {
    State(
      s.q.(latest := s.q.latest - {session}, order := Without(s.q.order, session)),
      s.h.(queued := s.h.queued - {session},
           retired := s.h.retired + if session in s.h.queued then {s.h.queued[session]} else {}))
  }

  /** The next session's packet becomes the current one. */
  function Pick(s: State): State {
    if s.q.current.Some? || s.q.order == [] then s
    else
      var id := s.q.order[0];
      State(
        s.q.(order := s.q.order[1..], offset := 0, latest := s.q.latest - {id},
             current := if id in s.q.latest then Some(s.q.latest[id]) else None),
        s.h.(queued := s.h.queued - {id}, started := s.h.started + if id in s.h.queued then [s.h.queued[id]] else []))
  }

  /** Bytes the socket could still take of the current packet. */
  function Left(q: Queue): nat {
    if q.current.Some? && q.offset <= |q.current.value| then |q.current.value| - q.offset else 0
  }

  /** One turn of the flush loop; `n` is what `write` answers: bytes taken, 0, or below 0 to try later. */
  function Turn(s: State, n: int): State
    requires n <= Left(Pick(s).q)
  {
    var p := Pick(s);
    if p.q.current.None? then State(p.q.(suspended := true), p.h.(signals := p.h.signals + [false]))
    else if n <= 0 then p
    else
      var packet, end := p.q.current.value, p.q.offset + n;
      State(
        p.q.(offset := end, current := if end == |packet| then None else p.q.current),
        p.h.(written := p.h.written + packet[p.q.offset..end]))
  }

  ghost predicate PublishStep(s: State, t: State) {
    exists session: string, packet: Packet :: t == Publish(s, session, packet)
  }

  ghost predicate RetireStep(s: State, t: State) {
    exists session: string :: t == Retire(s, session)
  }

  ghost predicate FlushStep(s: State, t: State) {
    !s.q.suspended && exists n: int :: n <= Left(Pick(s).q) && t == Turn(s, n)
  }

  ghost predicate Step(s: State, t: State) {
    PublishStep(s, t) || RetireStep(s, t) || FlushStep(s, t)
  }

  ghost predicate Run(run: seq<State>) {
    run != [] && run[0] == INITIAL && forall i :: 0 <= i < |run| - 1 ==> Step(run[i], run[i + 1])
  }

  // ----- What every step keeps -----

  predicate NoRepeats(order: seq<string>) {
    forall i, j :: 0 <= i < j < |order| ==> order[i] != order[j]
  }

  /** The turns are exactly the sessions with a packet, each once; no work is left to a suspended source. */
  ghost predicate Turns(q: Queue) {
    && NoRepeats(q.order)
    && (forall x :: x in q.order <==> x in q.latest)
    && (q.suspended ==> q.current.None? && q.order == [])
    && (q.current.Some? ==> q.offset <= |q.current.value|)
  }

  predicate IsOf(h: History, m: nat, session: string) {
    m < |h.published| && h.published[m].session == session
  }

  /** A queued packet is the session's own, later than any of it that was started. */
  predicate QueuedAt(s: State, x: string) {
    x in s.h.queued ==>
      && s.h.queued[x] < |s.h.published|
      && s.h.published[s.h.queued[x]] == Published(x, if x in s.q.latest then s.q.latest[x] else [])
      && forall a :: 0 <= a < |s.h.started| && IsOf(s.h, s.h.started[a], x) ==> s.h.started[a] < s.h.queued[x]
  }

  predicate OrderAt(h: History, a: nat, b: nat)
    requires a < b < |h.started|
  {
    && h.started[a] < |h.published| && h.started[b] < |h.published|
    && (h.published[h.started[a]].session == h.published[h.started[b]].session ==> h.started[a] < h.started[b])
  }

  predicate StartedAt(h: History, a: nat)
    requires a < |h.started|
  {
    h.started[a] < |h.published|
  }

  /** The newest packet of its session. */
  predicate Newest(h: History, m: nat)
    requires m < |h.published|
  {
    forall k :: m < k < |h.published| ==> h.published[k].session != h.published[m].session
  }

  /** Where the newest packet of a session is. */
  predicate KeptAt(h: History, m: nat)
    requires m < |h.published|
  {
    Newest(h, m) ==>
      || m in h.started || m in h.retired
      || (h.published[m].session in h.queued && h.queued[h.published[m].session] == m)
  }

  ghost predicate Records(s: State) {
    && s.h.queued.Keys == s.q.latest.Keys
    && (forall x :: QueuedAt(s, x))
    && (forall a: nat :: a < |s.h.started| ==> StartedAt(s.h, a))
    && (forall a: nat, b: nat :: a < b < |s.h.started| ==> OrderAt(s.h, a, b))
    && (forall m: nat :: m < |s.h.published| ==> KeptAt(s.h, m))
  }

  function Packets(h: History, started: seq<nat>): seq<Byte>
    requires forall a :: 0 <= a < |started| ==> started[a] < |h.published|
  {
    if started == [] then []
    else Packets(h, started[..|started| - 1]) + h.published[started[|started| - 1]].packet
  }

  /** The stream is whole packets and a prefix of the current one. */
  ghost predicate Stream(s: State) {
    && (forall a :: 0 <= a < |s.h.started| ==> s.h.started[a] < |s.h.published|)
    && match s.q.current
       case None => s.h.written == Packets(s.h, s.h.started)
       case Some(packet) =>
         var n := |s.h.started| - 1;
         && n >= 0 && s.h.published[s.h.started[n]].packet == packet && s.q.offset <= |packet|
         && s.h.written == Packets(s.h, s.h.started[..n]) + packet[..s.q.offset]
  }

  /** Resumes and suspends alternate, and the last one says which state the source is in. */
  predicate Alternate(s: State) {
    && (forall i :: 0 <= i < |s.h.signals| ==> s.h.signals[i] == (i % 2 == 0))
    && (s.q.suspended <==> |s.h.signals| % 2 == 0)
  }

  ghost predicate Inv(s: State) {
    Turns(s.q) && Records(s) && Stream(s) && Alternate(s)
  }

  lemma {:induction false} WithoutIs(order: seq<string>, session: string)
    ensures forall x :: x in Without(order, session) <==> x in order && x != session
    ensures NoRepeats(order) ==> NoRepeats(Without(order, session))
  {
    if order != [] {
      var rest := order[1..];
      WithoutIs(rest, session);
      assert order == [order[0]] + rest;
      if NoRepeats(order) {
        assert NoRepeats(rest);
        var r := Without(order, session);
        if order[0] != session {
          forall i, j | 0 <= i < j < |r| ensures r[i] != r[j] {
            assert r[j] == Without(rest, session)[j - 1] && r[j] in rest;
            if i > 0 { assert r[i] == Without(rest, session)[i - 1]; }
          }
        }
      }
    }
  }

  /** Publishing more changes nothing about the packets already named. */
  lemma {:induction false} PacketsSame(h: History, g: History, started: seq<nat>)
    requires |h.published| <= |g.published| && g.published[..|h.published|] == h.published
    requires forall a :: 0 <= a < |started| ==> started[a] < |h.published|
    ensures Packets(h, started) == Packets(g, started)
  {
    if started != [] {
      var n := |started| - 1;
      PacketsSame(h, g, started[..n]);
      assert g.published[started[n]] == g.published[..|h.published|][started[n]];
    }
  }

  lemma PublishTurns(s: State, session: string, packet: Packet)
    requires Turns(s.q)
    ensures Turns(Publish(s, session, packet).q)
  {
    hide NoRepeats;
    var q, t := s.q, Publish(s, session, packet).q;
    if session in q.latest {
      assert t.order == q.order && session in q.order;
    } else {
      assert t.order == q.order + [session] && session !in q.order;
      OneMoreTurn(q.order, session);
    }
    assert t.latest.Keys == q.latest.Keys + {session};
  }

  lemma PublishAlternates(s: State, session: string, packet: Packet)
    requires Alternate(s)
    ensures Alternate(Publish(s, session, packet))
  {
  }

  lemma OneMoreTurn(order: seq<string>, session: string)
    requires NoRepeats(order) && session !in order
    ensures NoRepeats(order + [session])
    ensures forall x :: x in order + [session] <==> x in order || x == session
  {
  }

  lemma PublishStream(s: State, session: string, packet: Packet)
    requires Inv(s)
    ensures Stream(Publish(s, session, packet))
  {
    hide Records; hide Turns; hide Alternate;
    var t := Publish(s, session, packet);
    assert t.h.published[..|s.h.published|] == s.h.published;
    PacketsSame(s.h, t.h, s.h.started);
    if s.q.current.Some? { PacketsSame(s.h, t.h, s.h.started[..|s.h.started| - 1]); }
  }

  lemma PublishRecords(s: State, session: string, packet: Packet)
    requires Inv(s)
    ensures Records(Publish(s, session, packet))
  {
    hide Stream; hide Turns; hide Alternate; hide Packets;
    var t := Publish(s, session, packet);
    var n := |s.h.published|;
    assert t.h.published[..n] == s.h.published;
    forall a | 0 <= a < |s.h.started| ensures s.h.started[a] < n { assert StartedAt(s.h, a); }
    forall x ensures QueuedAt(t, x) { assert QueuedAt(s, x); }
    forall a: nat | a < |t.h.started| ensures StartedAt(t.h, a) { assert StartedAt(s.h, a); }
    forall a: nat, b: nat | a < b < |t.h.started| ensures OrderAt(t.h, a, b) { assert OrderAt(s.h, a, b); }
    forall m: nat | m < |t.h.published| ensures KeptAt(t.h, m) {
      if m < n {
        assert KeptAt(s.h, m);
        if Newest(t.h, m) {
          assert t.h.published[n].session != t.h.published[m].session;
          assert forall k :: m < k < n ==> s.h.published[k] == t.h.published[k];
        }
      }
    }
  }

  lemma RetireKeeps(s: State, session: string)
    requires Inv(s)
    ensures Inv(Retire(s, session))
  {
    var t := Retire(s, session);
    WithoutIs(s.q.order, session);
    assert Turns(t.q) && Alternate(t);
    RetireStream(s, session);
    forall x ensures QueuedAt(t, x) { assert QueuedAt(s, x); }
    forall a: nat | a < |t.h.started| ensures StartedAt(t.h, a) { assert StartedAt(s.h, a); }
    forall a: nat, b: nat | a < b < |t.h.started| ensures OrderAt(t.h, a, b) { assert OrderAt(s.h, a, b); }
    forall m: nat | m < |t.h.published| ensures KeptAt(t.h, m) {
      assert KeptAt(s.h, m);
      assert Newest(t.h, m) <==> Newest(s.h, m);
    }
  }

  lemma RetireStream(s: State, session: string)
    requires Stream(s)
    ensures Stream(Retire(s, session))
  {
    var t := Retire(s, session);
    PacketsSame(s.h, t.h, s.h.started);
    if s.q.current.Some? { PacketsSame(s.h, t.h, s.h.started[..|s.h.started| - 1]); }
  }

  lemma PickTurns(s: State)
    requires Turns(s.q)
    ensures Turns(Pick(s).q) && Pick(s).q.suspended == s.q.suspended && Pick(s).h.signals == s.h.signals
    ensures Pick(s).q.current.None? ==> Pick(s).q.order == []
  {
    if s.q.current.None? && s.q.order != [] {
      var id, t := s.q.order[0], Pick(s);
      assert id in s.q.order && id in s.q.latest;
      assert s.q.order == [id] + t.q.order;
      HeadLeft(s.q.order);
    }
  }

  lemma HeadLeft(order: seq<string>)
    requires order != [] && NoRepeats(order)
    ensures NoRepeats(order[1..]) && order[0] !in order[1..]
    ensures forall x :: x in order[1..] <==> x in order && x != order[0]
  {
    assert order == [order[0]] + order[1..];
    forall x | x in order[1..] ensures x != order[0] {
      var i :| 0 <= i < |order| - 1 && order[1..][i] == x;
      assert order[i + 1] == x;
    }
  }

  lemma PickStream(s: State)
    requires Turns(s.q) && Records(s) && Stream(s)
    ensures Stream(Pick(s)) && Pick(s).h.written == s.h.written
  {
    if s.q.current.None? && s.q.order != [] {
      var id, t := s.q.order[0], Pick(s);
      assert id in s.q.order && id in s.q.latest && id in s.h.queued;
      assert QueuedAt(s, id);
      hide Records; hide Turns; hide NoRepeats; hide KeptAt; hide OrderAt; hide StartedAt;
      assert t.h.started == s.h.started + [s.h.queued[id]];
      assert t.h.started[..|s.h.started|] == s.h.started;
      PacketsSame(s.h, t.h, s.h.started);
    }
  }

  lemma PickRecords(s: State)
    requires Turns(s.q) && Records(s)
    ensures Records(Pick(s))
  {
    if s.q.current.None? && s.q.order != [] {
      var id, t := s.q.order[0], Pick(s);
      assert id in s.q.order && id in s.q.latest && id in s.h.queued;
      assert t.h == PickedHistory(s.h, id) && t.q.latest == s.q.latest - {id};
      hide QueuedAt; hide StartedAt; hide OrderAt; hide KeptAt; hide Pick; hide Turns; hide PickedHistory;
      forall x ensures QueuedAt(t, x) { assert QueuedAt(s, x); assert QueuedAt(s, id); PickQueued(s, t, id, x); }
      forall a: nat | a < |t.h.started| ensures StartedAt(t.h, a) {
        assert QueuedAt(s, id);
        PickStarted(s, id, a);
      }
      forall a: nat, b: nat | a < b < |t.h.started| ensures OrderAt(t.h, a, b) {
        assert QueuedAt(s, id);
        PickOrder(s, id, a, b);
      }
      forall m: nat | m < |t.h.published| ensures KeptAt(t.h, m) {
        PickSame(s.h, id);
        assert KeptAt(s.h, m);
        PickKept(s.h, id, m);
      }
      PickSame(s.h, id);
    }
  }

  /** What picking a queued session's packet does to the history. */
  function PickedHistory(h: History, id: string): History
    requires id in h.queued
  {
    h.(queued := h.queued - {id}, started := h.started + [h.queued[id]])
  }

  lemma PickSame(h: History, id: string)
    requires id in h.queued
    ensures PickedHistory(h, id).published == h.published && PickedHistory(h, id).queued == h.queued - {id}
    ensures |PickedHistory(h, id).started| == |h.started| + 1
  {
  }

  lemma PickQueued(s: State, t: State, id: string, x: string)
    requires id in s.h.queued && QueuedAt(s, id) && QueuedAt(s, x)
    requires t.h == PickedHistory(s.h, id) && t.q.latest == s.q.latest - {id}
    ensures QueuedAt(t, x)
  {
    var n := |s.h.started|;
    if x in t.h.queued {
      forall a | 0 <= a < n + 1 && IsOf(t.h, t.h.started[a], x) ensures t.h.started[a] < t.h.queued[x] {
        if a < n { assert t.h.started[a] == s.h.started[a] && IsOf(s.h, s.h.started[a], x); }
      }
    }
  }

  lemma PickStarted(s: State, id: string, a: nat)
    requires id in s.h.queued && QueuedAt(s, id) && a < |PickedHistory(s.h, id).started|
    requires forall b: nat :: b < |s.h.started| ==> StartedAt(s.h, b)
    ensures StartedAt(PickedHistory(s.h, id), a)
  {
    if a < |s.h.started| { assert StartedAt(s.h, a); }
  }

  lemma PickOrder(s: State, id: string, a: nat, b: nat)
    requires id in s.h.queued && QueuedAt(s, id) && a < b < |PickedHistory(s.h, id).started|
    requires forall c: nat :: c < |s.h.started| ==> StartedAt(s.h, c)
    requires forall c: nat, d: nat :: c < d < |s.h.started| ==> OrderAt(s.h, c, d)
    ensures OrderAt(PickedHistory(s.h, id), a, b)
  {
    if b < |s.h.started| {
      assert OrderAt(s.h, a, b);
    } else {
      assert StartedAt(s.h, a);
      assert PickedHistory(s.h, id).started[b] == s.h.queued[id];
      if s.h.published[s.h.started[a]].session == id { assert IsOf(s.h, s.h.started[a], id); }
    }
  }

  lemma PickKept(h: History, id: string, m: nat)
    requires id in h.queued && m < |h.published| && KeptAt(h, m)
    ensures KeptAt(PickedHistory(h, id), m)
  {
    var t, n := PickedHistory(h, id), |h.started|;
    assert Newest(t, m) <==> Newest(h, m);
    assert t.started[n] == h.queued[id];
    if m in h.started { var a :| 0 <= a < n && h.started[a] == m; assert t.started[a] == m; }
  }

  lemma TurnTurns(s: State, n: int)
    requires Turns(s.q) && Alternate(s) && !s.q.suspended && n <= Left(Pick(s).q)
    ensures Turns(Turn(s, n).q) && Alternate(Turn(s, n))
  {
    hide Pick; hide NoRepeats;
    PickTurns(s);
  }

  lemma TurnStream(s: State, n: int)
    requires Turns(s.q) && Records(s) && Stream(s) && n <= Left(Pick(s).q)
    ensures Stream(Turn(s, n))
  {
    hide Records; hide Pick; hide Turns;
    var p := Pick(s);
    PickStream(s);
    if p.q.current.None? {
      PacketsSame(p.h, Turn(s, n).h, p.h.started);
    } else if n > 0 {
      WroteStream(p, n);
    }
  }

  lemma TurnKeeps(s: State, n: int)
    requires Inv(s) && !s.q.suspended && n <= Left(Pick(s).q)
    ensures Inv(Turn(s, n))
  {
    hide Records; hide Pick; hide Turns; hide Stream; hide Alternate;
    TurnTurns(s, n);
    TurnStream(s, n);
    PickRecords(s);
    SameRecords(Pick(s), Turn(s, n));
  }

  lemma SameRecords(s: State, t: State)
    requires Records(s) && t.q.latest == s.q.latest && t.h.published == s.h.published
    requires t.h.queued == s.h.queued && t.h.started == s.h.started && t.h.retired == s.h.retired
    ensures Records(t)
  {
    forall x ensures QueuedAt(t, x) { assert QueuedAt(s, x); }
    forall a: nat | a < |t.h.started| ensures StartedAt(t.h, a) { assert StartedAt(s.h, a); }
    forall a: nat, b: nat | a < b < |t.h.started| ensures OrderAt(t.h, a, b) { assert OrderAt(s.h, a, b); }
    forall m: nat | m < |t.h.published| ensures KeptAt(t.h, m) {
      assert KeptAt(s.h, m);
      assert Newest(t.h, m) <==> Newest(s.h, m);
    }
  }

  lemma WroteStream(p: State, n: nat)
    requires Stream(p) && p.q.current.Some? && 0 < n <= Left(p.q)
    ensures var packet, end := p.q.current.value, p.q.offset + n;
            Stream(State(p.q.(offset := end, current := if end == |packet| then None else p.q.current),
                         p.h.(written := p.h.written + packet[p.q.offset..end])))
  {
    var packet, end, m := p.q.current.value, p.q.offset + n, |p.h.started| - 1;
    var t := State(p.q.(offset := end, current := if end == |packet| then None else p.q.current),
                   p.h.(written := p.h.written + packet[p.q.offset..end]));
    assert packet[..p.q.offset] + packet[p.q.offset..end] == packet[..end];
    PacketsSame(p.h, t.h, p.h.started[..m]);
    assert t.h.written == Packets(t.h, t.h.started[..m]) + packet[..end];
    if end == |packet| { assert packet[..end] == packet; }
  }

  lemma StepKeeps(s: State, t: State)
    requires Inv(s) && Step(s, t)
    ensures Inv(t)
  {
    hide Turns; hide Records; hide Stream; hide Alternate; hide Publish; hide Retire; hide Turn; hide Pick;
    if PublishStep(s, t) {
      var session: string, packet: Packet :| t == Publish(s, session, packet);
      PublishTurns(s, session, packet);
      PublishAlternates(s, session, packet);
      PublishStream(s, session, packet);
      PublishRecords(s, session, packet);
    } else if RetireStep(s, t) {
      var session: string :| t == Retire(s, session);
      RetireKeeps(s, session);
    } else {
      var n: int :| n <= Left(Pick(s).q) && t == Turn(s, n);
      TurnKeeps(s, n);
    }
  }

  lemma InitKeeps()
    ensures Inv(INITIAL)
  {
    forall x ensures QueuedAt(INITIAL, x) { }
  }

  lemma {:induction false} RunKeeps(run: seq<State>, n: nat)
    requires Run(run) && n < |run|
    ensures Inv(run[n])
  {
    hide Step; hide Inv;
    if n == 0 {
      InitKeeps();
    } else {
      RunKeeps(run, n - 1);
      assert Step(run[n - 1], run[n - 1 + 1]);
      StepKeeps(run[n - 1], run[n]);
    }
  }

  // ----- What that means for whole runs -----

  /** In every run the bytes written are the packets started, whole and in order, with a prefix of the
      last one while it is being written. */
  lemma StreamIsWholePackets(run: seq<State>, n: nat)
    requires Run(run) && n < |run|
    ensures Stream(run[n])
  {
    RunKeeps(run, n);
  }

  /** The packets started of one session were published by it, in the order it published them; its
      newest one was started, or is queued, or was retired. */
  lemma SessionKeepsItsOrder(run: seq<State>, n: nat)
    requires Run(run) && n < |run|
    ensures forall a: nat, b: nat :: a < b < |run[n].h.started| ==> OrderAt(run[n].h, a, b)
    ensures forall m: nat :: m < |run[n].h.published| ==> KeptAt(run[n].h, m)
  {
    hide Step; hide OrderAt; hide KeptAt; hide Turns; hide Stream; hide QueuedAt;
    RunKeeps(run, n);
    assert Records(run[n]);
  }

  /** The turns are the queued sessions, each once; the source is not suspended while work is left; and
      resumes and suspends alternate. */
  lemma TurnsAreExact(run: seq<State>, n: nat)
    requires Run(run) && n < |run|
    ensures Turns(run[n].q) && Alternate(run[n])
  {
    RunKeeps(run, n);
  }

  // ----- Fairness -----

  /** How many sessions have their turn before `session`. */
  function Ahead(order: seq<string>, session: string): nat {
    if order == [] || order[0] == session then 0 else 1 + Ahead(order[1..], session)
  }

  lemma {:induction false} AheadWithout(order: seq<string>, other: string, session: string)
    requires other != session
    ensures Ahead(Without(order, other), session) <= Ahead(order, session)
  {
    if order != [] && order[0] != session {
      AheadWithout(order[1..], other, session);
      if order[0] != other { assert Without(order, other)[1..] == Without(order[1..], other); }
      else { assert Without(order, other) == Without(order[1..], other); }
    }
  }

  lemma {:induction false} AheadAppend(order: seq<string>, more: seq<string>, session: string)
    requires session in order
    ensures Ahead(order + more, session) == Ahead(order, session)
  {
    if order[0] != session {
      assert (order + more)[1..] == order[1..] + more;
      AheadAppend(order[1..], more, session);
    }
  }

  /** Started packets and sessions still ahead, together. */
  function Wait(s: State, session: string): nat {
    |s.h.started| + Ahead(s.q.order, session)
  }

  lemma WaitNeverGrows(s: State, t: State, session: string)
    requires Inv(s) && Step(s, t) && session in s.q.order && session in t.q.order
    ensures Wait(t, session) <= Wait(s, session)
  {
    if PublishStep(s, t) {
      var x: string, packet: Packet :| t == Publish(s, x, packet);
      if x !in s.q.latest { AheadAppend(s.q.order, [x], session); }
    } else if RetireStep(s, t) {
      var x: string :| t == Retire(s, x);
      WithoutIs(s.q.order, x);
      AheadWithout(s.q.order, x, session);
    } else {
      var n: int :| n <= Left(Pick(s).q) && t == Turn(s, n);
      assert t.q.order == Pick(s).q.order && t.h.started == Pick(s).h.started;
    }
  }

  /** While a session stays queued, at most as many packets start as there were sessions ahead of it,
      however often others publish again. */
  lemma {:induction false} TurnComesInTime(run: seq<State>, m: nat, n: nat, session: string)
    requires Run(run) && m <= n < |run|
    requires forall k :: m <= k <= n ==> session in run[k].q.order
    ensures |run[n].h.started| + Ahead(run[n].q.order, session) <= |run[m].h.started| + Ahead(run[m].q.order, session)
    decreases n
  {
    hide Step; hide Inv; hide Ahead;
    if m < n {
      TurnComesInTime(run, m, n - 1, session);
      RunKeeps(run, n - 1);
      assert Step(run[n - 1], run[n - 1 + 1]);
      WaitNeverGrows(run[n - 1], run[n], session);
    }
  }

  // ----- A packet without bytes -----

  /** The socket takes nothing of an empty packet, so it stays current and nothing is written again. */
  lemma {:induction false} EmptyPacketStopsTheStream(run: seq<State>, m: nat, n: nat)
    requires Run(run) && m <= n < |run| && run[m].q.current == Some([]) && run[m].q.offset == 0
    ensures run[n].q.current == Some([]) && run[n].q.offset == 0 && run[n].h.written == run[m].h.written
    decreases n
  {
    if m < n {
      EmptyPacketStopsTheStream(run, m, n - 1);
      assert Step(run[n - 1], run[n - 1 + 1]);
    }
  }

  /** In every run, whatever was published before: the socket can take a byte of the current packet if
      and only if the packet has one. */
  lemma OnlyEmptyPacketsStop(run: seq<State>, n: nat)
    requires Run(run) && n < |run| && run[n].q.current.Some?
    ensures Left(run[n].q) > 0 <==> run[n].q.current.value != []
  {
    hide Step;
    RunUnfinished(run, n);
    RunKeeps(run, n);
    assert Stream(run[n]);
  }

  /** A run that reaches such a packet: it is published, and its turn comes. */
  lemma EmptyPacketGetsItsTurn(session: string) returns (run: seq<State>)
    ensures |run| == 3 && Run(run) && run[2].q.current == Some([]) && run[2].q.offset == 0
  {
    hide Inv;
    var published := Publish(INITIAL, session, []);
    var taken := Turn(published, 0);
    assert PublishStep(INITIAL, published);
    assert published.q.order == [session] && FlushStep(published, taken);
    run := [INITIAL, published, taken];
  }

  /** A current packet is never one that is all written. */
  lemma {:induction false} RunUnfinished(run: seq<State>, n: nat)
    requires Run(run) && n < |run|
    ensures run[n].q.current.Some? && run[n].q.current.value != [] ==> run[n].q.offset < |run[n].q.current.value|
  {
    if n > 0 {
      RunUnfinished(run, n - 1);
      RunKeeps(run, n - 1);
      assert Step(run[n - 1], run[n - 1 + 1]);
      StepUnfinished(run[n - 1], run[n]);
    }
  }

  lemma StepUnfinished(s: State, t: State)
    requires Step(s, t)
    requires s.q.current.Some? && s.q.current.value != [] ==> s.q.offset < |s.q.current.value|
    ensures t.q.current.Some? && t.q.current.value != [] ==> t.q.offset < |t.q.current.value|
  {
  }

  // ----- The object -----

  class Writer {
    var current: Option<Packet>
    var latest: map<string, Packet>
    var order: seq<string>
    var offset: nat
    var suspended: bool
    ghost var history: History

    ghost function View(): State
      reads this
    {
      State(Queue(current, offset, latest, order, suspended), history)
    }

    constructor ()
      ensures View() == INITIAL && Inv(View())
    {
      current, latest, order, offset, suspended := None, map[], [], 0, true;
      history := History([], map[], [], {}, [], []);
      new;
      InitKeeps();
    }

    method PublishPacket(packet: Packet, sessionId: string)
      requires Inv(View())
      modifies this
      ensures View() == Publish(old(View()), sessionId, packet) && Inv(View())
    {
      hide Inv;
      assert PublishStep(View(), Publish(View(), sessionId, packet));
      StepKeeps(View(), Publish(View(), sessionId, packet));
      history := Publish(View(), sessionId, packet).h;
      if sessionId !in latest { order := order + [sessionId]; }
      latest := latest[sessionId := packet];
      if suspended { suspended := false; }
    }

    method RetireSession(sessionId: string)
      requires Inv(View())
      modifies this
      ensures View() == Retire(old(View()), sessionId) && Inv(View())
    {
      hide Inv;
      RetireKeeps(View(), sessionId);
      history := Retire(View(), sessionId).h;
      latest := latest - {sessionId};
      order := Without(order, sessionId);
    }

    /** Writes until the socket takes no more or nothing is left. `answers` are what `write` returns, in
        order; when they run out the socket is full. */
    method Flush(answers: seq<int>)
      requires Inv(View()) && !suspended
      modifies this
      ensures View() == Flushed(old(View()), answers) && Inv(View())
    {
      hide Inv; hide Pick; hide Turn; hide Left;
      var i := 0;
      while true
        invariant Inv(View()) && !suspended && i <= |answers|
        invariant Flushed(old(View()), answers) == Flushed(View(), answers[i..])
        decreases |answers| - i
      {
        ghost var before := View();
        PickIs(before);
        if current.None? && order != [] {
          var id := order[0];
          history := Pick(before).h;
          order := order[1..];
          current := if id in latest then Some(latest[id]) else None;
          latest := latest - {id};
          offset := 0;
        }
        assert View() == Pick(before);
        if current.None? {
          TurnIs(before, 0);
          TurnKeeps(before, 0);
          history := Turn(before, 0).h;
          suspended := true;
          return;
        }
        if i == |answers| {
          TurnIs(before, -1);
          TurnKeeps(before, -1);
          return;
        }
        var written := Clip(answers[i], if offset <= |current.value| then |current.value| - offset else 0);
        LeftIs(Pick(before).q);
        TurnIs(before, written);
        TurnKeeps(before, written);
        assert answers[i..][0] == answers[i] && answers[i..][1..] == answers[i + 1..];
        if written <= 0 { return; }
        history := Turn(before, written).h;
        offset := offset + written;
        if offset == |current.value| { current := None; }
        i := i + 1;
      }
    }
  }

  /** The flush loop: turns until nothing is left or the socket takes no more. */
  ghost function Flushed(s: State, answers: seq<int>): State
    decreases |answers|
  {
    var p := Pick(s);
    if p.q.current.None? then Turn(s, 0)
    else if answers == [] then p
    else
      var n := Clip(answers[0], Left(p.q));
      if n <= 0 then p else Flushed(Turn(s, n), answers[1..])
  }

  lemma TurnIs(s: State, n: int)
    requires n <= Left(Pick(s).q)
    ensures var p := Pick(s);
            && (p.q.current.None? ==>
                Turn(s, n) == State(p.q.(suspended := true), p.h.(signals := p.h.signals + [false])))
            && (p.q.current.Some? && n <= 0 ==> Turn(s, n) == p)
            && (p.q.current.Some? && n > 0 ==>
                  && p.q.offset + n <= |p.q.current.value|
                  && Turn(s, n).q == p.q.(offset := p.q.offset + n,
                                          current := if p.q.offset + n == |p.q.current.value|
                                                     then None else p.q.current))
  {
    hide Pick;
  }

  lemma LeftIs(q: Queue)
    ensures Left(q) == if q.current.Some? && q.offset <= |q.current.value| then |q.current.value| - q.offset else 0
  {
  }

  /** No more than there is room for. */
  function Clip(answer: int, room: nat): int {
    if answer > room then room else answer
  }

  lemma PickIs(s: State)
    ensures s.q.current.Some? || s.q.order == [] ==> Pick(s) == s
    ensures s.q.current.None? && s.q.order != [] ==>
              var id := s.q.order[0];
              Pick(s).q == s.q.(order := s.q.order[1..], offset := 0, latest := s.q.latest - {id},
                                current := if id in s.q.latest then Some(s.q.latest[id]) else None)
  {
  }
}
