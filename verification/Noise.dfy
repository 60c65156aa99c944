/** Which accessibility notifications mean that the app is still changing. An element that repeats
    one notification more than `burst` times within a window is noise. The table keeps only recent
    times and is purged when it grows; it is proved to answer as counting over everything ever
    heard would. */
module Noise {
  import opened Basics

  datatype Key = Key(element: int, notification: string)
  datatype Notice = Notice(key: Key, role: Option<string>, now: nat)

  type Table = map<Key, seq<nat>>

  const SIZE := 512

  predicate Ambient(n: Notice) {
    && n.key.notification == "AXValueChanged"
    && n.role.Some?
    && n.role.value in {"AXProgressIndicator", "AXBusyIndicator", "AXLevelIndicator", "AXRelevanceIndicator"}
  }

  // ----- Counting over the whole history -----

  predicate Recent(t: nat, now: nat, window: nat) {
    t <= now && now - t < window
  }

  /** The recent ones of some times, in order. */
  function Live(times: seq<nat>, now: nat, window: nat): (r: seq<nat>) {
    if times == [] then []
    else
      var last := times[|times| - 1];
      Live(times[..|times| - 1], now, window) + if Recent(last, now, window) then [last] else []
  }

  /** When the history holds this notification of this element, ambient ones aside. */
  function Times(history: seq<Notice>, key: Key): (r: seq<nat>) {
    if history == [] then []
    else
      var last := history[|history| - 1];
      Times(history[..|history| - 1], key) + if last.key == key && !Ambient(last) then [last.now] else []
  }

  /** The clock never runs backwards. */
  ghost predicate Timely(history: seq<Notice>) {
    forall i, j :: 0 <= i < j < |history| ==> history[i].now <= history[j].now
  }

  // ----- The table -----

  function Get(table: Table, key: Key): (r: seq<nat>) {
    if key in table then table[key] else []
  }

  function Noted(table: Table, n: Notice, window: nat): (r: Table) {
    table[n.key := Live(Get(table, n.key), n.now, window) + [n.now]]
  }

  function Purged(table: Table, now: nat, window: nat): (r: Table) {
    map key | key in table && table[key] != [] && Recent(table[key][|table[key]| - 1], now, window) :: table[key]
  }

  function After(table: Table, n: Notice, window: nat): (r: Table) {
    if Ambient(n) then table
    else
      var noted := Noted(table, n, window);
      if |noted| > SIZE then Purged(noted, n.now, window) else noted
  }

  predicate Counted(table: Table, n: Notice, burst: int, window: nat) {
    !Ambient(n) && |Live(Get(table, n.key), n.now, window)| + 1 <= burst
  }

  function Replay(history: seq<Notice>, window: nat): (r: Table) {
    if history == [] then map[]
    else After(Replay(history[..|history| - 1], window), history[|history| - 1], window)
  }

  // ----- Times in order -----

  ghost predicate Ordered(times: seq<nat>, now: nat) {
    && (forall i, j :: 0 <= i < j < |times| ==> times[i] <= times[j])
    && (forall i :: 0 <= i < |times| ==> times[i] <= now)
  }

  lemma {:induction false} LiveOrdered(times: seq<nat>, bound: nat, now: nat, window: nat)
    requires Ordered(times, bound)
    ensures Ordered(Live(times, now, window), bound)
    ensures forall t :: t in Live(times, now, window) ==> t in times
  {
    if times != [] {
      var front, last := times[..|times| - 1], times[|times| - 1];
      LiveOrdered(front, bound, now, window);
      forall i | 0 <= i < |Live(front, now, window)|
        ensures Live(front, now, window)[i] <= last
      {
        assert Live(front, now, window)[i] in front;
      }
    }
  }

  /** What has been dropped once would not have been recent later. */
  lemma {:induction false} LiveLater(times: seq<nat>, now: nat, later: nat, window: nat)
    requires now <= later && forall i :: 0 <= i < |times| ==> times[i] <= now
    ensures Live(Live(times, now, window), later, window) == Live(times, later, window)
  {
    if times != [] {
      var front, last := times[..|times| - 1], times[|times| - 1];
      LiveLater(front, now, later, window);
      if Recent(last, now, window) {
        LiveThen(Live(front, now, window), last, later, window);
      } else {
        assert Live(times, now, window) == Live(front, now, window);
        assert Live(times, later, window) == Live(front, later, window);
      }
    }
  }

  lemma LiveThen(times: seq<nat>, t: nat, now: nat, window: nat)
    ensures Live(times + [t], now, window) == Live(times, now, window) + if Recent(t, now, window) then [t] else []
  {
    var all := times + [t];
    assert all[..|all| - 1] == times;
  }

  lemma TimesThen(history: seq<Notice>, n: Notice, key: Key)
    ensures Times(history + [n], key) == Times(history, key) + if n.key == key && !Ambient(n) then [n.now] else []
  {
    var all := history + [n];
    assert all[..|all| - 1] == history;
  }

  /** Times whose newest is no longer recent are none of them recent, now or later. */
  lemma {:induction false} LiveNone(times: seq<nat>, now: nat, window: nat)
    requires forall i :: 0 <= i < |times| ==> !Recent(times[i], now, window)
    ensures Live(times, now, window) == []
  {
    if times != [] { LiveNone(times[..|times| - 1], now, window); }
  }

  // ----- The table follows the history -----

  /** For this and every later time the table has the recent times of every key. */
  ghost predicate Follows(table: Table, history: seq<Notice>, now: nat, window: nat) {
    && (forall key :: key in table ==> Ordered(table[key], now))
    && (forall key, later: nat :: now <= later ==>
        Live(Get(table, key), later, window) == Live(Times(history, key), later, window))
  }

  lemma NotedFollows(table: Table, history: seq<Notice>, n: Notice, now: nat, window: nat)
    requires Follows(table, history, now, window) && now <= n.now && !Ambient(n)
    ensures Follows(Noted(table, n, window), history + [n], n.now, window)
  {
    hide Live; hide Times;
    var noted := Noted(table, n, window);
    NotedOrdered(table, n, now, window);
    forall key, later: nat | n.now <= later
      ensures Live(Get(noted, key), later, window) == Live(Times(history + [n], key), later, window)
    {
      TimesThen(history, n, key);
      assert Live(Get(table, key), later, window) == Live(Times(history, key), later, window);
      if key == n.key {
        NotedTimes(Get(table, key), Times(history, key), n.now, later, window);
      } else {
        assert Times(history + [n], key) == Times(history, key);
      }
    }
  }

  lemma NotedOrdered(table: Table, n: Notice, now: nat, window: nat)
    requires now <= n.now && forall key :: key in table ==> Ordered(table[key], now)
    ensures forall key :: key in Noted(table, n, window) ==> Ordered(Noted(table, n, window)[key], n.now)
    ensures var kept := Get(table, n.key); forall i :: 0 <= i < |kept| ==> kept[i] <= n.now
  {
    hide Live;
    LiveOrdered(Get(table, n.key), now, n.now, window);
  }

  lemma {:induction false} NotedTimes(kept: seq<nat>, all: seq<nat>, now: nat, later: nat, window: nat)
    requires now <= later && forall i :: 0 <= i < |kept| ==> kept[i] <= now
    requires Live(kept, later, window) == Live(all, later, window)
    ensures Live(Live(kept, now, window) + [now], later, window) == Live(all + [now], later, window)
  {
    hide Live;
    LiveThen(Live(kept, now, window), now, later, window);
    LiveLater(kept, now, later, window);
    LiveThen(all, now, later, window);
  }

  lemma PurgedFollows(table: Table, history: seq<Notice>, now: nat, window: nat)
    requires Follows(table, history, now, window)
    ensures Follows(Purged(table, now, window), history, now, window)
  {
    var purged := Purged(table, now, window);
    forall key, later: nat | now <= later
      ensures Live(Get(purged, key), later, window) == Live(Times(history, key), later, window)
    {
      assert Live(Get(table, key), later, window) == Live(Times(history, key), later, window);
      if key in table && key !in purged {
        LiveNone(table[key], later, window);
      }
    }
  }

  lemma {:induction false} ReplayFollows(history: seq<Notice>, now: nat, window: nat)
    requires Timely(history)
    requires forall i :: 0 <= i < |history| ==> history[i].now <= now
    ensures Follows(Replay(history, window), history, now, window)
  {
    if history != [] {
      var front, n := history[..|history| - 1], history[|history| - 1];
      ReplayFollows(front, n.now, window);
      assert front + [n] == history;
      if Ambient(n) {
        forall key
          ensures Times(history, key) == Times(front, key)
        {
          TimesThen(front, n, key);
        }
      } else {
        NotedFollows(Replay(front, window), front, n, n.now, window);
        PurgedFollows(Noted(Replay(front, window), n, window), history, n.now, window);
      }
      assert Follows(Replay(history, window), history, n.now, window);
    }
  }

  /** An indicator that changes on its own. */
  predicate Spins(n: Notice) {
    && n.key.notification == "AXValueChanged"
    && (|| n.role == Some("AXProgressIndicator") || n.role == Some("AXBusyIndicator")
        || n.role == Some("AXLevelIndicator") || n.role == Some("AXRelevanceIndicator"))
  }

  lemma AmbientSpins(n: Notice)
    ensures Ambient(n) <==> Spins(n)
  {
  }

  /** The same notification of the same element, no indicator, within the window before `now`. */
  predicate HeardAgain(h: Notice, key: Key, now: nat, window: nat) {
    h.key == key && !Spins(h) && h.now <= now < h.now + window
  }

  lemma {:induction false} LiveIsFilter(history: seq<Notice>, key: Key, now: nat, window: nat)
    ensures |Live(Times(history, key), now, window)| == |Filter(history, h => HeardAgain(h, key, now, window))|
  {
    hide Spins; hide Ambient; hide Filter;
    if history == [] {
      FilterNothing(key, now, window);
    } else {
      var front, last := history[..|history| - 1], history[|history| - 1];
      LiveIsFilter(front, key, now, window);
      AmbientSpins(last);
      var keep := h => HeardAgain(h, key, now, window);
      FilterIs(front, [last], last, keep);
      assert history == front + [last];
      assert |Filter(history, keep)| == |Filter(front, keep)| + if HeardAgain(last, key, now, window) then 1 else 0;
      if last.key == key && !Ambient(last) {
        var times := Times(history, key);
        assert times[..|times| - 1] == Times(front, key) && times[|times| - 1] == last.now;
        assert |Live(times, now, window)|
            == |Live(Times(front, key), now, window)| + if Recent(last.now, now, window) then 1 else 0;
      } else {
        assert Times(history, key) == Times(front, key);
      }
    }
  }

  lemma FilterNothing(key: Key, now: nat, window: nat)
    ensures Filter([], h => HeardAgain(h, key, now, window)) == []
  {
  }

  /** The answer the table gives is the answer of the whole history: the notification counts if and
      only if it is no indicator's and this element has sent it at most `burst` times, this one
      included, within the window. */
  lemma AnswerIsExact(history: seq<Notice>, n: Notice, burst: int, window: nat)
    requires Timely(history + [n])
    ensures Counted(Replay(history, window), n, burst, window)
            <==> !Spins(n) && |Filter(history, h => HeardAgain(h, n.key, n.now, window))| + 1 <= burst
  {
    hide Filter; hide Spins;
    AmbientSpins(n);
    LiveIsFilter(history, n.key, n.now, window);
    var all := history + [n];
    forall i, j | 0 <= i < j < |history|
      ensures history[i].now <= history[j].now
    {
      assert all[i] == history[i] && all[j] == history[j];
    }
    forall i | 0 <= i < |history|
      ensures history[i].now <= n.now
    {
      assert all[i] == history[i] && all[|history|] == n;
    }
    ReplayFollows(history, n.now, window);
  }

  lemma LastIsRecent(table: Table, n: Notice, window: nat, key: Key)
    requires !Ambient(n) && key in After(table, n, window) && |After(table, n, window)| > SIZE
    ensures Live(After(table, n, window)[key], n.now, window) != []
  {
    var times := After(table, n, window)[key];
    assert times != [] && Recent(times[|times| - 1], n.now, window);
  }

  /** A table past its size holds nobody who has been quiet for a window. */
  lemma OnlyTheRecentExceed(history: seq<Notice>, n: Notice, window: nat, key: Key)
    requires Timely(history + [n]) && !Ambient(n)
    requires key in Replay(history + [n], window) && |Replay(history + [n], window)| > 512
    ensures Live(Times(history + [n], key), n.now, window) != []
  {
    var all := history + [n];
    assert all[..|history|] == history && all[|history|] == n;
    ReplayFollows(all, n.now, window);
    var times := Replay(all, window)[key];
    assert Live(Get(Replay(all, window), key), n.now, window) == Live(Times(all, key), n.now, window);
    var before := Replay(history, window);
    assert Replay(all, window) == After(before, n, window);
    LastIsRecent(before, n, window, key);
  }

  // ----- The object -----

  class SettleNoise {
    const burst: int
    const window: nat
    var recent: Table

    constructor (burst: int, window: nat)
      ensures this.burst == burst && this.window == window && recent == Replay([], window)
    {
      this.burst := burst;
      this.window := window;
      recent := map[];
    }

    method Counts(n: Notice) returns (counts: bool)
      modifies this`recent
      ensures recent == After(old(recent), n, window)
      ensures counts == Counted(old(recent), n, burst, window)
    {
      hide Live; hide Ambient; hide Recent;
      if Ambient(n) { return false; }
      var times := KeepRecent(if n.key in recent then recent[n.key] else [], n.now, window);
      times := times + [n.now];
      recent := recent[n.key := times];
      if |recent| > SIZE {
        recent := map key | key in recent && recent[key] != []
            && Recent(recent[key][|recent[key]| - 1], n.now, window) :: recent[key];
      }
      counts := |times| <= burst;
    }
  }

  method KeepRecent(times: seq<nat>, now: nat, window: nat) returns (kept: seq<nat>)
    ensures kept == Live(times, now, window)
  {
    kept := [];
    for i := 0 to |times|
      invariant kept == Live(times[..i], now, window)
    {
      assert times[..i + 1][..i] == times[..i];
      if times[i] <= now && now - times[i] < window { kept := kept + [times[i]]; }
    }
    assert times[..|times|] == times;
  }
}
