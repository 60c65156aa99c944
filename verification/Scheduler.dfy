/** The command scheduler: one lane per target, and one lane all coordinated commands share. */
module Scheduler {
  import opened Basics

  datatype Status = Waiting | Running | Finished

  /** A submitted command and the two it waits for. */
  datatype Task = Task(key: string, coordinated: bool, previous: Option<nat>, predecessor: Option<nat>, status: Status)

  /** Tasks are numbered in submission order; task `i` has revision `i + 1`. */
  datatype State = State(
    tasks: seq<Task>,
    tails: map<string, nat>,
    revisions: map<string, nat>,
    global: Option<nat>,
    serial: nat,
    pending: nat)

  const LIMIT := 32

  function Lookup(m: map<string, nat>, key: string): Option<nat> {
    if key in m then Some(m[key]) else None
  }

  // ----- Steps -----

  function Submitted(s: State, key: string, coordinated: bool): State {
    if s.pending >= LIMIT then s
    else
      var task := Task(key, coordinated, Lookup(s.tails, key), if coordinated then s.global else None, Waiting);
      State(s.tasks + [task], s.tails[key := |s.tasks|], s.revisions[key := s.serial + 1],
            if coordinated then Some(|s.tasks|) else s.global, s.serial + 1, s.pending + 1)
  }

  predicate Done(s: State, i: Option<nat>) {
    i.None? || (i.value < |s.tasks| && s.tasks[i.value].status == Finished)
  }

  /** A task's turn: what it awaited is over. */
  predicate CanBegin(s: State, i: nat) {
    i < |s.tasks| && s.tasks[i].status == Waiting && Done(s, s.tasks[i].previous) && Done(s, s.tasks[i].predecessor)
  }

  function Begun(s: State, i: nat): State
    requires CanBegin(s, i)
  {
    s.(tasks := s.tasks[i := s.tasks[i].(status := Running)])
  }

  /** The operation is over: the task steps out, and closes its lane if it is still the last of it. */
  function Ended(s: State, i: nat): State
    requires i < |s.tasks| && s.pending > 0
  {
    var key := s.tasks[i].key;
    var last := key in s.revisions && s.revisions[key] == i + 1;
    s.(tasks := s.tasks[i := s.tasks[i].(status := Finished)], pending := s.pending - 1,
       tails := if last then s.tails - {key} else s.tails,
       revisions := if last then s.revisions - {key} else s.revisions)
  }

  ghost predicate Step(s: State, t: State) {
    || (exists key: string, coordinated: bool :: t == Submitted(s, key, coordinated))
    || (exists i: nat :: CanBegin(s, i) && t == Begun(s, i))
    || (exists i: nat :: i < |s.tasks| && s.tasks[i].status == Running && s.pending > 0 && t == Ended(s, i))
  }

  const INITIAL := State([], map[], map[], None, 0, 0)

  ghost predicate Run(run: seq<State>) {
    run != [] && run[0] == INITIAL && forall i :: 0 <= i < |run| - 1 ==> Step(run[i], run[i + 1])
  }

  // ----- What every step keeps -----

  function Unfinished(tasks: seq<Task>): nat {
    if tasks == [] then 0
    else Unfinished(tasks[..|tasks| - 1]) + if tasks[|tasks| - 1].status == Finished then 0 else 1
  }

  /** A lane's tail is its last task and not finished; a lane without a tail is finished. */
  ghost predicate TailAt(s: State, k: string) {
    k in s.tails ==>
      && s.tails[k] < |s.tasks| && s.tasks[s.tails[k]].key == k && s.tasks[s.tails[k]].status != Finished
      && k in s.revisions && s.revisions[k] == s.tails[k] + 1
  }

  ghost predicate LaneAt(s: State, i: nat)
    requires i < |s.tasks|
  {
    if s.tasks[i].key in s.tails then i <= s.tails[s.tasks[i].key] else s.tasks[i].status == Finished
  }

  ghost predicate Lanes(s: State) {
    && s.serial == |s.tasks| && s.tails.Keys == s.revisions.Keys
    && (forall k :: TailAt(s, k))
    && (forall i: nat :: i < |s.tasks| ==> LaneAt(s, i))
  }

  /** Each task waits for the one before it in its lane. */
  ghost predicate ChainedAt(s: State, i: nat, j: nat)
    requires i < j < |s.tasks|
  {
    s.tasks[i].key == s.tasks[j].key ==>
      match s.tasks[j].previous
      case None => s.tasks[i].status == Finished
      case Some(p) => i <= p < j && s.tasks[p].key == s.tasks[j].key
  }

  ghost predicate Chained(s: State) {
    forall i: nat, j: nat :: i < j < |s.tasks| ==> ChainedAt(s, i, j)
  }

  /** Each coordinated task waits for the coordinated one before it. */
  ghost predicate CoordinatedAt(s: State, i: nat, j: nat)
    requires i < j < |s.tasks|
  {
    s.tasks[i].coordinated && s.tasks[j].coordinated ==>
      match s.tasks[j].predecessor
      case None => false
      case Some(p) => i <= p < j && s.tasks[p].coordinated
  }

  ghost predicate GlobalAt(s: State, i: nat)
    requires i < |s.tasks|
  {
    s.tasks[i].coordinated ==> s.global.Some? && i <= s.global.value
  }

  ghost predicate Coordinated(s: State) {
    && (forall i: nat, j: nat :: i < j < |s.tasks| ==> CoordinatedAt(s, i, j))
    && (forall i: nat :: i < |s.tasks| ==> GlobalAt(s, i))
    && (s.global.Some? ==> s.global.value < |s.tasks| && s.tasks[s.global.value].coordinated)
  }

  /** What a task waits for was submitted before it, in its lane or coordinated like it. */
  ghost predicate BackAt(s: State, j: nat)
    requires j < |s.tasks|
  {
    var task := s.tasks[j];
    && (task.previous.Some? ==> task.previous.value < j && s.tasks[task.previous.value].key == task.key)
    && (task.predecessor.Some? ==>
          task.predecessor.value < j && task.coordinated && s.tasks[task.predecessor.value].coordinated)
  }

  ghost predicate LooksBack(s: State) {
    forall j: nat :: j < |s.tasks| ==> BackAt(s, j)
  }

  /** The later of the two must follow the earlier: same lane, or both coordinated. */
  predicate Follows(s: State, i: nat, j: nat)
    requires i < |s.tasks| && j < |s.tasks|
  {
    s.tasks[i].key == s.tasks[j].key || (s.tasks[i].coordinated && s.tasks[j].coordinated)
  }

  ghost predicate OrderAt(s: State, i: nat, j: nat)
    requires i < j < |s.tasks|
  {
    Follows(s, i, j) ==> s.tasks[j].status == Waiting || s.tasks[i].status == Finished
  }

  ghost predicate InOrder(s: State) {
    forall i: nat, j: nat :: i < j < |s.tasks| ==> OrderAt(s, i, j)
  }

  ghost predicate Counted(s: State) {
    s.pending == Unfinished(s.tasks) <= LIMIT
  }

  ghost predicate Inv(s: State) {
    Lanes(s) && Chained(s) && Coordinated(s) && LooksBack(s) && InOrder(s) && Counted(s)
  }

  lemma {:induction false} UnfinishedUpdate(tasks: seq<Task>, i: nat, task: Task)
    requires i < |tasks|
    ensures Unfinished(tasks[i := task]) ==
            Unfinished(tasks)
                + (if task.status == Finished then 0 else 1) - (if tasks[i].status == Finished then 0 else 1)
  {
    var n := |tasks| - 1;
    var next := tasks[i := task];
    if i == n {
      assert next[..n] == tasks[..n];
    } else {
      UnfinishedUpdate(tasks[..n], i, task);
      assert next[..n] == tasks[..n][i := task];
    }
  }

  lemma {:induction false} UnfinishedCounts(tasks: seq<Task>, i: nat)
    requires i < |tasks| && tasks[i].status != Finished
    ensures Unfinished(tasks) > 0
  {
    if i < |tasks| - 1 { UnfinishedCounts(tasks[..|tasks| - 1], i); }
  }

  lemma SubmitKeeps(s: State, key: string, coordinated: bool)
    requires Inv(s)
    ensures Inv(Submitted(s, key, coordinated))
  {
    hide Lanes; hide Chained; hide Coordinated; hide LooksBack; hide InOrder; hide Counted;
    if s.pending < LIMIT {
      SubmitLanes(s, key, coordinated);
      SubmitChained(s, key, coordinated);
      SubmitCoordinated(s, key, coordinated);
    }
  }

  lemma SubmitLanes(s: State, key: string, coordinated: bool)
    requires Lanes(s) && LooksBack(s) && Coordinated(s) && Counted(s) && s.pending < LIMIT
    ensures var t := Submitted(s, key, coordinated); Lanes(t) && LooksBack(t) && Counted(t)
  {
    hide CoordinatedAt;
    var t, n := Submitted(s, key, coordinated), |s.tasks|;
    assert t.tasks[..n] == s.tasks;
    forall k ensures TailAt(t, k) { assert TailAt(s, k); }
    forall i: nat | i < |t.tasks| ensures LaneAt(t, i) { if i < n { assert LaneAt(s, i); } }
    forall j: nat | j < |t.tasks| ensures BackAt(t, j) {
      if j < n { assert BackAt(s, j); } else { assert TailAt(s, key); }
    }
  }

  lemma SubmitChained(s: State, key: string, coordinated: bool)
    requires Lanes(s) && LooksBack(s) && Chained(s) && InOrder(s) && s.pending < LIMIT
    ensures var t := Submitted(s, key, coordinated); Chained(t) && InOrder(t)
  {
    var t, n := Submitted(s, key, coordinated), |s.tasks|;
    forall i: nat, j: nat | i < j < |t.tasks| ensures ChainedAt(t, i, j) && OrderAt(t, i, j) {
      if j < n {
        assert ChainedAt(s, i, j) && OrderAt(s, i, j) && BackAt(s, j);
      } else {
        assert LaneAt(s, i) && TailAt(s, key);
      }
    }
  }

  lemma SubmitCoordinated(s: State, key: string, coordinated: bool)
    requires LooksBack(s) && Coordinated(s) && s.pending < LIMIT
    ensures Coordinated(Submitted(s, key, coordinated))
  {
    var t, n := Submitted(s, key, coordinated), |s.tasks|;
    forall i: nat | i < |t.tasks| ensures GlobalAt(t, i) { if i < n { assert GlobalAt(s, i); } }
    forall i: nat, j: nat | i < j < |t.tasks| ensures CoordinatedAt(t, i, j) {
      if j < n { assert CoordinatedAt(s, i, j) && BackAt(s, j); } else { assert GlobalAt(s, i); }
    }
  }

  /** When a task may begin, all earlier ones it must follow are over, not only the ones it awaited. */
  lemma BeginInOrder(s: State, i: nat, j: nat)
    requires Inv(s) && i < j && CanBegin(s, j) && Follows(s, i, j)
    ensures s.tasks[i].status == Finished
  {
    assert ChainedAt(s, i, j) && CoordinatedAt(s, i, j);
    if s.tasks[i].key == s.tasks[j].key {
      if s.tasks[j].previous.Some? && i < s.tasks[j].previous.value { assert OrderAt(s, i, s.tasks[j].previous.value); }
    } else if i < s.tasks[j].predecessor.value {
      assert OrderAt(s, i, s.tasks[j].predecessor.value);
    }
  }

  lemma BeginKeeps(s: State, i: nat)
    requires Inv(s) && CanBegin(s, i)
    ensures Inv(Begun(s, i))
  {
    var t := Begun(s, i);
    UnfinishedUpdate(s.tasks, i, t.tasks[i]);
    forall k ensures TailAt(t, k) { assert TailAt(s, k); }
    forall j: nat | j < |t.tasks| ensures LaneAt(t, j) && BackAt(t, j) && GlobalAt(t, j) {
      assert LaneAt(s, j) && BackAt(s, j) && GlobalAt(s, j);
    }
    forall h: nat, j: nat | h < j < |t.tasks| ensures ChainedAt(t, h, j) && CoordinatedAt(t, h, j) && OrderAt(t, h, j) {
      assert ChainedAt(s, h, j) && CoordinatedAt(s, h, j) && OrderAt(s, h, j);
      if j == i && Follows(s, h, i) { BeginInOrder(s, h, i); }
      if h == i && s.tasks[j].key == s.tasks[i].key { assert s.tasks[i].status != Finished; }
    }
  }

  lemma EndKeeps(s: State, i: nat)
    requires Inv(s) && i < |s.tasks| && s.tasks[i].status == Running
    ensures s.pending > 0 && Inv(Ended(s, i))
  {
    hide Lanes; hide Chained; hide Coordinated; hide LooksBack; hide InOrder; hide Unfinished; hide Ended;
    UnfinishedCounts(s.tasks, i);
    EndLanes(s, i);
    EndPairs(s, i);
  }

  lemma EndLanes(s: State, i: nat)
    requires Lanes(s) && LooksBack(s) && InOrder(s) && Counted(s)
    requires i < |s.tasks| && s.tasks[i].status == Running && s.pending > 0
    ensures var t := Ended(s, i); Lanes(t) && LooksBack(t) && Counted(t)
  {
    var t := Ended(s, i);
    UnfinishedUpdate(s.tasks, i, t.tasks[i]);
    assert LaneAt(s, i) && TailAt(s, s.tasks[i].key);
    forall k ensures TailAt(t, k) { assert TailAt(s, k); }
    forall j: nat | j < |t.tasks| ensures LaneAt(t, j) && BackAt(t, j) {
      assert LaneAt(s, j) && BackAt(s, j);
      if j < i { assert OrderAt(s, j, i); }
    }
  }

  lemma EndPairs(s: State, i: nat)
    requires Chained(s) && Coordinated(s) && InOrder(s)
    requires i < |s.tasks| && s.tasks[i].status == Running && s.pending > 0
    ensures var t := Ended(s, i); Chained(t) && Coordinated(t) && InOrder(t)
  {
    var t := Ended(s, i);
    forall j: nat | j < |t.tasks| ensures GlobalAt(t, j) { assert GlobalAt(s, j); }
    forall h: nat, j: nat | h < j < |t.tasks| ensures ChainedAt(t, h, j) && CoordinatedAt(t, h, j) && OrderAt(t, h, j) {
      assert ChainedAt(s, h, j) && CoordinatedAt(s, h, j) && OrderAt(s, h, j);
    }
  }

  lemma StepKeeps(s: State, t: State)
    requires Inv(s) && Step(s, t)
    ensures Inv(t)
  {
    hide Inv; hide Ended; hide Begun; hide Submitted; hide CanBegin;
    if key: string, coordinated: bool :| t == Submitted(s, key, coordinated) {
      SubmitKeeps(s, key, coordinated);
    } else if i: nat :| CanBegin(s, i) && t == Begun(s, i) {
      BeginKeeps(s, i);
    } else {
      var i: nat :| i < |s.tasks| && s.tasks[i].status == Running && s.pending > 0 && t == Ended(s, i);
      EndKeeps(s, i);
    }
  }

  lemma {:induction false} RunKeeps(run: seq<State>, n: nat)
    requires Run(run) && n < |run|
    ensures Inv(run[n])
  {
    hide Step;
    if n > 0 {
      RunKeeps(run, n - 1);
      assert Step(run[n - 1], run[n - 1 + 1]);
      StepKeeps(run[n - 1], run[n]);
    }
  }

  // ----- What that means for whole runs -----

  /** In every run, of two commands in one lane, or two coordinated ones, the later is still waiting
      until the earlier is over; and `pending` counts the unfinished ones, at most 32. */
  lemma LanesAreSerial(run: seq<State>, n: nat)
    requires Run(run) && n < |run|
    ensures var s := run[n];
            forall i: nat, j: nat :: i < j < |s.tasks| && Follows(s, i, j) ==>
              s.tasks[j].status == Waiting || s.tasks[i].status == Finished
    ensures run[n].pending == Unfinished(run[n].tasks) <= 32
  {
    hide Step; hide Unfinished; hide Lanes; hide Chained; hide Coordinated; hide LooksBack; hide Follows;
    RunKeeps(run, n);
    var s := run[n];
    forall i: nat, j: nat | i < j < |s.tasks| && Follows(s, i, j)
      ensures s.tasks[j].status == Waiting || s.tasks[i].status == Finished
    {
      assert OrderAt(s, i, j);
    }
  }

  /** A command waits for no more than it must: in every state of every run, a waiting one may begin if
      and only if every earlier one with the same key, and if it is coordinated every earlier
      coordinated one, is over. */
  lemma IndependentLanesGoOn(run: seq<State>, n: nat, j: nat)
    requires Run(run) && n < |run| && j < |run[n].tasks| && run[n].tasks[j].status == Waiting
    ensures var tasks := run[n].tasks;
            CanBegin(run[n], j) <==>
            forall i :: 0 <= i < j
                        && (tasks[i].key == tasks[j].key || (tasks[i].coordinated && tasks[j].coordinated)) ==>
              tasks[i].status == Finished
  {
    hide Run; hide Inv;
    RunKeeps(run, n);
    var s := run[n];
    if CanBegin(s, j) {
      forall i: nat | i < j && Follows(s, i, j) ensures s.tasks[i].status == Finished {
        BeginInOrder(s, i, j);
      }
    } else {
      var i := HeldBack(s, j);
    }
  }

  /** A waiting task that may not begin awaits an unfinished one that it must follow. */
  lemma HeldBack(s: State, j: nat) returns (i: nat)
    requires Inv(s) && j < |s.tasks| && s.tasks[j].status == Waiting && !CanBegin(s, j)
    ensures i < j && Follows(s, i, j) && s.tasks[i].status != Finished
  {
    assert BackAt(s, j);
    i := if Done(s, s.tasks[j].previous) then s.tasks[j].predecessor.value else s.tasks[j].previous.value;
  }

  /** Some unfinished command can always go on: the earliest. */
  lemma SomeoneCanProceed(run: seq<State>, n: nat) returns (i: nat)
    requires Run(run) && n < |run| && run[n].pending > 0
    ensures i < |run[n].tasks| && (run[n].tasks[i].status == Running || CanBegin(run[n], i))
  {
    RunKeeps(run, n);
    i := FirstUnfinished(run[n].tasks);
    assert BackAt(run[n], i);
  }

  lemma {:induction false} FirstUnfinished(tasks: seq<Task>) returns (i: nat)
    requires Unfinished(tasks) > 0
    ensures i < |tasks| && tasks[i].status != Finished && forall j :: 0 <= j < i ==> tasks[j].status == Finished
  {
    var n := |tasks| - 1;
    if Unfinished(tasks[..n]) > 0 {
      i := FirstUnfinished(tasks[..n]);
    } else {
      i := n;
      forall j | 0 <= j < n ensures tasks[j].status == Finished {
        if tasks[..n][j].status != Finished { UnfinishedCounts(tasks[..n], j); }
      }
    }
  }

  /** A later state still has every task, and a finished one stays finished. */
  ghost predicate Later(s: State, t: State) {
    && |s.tasks| <= |t.tasks|
    && forall i :: 0 <= i < |s.tasks| ==>
         t.tasks[i] == s.tasks[i].(status := t.tasks[i].status)
             && (s.tasks[i].status == Finished ==> t.tasks[i].status == Finished)
  }

  lemma {:induction false} RunGoesOn(run: seq<State>, m: nat, n: nat)
    requires Run(run) && m <= n < |run|
    ensures Later(run[m], run[n])
    decreases n
  {
    if m < n {
      RunGoesOn(run, m, n - 1);
      assert Step(run[n - 1], run[n - 1 + 1]);
      StepGoesOn(run[n - 1], run[n]);
      hide Step;
    }
  }

  lemma StepGoesOn(s: State, t: State)
    requires Step(s, t)
    ensures Later(s, t)
  {
    hide CanBegin; hide Lookup;
    if key: string, coordinated: bool :| t == Submitted(s, key, coordinated) {
      assert t.tasks[..|s.tasks|] == s.tasks;
      assert forall i :: 0 <= i < |s.tasks| ==> t.tasks[i] == t.tasks[..|s.tasks|][i];
    } else if i: nat :| CanBegin(s, i) && t == Begun(s, i) {
      CanBeginIs(s, i);
    }
  }

  lemma CanBeginIs(s: State, i: nat)
    requires CanBegin(s, i)
    ensures i < |s.tasks| && s.tasks[i].status == Waiting
  {
  }

  /** `drain` takes the tails at its call and returns once they are finished: by then every command
      that was unfinished at its call is. */
  lemma DrainWaitsForAll(run: seq<State>, m: nat, n: nat, i: nat)
    requires Run(run) && m <= n < |run| && i < |run[m].tasks|
    requires forall k :: k in run[m].tails ==>
             run[m].tails[k] < |run[n].tasks| && run[n].tasks[run[m].tails[k]].status == Finished
    ensures i < |run[n].tasks| && run[n].tasks[i].status == Finished
  {
    RunKeeps(run, m);
    RunKeeps(run, n);
    RunGoesOn(run, m, n);
    var s, t := run[m], run[n];
    var key := s.tasks[i].key;
    assert LaneAt(s, i) && TailAt(s, key);
    if key in s.tails && i < s.tails[key] {
      assert t.tasks[s.tails[key]].key == key == t.tasks[i].key;
      assert OrderAt(t, i, s.tails[key]);
    }
  }

  // ----- The object -----

  class CommandScheduler {
    var tails: map<string, nat>
    var revisions: map<string, nat>
    var global: Option<nat>
    var serial: nat
    var pending: nat
    var tasks: seq<Task>

    function View(): State
      reads this
    {
      State(tasks, tails, revisions, global, serial, pending)
    }

    constructor ()
      ensures View() == INITIAL && Inv(View())
    {
      tails, revisions, global, serial, pending, tasks := map[], map[], None, 0, 0, [];
    }

    method Submit(key: string, coordinated: bool) returns (ok: bool)
      requires Inv(View())
      modifies this
      ensures ok == (old(pending) < 32) && (!ok ==> View() == old(View()))
      ensures ok ==> |tasks| == |old(tasks)| + 1 && tasks[..|old(tasks)|] == old(tasks)
      ensures ok ==> var task := tasks[|tasks| - 1];
                     task.key == key && task.coordinated == coordinated && task.status == Waiting
      ensures View() == Submitted(old(View()), key, coordinated) && Inv(View())
    {
      hide Inv; hide Lookup;
      SubmitKeeps(View(), key, coordinated);
      if pending >= LIMIT { return false; }
      pending := pending + 1;
      serial := serial + 1;
      var revision, previous, predecessor := serial, Lookup(tails, key), if coordinated then global else None;
      revisions := revisions[key := revision];
      var task := |tasks|;
      tasks := tasks + [Task(key, coordinated, previous, predecessor, Waiting)];
      tails := tails[key := task];
      if coordinated { global := Some(task); }
      return true;
    }

    /** Task `i` passes its two awaits and starts its operation. */
    method Begin(i: nat)
      requires Inv(View()) && CanBegin(View(), i)
      modifies this`tasks
      ensures View() == Begun(old(View()), i) && Inv(View())
    {
      BeginKeeps(View(), i);
      tasks := tasks[i := tasks[i].(status := Running)];
    }

    /** Task `i`'s operation has returned. */
    method End(i: nat)
      requires Inv(View()) && i < |tasks| && tasks[i].status == Running
      modifies this
      ensures old(pending) > 0 && View() == Ended(old(View()), i) && Inv(View())
    {
      EndKeeps(View(), i);
      var key, revision := tasks[i].key, i + 1;
      pending := pending - 1;
      if key in revisions && revisions[key] == revision {
        tails := tails - {key};
        revisions := revisions - {key};
      }
      tasks := tasks[i := tasks[i].(status := Finished)];
    }
  }
}
