/** The protocol between a work queue that offers pictures and an encoder that takes one at a time and
    answers on a thread of its own. Every access to shared state is a step of its own, so that a run
    may interleave the two threads in any way. */
module VideoPipeline {
  import opened Basics

  /** A picture waiting for the encoder. An unread one is still to be read from the shared file. */
  datatype Waiting = Waiting(picture: nat, unread: bool)

  /** Where the queue's thread is inside `submit`. */
  datatype Phase =
    | Idle
    | Submitting                 // about to ask whether the encoder is busy
    | Free                       // it was not; the picture is still to be read
    | Loaded                     // the picture is at hand
    | Claimed(force: bool)       // the encoder is marked busy; the sample is not yet handed over
    | Accepted(force: bool)      // the encoder has the sample; the slot is not yet cleared

  /** What became of a picture that left the slot. */
  datatype Outcome = Submitted(picture: nat, force: bool) | Refused(picture: nat)

  datatype State = State(
    pending: Option<Waiting>,    // the slot: the newest picture, replaced by a newer one
    last: Option<nat>,           // the picture a replay would encode again
    busy: bool,                  // guarded by the encoder's lock
    keyframe: bool,              // guarded by the encoder's lock
    outstanding: nat,            // samples the encoder has not answered
    posting: nat,                // callbacks that cleared `busy` and have not queued their completion
    queued: nat,                 // completions waiting for the queue
    phase: Phase,
    asked: bool,                 // a viewer's keyframe request is open
    log: seq<Outcome>)

  ghost predicate Init(s: State) {
    && s.pending == None && s.last == None && !s.busy && s.keyframe
    && s.outstanding == 0 && s.posting == 0 && s.queued == 0 && s.phase == Idle && !s.asked && s.log == []
  }

  // ----- Steps of the queue's thread inside `submit` -----

  function Refuse(s: State): State
    requires s.pending.Some?
  {
    s.(pending := None, phase := Idle, asked := false, log := s.log + [Refused(s.pending.value.picture)])
  }

  ghost predicate CheckBusy(s: State, t: State) {
    s.phase == Submitting && t == s.(phase := if s.busy then Idle else Free)
  }

  /** An unread picture is read, which makes it the last one, or cannot be. */
  ghost predicate Read(s: State, t: State) {
    && s.phase == Free && s.pending.Some?
    && (|| t == s.(phase := Loaded, last := if s.pending.value.unread then Some(s.pending.value.picture) else s.last)
        || (s.pending.value.unread && t == Refuse(s)))
  }

  /** `encode` up to the point where it marks the encoder busy. Preparing may fail, or start a new
      session, which asks for a keyframe; `refine` is a quality that forces one. */
  ghost predicate Claim(s: State, t: State) {
    && s.phase == Loaded && s.pending.Some?
    && if s.busy then t == s.(phase := Idle)
       else
         || t == Refuse(s)
         || exists newSession: bool, refine: bool :: ClaimWith(s, t, newSession, refine)
  }

  ghost predicate ClaimWith(s: State, t: State, newSession: bool, refine: bool) {
    var force := s.keyframe || newSession || refine;
    t == s.(busy := true, keyframe := false, phase := Claimed(force), asked := s.asked && !force)
  }

  /** The hardware encoder takes the sample, or refuses it and the claim is undone. */
  ghost predicate HandOver(s: State, t: State) {
    && s.phase.Claimed? && s.pending.Some?
    && (|| t == s.(outstanding := s.outstanding + 1, phase := Accepted(s.phase.force))
        || t == Refuse(s.(busy := false, keyframe := true)))
  }

  ghost predicate Return(s: State, t: State) {
    && s.phase.Accepted? && s.pending.Some?
    && t == s.(pending := None, phase := Idle, log := s.log + [Submitted(s.pending.value.picture, s.phase.force)])
  }

  // ----- Steps of the encoder's thread -----

  /** An encoder error asks for a keyframe before the sample is given back. */
  ghost predicate CallbackError(s: State, t: State) {
    s.outstanding > 0 && t == s.(keyframe := true)
  }

  ghost predicate CallbackClear(s: State, t: State) {
    s.outstanding > 0 && t == s.(outstanding := s.outstanding - 1, busy := false, posting := s.posting + 1)
  }

  ghost predicate CallbackPost(s: State, t: State) {
    s.posting > 0 && t == s.(posting := s.posting - 1, queued := s.queued + 1)
  }

  /** The queue runs a completion: the waiting picture, if any, is tried again. */
  ghost predicate Complete(s: State, t: State) {
    && s.phase == Idle && s.queued > 0
    && t == s.(queued := s.queued - 1, phase := if s.pending.Some? then Submitting else Idle)
  }

  ghost predicate CoreStep(s: State, t: State) {
    || CheckBusy(s, t) || Read(s, t) || Claim(s, t) || HandOver(s, t) || Return(s, t)
    || CallbackError(s, t) || CallbackClear(s, t) || CallbackPost(s, t) || Complete(s, t)
  }

  function Offer(s: State, w: Waiting): State {
    s.(pending := Some(w), phase := Submitting)
  }

  // ----- The transcoder -----

  /** A decoded picture. */
  ghost predicate NewPicture(s: State, t: State, p: nat) {
    s.phase == Idle && t == Offer(s.(last := Some(p)), Waiting(p, false))
  }

  /** The last picture again, for a new size. */
  ghost predicate Replay(s: State, t: State) {
    s.phase == Idle && t == if s.last.Some? then Offer(s, Waiting(s.last.value, false)) else s
  }

  ghost predicate TranscodeKeyframe(s: State, t: State) {
    && s.phase == Idle
    && t == if s.last.Some? then Offer(s.(keyframe := true, asked := true), Waiting(s.last.value, false))
            else s.(keyframe := true)
  }

  /** A failed decode or a new decoder asks for a keyframe and offers nothing. */
  ghost predicate RequestOnly(s: State, t: State) {
    s.phase == Idle && t == s.(keyframe := true)
  }

  ghost predicate TranscodeStep(s: State, t: State) {
    || CoreStep(s, t) || Replay(s, t) || TranscodeKeyframe(s, t) || RequestOnly(s, t)
    || exists p: nat :: NewPicture(s, t, p)
  }

  // ----- The frame-file encoder -----

  ghost predicate NewFrame(s: State, t: State, p: nat) {
    s.phase == Idle && t == Offer(s, Waiting(p, true))
  }

  /** The last picture read goes in again unless a picture waits already. */
  ghost predicate FrameFileKeyframe(s: State, t: State) {
    && s.phase == Idle
    && t == if s.pending.Some? then s.(keyframe := true, asked := true)
            else if s.last.Some? then Offer(s.(keyframe := true, asked := true), Waiting(s.last.value, false))
            else s.(keyframe := true)
  }

  ghost predicate FrameFileStep(s: State, t: State) {
    CoreStep(s, t) || FrameFileKeyframe(s, t) || exists p: nat :: NewFrame(s, t, p)
  }

  // ----- What every step keeps -----

  /** One sample at a time; `busy` says whether there is one. */
  ghost predicate OneSample(s: State) {
    && s.outstanding <= 1
    && (s.busy <==> s.outstanding == 1 || s.phase.Claimed?)
    && (s.phase.Claimed? ==> s.outstanding == 0)
    && (s.phase == Free || s.phase == Loaded ==> !s.busy)
  }

  /** A waiting picture is on its way: being tried, or the encoder will answer. */
  ghost predicate NeverForgotten(s: State) {
    && (s.pending.Some? ==> s.phase != Idle || s.busy || s.posting > 0 || s.queued > 0)
    && (s.phase != Idle ==> s.pending.Some?)
  }

  /** An open keyframe request has both the flag and a picture to carry it. */
  ghost predicate NotStranded(s: State) {
    s.asked ==> s.keyframe && s.pending.Some? && !s.phase.Claimed? && !s.phase.Accepted?
  }

  ghost predicate Inv(s: State) {
    OneSample(s) && NeverForgotten(s) && NotStranded(s)
  }

  /** What waits in the transcoder is the last picture, and a last picture that does not wait was the
      last to be submitted or refused. */
  ghost predicate WaitsLast(s: State) {
    && (s.pending.Some? ==> !s.pending.value.unread && s.last == Some(s.pending.value.picture))
    && (s.pending.None? && s.last.Some? ==> s.log != [] && s.log[|s.log| - 1].picture == s.last.value)
  }

  lemma CoreKeeps(s: State, t: State)
    requires Inv(s) && CoreStep(s, t)
    ensures Inv(t)
    ensures WaitsLast(s) ==> WaitsLast(t)
  {
  }

  lemma TranscodeKeeps(s: State, t: State)
    requires Inv(s) && WaitsLast(s) && TranscodeStep(s, t)
    ensures Inv(t) && WaitsLast(t)
  {
    if CoreStep(s, t) { CoreKeeps(s, t); }
  }

  lemma FrameFileKeeps(s: State, t: State)
    requires Inv(s) && FrameFileStep(s, t)
    ensures Inv(t)
  {
    if CoreStep(s, t) { CoreKeeps(s, t); }
  }

  lemma InitKeeps(s: State)
    requires Init(s)
    ensures Inv(s) && WaitsLast(s)
  {
  }

  // ----- Whole runs -----

  ghost predicate TranscodeRun(run: seq<State>) {
    run != [] && Init(run[0]) && forall i :: 0 <= i < |run| - 1 ==> TranscodeStep(run[i], run[i + 1])
  }

  ghost predicate FrameFileRun(run: seq<State>) {
    run != [] && Init(run[0]) && forall i :: 0 <= i < |run| - 1 ==> FrameFileStep(run[i], run[i + 1])
  }

  /** Nothing is being done and nothing is about to be. */
  ghost predicate AtRest(s: State) {
    s.phase == Idle && !s.busy && s.posting == 0 && s.queued == 0
  }

  lemma {:induction false} TranscodeRunKeeps(run: seq<State>, n: nat)
    requires TranscodeRun(run) && n < |run|
    ensures Inv(run[n]) && WaitsLast(run[n])
  {
    hide Inv; hide WaitsLast; hide TranscodeStep;
    if n == 0 {
      InitKeeps(run[0]);
    } else {
      TranscodeRunKeeps(run, n - 1);
      assert TranscodeStep(run[n - 1], run[n - 1 + 1]);
      TranscodeKeeps(run[n - 1], run[n]);
    }
  }

  lemma {:induction false} FrameFileRunKeeps(run: seq<State>, n: nat)
    requires FrameFileRun(run) && n < |run|
    ensures Inv(run[n])
  {
    hide Inv; hide FrameFileStep;
    if n == 0 {
      InitKeeps(run[0]);
    } else {
      FrameFileRunKeeps(run, n - 1);
      assert FrameFileStep(run[n - 1], run[n - 1 + 1]);
      FrameFileKeeps(run[n - 1], run[n]);
    }
  }

  /** In every interleaving, at most one sample is out, a waiting picture is the last one and is on
      its way, and once everything is at rest the last picture was submitted or refused. */
  lemma LastPictureIsNeverLost(run: seq<State>, n: nat)
    requires TranscodeRun(run) && n < |run|
    ensures var s := run[n];
            && s.outstanding <= 1
            && (s.pending.Some? ==>
                s.last == Some(s.pending.value.picture) && (s.phase != Idle || s.busy || s.posting > 0 || s.queued > 0))
            && (AtRest(s) && s.last.Some? ==>
                s.pending.None? && s.log != [] && s.log[|s.log| - 1].picture == s.last.value)
  {
    TranscodeRunKeeps(run, n);
  }

  /** A picture waits, or something was submitted or refused since the log had `since` entries. */
  ghost predicate Moving(s: State, since: nat) {
    since <= |s.log| && s.last.Some? && (s.pending.Some? || since < |s.log|)
  }

  lemma MovingStep(s: State, t: State, since: nat)
    requires Inv(s) && WaitsLast(s) && Moving(s, since) && TranscodeStep(s, t)
    ensures Moving(t, since)
  {
  }

  /** A new size, or a request for a keyframe, encodes the last picture again: in every interleaving
      after it, something is submitted or refused before all is at rest, and the last that was is the
      last picture. */
  lemma {:induction false} LastPictureGoesInAgain(run: seq<State>, m: nat, n: nat)
    requires TranscodeRun(run) && m < n < |run| && run[m].last.Some?
    requires Replay(run[m], run[m + 1]) || TranscodeKeyframe(run[m], run[m + 1])
    ensures Moving(run[n], |run[m].log|)
    ensures AtRest(run[n]) ==>
              |run[m].log| < |run[n].log| && run[n].log[|run[n].log| - 1].picture == run[n].last.value
    decreases n
  {
    hide TranscodeStep;
    TranscodeRunKeeps(run, n);
    if n > m + 1 {
      LastPictureGoesInAgain(run, m, n - 1);
      TranscodeRunKeeps(run, n - 1);
      assert TranscodeStep(run[n - 1], run[n - 1 + 1]);
      MovingStep(run[n - 1], run[n], |run[m].log|);
    }
  }

  /** Frame `p`, the newest since the log had `since` entries, waits or was submitted or refused. */
  ghost predicate Accounted(s: State, since: nat, p: nat) {
    || (s.pending.Some? && s.pending.value.picture == p)
    || exists i :: since <= i < |s.log| && s.log[i].picture == p
  }

  lemma AccountedStep(s: State, t: State, since: nat, p: nat)
    requires Inv(s) && Accounted(s, since, p) && since <= |s.log| && (CoreStep(s, t) || FrameFileKeyframe(s, t))
    ensures Accounted(t, since, p) && since <= |t.log|
  {
    assert |s.log| <= |t.log| && t.log[..|s.log|] == s.log;
    forall i | 0 <= i < |s.log| ensures t.log[i] == s.log[i] { assert t.log[i] == t.log[..|s.log|][i]; }
    if t.log != s.log {
      assert t.log[|s.log|].picture == s.pending.value.picture;
    }
  }

  /** A frame that no newer one followed. */
  ghost predicate NewestFrame(run: seq<State>, m: nat, n: nat, p: nat) {
    && m < n < |run| && NewFrame(run[m], run[m + 1], p)
    && forall i :: m < i < n ==> CoreStep(run[i], run[i + 1]) || FrameFileKeyframe(run[i], run[i + 1])
  }

  /** In the frame-file encoder the newest frame waits on its way until it is submitted or refused, and
      at rest it has been, though it becomes the last picture only when it is read. */
  lemma {:induction false} NewestFrameIsNeverLost(run: seq<State>, m: nat, n: nat, p: nat)
    requires FrameFileRun(run) && NewestFrame(run, m, n, p)
    ensures |run[m].log| <= |run[n].log| && Accounted(run[n], |run[m].log|, p)
    ensures AtRest(run[n]) ==> exists i :: |run[m].log| <= i < |run[n].log| && run[n].log[i].picture == p
    decreases n
  {
    hide CoreStep; hide FrameFileStep; hide FrameFileKeyframe;
    FrameFileRunKeeps(run, n);
    if n > m + 1 {
      NewestFrameIsNeverLost(run, m, n - 1, p);
      FrameFileRunKeeps(run, n - 1);
      assert CoreStep(run[n - 1], run[n - 1 + 1]) || FrameFileKeyframe(run[n - 1], run[n - 1 + 1]);
      AccountedStep(run[n - 1], run[n], |run[m].log|, p);
    }
  }

  /** An open keyframe request keeps its flag and its picture until a submission carries the flag or
      something is refused; at rest no request is open. */
  lemma KeyframeIsNeverStranded(run: seq<State>, n: nat)
    requires (TranscodeRun(run) || FrameFileRun(run)) && n < |run|
    ensures var s := run[n];
            && (s.asked ==> s.keyframe && s.pending.Some?)
            && (AtRest(s) ==> !s.asked)
            && (s.asked && n + 1 < |run| && !run[n + 1].asked ==>
                  || run[n + 1].phase == Claimed(true)
                  || (run[n + 1].log == s.log + [Refused(s.pending.value.picture)]))
  {
    if TranscodeRun(run) { TranscodeRunKeeps(run, n); } else { FrameFileRunKeeps(run, n); }
    if n + 1 < |run| {
      var s, t := run[n], run[n + 1];
      assert TranscodeRun(run) ==> TranscodeStep(s, t);
      assert FrameFileRun(run) ==> FrameFileStep(s, t);
    }
  }

  // ----- The objects, one call at a time -----

  /** What the machine around a submission does: the shared file, the session, the hardware. */
  datatype Answer =
    | CannotRead
    | CannotPrepare
    | Rejects(newSession: bool, refine: bool)
    | Takes(newSession: bool, refine: bool)

  /** `submit` from its first line to its last when no callback comes in between. */
  ghost function Tried(s: State, a: Answer): State
    requires s.phase == Submitting && s.pending.Some?
  {
    var w := s.pending.value;
    if s.busy then s.(phase := Idle)
    else if w.unread && a.CannotRead? then Refuse(s)
    else
      var l := s.(last := if w.unread then Some(w.picture) else s.last);
      if a.CannotRead? || a.CannotPrepare? then Refuse(l)
      else
        var force := s.keyframe || a.newSession || a.refine;
        if a.Rejects? then Refuse(l.(keyframe := true))
        else
          l.(pending := None, phase := Idle, busy := true, keyframe := false, outstanding := s.outstanding + 1,
             asked := s.asked && !force, log := s.log + [Submitted(w.picture, force)])
  }

  /** One call is a run of the steps above. */
  lemma TriedIsARun(s: State, a: Answer) returns (run: seq<State>)
    requires s.phase == Submitting && s.pending.Some?
    ensures run != [] && run[0] == s && run[|run| - 1] == Tried(s, a)
    ensures forall i :: 0 <= i < |run| - 1 ==> CoreStep(run[i], run[i + 1])
  {
    var w := s.pending.value;
    var free := s.(phase := if s.busy then Idle else Free);
    assert CoreStep(s, free);
    if s.busy {
      run := [s, free];
    } else if w.unread && a.CannotRead? {
      run := [s, free, Refuse(free)];
    } else {
      var loaded := free.(phase := Loaded, last := if w.unread then Some(w.picture) else s.last);
      assert CoreStep(free, loaded);
      if a.CannotRead? || a.CannotPrepare? {
        run := [s, free, loaded, Refuse(loaded)];
      } else {
        var rest := EncodeRun(loaded, a);
        hide CoreStep;
        run := [s, free] + rest;
        forall i | 0 <= i < |run| - 1 ensures CoreStep(run[i], run[i + 1]) {
          if i >= 2 { assert run[i] == rest[i - 2] && run[i + 1] == rest[i - 2 + 1]; }
        }
      }
    }
  }

  /** The part of a call that has the picture at hand and prepares the encoder. */
  lemma EncodeRun(s: State, a: Answer) returns (run: seq<State>)
    requires s.phase == Loaded && s.pending.Some? && !s.busy && (a.Rejects? || a.Takes?)
    ensures |run| > 1 && run[0] == s
    ensures var force := s.keyframe || a.newSession || a.refine;
            run[|run| - 1] ==
            if a.Rejects? then Refuse(s.(keyframe := true))
            else s.(pending := None, phase := Idle, busy := true, keyframe := false, outstanding := s.outstanding + 1,
                    asked := s.asked && !force, log := s.log + [Submitted(s.pending.value.picture, force)])
    ensures forall i :: 0 <= i < |run| - 1 ==> CoreStep(run[i], run[i + 1])
  {
    var force := s.keyframe || a.newSession || a.refine;
    var claimed := s.(busy := true, keyframe := false, phase := Claimed(force), asked := s.asked && !force);
    assert ClaimWith(s, claimed, a.newSession, a.refine);
    if a.Rejects? {
      var refused := Refuse(claimed.(busy := false, keyframe := true));
      assert HandOver(claimed, refused);
      run := [s, claimed, refused];
    } else {
      var accepted := claimed.(outstanding := s.outstanding + 1, phase := Accepted(force));
      assert HandOver(claimed, accepted);
      var done := accepted.(pending := None, phase := Idle, log := s.log + [Submitted(s.pending.value.picture, force)]);
      assert Return(accepted, done);
      run := [s, claimed, accepted, done];
    }
  }

  /** The transcoder's picture slot and its encoder's flags. */
  class Transcoder {
    var pending: Option<Waiting>
    var last: Option<nat>
    var busy: bool
    var keyframe: bool
    ghost var state: State

    ghost predicate Valid()
      reads this
    {
      && state.pending == pending && state.last == last && state.busy == busy && state.keyframe == keyframe
      && state.phase == Idle && Inv(state) && WaitsLast(state)
    }

    constructor ()
      ensures Valid() && Init(state)
    {
      pending, last, busy, keyframe := None, None, false, true;
      state := State(None, None, false, true, 0, 0, 0, Idle, false, []);
    }

    /** Tries the waiting picture, if there is one. */
    method Submit(a: Answer)
      requires state.pending == pending && state.last == last && state.busy == busy && state.keyframe == keyframe
      requires Inv(state) && WaitsLast(state) && state.phase == if pending.Some? then Submitting else Idle
      modifies this
      ensures Valid()
      ensures state == if old(pending).Some? then Tried(old(state), a) else old(state)
    {
      if pending.None? { return; }
      ghost var run := TriedIsARun(state, a);
      RunOfCore(run);
      ghost var next := Tried(state, a);
      if busy {
      } else if a.CannotRead? || a.CannotPrepare? {
        pending := None;
      } else if a.Rejects? {
        keyframe := true;
        pending := None;
      } else {
        keyframe := false;
        busy := true;
        pending := None;
      }
      state := next;
    }

    /** A decoded picture from the stream. */
    method Picture(p: nat, a: Answer)
      requires Valid()
      modifies this
      ensures Valid() && state == Tried(Offer(old(state).(last := Some(p)), Waiting(p, false)), a)
    {
      last := Some(p);
      pending := Some(Waiting(p, false));
      assert NewPicture(state, Offer(state.(last := Some(p)), Waiting(p, false)), p);
      TranscodeKeeps(state, Offer(state.(last := Some(p)), Waiting(p, false)));
      state := Offer(state.(last := Some(p)), Waiting(p, false));
      Submit(a);
    }

    /** A viewer asks for a keyframe: the last picture goes in again to carry it. */
    method Keyframe(a: Answer)
      requires Valid()
      modifies this
      ensures Valid()
      ensures old(last).None? ==> state == old(state).(keyframe := true)
      ensures old(last).Some? ==>
                state == Tried(Offer(old(state).(keyframe := true, asked := true), Waiting(old(last).value, false)), a)
    {
      keyframe := true;
      if last.Some? {
        pending := Some(Waiting(last.value, false));
        ghost var next := Offer(state.(keyframe := true, asked := true), Waiting(last.value, false));
        assert TranscodeKeyframe(state, next);
        TranscodeKeeps(state, next);
        state := next;
        Submit(a);
      } else {
        state := state.(keyframe := true);
      }
    }

    /** The encoder answered and the queue runs the completion. */
    method Completed(a: Answer)
      requires Valid() && state.queued > 0
      modifies this
      ensures Valid()
      ensures var s := old(state).(queued := old(state).queued - 1);
              state == if old(pending).Some? then Tried(s.(phase := Submitting), a) else s
    {
      ghost var next := state.(queued := state.queued - 1, phase := if pending.Some? then Submitting else Idle);
      assert Complete(state, next);
      CoreKeeps(state, next);
      state := next;
      Submit(a);
    }

    /** The encoder's callback, on its own thread: an error asks for a keyframe, the sample is given
        back, and a completion is queued. */
    method Answered(error: bool)
      requires Valid() && state.outstanding > 0
      modifies this
      ensures Valid()
      ensures state == old(state).(keyframe := old(keyframe) || error, busy := false,
                                   outstanding := old(state).outstanding - 1, queued := old(state).queued + 1)
    {
      if error { keyframe := true; }
      ghost var flagged := state.(keyframe := keyframe);
      if error { assert CallbackError(state, flagged); CoreKeeps(state, flagged); }
      ghost var cleared := flagged.(outstanding := flagged.outstanding - 1, busy := false,
                                    posting := flagged.posting + 1);
      assert CallbackClear(flagged, cleared);
      CoreKeeps(flagged, cleared);
      ghost var posted := cleared.(posting := cleared.posting - 1, queued := cleared.queued + 1);
      assert CallbackPost(cleared, posted);
      CoreKeeps(cleared, posted);
      busy := false;
      state := posted;
    }
  }

  lemma {:induction false} RunOfCore(run: seq<State>)
    requires run != [] && Inv(run[0]) && WaitsLast(run[0])
    requires forall i :: 0 <= i < |run| - 1 ==> CoreStep(run[i], run[i + 1])
    ensures Inv(run[|run| - 1]) && WaitsLast(run[|run| - 1])
    decreases |run|
  {
    hide Inv; hide WaitsLast; hide CoreStep;
    if |run| > 1 {
      assert CoreStep(run[0], run[0 + 1]);
      CoreKeeps(run[0], run[1]);
      var rest := run[1..];
      forall i | 0 <= i < |rest| - 1 ensures CoreStep(rest[i], rest[i + 1]) {
        assert CoreStep(run[i + 1], run[i + 1 + 1]);
      }
      RunOfCore(rest);
    }
  }
}
