/**
 * The frame loop shared by the text-entry scenes:
 *
 *   while not done:
 *     for event in <the events polled this frame>: <handle event>
 *
 * A window-close event ends the program on the spot. A key press is handed
 * to the scene's step, which gives the new state and, when the key is
 * logged, the key name and note for `record_event`. The inner loop does
 * NOT stop once the step has set `done`: events polled in the same frame
 * after the confirming key are still handled (`stopAtDone == false`).
 * `stopAtDone == true` is the evidently intended loop that breaks out as
 * soon as the scene is done; it is kept beside the scripts' loop so that
 * the difference can be stated and proved.
 */
module Scene {
  import opened Wrappers
  import opened Input
  import opened KeyLog
  import opened Seqs

  /** What a step asks `record_event` to log: the key name and the note. */
  datatype Rec = Rec(key: string, note: string)

  /** A scene's reaction to one key press, given the clock reading when it is handled. */
  type Step<!S> = (S, Key, int) -> (S, Option<Rec>)

  /** The state after one frame's events, what they logged, and whether the window was closed. */
  datatype BatchResult<S> = BatchResult(state: S, logged: seq<Keystroke>, quit: bool)

  /** How a scene ends: confirmed, the program ended by a window close, or still waiting when the frames run out. */
  datatype Status = Finished | Aborted | Waiting

  /** A scene's status, its state at that point, and every key it logged, in order. */
  datatype Run<S> = Run(status: Status, state: S, logged: seq<Keystroke>)

  function Logged(rec: Option<Rec>, rt: int, stamp: string): seq<Keystroke> {
    match rec
    case None => []
    case Some(r) => [Keystroke(r.key, rt, r.note, stamp)]
  }

  /** One frame's events, handled in order from the scene's state `st`; `start` is the scene's start time. */
  function RunBatch<S>(stopAtDone: bool, step: Step<S>, isDone: S -> bool, start: int, st: S, events: Batch): BatchResult<S>
    decreases |events|
  {
    if events == [] then BatchResult(st, [], false)
    else match events[0]
      case Quit => BatchResult(st, [], true)
      case NotKey => RunBatch(stopAtDone, step, isDone, start, st, events[1..])
      case KeyDown(k, ticks, stamp) =>
        var (st', rec) := step(st, k, ticks);
        var rest := if stopAtDone && isDone(st') then BatchResult(st', [], false)
                    else RunBatch(stopAtDone, step, isDone, start, st', events[1..]);
        rest.(logged := Logged(rec, ticks - start, stamp) + rest.logged)
  }

  function Prepend<S>(ks: seq<Keystroke>, r: Run<S>): Run<S> {
    r.(logged := ks + r.logged)
  }

  /** The scene's loop over successive frames. */
  function RunFrames<S>(stopAtDone: bool, step: Step<S>, isDone: S -> bool, start: int, st: S, frames: seq<Batch>): Run<S>
    decreases |frames|
  {
    if isDone(st) then Run(Finished, st, [])
    else if frames == [] then Run(Waiting, st, [])
    else
      var b := RunBatch(stopAtDone, step, isDone, start, st, frames[0]);
      if b.quit then Run(Aborted, b.state, b.logged)
      else Prepend(b.logged, RunFrames(stopAtDone, step, isDone, start, b.state, frames[1..]))
  }

  function PrependBatch<S>(ks: seq<Keystroke>, b: BatchResult<S>): BatchResult<S> {
    b.(logged := ks + b.logged)
  }

  /** One event of the scripts' loop, unfolded. */
  lemma BatchKeyDown<S>(step: Step<S>, isDone: S -> bool, start: int, st: S, events: Batch)
    requires events != [] && events[0].KeyDown?
    ensures var e := events[0];
      var r := step(st, e.key, e.ticks);
      RunBatch(false, step, isDone, start, st, events)
        == PrependBatch(Logged(r.1, e.ticks - start, e.stamp), RunBatch(false, step, isDone, start, r.0, events[1..]))
  {
  }

  /** A window close ends the batch where it stands. */
  lemma BatchQuit<S>(stopAtDone: bool, step: Step<S>, isDone: S -> bool, start: int, st: S, events: Batch)
    requires events != [] && events[0].Quit?
    ensures RunBatch(stopAtDone, step, isDone, start, st, events) == BatchResult(st, [], true)
  {
  }

  /** The log after more keys are logged holds the entries of the accumulated keys followed by theirs. */
  lemma LogGrows(withSubjectId: bool, scene: string, initial: seq<Entry>, before: seq<Entry>, after: seq<Entry>, acc: seq<Keystroke>, ks: seq<Keystroke>)
    requires before == initial + MakeEntries(withSubjectId, scene, acc)
    requires after == before + MakeEntries(withSubjectId, scene, ks)
    ensures after == initial + MakeEntries(withSubjectId, scene, acc + ks)
  {
    MakeEntriesAppend(withSubjectId, scene, acc, ks);
    AppendAssoc(initial, MakeEntries(withSubjectId, scene, acc), MakeEntries(withSubjectId, scene, ks));
  }

  /** Handling one more event that is not a window close moves what it logs into the accumulated prefix. */
  lemma BatchAdvance<S>(stopAtDone: bool, step: Step<S>, isDone: S -> bool, start: int, st: S, events: Batch, i: nat, acc: seq<Keystroke>)
    requires i < |events| && !events[i].Quit?
    ensures var e := events[i];
      PrependBatch(acc, RunBatch(stopAtDone, step, isDone, start, st, events[i..]))
        == if e.NotKey? then PrependBatch(acc, RunBatch(stopAtDone, step, isDone, start, st, events[i + 1..]))
           else var r := step(st, e.key, e.ticks);
             var ks := acc + Logged(r.1, e.ticks - start, e.stamp);
             if stopAtDone && isDone(r.0) then BatchResult(r.0, ks, false)
             else PrependBatch(ks, RunBatch(stopAtDone, step, isDone, start, r.0, events[i + 1..]))
  {
    var rest := events[i..];
    assert rest[0] == events[i] && rest[1..] == events[i + 1..];
    if events[i].KeyDown? {
      var e := events[i];
      var r := step(st, e.key, e.ticks);
      var ks := Logged(r.1, e.ticks - start, e.stamp);
      if stopAtDone && isDone(r.0) {
        assert (acc + ks) + [] == acc + ks;
      } else {
        var tail := RunBatch(stopAtDone, step, isDone, start, r.0, events[i + 1..]).logged;
        AppendAssoc(acc, ks, tail);
      }
    }
  }

  /** `record_event` for a key the step asks to log; nothing for one it does not. */
  method RecordKey(log: Log, scene: string, rec: Option<Rec>, rt: int, stamp: string)
    modifies log
    ensures log.entries == old(log.entries) + MakeEntries(log.withSubjectId, scene, Logged(rec, rt, stamp))
  {
    var ks := Logged(rec, rt, stamp);
    if rec.Some? {
      log.Record(scene, ks[0]);
      assert MakeEntries(log.withSubjectId, scene, ks) == [MakeEntry(log.withSubjectId, scene, ks[0])];
    } else {
      assert log.entries == old(log.entries) + MakeEntries(log.withSubjectId, scene, ks);
    }
  }

  /**
   * The scripts' inner `for event in pygame.event.get()` loop
   * (`stopAtDone == false`), or the corrected one that breaks out once the
   * scene is done.
   */
  method ProcessBatch<S>(stopAtDone: bool, log: Log, scene: string, step: Step<S>, isDone: S -> bool, start: int, st0: S, events: Batch)
    returns (r: BatchResult<S>)
    modifies log
    ensures r == RunBatch(stopAtDone, step, isDone, start, st0, events)
    ensures log.entries == old(log.entries) + MakeEntries(log.withSubjectId, scene, r.logged)
  {
    var st := st0;
    var i := 0;
    var acc: seq<Keystroke> := [];
    while i < |events|
      invariant 0 <= i <= |events|
      invariant RunBatch(stopAtDone, step, isDone, start, st0, events) == PrependBatch(acc, RunBatch(stopAtDone, step, isDone, start, st, events[i..]))
      invariant log.entries == old(log.entries) + MakeEntries(log.withSubjectId, scene, acc)
    {
      match events[i] {
        case Quit =>
          BatchQuit(stopAtDone, step, isDone, start, st, events[i..]);
          return BatchResult(st, acc, true);
        case NotKey =>
          BatchAdvance(stopAtDone, step, isDone, start, st, events, i, acc);
        case KeyDown(k, ticks, stamp) =>
          BatchAdvance(stopAtDone, step, isDone, start, st, events, i, acc);
          var sr := step(st, k, ticks);
          var ks := Logged(sr.1, ticks - start, stamp);
          ghost var before := log.entries;
          RecordKey(log, scene, sr.1, ticks - start, stamp);
          LogGrows(log.withSubjectId, scene, old(log.entries), before, log.entries, acc, ks);
          acc := acc + ks;
          st := sr.0;
          if stopAtDone && isDone(st) {
            return BatchResult(st, acc, false);
          }
      }
      i := i + 1;
    }
    assert events[i..] == [];
    r := BatchResult(st, acc, false);
  }

  /** One frame of a scene that is not yet done, unfolded. */
  lemma FramesStep<S>(stopAtDone: bool, step: Step<S>, isDone: S -> bool, start: int, st: S, frames: seq<Batch>)
    requires !isDone(st) && frames != []
    ensures var b := RunBatch(stopAtDone, step, isDone, start, st, frames[0]);
      RunFrames(stopAtDone, step, isDone, start, st, frames)
        == if b.quit then Run(Aborted, b.state, b.logged) else Prepend(b.logged, RunFrames(stopAtDone, step, isDone, start, b.state, frames[1..]))
  {
  }

  /** Handling one more frame moves its logged keys into the accumulated prefix. */
  lemma FramesAdvance<S>(stopAtDone: bool, step: Step<S>, isDone: S -> bool, start: int, st: S, frames: seq<Batch>, i: nat, acc: seq<Keystroke>)
    requires i < |frames| && !isDone(st)
    ensures var b := RunBatch(stopAtDone, step, isDone, start, st, frames[i]);
      Prepend(acc, RunFrames(stopAtDone, step, isDone, start, st, frames[i..]))
        == if b.quit then Run(Aborted, b.state, acc + b.logged)
           else Prepend(acc + b.logged, RunFrames(stopAtDone, step, isDone, start, b.state, frames[i + 1..]))
  {
    var rest := frames[i..];
    assert rest[0] == frames[i] && rest[1..] == frames[i + 1..];
    FramesStep(stopAtDone, step, isDone, start, st, rest);
  }

  /** The scripts' `while not done` loop, one batch of events per frame, over either inner loop. */
  method RunScene<S>(stopAtDone: bool, log: Log, scene: string, step: Step<S>, isDone: S -> bool, start: int, st0: S, frames: seq<Batch>)
    returns (r: Run<S>)
    modifies log
    ensures r == RunFrames(stopAtDone, step, isDone, start, st0, frames)
    ensures log.entries == old(log.entries) + MakeEntries(log.withSubjectId, scene, r.logged)
  {
    var st := st0;
    var i := 0;
    var acc: seq<Keystroke> := [];
    while !isDone(st) && i < |frames|
      invariant 0 <= i <= |frames|
      invariant RunFrames(stopAtDone, step, isDone, start, st0, frames) == Prepend(acc, RunFrames(stopAtDone, step, isDone, start, st, frames[i..]))
      invariant log.entries == old(log.entries) + MakeEntries(log.withSubjectId, scene, acc)
    {
      ghost var before := log.entries;
      var b := ProcessBatch(stopAtDone, log, scene, step, isDone, start, st, frames[i]);
      FramesAdvance(stopAtDone, step, isDone, start, st, frames, i, acc);
      LogGrows(log.withSubjectId, scene, old(log.entries), before, log.entries, acc, b.logged);
      if b.quit {
        return Run(Aborted, b.state, acc + b.logged);
      }
      acc := acc + b.logged;
      st := b.state;
      i := i + 1;
    }
    assert frames[i..] == [] || isDone(st);
    if isDone(st) {
      r := Run(Finished, st, acc);
    } else {
      r := Run(Waiting, st, acc);
    }
  }

  /** A property every key press preserves holds after any batch, under either loop. */
  lemma {:induction false} BatchKeeps<S>(stopAtDone: bool, step: Step<S>, isDone: S -> bool, inv: S -> bool, start: int, st: S, events: Batch)
    requires forall s, k, t | inv(s) :: inv(step(s, k, t).0)
    requires inv(st)
    ensures inv(RunBatch(stopAtDone, step, isDone, start, st, events).state)
    decreases |events|
  {
    if events != [] && events[0].NotKey? {
      BatchKeeps(stopAtDone, step, isDone, inv, start, st, events[1..]);
    } else if events != [] && events[0].KeyDown? {
      var st' := step(st, events[0].key, events[0].ticks).0;
      BatchKeeps(stopAtDone, step, isDone, inv, start, st', events[1..]);
    }
  }

  /** ... and over any number of frames: a scene that ends or waits is in a state with the property. */
  lemma {:induction false} FramesKeep<S>(stopAtDone: bool, step: Step<S>, isDone: S -> bool, inv: S -> bool, start: int, st: S, frames: seq<Batch>)
    requires forall s, k, t | inv(s) :: inv(step(s, k, t).0)
    requires inv(st)
    ensures var r := RunFrames(stopAtDone, step, isDone, start, st, frames); r.status != Aborted ==> inv(r.state)
    decreases |frames|
  {
    if !isDone(st) && frames != [] {
      BatchKeeps(stopAtDone, step, isDone, inv, start, st, frames[0]);
      var b := RunBatch(stopAtDone, step, isDone, start, st, frames[0]);
      FramesKeep(stopAtDone, step, isDone, inv, start, b.state, frames[1..]);
    }
  }

  /** A scene finishes only in a done state and waits only in a state that is not done. */
  lemma {:induction false} FinishedOnlyWhenDone<S>(stopAtDone: bool, step: Step<S>, isDone: S -> bool, start: int, st: S, frames: seq<Batch>)
    ensures var r := RunFrames(stopAtDone, step, isDone, start, st, frames);
      (r.status == Finished ==> isDone(r.state)) && (r.status == Waiting ==> !isDone(r.state))
    decreases |frames|
  {
    if !isDone(st) && frames != [] {
      var b := RunBatch(stopAtDone, step, isDone, start, st, frames[0]);
      FinishedOnlyWhenDone(stopAtDone, step, isDone, start, b.state, frames[1..]);
    }
  }

  /**
   * With the corrected loop, a batch that makes the scene done ends in the
   * very state in which the step made it done, so whatever the step
   * guarantees of the states it makes done holds of the result.
   */
  lemma {:induction false} StoppingBatchReachesGoal<S>(step: Step<S>, isDone: S -> bool, goal: S -> bool, start: int, st: S, events: Batch)
    requires forall s, k, t | !isDone(s) && isDone(step(s, k, t).0) :: goal(step(s, k, t).0)
    requires !isDone(st)
    ensures var b := RunBatch(true, step, isDone, start, st, events); isDone(b.state) && !b.quit ==> goal(b.state)
    decreases |events|
  {
    if events != [] && events[0].NotKey? {
      StoppingBatchReachesGoal(step, isDone, goal, start, st, events[1..]);
    } else if events != [] && events[0].KeyDown? {
      var st' := step(st, events[0].key, events[0].ticks).0;
      if !isDone(st') {
        StoppingBatchReachesGoal(step, isDone, goal, start, st', events[1..]);
      }
    }
  }

  /** ... and so does every scene run with the corrected loop that finishes. */
  lemma {:induction false} StoppingFramesReachGoal<S>(step: Step<S>, isDone: S -> bool, goal: S -> bool, start: int, st: S, frames: seq<Batch>)
    requires forall s, k, t | !isDone(s) && isDone(step(s, k, t).0) :: goal(step(s, k, t).0)
    requires !isDone(st)
    ensures var r := RunFrames(true, step, isDone, start, st, frames); r.status == Finished ==> goal(r.state)
    decreases |frames|
  {
    if frames != [] {
      StoppingBatchReachesGoal(step, isDone, goal, start, st, frames[0]);
      var b := RunBatch(true, step, isDone, start, st, frames[0]);
      if !b.quit && !isDone(b.state) {
        StoppingFramesReachGoal(step, isDone, goal, start, b.state, frames[1..]);
      }
    }
  }

  /**
   * No event of the batch, handled from `st` by the scripts' loop, follows
   * the key press that makes the scene done (a window close ends the batch
   * under both loops).
   */
  predicate NothingAfterDone<S>(step: Step<S>, isDone: S -> bool, st: S, events: Batch)
    decreases |events|
  {
    events == [] ||
      match events[0]
      case Quit => true
      case NotKey => NothingAfterDone(step, isDone, st, events[1..])
      case KeyDown(k, ticks, _) =>
        var st' := step(st, k, ticks).0;
        if isDone(st') then |events| == 1 else NothingAfterDone(step, isDone, st', events[1..])
  }

  /** ... and the same holds of every frame the scene polls before it is done. */
  predicate FramesNothingAfterDone<S>(step: Step<S>, isDone: S -> bool, start: int, st: S, frames: seq<Batch>)
    decreases |frames|
  {
    frames == [] || isDone(st) ||
      (NothingAfterDone(step, isDone, st, frames[0])
       && FramesNothingAfterDone(step, isDone, start, RunBatch(false, step, isDone, start, st, frames[0]).state, frames[1..]))
  }

  /** When nothing follows the key press that makes the scene done, the scripts' loop and the corrected loop handle a batch alike. */
  lemma {:induction false} BatchLoopsAgree<S>(step: Step<S>, isDone: S -> bool, start: int, st: S, events: Batch)
    requires !isDone(st)
    requires NothingAfterDone(step, isDone, st, events)
    ensures RunBatch(false, step, isDone, start, st, events) == RunBatch(true, step, isDone, start, st, events)
    decreases |events|
  {
    if events != [] && events[0].NotKey? {
      BatchLoopsAgree(step, isDone, start, st, events[1..]);
    } else if events != [] && events[0].KeyDown? {
      var st' := step(st, events[0].key, events[0].ticks).0;
      if isDone(st') {
        assert events[1..] == [];
      } else {
        BatchLoopsAgree(step, isDone, start, st', events[1..]);
      }
    }
  }

  /** ... and so they run the whole scene alike when that holds of every frame. */
  lemma {:induction false} FramesLoopsAgree<S>(step: Step<S>, isDone: S -> bool, start: int, st: S, frames: seq<Batch>)
    requires FramesNothingAfterDone(step, isDone, start, st, frames)
    ensures RunFrames(false, step, isDone, start, st, frames) == RunFrames(true, step, isDone, start, st, frames)
    decreases |frames|
  {
    if !isDone(st) && frames != [] {
      BatchLoopsAgree(step, isDone, start, st, frames[0]);
      var b := RunBatch(false, step, isDone, start, st, frames[0]);
      FramesLoopsAgree(step, isDone, start, b.state, frames[1..]);
    }
  }

  /** No event follows a press of `k` in the batch: such a press can only be the batch's last event. */
  predicate KeyEndsBatch(k: Key, events: Batch) {
    forall i | 0 <= i < |events| - 1 :: !(events[i].KeyDown? && events[i].key == k)
  }

  /** When only Return makes a scene done, a batch in which nothing follows a Return has nothing after done. */
  lemma {:induction false} ReturnLastIsEnough<S>(step: Step<S>, isDone: S -> bool, st: S, events: Batch)
    requires forall s, k, t | !isDone(s) && isDone(step(s, k, t).0) :: k == Return
    requires !isDone(st)
    requires KeyEndsBatch(Return, events)
    ensures NothingAfterDone(step, isDone, st, events)
    decreases |events|
  {
    if events != [] && !events[0].Quit? {
      assert KeyEndsBatch(Return, events[1..]) by {
        forall i | 0 <= i < |events[1..]| - 1
          ensures !(events[1..][i].KeyDown? && events[1..][i].key == Return)
        {
          assert events[1..][i] == events[i + 1];
        }
      }
      if events[0].NotKey? {
        ReturnLastIsEnough(step, isDone, st, events[1..]);
      } else {
        var st' := step(st, events[0].key, events[0].ticks).0;
        if !isDone(st') {
          ReturnLastIsEnough(step, isDone, st', events[1..]);
        }
      }
    }
  }

  /** ... and so does a scene whose every frame has that property. */
  lemma {:induction false} FramesReturnLastIsEnough<S>(step: Step<S>, isDone: S -> bool, start: int, st: S, frames: seq<Batch>)
    requires forall s, k, t | !isDone(s) && isDone(step(s, k, t).0) :: k == Return
    requires forall j | 0 <= j < |frames| :: KeyEndsBatch(Return, frames[j])
    ensures FramesNothingAfterDone(step, isDone, start, st, frames)
    decreases |frames|
  {
    if !isDone(st) && frames != [] {
      ReturnLastIsEnough(step, isDone, st, frames[0]);
      var b := RunBatch(false, step, isDone, start, st, frames[0]);
      assert forall j | 0 <= j < |frames[1..]| :: frames[1..][j] == frames[j + 1];
      FramesReturnLastIsEnough(step, isDone, start, b.state, frames[1..]);
    }
  }

  /** The clock readings of the batch's key presses never decrease and none is before `lo`. */
  predicate ClockFrom(lo: int, events: Batch)
    decreases |events|
  {
    events == [] ||
      if events[0].KeyDown? then lo <= events[0].ticks && ClockFrom(events[0].ticks, events[1..])
      else ClockFrom(lo, events[1..])
  }

  /** The last clock reading of a key press in the batch, or `lo` when it has none. */
  function LastTick(lo: int, events: Batch): int
    decreases |events|
  {
    if events == [] then lo
    else if events[0].KeyDown? then LastTick(events[0].ticks, events[1..])
    else LastTick(lo, events[1..])
  }

  /** The clock never goes back, within a frame or from one frame to the next. */
  predicate FramesClockFrom(lo: int, frames: seq<Batch>)
    decreases |frames|
  {
    frames == [] || (ClockFrom(lo, frames[0]) && FramesClockFrom(LastTick(lo, frames[0]), frames[1..]))
  }

  /** Reaction times from `lo` on, never decreasing. */
  predicate RtsFrom(lo: int, ks: seq<Keystroke>) {
    (forall i | 0 <= i < |ks| :: lo <= ks[i].rt)
    && (forall i, j | 0 <= i <= j < |ks| :: ks[i].rt <= ks[j].rt)
  }

  predicate RtsUpTo(hi: int, ks: seq<Keystroke>) {
    forall i | 0 <= i < |ks| :: ks[i].rt <= hi
  }

  lemma {:induction false} LastTickAtLeast(lo: int, events: Batch)
    requires ClockFrom(lo, events)
    ensures lo <= LastTick(lo, events)
    decreases |events|
  {
    if events != [] {
      if events[0].KeyDown? {
        LastTickAtLeast(events[0].ticks, events[1..]);
      } else {
        LastTickAtLeast(lo, events[1..]);
      }
    }
  }

  lemma RtsAppend(lo: int, mid: int, a: seq<Keystroke>, b: seq<Keystroke>)
    requires RtsFrom(lo, a) && RtsUpTo(mid, a) && RtsFrom(mid, b) && lo <= mid
    ensures RtsFrom(lo, a + b)
  {
    var all := a + b;
    forall i, j | 0 <= i <= j < |all| ensures all[i].rt <= all[j].rt {
      if j < |a| {
        assert all[i] == a[i] && all[j] == a[j];
      } else if i >= |a| {
        assert all[i] == b[i - |a|] && all[j] == b[j - |a|];
      } else {
        assert all[i] == a[i] && all[j] == b[j - |a|];
      }
    }
    forall i | 0 <= i < |all| ensures lo <= all[i].rt {
      if i >= |a| {
        assert all[i] == b[i - |a|];
      }
    }
  }

  lemma RtsUpToAppend(hi: int, a: seq<Keystroke>, b: seq<Keystroke>)
    requires RtsUpTo(hi, a) && RtsUpTo(hi, b)
    ensures RtsUpTo(hi, a + b)
  {
    var all := a + b;
    forall i | 0 <= i < |all| ensures all[i].rt <= hi {
      if i >= |a| {
        assert all[i] == b[i - |a|];
      }
    }
  }

  /** A key press handled at `t`, then the rest of the batch from `t` on. */
  lemma KeyRtsOrdered(k: seq<Keystroke>, rest: seq<Keystroke>, lo: int, t: int, hi: int)
    requires |k| <= 1 && (forall i | 0 <= i < |k| :: k[i].rt == t) && lo <= t <= hi
    requires RtsFrom(t, rest) && RtsUpTo(hi, rest)
    ensures RtsFrom(lo, k + rest) && RtsUpTo(hi, k + rest)
  {
    RtsAppend(lo, t, k, rest);
    RtsUpToAppend(hi, k, rest);
  }

  /**
   * With a clock that never goes back, the reaction times a batch logs never
   * decrease, none is before `lo` and none after the batch's last reading,
   * each measured from the scene's start.
   */
  lemma {:induction false} BatchRtsOrdered<S>(stopAtDone: bool, step: Step<S>, isDone: S -> bool, start: int, st: S, events: Batch, lo: int)
    requires ClockFrom(lo, events)
    ensures var ks := RunBatch(stopAtDone, step, isDone, start, st, events).logged;
      RtsFrom(lo - start, ks) && RtsUpTo(LastTick(lo, events) - start, ks)
    decreases |events|
  {
    if events != [] && events[0].NotKey? {
      BatchRtsOrdered(stopAtDone, step, isDone, start, st, events[1..], lo);
    } else if events != [] && events[0].KeyDown? {
      var e := events[0];
      var r := step(st, e.key, e.ticks);
      if !(stopAtDone && isDone(r.0)) {
        BatchRtsOrdered(stopAtDone, step, isDone, start, r.0, events[1..], e.ticks);
      }
      KeyDownRtsOrdered(stopAtDone, step, isDone, start, st, events, lo);
    }
  }

  /** The key-press case of BatchRtsOrdered, given the claim for the rest of the batch. */
  lemma KeyDownRtsOrdered<S>(stopAtDone: bool, step: Step<S>, isDone: S -> bool, start: int, st: S, events: Batch, lo: int)
    requires events != [] && events[0].KeyDown? && ClockFrom(lo, events)
    requires var e := events[0]; var r := step(st, e.key, e.ticks);
      !(stopAtDone && isDone(r.0)) ==>
        var ks := RunBatch(stopAtDone, step, isDone, start, r.0, events[1..]).logged;
        RtsFrom(e.ticks - start, ks) && RtsUpTo(LastTick(e.ticks, events[1..]) - start, ks)
    ensures var ks := RunBatch(stopAtDone, step, isDone, start, st, events).logged;
      RtsFrom(lo - start, ks) && RtsUpTo(LastTick(lo, events) - start, ks)
  {
    var e := events[0];
    var r := step(st, e.key, e.ticks);
    var hi := LastTick(e.ticks, events[1..]);
    assert hi == LastTick(lo, events);
    LastTickAtLeast(e.ticks, events[1..]);
    var rest := if stopAtDone && isDone(r.0) then BatchResult(r.0, [], false)
                else RunBatch(stopAtDone, step, isDone, start, r.0, events[1..]);
    assert RunBatch(stopAtDone, step, isDone, start, st, events).logged == Logged(r.1, e.ticks - start, e.stamp) + rest.logged;
    KeyRtsOrdered(Logged(r.1, e.ticks - start, e.stamp), rest.logged, lo - start, e.ticks - start, hi - start);
  }

  /**
   * With a clock that never goes back from the scene's start on, the
   * reaction times a scene logs are never negative (`lo` is at least the
   * start) and never decrease.
   */
  lemma {:induction false} FramesRtsOrdered<S>(stopAtDone: bool, step: Step<S>, isDone: S -> bool, start: int, st: S, frames: seq<Batch>, lo: int)
    requires start <= lo && FramesClockFrom(lo, frames)
    ensures RtsFrom(lo - start, RunFrames(stopAtDone, step, isDone, start, st, frames).logged)
    decreases |frames|
  {
    if !isDone(st) && frames != [] {
      var b := RunBatch(stopAtDone, step, isDone, start, st, frames[0]);
      var mid := LastTick(lo, frames[0]);
      BatchRtsOrdered(stopAtDone, step, isDone, start, st, frames[0], lo);
      LastTickAtLeast(lo, frames[0]);
      if !b.quit {
        FramesRtsOrdered(stopAtDone, step, isDone, start, b.state, frames[1..], mid);
        var tail := RunFrames(stopAtDone, step, isDone, start, b.state, frames[1..]).logged;
        RtsAppend(lo - start, mid - start, b.logged, tail);
      }
    }
  }
}
