/**
 * The subject-ID entry scene `get_user_input`: letters and digits are typed
 * into a buffer, Backspace erases the last character, and Return confirms
 * a non-empty buffer. Every Return and Backspace is logged, and so is every
 * character that is typed; other keys are ignored and not logged.
 */
module IdEntry {
  import opened Wrappers
  import opened Chars
  import opened Input
  import opened KeyLog
  import opened Scene
  import opened Seqs
  import opened Condition

  const SceneName: string := "ID_Input"

  /** The scene's local variables `text` and `done`. */
  datatype IdState = IdState(text: string, done: bool)

  const Initial: IdState := IdState("", false)

  /** The handling of one key press. */
  function IdKey(st: IdState, k: Key): (IdState, Option<Rec>) {
    match k
    case Return => (st.(done := st.done || |st.text| > 0), Some(Rec("RETURN", "Confirm: " + st.text)))
    case Backspace => (st.(text := DropLast(st.text)), Some(Rec("BACKSPACE", "Delete char")))
    case Char(name, c) =>
      if IsAlnum(c) then (st.(text := st.text + [c]), Some(Rec(name, "Type: " + [c]))) else (st, None)
    case Other => (st, None)
  }

  function IdStep(): Step<IdState> {
    (st: IdState, k: Key, now: int) => IdKey(st, k)
  }

  function IsDone(): IdState -> bool {
    (st: IdState) => st.done
  }

  /** The scene from its start time over the frames polled, as the script runs it. */
  function IdScene(start: int, frames: seq<Batch>): Run<IdState> {
    RunFrames(false, IdStep(), IsDone(), start, Initial, frames)
  }

  /**
   * `get_user_input`: the text is returned once the scene is done.
   * `stopAtDone == false` is the script's loop, `true` the corrected one.
   */
  method GetUserInput(stopAtDone: bool, log: Log, start: int, frames: seq<Batch>) returns (r: Run<IdState>)
    modifies log
    ensures r == if stopAtDone then IdSceneFixed(start, frames) else IdScene(start, frames)
    ensures log.entries == old(log.entries) + MakeEntries(log.withSubjectId, SceneName, r.logged)
  {
    r := RunScene(stopAtDone, log, SceneName, IdStep(), IsDone(), start, Initial, frames);
  }

  /**
   * One key: Return confirms exactly a non-empty buffer and is logged even
   * when the buffer is empty; Backspace drops exactly the last character;
   * only alphanumeric characters are appended and logged; nothing else
   * changes the state or is logged.
   */
  lemma KeyEffects(st: IdState, k: Key)
    ensures var (st', rec) := IdKey(st, k);
      && (k.Return? ==> st'.text == st.text && (st'.done <==> st.done || st.text != [])
                        && rec == Some(Rec("RETURN", "Confirm: " + st.text)))
      && (k.Backspace? ==> (st'.done == st.done && rec.Some?
                            && (st.text == [] ==> st'.text == [])
                            && (st.text != [] ==> st'.text + [st.text[|st.text| - 1]] == st.text)))
      && (k.Char? ==> st'.done == st.done && (rec.Some? <==> IsAlnum(k.c))
                        && st'.text == (if IsAlnum(k.c) then st.text + [k.c] else st.text))
      && (k.Other? ==> st' == st && rec == None)
  {
  }

  lemma AlnumPreserved()
    ensures forall s: IdState, k: Key, t: int | AllAlnum(s.text) :: AllAlnum(IdStep()(s, k, t).0.text)
  {
    forall s: IdState, k: Key, t: int | AllAlnum(s.text) ensures AllAlnum(IdStep()(s, k, t).0.text) {
      assert IdStep()(s, k, t) == IdKey(s, k);
    }
  }

  /** The buffer only ever holds letters and digits. */
  lemma SceneKeepsAlnum(start: int, frames: seq<Batch>)
    ensures var r := IdScene(start, frames); r.status != Aborted ==> AllAlnum(r.state.text)
  {
    AlnumPreserved();
    FramesKeep(false, IdStep(), IsDone(), (st: IdState) => AllAlnum(st.text), start, Initial, frames);
  }

  /** Number of key presses in a batch that the scene logs, up to a window close. */
  function LoggedKeys(batch: Batch): nat {
    if batch == [] then 0
    else match batch[0]
      case Quit => 0
      case NotKey => LoggedKeys(batch[1..])
      case KeyDown(k, _, _) =>
        (if k.Return? || k.Backspace? || (k.Char? && IsAlnum(k.c)) then 1 else 0) + LoggedKeys(batch[1..])
  }

  /** One log entry per Return, Backspace and alphanumeric key of the batch, and none for the rest. */
  lemma {:induction false} BatchLogsCountedKeys(start: int, st: IdState, batch: Batch)
    ensures |RunBatch(false, IdStep(), IsDone(), start, st, batch).logged| == LoggedKeys(batch)
    decreases |batch|
  {
    if batch != [] && batch[0].NotKey? {
      BatchLogsCountedKeys(start, st, batch[1..]);
    } else if batch != [] && batch[0].KeyDown? {
      var k := batch[0].key;
      BatchLogsCountedKeys(start, IdKey(st, k).0, batch[1..]);
    }
  }

  /** Scenario: typing 1, 6, 0, 1 and Return in one frame confirms "1601" and logs five keys. */
  lemma TypeAndConfirm(start: int, t: int, stamp: string)
    ensures var frames := [[KeyDown(Char("1", '1'), t, stamp), KeyDown(Char("6", '6'), t, stamp),
                            KeyDown(Char("0", '0'), t, stamp), KeyDown(Char("1", '1'), t, stamp),
                            KeyDown(Return, t, stamp)]];
      var r := IdScene(start, frames);
      r.status == Finished && r.state.text == "1601" && |r.logged| == 5
  {
    var b := [KeyDown(Char("1", '1'), t, stamp), KeyDown(Char("6", '6'), t, stamp),
              KeyDown(Char("0", '0'), t, stamp), KeyDown(Char("1", '1'), t, stamp),
              KeyDown(Return, t, stamp)];
    assert b[1..][1..] == b[2..] && b[2..][1..] == b[3..] && b[3..][1..] == b[4..] && b[4..][1..] == [];
    var s1, s2, s3, s4 := IdState("1", false), IdState("16", false), IdState("160", false), IdState("1601", false);
    var done := IdState("1601", true);
    assert IdKey(Initial, Char("1", '1')).0 == s1 by { assert "" + ['1'] == "1"; }
    assert IdKey(s1, Char("6", '6')).0 == s2 by { assert "1" + ['6'] == "16"; }
    assert IdKey(s2, Char("0", '0')).0 == s3 by { assert "16" + ['0'] == "160"; }
    assert IdKey(s3, Char("1", '1')).0 == s4 by { assert "160" + ['1'] == "1601"; }
    assert IdKey(s4, Return).0 == done;
    BatchKeyDown(IdStep(), IsDone(), start, s4, b[4..]);
    var r4 := RunBatch(false, IdStep(), IsDone(), start, s4, b[4..]);
    assert r4.state == done && !r4.quit && |r4.logged| == 1;
    BatchKeyDown(IdStep(), IsDone(), start, s3, b[3..]);
    var r3 := RunBatch(false, IdStep(), IsDone(), start, s3, b[3..]);
    assert r3.state == done && !r3.quit && |r3.logged| == 2;
    BatchKeyDown(IdStep(), IsDone(), start, s2, b[2..]);
    var r2 := RunBatch(false, IdStep(), IsDone(), start, s2, b[2..]);
    assert r2.state == done && !r2.quit && |r2.logged| == 3;
    BatchKeyDown(IdStep(), IsDone(), start, s1, b[1..]);
    var r1 := RunBatch(false, IdStep(), IsDone(), start, s1, b[1..]);
    assert r1.state == done && !r1.quit && |r1.logged| == 4;
    BatchKeyDown(IdStep(), IsDone(), start, Initial, b);
    var r := RunBatch(false, IdStep(), IsDone(), start, Initial, b);
    assert r.state == done && !r.quit && |r.logged| == 5;
    FramesStep(false, IdStep(), IsDone(), start, Initial, [b]);
    assert [b][1..] == [];
  }

  /**
   * Return on an empty buffer is logged but does not confirm, and a
   * window close ends the scene without a result.
   */
  lemma EmptyReturnThenClose(start: int, t: int, stamp: string)
    ensures var r := IdScene(start, [[KeyDown(Return, t, stamp)], [Quit]]);
      r.status == Aborted && r.logged == [Keystroke("RETURN", t - start, "Confirm: ", stamp)]
  {
    var b := [KeyDown(Return, t, stamp)];
    var f := [b, [Quit]];
    assert b[1..] == [] && f[0] == b && f[1..] == [[Quit]] && f[1..][0] == [Quit];
    BatchKeyDown(IdStep(), IsDone(), start, Initial, b);
    FramesStep(false, IdStep(), IsDone(), start, Initial, f);
    BatchQuit(false, IdStep(), IsDone(), start, Initial, [Quit]);
    FramesStep(false, IdStep(), IsDone(), start, Initial, f[1..]);
    var ks := [Keystroke("RETURN", t - start, "Confirm: ", stamp)];
    assert "Confirm: " + "" == "Confirm: ";
    assert ks + [] == ks;
    assert RunBatch(false, IdStep(), IsDone(), start, Initial, b) == BatchResult(Initial, ks, false);
  }

  /**
   * As written, keys after the confirming Return in the same frame are
   * still handled: "a", Return, Backspace in one frame ends the scene with
   * an empty ID, although Return only confirms a non-empty buffer.
   */
  lemma TrailingBackspaceEmptiesId(start: int, t: int, stamp: string)
    ensures var r := IdScene(start, [[KeyDown(Char("a", 'a'), t, stamp), KeyDown(Return, t, stamp), KeyDown(Backspace, t, stamp)]]);
      r.status == Finished && r.state.text == []
  {
    var b := [KeyDown(Char("a", 'a'), t, stamp), KeyDown(Return, t, stamp), KeyDown(Backspace, t, stamp)];
    assert b[1..][1..] == b[2..] && b[2..][1..] == [];
    var s1, s2, s3 := IdState("a", false), IdState("a", true), IdState("", true);
    assert IdKey(Initial, Char("a", 'a')).0 == s1 by { assert "" + ['a'] == "a"; }
    assert IdKey(s1, Return).0 == s2;
    assert IdKey(s2, Backspace).0 == s3;
    BatchKeyDown(IdStep(), IsDone(), start, s2, b[2..]);
    assert RunBatch(false, IdStep(), IsDone(), start, s2, b[2..]).state == s3;
    BatchKeyDown(IdStep(), IsDone(), start, s1, b[1..]);
    assert RunBatch(false, IdStep(), IsDone(), start, s1, b[1..]).state == s3;
    BatchKeyDown(IdStep(), IsDone(), start, Initial, b);
    var r := RunBatch(false, IdStep(), IsDone(), start, Initial, b);
    assert r.state == s3 && !r.quit;
    FramesStep(false, IdStep(), IsDone(), start, Initial, [b]);
    assert [b][1..] == [];
  }

  /** The corrected scene, whose frame loop stops at the confirming Return. */
  function IdSceneFixed(start: int, frames: seq<Batch>): Run<IdState> {
    RunFrames(true, IdStep(), IsDone(), start, Initial, frames)
  }

  /** With the corrected loop a confirmed ID is never empty and holds only letters and digits. */
  lemma FixedConfirmsNonEmpty(start: int, frames: seq<Batch>)
    ensures var r := IdSceneFixed(start, frames);
      r.status == Finished ==> r.state.text != [] && AllAlnum(r.state.text)
  {
    var goal := (st: IdState) => st.text != [];
    var inv := (st: IdState) => AllAlnum(st.text);
    forall s: IdState, k: Key, t: int | !IsDone()(s) && IsDone()(IdStep()(s, k, t).0)
      ensures goal(IdStep()(s, k, t).0)
    {
      assert IdStep()(s, k, t) == IdKey(s, k);
    }
    StoppingFramesReachGoal(IdStep(), IsDone(), goal, start, Initial, frames);
    AlnumPreserved();
    FramesKeep(true, IdStep(), IsDone(), inv, start, Initial, frames);
  }

  lemma OnlyReturnConfirms()
    ensures forall s: IdState, k: Key, t: int | !IsDone()(s) && IsDone()(IdStep()(s, k, t).0) :: k == Return
  {
    forall s: IdState, k: Key, t: int | !IsDone()(s) && IsDone()(IdStep()(s, k, t).0) ensures k == Return {
      assert IdStep()(s, k, t) == IdKey(s, k);
    }
  }

  /**
   * The scripts' loop confirms a non-empty ID whenever no key follows a
   * Return in the frame it was polled in.
   */
  lemma ReturnLastConfirmsNonEmpty(start: int, frames: seq<Batch>)
    requires forall j | 0 <= j < |frames| :: KeyEndsBatch(Return, frames[j])
    ensures IdScene(start, frames) == IdSceneFixed(start, frames)
    ensures var r := IdScene(start, frames); r.status == Finished ==> r.state.text != [] && AllAlnum(r.state.text)
  {
    OnlyReturnConfirms();
    FramesReturnLastIsEnough(IdStep(), IsDone(), start, Initial, frames);
    FramesLoopsAgree(IdStep(), IsDone(), start, Initial, frames);
    FixedConfirmsNonEmpty(start, frames);
  }

  /**
   * As written, the scene accepts letters, but `main` reads the ID with
   * `int`: "A", "7" and Return in one frame confirm "A7", which gets no
   * posture (`int("A7")` raises ValueError).
   */
  lemma LetterIdHasNoPosture(start: int, t: int, stamp: string)
    ensures var r := IdScene(start, [[KeyDown(Char("a", 'A'), t, stamp), KeyDown(Char("7", '7'), t, stamp), KeyDown(Return, t, stamp)]]);
      r.status == Finished && r.state.text == "A7" && AssignPosture(r.state.text) == None
  {
    var b := [KeyDown(Char("a", 'A'), t, stamp), KeyDown(Char("7", '7'), t, stamp), KeyDown(Return, t, stamp)];
    assert b[1..][1..] == b[2..] && b[2..][1..] == [];
    var s1, s2, s3 := IdState("A", false), IdState("A7", false), IdState("A7", true);
    assert IdKey(Initial, Char("a", 'A')).0 == s1 by { assert "" + ['A'] == "A"; }
    assert IdKey(s1, Char("7", '7')).0 == s2 by { assert "A" + ['7'] == "A7"; }
    assert IdKey(s2, Return).0 == s3;
    BatchKeyDown(IdStep(), IsDone(), start, s2, b[2..]);
    assert RunBatch(false, IdStep(), IsDone(), start, s2, b[2..]).state == s3;
    BatchKeyDown(IdStep(), IsDone(), start, s1, b[1..]);
    assert RunBatch(false, IdStep(), IsDone(), start, s1, b[1..]).state == s3;
    BatchKeyDown(IdStep(), IsDone(), start, Initial, b);
    var r := RunBatch(false, IdStep(), IsDone(), start, Initial, b);
    assert r.state == s3 && !r.quit;
    FramesStep(false, IdStep(), IsDone(), start, Initial, [b]);
    assert [b][1..] == [];
    PostureScenarios();
  }

  /** The corrected handling of one key press: only decimal digits are typed into the ID. */
  function DigitIdKey(st: IdState, k: Key): (IdState, Option<Rec>) {
    if k.Char? && !IsDecimal(k.c) then (st, None) else IdKey(st, k)
  }

  function DigitIdStep(): Step<IdState> {
    (st: IdState, k: Key, now: int) => DigitIdKey(st, k)
  }

  /** The corrected scene: digits only, and the frame loop stops at the confirming Return. */
  function DigitIdScene(start: int, frames: seq<Batch>): Run<IdState> {
    RunFrames(true, DigitIdStep(), IsDone(), start, Initial, frames)
  }

  /** With the corrected scene every confirmed ID is a non-empty run of digits, so `main` assigns it a posture. */
  lemma DigitIdHasPosture(start: int, frames: seq<Batch>)
    ensures var r := DigitIdScene(start, frames);
      r.status == Finished ==> r.state.text != [] && AllDecimal(r.state.text) && AssignPosture(r.state.text).Some?
  {
    var goal := (st: IdState) => st.text != [];
    var inv := (st: IdState) => AllDecimal(st.text);
    forall s: IdState, k: Key, t: int | !IsDone()(s) && IsDone()(DigitIdStep()(s, k, t).0)
      ensures goal(DigitIdStep()(s, k, t).0)
    {
      assert DigitIdStep()(s, k, t) == DigitIdKey(s, k);
    }
    forall s: IdState, k: Key, t: int | inv(s) ensures inv(DigitIdStep()(s, k, t).0) {
      assert DigitIdStep()(s, k, t) == DigitIdKey(s, k);
    }
    StoppingFramesReachGoal(DigitIdStep(), IsDone(), goal, start, Initial, frames);
    FramesKeep(true, DigitIdStep(), IsDone(), inv, start, Initial, frames);
  }
}
