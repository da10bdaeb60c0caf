/**
 * The public-goods investment scene `scene_pgg_game_visual`: up to two
 * numeric characters are typed into a buffer, Backspace erases the last
 * one, and Return parses the buffer with `int`. A value from 0 to the
 * endowment ends the scene; any other value clears the buffer and shows a
 * range message for two seconds; a buffer `int` cannot parse is left as it
 * is (the bare `except: pass`). The scene returns `int` of the buffer as it
 * stands after the whole frame in which it became done.
 */
module Investment {
  import opened Wrappers
  import opened Chars
  import opened Input
  import opened KeyLog
  import opened Variants
  import opened Scene
  import opened Seqs

  const SceneName: string := "PGG_Game"

  /** f"请输入 0-{PGG_ENDOWMENT} 的整数" */
  const RangeMessage: string := "请输入 0-10 的整数"

  /** How long the range message stays on screen, in milliseconds. */
  const ErrorMillis: int := 2000

  /** The scene's local variables `input_text`, `done`, `error_msg` and `error_timer`. */
  datatype Pgg = Pgg(text: string, done: bool, errorMsg: string, errorTimer: int)

  const Initial: Pgg := Pgg("", false, "", 0)

  /** The handling of one key press at clock reading `now`. */
  function PggKey(st: Pgg, k: Key, now: int): (Pgg, Option<Rec>) {
    match k
    case Return =>
      var rec := Some(Rec("RETURN", "Confirm: " + st.text));
      if |st.text| > 0 then
        match ParseInt(st.text)
        case None => (st, rec)
        case Some(v) =>
          if v <= Endowment then (st.(done := true), rec)
          else (st.(errorMsg := RangeMessage, errorTimer := now, text := ""), rec)
      else (st, rec)
    case Backspace => (st.(text := DropLast(st.text)), Some(Rec("BACKSPACE", "Delete char")))
    case Char(name, c) =>
      if IsNumeric(c) && |st.text| < 2 then (st.(text := st.text + [c]), Some(Rec(name, "Type: " + [c])))
      else (st, None)
    case Other => (st, None)
  }

  function PggStep(): Step<Pgg> {
    (st: Pgg, k: Key, now: int) => PggKey(st, k, now)
  }

  function IsDone(): Pgg -> bool {
    (st: Pgg) => st.done
  }

  /** `pygame.time.get_ticks() - error_timer < 2000`: whether the frame drawn at `now` shows `error_msg`. */
  predicate ErrorShown(st: Pgg, now: int) {
    now - st.errorTimer < ErrorMillis
  }

  /** What the scene hands back: `int(input_text)`, the ValueError it raises, a window close, or still waiting. */
  datatype PggResult = Invested(amount: nat) | ValueError | Closed | Pending

  function Outcome(r: Run<Pgg>): PggResult {
    match r.status
    case Aborted => Closed
    case Waiting => Pending
    case Finished =>
      match ParseInt(r.state.text)
      case Some(v) => Invested(v)
      case None => ValueError
  }

  /** The scene as written, from its start time over the frames polled. */
  function PggScene(start: int, frames: seq<Batch>): PggResult {
    Outcome(RunFrames(false, PggStep(), IsDone(), start, Initial, frames))
  }

  /**
   * `scene_pgg_game_visual`. `stopAtDone == false` is the script's loop,
   * `true` the corrected one.
   */
  method ScenePggGameVisual(stopAtDone: bool, log: Log, start: int, frames: seq<Batch>) returns (r: PggResult)
    modifies log
    ensures r == if stopAtDone then PggSceneFixed(start, frames) else PggScene(start, frames)
    ensures log.entries == old(log.entries)
      + MakeEntries(log.withSubjectId, SceneName, RunFrames(stopAtDone, PggStep(), IsDone(), start, Initial, frames).logged)
  {
    var run := RunScene(stopAtDone, log, SceneName, PggStep(), IsDone(), start, Initial, frames);
    if run.status == Aborted {
      r := Closed;
    } else if run.status == Waiting {
      r := Pending;
    } else {
      var v := ParseInt(run.state.text);
      r := if v.Some? then Invested(v.value) else ValueError;
    }
  }

  /**
   * Return: a buffer holding a value from 0 to the endowment sets done and
   * keeps the buffer; a larger value clears the buffer, sets the range
   * message and stamps the error time with the clock; an empty buffer or
   * one `int` cannot parse changes nothing. Return is always logged.
   */
  lemma ConfirmCases(st: Pgg, now: int)
    ensures var (st', rec) := PggKey(st, Return, now);
      && rec == Some(Rec("RETURN", "Confirm: " + st.text))
      && (ParseInt(st.text).Some? && ParseInt(st.text).value <= Endowment ==> st' == st.(done := true))
      && (ParseInt(st.text).Some? && ParseInt(st.text).value > Endowment ==>
            st' == st.(text := [], errorMsg := RangeMessage, errorTimer := now))
      && (ParseInt(st.text).None? ==> st' == st)
  {
  }

  /** Backspace erases exactly the last character; a typed character is kept only if numeric and the buffer is short. */
  lemma EditCases(st: Pgg, k: Key, now: int)
    requires !k.Return?
    ensures var (st', rec) := PggKey(st, k, now);
      && st'.done == st.done && st'.errorMsg == st.errorMsg && st'.errorTimer == st.errorTimer
      && (k.Backspace? ==> rec.Some? && (st.text == [] ==> st'.text == [])
                           && (st.text != [] ==> st'.text + [st.text[|st.text| - 1]] == st.text))
      && (k.Char? ==> (rec.Some? <==> IsNumeric(k.c) && |st.text| < 2)
                      && st'.text == (if IsNumeric(k.c) && |st.text| < 2 then st.text + [k.c] else st.text))
      && (k.Other? ==> st' == st && rec == None)
  {
  }

  predicate BufferOk(st: Pgg) {
    |st.text| <= 2 && AllNumeric(st.text)
  }

  lemma BufferOkPreserved()
    ensures forall s: Pgg, k: Key, t: int | BufferOk(s) :: BufferOk(PggStep()(s, k, t).0)
  {
    forall s: Pgg, k: Key, t: int | BufferOk(s) ensures BufferOk(PggStep()(s, k, t).0) {
      assert PggStep()(s, k, t) == PggKey(s, k, t);
    }
  }

  /** Under the scripts' loop and the corrected one, the buffer never holds more than two characters, all numeric. */
  lemma SceneKeepsBuffer(stopAtDone: bool, start: int, frames: seq<Batch>)
    ensures var r := RunFrames(stopAtDone, PggStep(), IsDone(), start, Initial, frames);
      r.status != Aborted ==> BufferOk(r.state)
  {
    BufferOkPreserved();
    FramesKeep(stopAtDone, PggStep(), IsDone(), (st: Pgg) => BufferOk(st), start, Initial, frames);
  }

  /** As written, the scene returns at most 99: two digits bound the value, not the range check. */
  lemma ResultAtMost99(start: int, frames: seq<Batch>)
    ensures var r := PggScene(start, frames); r.Invested? ==> r.amount <= 99
  {
    SceneKeepsBuffer(false, start, frames);
    var run := RunFrames(false, PggStep(), IsDone(), start, Initial, frames);
    if run.status == Finished && ParseInt(run.state.text).Some? {
      TwoDigitsAtMost99(run.state.text);
    }
  }

  /** The corrected scene, whose frame loop stops at the confirming Return. */
  function PggSceneFixed(start: int, frames: seq<Batch>): PggResult {
    Outcome(RunFrames(true, PggStep(), IsDone(), start, Initial, frames))
  }

  /** With the corrected loop, every returned investment lies between 0 and the endowment and none raises. */
  lemma FixedResultInRange(start: int, frames: seq<Batch>)
    ensures var r := PggSceneFixed(start, frames);
      r != ValueError && (r.Invested? ==> r.amount <= Endowment)
  {
    var goal := (st: Pgg) => ParseInt(st.text).Some? && ParseInt(st.text).value <= Endowment;
    forall s: Pgg, k: Key, t: int | !IsDone()(s) && IsDone()(PggStep()(s, k, t).0)
      ensures goal(PggStep()(s, k, t).0)
    {
      assert PggStep()(s, k, t) == PggKey(s, k, t);
    }
    StoppingFramesReachGoal(PggStep(), IsDone(), goal, start, Initial, frames);
    FinishedOnlyWhenDone(true, PggStep(), IsDone(), start, Initial, frames);
  }

  /** Scenario: "7" then Return in one frame returns 7. */
  lemma SevenIsInvested(start: int, t: int, stamp: string)
    ensures PggScene(start, [[KeyDown(Char("7", '7'), t, stamp), KeyDown(Return, t, stamp)]]) == Invested(7)
  {
    var b := [KeyDown(Char("7", '7'), t, stamp), KeyDown(Return, t, stamp)];
    assert b[1..][1..] == [];
    var s1 := Pgg("7", false, "", 0);
    var s2 := Pgg("7", true, "", 0);
    assert ParseInt("7") == Some(7) by { assert "7"[..0] == []; }
    assert PggStep()(Initial, Char("7", '7'), t).0 == s1 by { assert "" + ['7'] == "7"; }
    assert PggStep()(s1, Return, t).0 == s2;
    BatchKeyDown(PggStep(), IsDone(), start, s1, b[1..]);
    assert RunBatch(false, PggStep(), IsDone(), start, s1, b[1..]).state == s2;
    BatchKeyDown(PggStep(), IsDone(), start, Initial, b);
    var r := RunBatch(false, PggStep(), IsDone(), start, Initial, b);
    assert r.state == s2 && !r.quit;
    FramesStep(false, PggStep(), IsDone(), start, Initial, [b]);
    assert [b][1..] == [];
    assert RunFrames(false, PggStep(), IsDone(), start, Initial, [b]).status == Finished;
    assert RunFrames(false, PggStep(), IsDone(), start, Initial, [b]).state == s2;
  }

  /**
   * Scenario: "15" then Return clears the buffer and leaves the scene
   * waiting; the range message is on every frame drawn before
   * `t + ErrorMillis` and on none from then on.
   */
  lemma FifteenIsRejected(start: int, t: int, stamp: string)
    ensures var run := RunFrames(false, PggStep(), IsDone(), start, Initial,
                                 [[KeyDown(Char("1", '1'), t, stamp), KeyDown(Char("5", '5'), t, stamp), KeyDown(Return, t, stamp)]]);
      && run.status == Waiting && run.state == Pgg("", false, RangeMessage, t)
      && (forall now :: ErrorShown(run.state, now) <==> now < t + ErrorMillis)
  {
    var b := [KeyDown(Char("1", '1'), t, stamp), KeyDown(Char("5", '5'), t, stamp), KeyDown(Return, t, stamp)];
    assert b[1..][1..] == b[2..] && b[2..][1..] == [];
    var s1 := Pgg("1", false, "", 0);
    var s2 := Pgg("15", false, "", 0);
    var s3 := Pgg("", false, RangeMessage, t);
    assert PggStep()(Initial, Char("1", '1'), t).0 == s1 by { assert "" + ['1'] == "1"; }
    assert PggStep()(s1, Char("5", '5'), t).0 == s2 by { assert "1" + ['5'] == "15"; }
    assert PggStep()(s2, Return, t).0 == s3 by {
      assert DecimalValue("15") == 15 by { assert "15"[..1] == "1" && "1"[..0] == []; }
    }
    BatchKeyDown(PggStep(), IsDone(), start, s2, b[2..]);
    assert RunBatch(false, PggStep(), IsDone(), start, s2, b[2..]).state == s3;
    BatchKeyDown(PggStep(), IsDone(), start, s1, b[1..]);
    assert RunBatch(false, PggStep(), IsDone(), start, s1, b[1..]).state == s3;
    BatchKeyDown(PggStep(), IsDone(), start, Initial, b);
    var r := RunBatch(false, PggStep(), IsDone(), start, Initial, b);
    assert r.state == s3 && !r.quit;
    FramesStep(false, PggStep(), IsDone(), start, Initial, [b]);
    assert [b][1..] == [];
  }

  /** A confirmed buffer `int` cannot parse ("²" is numeric but not a digit) is silently kept. */
  lemma UnparsableIsIgnored(start: int, t: int, stamp: string)
    ensures var run := RunFrames(false, PggStep(), IsDone(), start, Initial,
                                 [[KeyDown(Char("2", '²'), t, stamp), KeyDown(Return, t, stamp)]]);
      run.status == Waiting && run.state == Pgg("²", false, "", 0) && |run.logged| == 2
  {
    var b := [KeyDown(Char("2", '²'), t, stamp), KeyDown(Return, t, stamp)];
    assert b[1..][1..] == [];
    var s1 := Pgg("²", false, "", 0);
    assert PggStep()(Initial, Char("2", '²'), t).0 == s1 && PggStep()(Initial, Char("2", '²'), t).1.Some? by {
      assert "" + ['²'] == "²";
    }
    assert PggStep()(s1, Return, t).0 == s1 && PggStep()(s1, Return, t).1.Some? by { assert !IsDecimal("²"[0]); }
    BatchKeyDown(PggStep(), IsDone(), start, s1, b[1..]);
    assert RunBatch(false, PggStep(), IsDone(), start, s1, b[1..]).state == s1;
    BatchKeyDown(PggStep(), IsDone(), start, Initial, b);
    var r := RunBatch(false, PggStep(), IsDone(), start, Initial, b);
    assert r.state == s1 && !r.quit && |r.logged| == 2;
    FramesStep(false, PggStep(), IsDone(), start, Initial, [b]);
    assert [b][1..] == [];
  }

  /**
   * As written, a key typed after the confirming Return in the same frame
   * is still appended: "5", Return, "7" in one frame returns 57, beyond
   * the endowment of 10.
   */
  lemma TrailingDigitExceedsEndowment(start: int, t: int, stamp: string)
    ensures PggScene(start, [[KeyDown(Char("5", '5'), t, stamp), KeyDown(Return, t, stamp), KeyDown(Char("7", '7'), t, stamp)]])
      == Invested(57)
  {
    var b := [KeyDown(Char("5", '5'), t, stamp), KeyDown(Return, t, stamp), KeyDown(Char("7", '7'), t, stamp)];
    assert b[1..][1..] == b[2..] && b[2..][1..] == [];
    var s1 := Pgg("5", false, "", 0);
    var s2 := Pgg("5", true, "", 0);
    var s3 := Pgg("57", true, "", 0);
    assert PggStep()(Initial, Char("5", '5'), t).0 == s1 by { assert "" + ['5'] == "5"; }
    assert PggStep()(s1, Return, t).0 == s2 by {
      assert DecimalValue("5") == 5 by { assert "5"[..0] == []; }
    }
    assert PggStep()(s2, Char("7", '7'), t).0 == s3 by { assert "5" + ['7'] == "57"; }
    BatchKeyDown(PggStep(), IsDone(), start, s2, b[2..]);
    assert RunBatch(false, PggStep(), IsDone(), start, s2, b[2..]).state == s3;
    BatchKeyDown(PggStep(), IsDone(), start, s1, b[1..]);
    assert RunBatch(false, PggStep(), IsDone(), start, s1, b[1..]).state == s3;
    BatchKeyDown(PggStep(), IsDone(), start, Initial, b);
    var r := RunBatch(false, PggStep(), IsDone(), start, Initial, b);
    assert r.state == s3 && !r.quit;
    FramesStep(false, PggStep(), IsDone(), start, Initial, [b]);
    assert [b][1..] == [];
    assert ParseInt("57") == Some(57) by { assert "57"[..1] == "5" && "5"[..0] == []; }
  }

  /**
   * As written, a Backspace after the confirming Return in the same frame
   * empties the buffer, and `int("")` raises ValueError.
   */
  lemma TrailingBackspaceRaises(start: int, t: int, stamp: string)
    ensures PggScene(start, [[KeyDown(Char("5", '5'), t, stamp), KeyDown(Return, t, stamp), KeyDown(Backspace, t, stamp)]])
      == ValueError
  {
    var b := [KeyDown(Char("5", '5'), t, stamp), KeyDown(Return, t, stamp), KeyDown(Backspace, t, stamp)];
    assert b[1..][1..] == b[2..] && b[2..][1..] == [];
    var s1 := Pgg("5", false, "", 0);
    var s2 := Pgg("5", true, "", 0);
    var s3 := Pgg("", true, "", 0);
    assert PggStep()(Initial, Char("5", '5'), t).0 == s1 by { assert "" + ['5'] == "5"; }
    assert PggStep()(s1, Return, t).0 == s2 by {
      assert DecimalValue("5") == 5 by { assert "5"[..0] == []; }
    }
    assert PggStep()(s2, Backspace, t).0 == s3;
    BatchKeyDown(PggStep(), IsDone(), start, s2, b[2..]);
    assert RunBatch(false, PggStep(), IsDone(), start, s2, b[2..]).state == s3;
    BatchKeyDown(PggStep(), IsDone(), start, s1, b[1..]);
    assert RunBatch(false, PggStep(), IsDone(), start, s1, b[1..]).state == s3;
    BatchKeyDown(PggStep(), IsDone(), start, Initial, b);
    var r := RunBatch(false, PggStep(), IsDone(), start, Initial, b);
    assert r.state == s3 && !r.quit;
    FramesStep(false, PggStep(), IsDone(), start, Initial, [b]);
    assert [b][1..] == [];
  }

  /**
   * The bound the scripts' loop does keep: when no key follows a Return in
   * the frame it was polled in, the scene returns what the corrected loop
   * returns, a value from 0 to the endowment, and never raises.
   */
  lemma ReturnLastKeepsRange(start: int, frames: seq<Batch>)
    requires forall j | 0 <= j < |frames| :: KeyEndsBatch(Return, frames[j])
    ensures PggScene(start, frames) == PggSceneFixed(start, frames)
    ensures var r := PggScene(start, frames); r != ValueError && (r.Invested? ==> r.amount <= Endowment)
  {
    forall s: Pgg, k: Key, t: int | !IsDone()(s) && IsDone()(PggStep()(s, k, t).0) ensures k == Return {
      assert PggStep()(s, k, t) == PggKey(s, k, t);
    }
    FramesReturnLastIsEnough(PggStep(), IsDone(), start, Initial, frames);
    FramesLoopsAgree(PggStep(), IsDone(), start, Initial, frames);
    FixedResultInRange(start, frames);
  }
}
