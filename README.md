# Social-exclusion experiment runner: the input and logging core

The experiment comes as three near-identical pygame scripts:

- `Exc_Ext_High.py`: exclusion, external attribution, high necessity.
- `Exc_Ext_Low.py`: exclusion, external attribution, low necessity.
- `Inc_Int_Low.py`: inclusion.

Each script asks for a subject ID and derives a posture condition from its parity. It then launches the external ball-tossing game (Cyberball) and asks how many of the 10 endowed tokens to invest in a public-goods game. Finally it saves a summary row and a per-subject key log. The investment scene checks a confirmed value against 0..10, but the value it returns can escape that check (see Findings).

This project models the logic inside those scripts' UI loops:

- **Key handling in the two text-entry scenes** (`IdEntry`, `Investment`). Each is a step function over an abstract key event: `Return`, `Backspace`, a typed character, or any other key. The step runs under the scenes' shared frame loop (`Scene`). For each polled batch, that loop handles every event, including events after the one that made the scene done. Through `record_event` it logs every Return, every Backspace and every typed character the scene accepts. Rejected characters and other keys are not logged.
- **Condition assignment** (`Condition`). Posture comes from the parity of `int(subject_id)`. Each script builds its own condition label.
- **Greedy character wrapping** (`Wrap`, from `draw_text_wrapped`). The font's width is a function parameter. The model records the drawn lines and returns the final `y`.
- **The key log and saving** (`KeyLog`, `Persistence`). `KEY_LOGS` is a class whose entry sequence `record_event` appends to. Files are a map from name to CSV rows, so a file exists exactly when its name is in the map.
- **Choosing the Cyberball command** (`Launch`). The exclusion scripts derive the program's directory and the game script's path from `CYBERBALL_PATH` with `os.path.dirname` and `os.path.join` (Exc_Ext_High.py:337-338). The inclusion script computes neither. The inclusion script's on-screen wait when the executable is missing is modelled too.

The three scripts differ in these ways, and the model captures each difference with the `Variants.Variant` datatype:

- the ball-tossing condition ("1" or "2");
- the label format;
- whether log entries have a `Subject_ID` field;
- the detail file's name;
- how the launcher is called.

The shared code is identical in all three files. Each row below cites it in `Exc_Ext_High.py`. The matching lines in the other files are:

| code | Exc_Ext_Low.py | Inc_Int_Low.py |
|---|---|---|
| ID keys | 185-194 | 189-198 |
| investment keys | 536-555 | 489-508 |
| wrapping | 148-166 | 149-167 |
| summary header | 123-128 | 123-130 |

Python's `str.isalnum`, `str.isnumeric` and `int` are modelled in `Chars`. `IsAlnum` and `IsNumeric` are exact on the Latin-1 range and treat every character above it as neither a letter nor numeric. `ParseInt` agrees with `int` on every string the ID and investment buffers can hold. Numeric characters that are not decimal digits (`²`, `½`) pass `isnumeric`, but `int` rejects them. That is the only way a confirmed investment buffer can fail to parse.

Two behaviours of the code that a reader might not expect:

- **Unparsable buffer.** A confirmed investment buffer that `int` cannot parse is left unchanged, because of a bare `except: pass`. The buffer is not cleared.
- **Investment result.** The scene returns `int` of the buffer as it stands after the whole batch, not the value it validated. The returned investment is therefore not always in 0..10 (see Findings).

## Model

| member | source | states |
|---|---|---|
| Chars.ParseInt | Exc_Ext_High.py:550-552 | on every string the ID and investment buffers can hold, `int(s)` succeeds exactly on a non-empty string of decimal digits |
| Chars.ParseShow | Exc_Ext_High.py:146 | the number written with `str` parses back to the same number |
| Chars.NumericButNotParsable | Exc_Ext_High.py:565 | some characters pass `isnumeric` but make `int` raise |
| Chars.ParityOfLastDigit | Exc_Ext_High.py:592 | the parity of a decimal ID is the parity of its last digit |
| Chars.TwoDigitsAtMost99 | Exc_Ext_High.py:565 | a buffer of at most two digits holds at most 99 |
| Condition.AssignPosture | Exc_Ext_High.py:592 | a posture is assigned exactly when `int(subject_id)` succeeds |
| Condition.PostureIffOdd | Exc_Ext_High.py:592 | posture is defensive iff the numeric ID is odd and neutral iff it is even |
| Condition.PostureByLastDigit | Exc_Ext_High.py:592 | IDs whose last digits have equal parity get the same posture |
| Condition.PostureScenarios | Exc_Ext_High.py:592 | "1601" is defensive, "1600" neutral, and "A7" raises |
| Condition.LabelTexts | Exc_Ext_High.py:626 | the six labels: `Cyber1_Ext_<p>_high`, `Cyber1_External_<p>` (Exc_Ext_Low.py:614), `Cyber2_<p>` (Inc_Int_Low.py:546) |
| Condition.LabelInjective | Exc_Ext_High.py:626 | different variant and posture pairs never share a label |
| Variants.DetailFileNameInjective | Exc_Ext_High.py:152 | two subjects of one script never share a detail file name |
| KeyLog.MakeEntry | Exc_Ext_High.py:121-132 | an entry carries the scene, time stamp, reaction time, key and note; Subject_ID is "" in the high-necessity script and absent otherwise (Exc_Ext_Low.py:110-119) |
| KeyLog.MakeEntries | Exc_Ext_High.py:132 | a scene's `record_event` calls append one entry per logged key |
| KeyLog.MakeEntriesAt | Exc_Ext_High.py:132 | entry `i` of a scene's appended entries is made from its `i`-th logged key, in order |
| KeyLog.MakeEntriesAppend | Exc_Ext_High.py:132 | appending the entries of two runs of keys equals appending the entries of the combined run |
| KeyLog.WithSubjectId | Exc_Ext_High.py:158-159 | saving keeps the log's length and sets every entry's Subject_ID to the subject's ID, changing nothing else |
| KeyLog.Log.Record | Exc_Ext_High.py:121-132 | `record_event` appends exactly one entry and leaves the earlier entries unchanged |
| KeyLog.RecordedThenFilled | Exc_Ext_High.py:121-160 | every entry starts with an empty Subject_ID and carries the ID once saved |
| Scene.RecordKey | Exc_Ext_High.py:203-212 | a handled key that the scene logs adds one entry; any other handled key adds none |
| Scene.ProcessBatch | Exc_Ext_High.py:196-212 | the inner event loop gives the state and log of `RunBatch` and appends each logged key in order; a window close stops it |
| Scene.RunScene | Exc_Ext_High.py:195-212 | the `while not done` loop gives the outcome of `RunFrames`, and the log grows by exactly the keys it logged |
| Scene.BatchKeeps | Exc_Ext_High.py:196-212 | a property that every key press preserves holds after any batch |
| Scene.FramesKeep | Exc_Ext_High.py:195-212 | the same holds over any number of frames, unless the window was closed |
| Scene.FinishedOnlyWhenDone | Exc_Ext_High.py:195 | a scene finishes only in a done state and waits only in a state that is not done |
| Scene.StoppingFramesReachGoal | Exc_Ext_High.py:195-212 | under the corrected loop, a finished scene ends in the state whose step made it done |
| Scene.BatchLoopsAgree | Exc_Ext_High.py:196-212 | when no event follows the key press that makes the scene done, both loops handle the batch alike |
| Scene.FramesLoopsAgree | Exc_Ext_High.py:195-212 | the same holds for whole scenes when it holds of every frame |
| Scene.ReturnLastIsEnough | Exc_Ext_High.py:203-205 | when only Return makes a scene done, a batch in which nothing follows a Return has nothing after done |
| Scene.FramesReturnLastIsEnough | Exc_Ext_High.py:195-205 | the same holds for every frame of a scene |
| Scene.BatchRtsOrdered | Exc_Ext_High.py:201 | with a clock that never goes back, a batch's logged reaction times never decrease and lie within the batch's clock readings |
| Scene.FramesRtsOrdered | Exc_Ext_High.py:193-201 | reaction times logged in one scene are never negative and never decrease |
| Seqs.DropLast | Exc_Ext_High.py:208 | `text[:-1]` removes exactly the last character and leaves "" empty |
| IdEntry.KeyEffects | Exc_Ext_High.py:203-212 | Return confirms iff the buffer is non-empty and is logged even when it is empty; Backspace drops exactly the last character; only alphanumeric characters are appended and logged; other keys change and log nothing |
| IdEntry.GetUserInput | Exc_Ext_High.py:187-226 | `get_user_input` yields the scene's run and logs its keys under "ID_Input" |
| IdEntry.SceneKeepsAlnum | Exc_Ext_High.py:210-212 | the ID buffer only ever holds alphanumeric characters |
| IdEntry.BatchLogsCountedKeys | Exc_Ext_High.py:203-212 | one entry per Return, Backspace and alphanumeric key, none for other keys |
| IdEntry.TypeAndConfirm | Exc_Ext_High.py:203-212 | typing 1601 and Return confirms "1601" with five entries |
| IdEntry.EmptyReturnThenClose | Exc_Ext_High.py:196-205 | Return on an empty buffer is logged but does not confirm, and a window close aborts the scene |
| IdEntry.TrailingBackspaceEmptiesId | Exc_Ext_High.py:196-212 | as written, "a", Return, Backspace in one batch finishes with an empty ID |
| IdEntry.FixedConfirmsNonEmpty | Exc_Ext_High.py:205 | under the corrected loop, a confirmed ID is non-empty and alphanumeric |
| IdEntry.OnlyReturnConfirms | Exc_Ext_High.py:203-205 | only Return ends the ID scene |
| IdEntry.LetterIdHasNoPosture | Exc_Ext_High.py:210-212 | as written, "A", "7", Return confirms "A7", to which `int` at line 592 assigns no posture |
| IdEntry.DigitIdHasPosture | Exc_Ext_High.py:592 | with digits-only entry and the corrected loop, every confirmed ID is non-empty, all digits and gets a posture |
| IdEntry.ReturnLastConfirmsNonEmpty | Exc_Ext_High.py:196-212 | as written, a confirmed ID is non-empty if nothing follows a Return in its batch |
| Investment.ConfirmCases | Exc_Ext_High.py:548-560 | Return is always logged; a value in 0..10 sets done and keeps the buffer; a larger one clears the buffer, sets the message and stamps the error time; an unparsable buffer changes nothing |
| Investment.EditCases | Exc_Ext_High.py:561-567 | Backspace drops exactly the last character; a character is appended and logged iff it is numeric and the buffer is shorter than 2 |
| Investment.SceneKeepsBuffer | Exc_Ext_High.py:565-567 | under either loop, the buffer holds at most two characters, all numeric |
| Investment.ResultAtMost99 | Exc_Ext_High.py:570 | as written, the returned value is bounded by two digits, not by the endowment |
| Investment.ScenePggGameVisual | Exc_Ext_High.py:506-570 | `scene_pgg_game_visual` returns `int` of the final buffer and logs its keys under "PGG_Game" |
| Investment.FixedResultInRange | Exc_Ext_High.py:552-554 | under the corrected loop, the result is in 0..10 and never raises |
| Investment.ReturnLastKeepsRange | Exc_Ext_High.py:541-570 | as written, the result is in 0..10 if nothing follows a Return in its batch |
| Investment.SevenIsInvested | Exc_Ext_High.py:548-554 | "7" then Return returns 7 |
| Investment.FifteenIsRejected | Exc_Ext_High.py:537-558 | "15" then Return at time t clears the buffer and keeps waiting; the range message is on exactly the frames drawn before t + 2000 ms |
| Investment.UnparsableIsIgnored | Exc_Ext_High.py:559-560 | a confirmed "²" is silently kept |
| Investment.TrailingDigitExceedsEndowment | Exc_Ext_High.py:541-570 | as written, "5", Return, "7" in one batch returns 57 |
| Investment.TrailingBackspaceRaises | Exc_Ext_High.py:541-570 | as written, "5", Return, Backspace in one batch makes `int("")` raise |
| Wrap.Split | Exc_Ext_High.py:169 | `split('\n')` always gives at least one paragraph |
| Wrap.SplitJoin | Exc_Ext_High.py:169 | joining the paragraphs with line breaks gives the text back, and no paragraph contains a break |
| Wrap.ConcatWrapParagraph | Exc_Ext_High.py:170-183 | a paragraph's drawn lines, concatenated, are the paragraph |
| Wrap.EmptyParagraphDrawsNothing | Exc_Ext_High.py:181 | an empty paragraph draws no line, and any other paragraph draws at least one |
| Wrap.WrapParagraphGreedy | Exc_Ext_High.py:172-180 | every drawn line of two or more characters measures under the box width, and each line's first character would have made the previous line too wide |
| Wrap.TimesIsProduct | Exc_Ext_High.py:179 | moving `y` down once per line moves it by lines × step |
| Wrap.DrawParagraph | Exc_Ext_High.py:171-183 | the character loop draws the paragraph's greedy lines and moves `y` once per line |
| Wrap.DrawTextWrapped | Exc_Ext_High.py:166-184 | the drawn lines are the wrapped text, and `y` = top + lines × (line height + spacing) |
| Persistence.SummaryRowReadsBack | Exc_Ext_High.py:146 | a summary row reads back as ID, label, time, the investment and the endowment 10 |
| Persistence.AppendSummary | Exc_Ext_High.py:139-146 | the header is written before the row exactly when the file did not exist |
| Persistence.SummaryAfterExisting | Exc_Ext_High.py:142-146 | appending to an existing file adds only the rows |
| Persistence.HeaderOnce | Exc_Ext_High.py:139-146 | runs that start without the file leave one header, at the top, followed by the rows in order |
| Persistence.EntryRows | Exc_Ext_High.py:158-160 | one detail row per log entry |
| Persistence.FilledAll | Exc_Ext_High.py:158-159 | the log after saving has the same length |
| Persistence.DetailFileLayout | Exc_Ext_High.py:152-160 | the header, then each entry in log order as a row; high-necessity rows start with the ID; reaction times read back |
| Persistence.DetailIsNotSummary | Exc_Ext_High.py:152 | the detail file never overwrites the summary file |
| Persistence.SavedTouchesTwoFiles | Exc_Ext_High.py:135-163 | saving changes only the summary and detail files; the summary ends with the new row, starts with the header if it was new, and the detail file is the log |
| Persistence.FailedOpenKeepsFiles | Exc_Ext_High.py:148-149 | a failed `open` leaves its file unchanged; a failed summary `open` does not stop the detail file |
| Persistence.WriteDetailRows | Exc_Ext_High.py:157-160 | the detail rows are the header then one row per entry, in log order; in the high-necessity script every entry's Subject_ID is set in place, in the others the log is unchanged |
| Persistence.SaveAllData | Exc_Ext_High.py:135-163 | `save_all_data` produces the files of `Saved`; in the high-necessity script, the log's Subject_IDs are filled in place |
| Launch.Dirname | Exc_Ext_High.py:337 | `os.path.dirname` is a prefix of the path ending just before its last separator, or "" when it has none |
| Launch.Join | Exc_Ext_High.py:338 | `os.path.join` starts with the directory and ends with the name |
| Launch.DirnameOfAppended | Exc_Ext_High.py:337-338 | a directory, a separator and a name without separators have that directory as dirname |
| Launch.DirnameJoin | Exc_Ext_High.py:337-338 | the dirname of a name joined to a directory is that directory |
| Launch.WorkDirOfInstall | Exc_Ext_High.py:14 | the program's directory is `D:\Program\Cyberball` |
| Launch.ScriptPathInWorkDir | Exc_Ext_High.py:17 | the game script's path is the program's directory, a separator and `Standard.cbs` |
| Launch.ScriptBesideExecutable | Exc_Ext_High.py:337-338 | the game script is looked up in the program's own directory |
| Launch.LaunchCommand | Exc_Ext_High.py:332-343 | a missing executable spawns nothing; otherwise the exclusion scripts run it from its own directory, passing the game script iff it exists; the inclusion script passes only the executable (Inc_Int_Low.py:325); whatever is passed lies in the working directory |
| Launch.AwaitReturn | Inc_Int_Low.py:318-322 | the missing-executable screen is left exactly after the first frame containing a Return key press |
| Launch.CloseDoesNotLeave | Inc_Int_Low.py:318-321 | polling frames that hold only window closes never leaves the screen and polls every frame |
| Launch.ReturnOnSecondFrame | Inc_Int_Low.py:318-321 | a close on the first frame is ignored, and a Return after another key on the second leaves after exactly two frames |

## Left out

- Rendering (fills, blits, rectangles, `draw_avatar`, fonts, `clock.tick`) is left out. The font enters only as the width function given to `Wrap`, and drawing only as the list of lines drawn.
- The external task is a foreign call and is not modelled: `subprocess.Popen`, the startup sleep, `pyautogui` keystroke injection and `process.wait`. Only the choice of command is modelled.
- The exclusion scripts acknowledge a missing executable at the console (`input`). This console read is I/O and is not modelled; the launch is just `Skipped`.
- The instruction, ready-to-launch, feedback, matching, loading, call-experimenter, necessity-manipulation and end scenes are not modelled. The matching and loading scenes are timed with `time.sleep` and `random.uniform`. Most of the others wait for Space and log that key press through `record_event` (Exc_Ext_High.py:259, 282, 324, 407, 431, 452, 493), adding one entry to `KEY_LOGS` each. `Persistence.SaveAllData` takes the log as it is given, so those entries are covered only as arbitrary log content, not as the output of a modelled scene.
- Wall-clock time stamps are opaque strings. Clock readings (`pygame.time.get_ticks`) are values carried by each polled key event.
- File contents are CSV rows. CSV quoting, the `utf-8-sig` encoding and I/O failures other than a failed `open` are left out.
- A window close ends the scene as `Aborted`; `sys.exit` itself, and the data it discards, are not modelled further.
- The top-level crash handler, the dependency import check and `scene_end` are not modelled.
- Console output is not modelled: progress messages, the messages printed when saving fails, and printed tracebacks.
- Launch.Dirname, Launch.Join: only paths shaped like `CYBERBALL_PATH` are modelled, with `\` as the only separator. Windows path rules beyond that are left out: `/` as a separator, drive letters, trailing or repeated separators, and an absolute second argument to `join`.
- Chars.ParseInt: Python's `int` also accepts surrounding whitespace, a leading `+` or `-`, and `_` between digits (`int(" 7")`, `int("+7")`, `int("1_0")`); `ParseInt` rejects them. Neither buffer can hold those characters, because of the `isalnum` and `isnumeric` guards at Exc_Ext_High.py:210 and 565.
- Chars.IsAlnum, Chars.IsNumeric: Python consults the full Unicode database; these are exact only on Latin-1.
- `event.unicode` is modelled as a single character. Multi-character input-method strings are not modelled.
- `PGG_MULTIPLIER` and `PGG_THRESHOLD` appear only in instruction text and are not modelled.

## Findings

| source | as written | input that shows it | evidently intended | confidence | as-written member | corrected member |
|---|---|---|---|---|---|---|
| Exc_Ext_High.py:541-570 | the event loop goes on after `done`, and the scene returns `int` of the final buffer | "5", Return, "7" polled in one frame returns 57 | return a validated value in 0..10 | medium, not executed | Investment.TrailingDigitExceedsEndowment | Investment.FixedResultInRange |
| Exc_Ext_High.py:541-570 | a Backspace after the confirming Return empties the buffer, and `int("")` raises | "5", Return, Backspace polled in one frame | return 5 | medium, not executed | Investment.TrailingBackspaceRaises | Investment.FixedResultInRange |
| Exc_Ext_High.py:196-226 | the ID loop also goes on after `done` | "a", Return, Backspace polled in one frame returns "" | only a non-empty ID is confirmed | medium, not executed | IdEntry.TrailingBackspaceEmptiesId | IdEntry.FixedConfirmsNonEmpty |
| Exc_Ext_High.py:210-212 | the ID scene accepts letters, but `main` reads the ID with `int(subject_id)` at line 592 | "A", "7", Return confirms "A7"; `int("A7")` raises ValueError, and the top-level handler ends the run before anything is saved | accept only digits, so that every confirmed ID gets a posture | high, not executed | IdEntry.LetterIdHasNoPosture | IdEntry.DigitIdHasPosture |

The same loops are at Exc_Ext_Low.py:528-558 and 177-208, and at Inc_Int_Low.py:481-511 and 180-214. The ID's `int` conversion is at Exc_Ext_Low.py:581 and Inc_Int_Low.py:534. The corrected loop is `stopAtDone == true` in `Scene.RunScene`, `IdEntry.GetUserInput` and `Investment.ScenePggGameVisual`. It breaks out of the batch once the scene is done.
