/**
 * Starting the external ball-tossing program: the exclusion scripts start
 * it after closing their window, the inclusion script while its window is
 * still open. Only the choice of command is modelled; spawning it, typing
 * the ID and condition into it and waiting for it to exit are foreign calls.
 */
module Launch {
  import opened Wrappers
  import opened Input
  import opened Variants

  /** The Windows path separator. */
  const Sep: char := '\\'

  /** `os.path.dirname`: the part of the path before its last separator, or "" when it has none. */
  function Dirname(p: string): (r: string)
    ensures r <= p
    ensures Sep !in p ==> r == []
    ensures Sep in p ==> |r| < |p| && p[|r|] == Sep && Sep !in p[|r| + 1..]
    decreases |p|
  {
    if p == [] then []
    else if p[|p| - 1] == Sep then p[..|p| - 1]
    else
      var r := Dirname(p[..|p| - 1]);
      assert p[..|p| - 1] == p[..|p| - 1][..|r|] + p[..|p| - 1][|r|..];
      assert Sep in p ==> Sep in p[..|p| - 1] by {
        if Sep in p {
          var i :| 0 <= i < |p| && p[i] == Sep;
          assert p[..|p| - 1][i] == Sep;
        }
      }
      assert Sep in p ==> p[|r| + 1..] == p[..|p| - 1][|r| + 1..] + [p[|p| - 1]];
      r
  }

  /** `os.path.join(d, n)` for a relative name `n`: one separator between them, unless `d` is empty or already ends in one. */
  function Join(d: string, n: string): (r: string)
    ensures d <= r && |r| >= |n| && r[|r| - |n|..] == n
    ensures |r| <= |d| + 1 + |n|
  {
    if d == [] || d[|d| - 1] == Sep then d + n else d + [Sep] + n
  }

  /** A name without separators joined to a directory not ending in one has that directory as its dirname. */
  lemma {:induction false} DirnameOfAppended(d: string, n: string)
    requires Sep !in n
    ensures Dirname(d + [Sep] + n) == d
    decreases |n|
  {
    var p := d + [Sep] + n;
    if n != [] {
      assert p[|p| - 1] == n[|n| - 1];
      assert p[..|p| - 1] == d + [Sep] + n[..|n| - 1];
      DirnameOfAppended(d, n[..|n| - 1]);
    } else {
      assert p[..|p| - 1] == d;
    }
  }

  /** `Join` and `Dirname` undo each other: a name joined to a directory lies in that directory. */
  lemma DirnameJoin(d: string, n: string)
    requires Sep !in n
    requires d == [] || d[|d| - 1] != Sep
    ensures Dirname(Join(d, n)) == d
  {
    if d != [] {
      DirnameOfAppended(d, n);
    }
  }

  /** `work_dir`: the program's own directory. */
  const WorkDir: string := Dirname(CyberballPath)

  /** `script_path`: the game script looked up in the program's directory. */
  const ScriptPath: string := Join(WorkDir, ScriptName)

  /** The program's directory is `D:\\Program\\Cyberball`. */
  lemma WorkDirOfInstall()
    ensures WorkDir == "D:\\Program\\Cyberball"
  {
    var exe := "Cyberball-Play.exe";
    assert CyberballPath == "D:\\Program\\Cyberball" + [Sep] + exe;
    DirnameOfAppended("D:\\Program\\Cyberball", exe);
  }

  /** The game script's path is the program's directory, a separator and the script's name. */
  lemma ScriptPathInWorkDir()
    ensures ScriptPath == WorkDir + [Sep] + ScriptName
  {
    WorkDirOfInstall();
    assert WorkDir[|WorkDir| - 1] != Sep;
  }

  /** The game script lies in the same directory as the program. */
  lemma ScriptBesideExecutable()
    ensures Dirname(ScriptPath) == Dirname(CyberballPath)
  {
    ScriptPathInWorkDir();
    DirnameOfAppended(WorkDir, ScriptName);
  }

  /** What the launcher does: nothing, or spawn `argv` in working directory `cwd` (None: the caller's). */
  datatype Launch = Skipped | Spawned(argv: seq<string>, cwd: Option<string>)

  /**
   * The exclusion scripts run the executable from its own directory and pass
   * the game script when that file exists; the inclusion script passes only
   * the executable. A missing executable spawns nothing. Whatever is passed
   * lies in the directory the program is run from.
   */
  function LaunchCommand(v: Variant, exeExists: bool, scriptExists: bool): (r: Launch)
    ensures r.Spawned? <==> exeExists
    ensures r.Spawned? ==> |r.argv| >= 1 && r.argv[0] == CyberballPath
    ensures r.Spawned? && v != IncIntLow ==> r.cwd == Some(WorkDir) && (|r.argv| == 2 <==> scriptExists)
    ensures r.Spawned? && |r.argv| == 2 ==> r.argv[1] == ScriptPath
    ensures r.Spawned? && v == IncIntLow ==> r == Spawned([CyberballPath], None)
    ensures r.Spawned? && r.cwd.Some? ==> r.cwd.value == Dirname(r.argv[0])
    ensures r.Spawned? && |r.argv| == 2 ==> Dirname(r.argv[1]) == Dirname(r.argv[0])
  {
    ScriptBesideExecutable();
    if !exeExists then Skipped
    else if v == IncIntLow then Spawned([CyberballPath], None)
    else if scriptExists then Spawned([CyberballPath, ScriptPath], Some(WorkDir))
    else Spawned([CyberballPath], Some(WorkDir))
  }

  predicate IsReturn(e: Event) {
    e.KeyDown? && e.key == Return
  }

  predicate HasReturn(b: Batch) {
    exists k | 0 <= k < |b| :: IsReturn(b[k])
  }

  /**
   * The inclusion script's screen for a missing executable: it polls frame
   * after frame and leaves only once a frame held a Return key press; the
   * rest of that frame's events are still read, and window-close requests
   * are ignored. `consumed` is the number of frames polled.
   */
  method AwaitReturn(frames: seq<Batch>) returns (left: bool, consumed: nat)
    ensures consumed <= |frames|
    ensures left ==> consumed > 0 && HasReturn(frames[consumed - 1])
    ensures forall j | 0 <= j < consumed - 1 :: !HasReturn(frames[j])
    ensures !left ==> consumed == |frames| && forall j | 0 <= j < |frames| :: !HasReturn(frames[j])
  {
    var wait := true;
    var f := 0;
    while wait && f < |frames|
      invariant 0 <= f <= |frames|
      invariant forall j | 0 <= j < f - 1 :: !HasReturn(frames[j])
      invariant wait ==> forall j | 0 <= j < f :: !HasReturn(frames[j])
      invariant !wait ==> f > 0 && HasReturn(frames[f - 1])
    {
      var b := frames[f];
      var e := 0;
      while e < |b|
        invariant 0 <= e <= |b|
        invariant wait <==> forall k | 0 <= k < e :: !IsReturn(b[k])
      {
        if IsReturn(b[e]) {
          wait := false;
        }
        e := e + 1;
      }
      f := f + 1;
    }
    left := !wait;
    consumed := f;
  }

  /** Scenario: closing the window, however often, never leaves the wait. */
  method CloseDoesNotLeave(frames: seq<Batch>) returns (left: bool, consumed: nat)
    requires forall j, k | 0 <= j < |frames| && 0 <= k < |frames[j]| :: frames[j][k] == Quit
    ensures !left && consumed == |frames|
  {
    left, consumed := AwaitReturn(frames);
  }

  /** Scenario: a close request on the first frame is ignored, and Return among other keys on the second leaves. */
  method ReturnOnSecondFrame(t: int, stamp: string) returns (left: bool, consumed: nat)
    ensures left && consumed == 2
  {
    var second := [KeyDown(Other, t, stamp), KeyDown(Return, t, stamp), Quit];
    var frames := [[Quit], second];
    assert HasReturn(frames[1]) by { assert IsReturn(second[1]); }
    assert !HasReturn(frames[0]);
    left, consumed := AwaitReturn(frames);
  }
}
