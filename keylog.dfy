/**
 * The process-wide key log (KEY_LOGS): `record_event` appends one entry per
 * logged key press, and saving writes the entries out in order. In the
 * high-necessity script every entry also has a Subject_ID that starts empty
 * and is filled in when the log is saved.
 */
module KeyLog {
  import opened Wrappers

  /** What a scene hands to `record_event`: key name, reaction time, note, and the time stamp taken. */
  datatype Keystroke = Keystroke(key: string, rt: int, note: string, stamp: string)

  /** One log entry; `subjectId` is None in the scripts whose entries have no Subject_ID field. */
  datatype Entry = Entry(subjectId: Option<string>, scene: string, stamp: string, rt: int, key: string, note: string)

  function MakeEntry(withSubjectId: bool, scene: string, k: Keystroke): (e: Entry)
    ensures e.subjectId == (if withSubjectId then Some("") else None)
    ensures e.scene == scene && e.key == k.key && e.rt == k.rt && e.note == k.note && e.stamp == k.stamp
  {
    Entry(if withSubjectId then Some("") else None, scene, k.stamp, k.rt, k.key, k.note)
  }

  /** The entries a run of `record_event` calls from one scene appends, in order. */
  function MakeEntries(withSubjectId: bool, scene: string, ks: seq<Keystroke>): (es: seq<Entry>)
    ensures |es| == |ks|
  {
    if ks == [] then [] else [MakeEntry(withSubjectId, scene, ks[0])] + MakeEntries(withSubjectId, scene, ks[1..])
  }

  /** Entry `i` of what a scene appends is made from its keystroke `i`. */
  lemma {:induction false} MakeEntriesAt(withSubjectId: bool, scene: string, ks: seq<Keystroke>, i: nat)
    requires i < |ks|
    ensures MakeEntries(withSubjectId, scene, ks)[i] == MakeEntry(withSubjectId, scene, ks[i])
  {
    if i > 0 {
      MakeEntriesAt(withSubjectId, scene, ks[1..], i - 1);
    }
  }

  lemma {:induction false} MakeEntriesAppend(withSubjectId: bool, scene: string, a: seq<Keystroke>, b: seq<Keystroke>)
    ensures MakeEntries(withSubjectId, scene, a + b) == MakeEntries(withSubjectId, scene, a) + MakeEntries(withSubjectId, scene, b)
    decreases |a|
  {
    if a == [] {
      assert a + b == b;
    } else {
      assert (a + b)[0] == a[0] && (a + b)[1..] == a[1..] + b;
      MakeEntriesAppend(withSubjectId, scene, a[1..], b);
    }
  }

  /** The log after saving in the high-necessity script: every entry carries the subject's ID. */
  function WithSubjectId(es: seq<Entry>, id: string): (r: seq<Entry>)
    ensures |r| == |es|
    ensures forall i | 0 <= i < |es| :: r[i] == es[i].(subjectId := Some(id))
  {
    seq(|es|, i requires 0 <= i < |es| => es[i].(subjectId := Some(id)))
  }

  class Log {
    const withSubjectId: bool
    var entries: seq<Entry>

    constructor (withSubjectId: bool)
      ensures this.withSubjectId == withSubjectId && entries == []
    {
      this.withSubjectId := withSubjectId;
      entries := [];
    }

    /** `record_event`: exactly one entry is appended and the earlier ones stay as they were. */
    method Record(scene: string, k: Keystroke)
      modifies this
      ensures entries == old(entries) + [MakeEntry(withSubjectId, scene, k)]
    {
      entries := entries + [MakeEntry(withSubjectId, scene, k)];
    }
  }

  /** Before saving, every high-necessity entry has an empty Subject_ID; after, all carry the ID. */
  lemma RecordedThenFilled(scene: string, ks: seq<Keystroke>, id: string)
    ensures forall e | e in MakeEntries(true, scene, ks) :: e.subjectId == Some("")
    ensures forall e | e in WithSubjectId(MakeEntries(true, scene, ks), id) :: e.subjectId == Some(id)
  {
  }
}
