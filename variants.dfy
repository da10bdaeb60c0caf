/**
 * The three scripts of the experiment are one program with three
 * configurations: exclusion with external attribution and high necessity,
 * exclusion with external attribution and low necessity, and inclusion.
 * This module holds what differs between them apart from the condition label.
 */
module Variants {
  datatype Variant = ExcExtHigh | ExcExtLow | IncIntLow

  /** PGG_ENDOWMENT: the tokens each participant may invest. */
  const Endowment: nat := 10

  /** DATA_FILENAME: the summary file shared by all runs. */
  const SummaryFileName: string := "experiment_data.csv"

  /** CYBERBALL_PATH: where the ball-tossing program is installed. */
  const CyberballPath: string := "D:\\Program\\Cyberball\\Cyberball-Play.exe"

  /** CYBERBALL_SCRIPT_NAME: the game script, expected in the program's directory. */
  const ScriptName: string := "Standard.cbs"

  /** The ball-tossing game's condition: 1 excludes the participant, 2 includes them. */
  function ConditionId(v: Variant): string {
    if v == IncIntLow then "2" else "1"
  }

  /** Only the high-necessity script keeps a Subject_ID column in its key log. */
  predicate HasSubjectIdColumn(v: Variant) {
    v == ExcExtHigh
  }

  /** The header of the per-subject detail file. */
  function DetailFields(v: Variant): seq<string> {
    (if HasSubjectIdColumn(v) then ["Subject_ID"] else [])
      + ["Scene", "Timestamp", "Reaction_Time_ms", "Key", "Note"]
  }

  function DetailPrefix(v: Variant): string {
    if v == ExcExtHigh then "reaction_times_" else "key_logs_"
  }

  /** The per-subject detail file, named from the subject identifier. */
  function DetailFileName(v: Variant, subjectId: string): string {
    DetailPrefix(v) + subjectId + ".csv"
  }

  /** Two subjects of one variant never share a detail file. */
  lemma DetailFileNameInjective(v: Variant, a: string, b: string)
    requires DetailFileName(v, a) == DetailFileName(v, b)
    ensures a == b
  {
    var p := DetailPrefix(v);
    assert |a| == |b|;
    assert a == DetailFileName(v, a)[|p|..|p| + |a|];
    assert b == DetailFileName(v, b)[|p|..|p| + |b|];
  }
}
