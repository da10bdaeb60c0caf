/**
 * `save_all_data`: one row is appended to the summary file shared by all
 * runs, and the subject's key log is written to a detail file of its own.
 * Files are modelled as sequences of CSV rows, each row a sequence of
 * cells; a failure to open a file is a parameter, and the source catches it
 * and only prints it, so the other file is still written.
 */
module Persistence {
  import opened Wrappers
  import opened Chars
  import opened Variants
  import opened KeyLog

  type Row = seq<string>

  const SummaryHeader: Row := ["Subject_ID", "Condition_Group", "Timestamp", "PGG_Investment", "Total_Endowment"]

  /** One subject's summary row; the two numbers are written with `str`. */
  function SummaryRow(subjectId: string, group: string, now: string, investment: nat): Row {
    [subjectId, group, now, Show(investment), Show(Endowment)]
  }

  /** A row as `save_all_data` writes it after the header. */
  predicate IsDataRow(r: Row) {
    |r| == |SummaryHeader| && r[4] == Show(Endowment)
  }

  /** What a reader of the summary file gets back from a saved row. */
  lemma SummaryRowReadsBack(subjectId: string, group: string, now: string, investment: nat)
    ensures var r := SummaryRow(subjectId, group, now, investment);
      IsDataRow(r) && r != SummaryHeader
      && r[0] == subjectId && r[1] == group && r[2] == now
      && ParseInt(r[3]) == Some(investment) && ParseInt(r[4]) == Some(Endowment)
  {
    ParseShow(investment);
    ParseShow(Endowment);
    assert Show(Endowment) == "10";
  }

  /**
   * Opening in append mode: the header is written first exactly when the
   * file did not exist before (`os.path.isfile` was false).
   */
  function AppendSummary(file: Option<seq<Row>>, row: Row): (r: seq<Row>)
    ensures file.None? ==> r == [SummaryHeader, row]
    ensures file.Some? ==> r == file.value + [row]
  {
    match file
    case None => [SummaryHeader, row]
    case Some(rows) => rows + [row]
  }

  /** The summary file after several runs, one appended row each. */
  function SummaryAfter(file: Option<seq<Row>>, rows: seq<Row>): seq<Row>
    requires file.Some? || rows != []
    decreases |rows|
  {
    if rows == [] then file.value
    else SummaryAfter(Some(AppendSummary(file, rows[0])), rows[1..])
  }

  lemma {:induction false} SummaryAfterExisting(file: seq<Row>, rows: seq<Row>)
    ensures SummaryAfter(Some(file), rows) == file + rows
    decreases |rows|
  {
    if rows != [] {
      SummaryAfterExisting(file + [rows[0]], rows[1..]);
      assert file + [rows[0]] + rows[1..] == file + rows;
    }
  }

  /**
   * Runs that start without a summary file leave exactly one header, at the
   * top, followed by their rows in order.
   */
  lemma HeaderOnce(rows: seq<Row>)
    requires rows != []
    requires forall k | 0 <= k < |rows| :: IsDataRow(rows[k])
    ensures SummaryAfter(None, rows) == [SummaryHeader] + rows
    ensures forall i | 0 <= i < |SummaryAfter(None, rows)| :: SummaryAfter(None, rows)[i] == SummaryHeader <==> i == 0
  {
    SummaryAfterExisting([SummaryHeader, rows[0]], rows[1..]);
    assert [SummaryHeader, rows[0]] + rows[1..] == [SummaryHeader] + rows;
    assert Show(Endowment) == "10";
    forall i | 1 <= i < |rows| + 1
      ensures ([SummaryHeader] + rows)[i] != SummaryHeader
    {
      assert ([SummaryHeader] + rows)[i] == rows[i - 1];
      assert IsDataRow(rows[i - 1]);
      assert SummaryHeader[4] != "10";
    }
  }

  /** `str` of the reaction time, which is `pygame.time.get_ticks()` minus the scene's start. */
  function ShowInt(i: int): string {
    if i < 0 then "-" + Show(-i) else Show(i)
  }

  /**
   * A log entry as `csv.DictWriter` writes it under the variant's field
   * names; a Subject_ID the entry lacks would be written empty.
   */
  function EntryRow(v: Variant, e: Entry): Row {
    (if HasSubjectIdColumn(v) then [if e.subjectId.Some? then e.subjectId.value else ""] else [])
      + [e.scene, e.stamp, ShowInt(e.rt), e.key, e.note]
  }

  function EntryRows(v: Variant, es: seq<Entry>): (rows: seq<Row>)
    ensures |rows| == |es|
  {
    seq(|es|, i requires 0 <= i < |es| => EntryRow(v, es[i]))
  }

  /** The entry as it stands once the saving loop has passed it: only the high-necessity script sets the ID. */
  function Filled(v: Variant, e: Entry, subjectId: string): Entry {
    if HasSubjectIdColumn(v) then e.(subjectId := Some(subjectId)) else e
  }

  function FilledAll(v: Variant, es: seq<Entry>, subjectId: string): (r: seq<Entry>)
    ensures |r| == |es|
  {
    if HasSubjectIdColumn(v) then WithSubjectId(es, subjectId) else es
  }

  /** The detail file, opened in write mode: the header, then one row per log entry in log order. */
  function DetailFile(v: Variant, es: seq<Entry>, subjectId: string): seq<Row> {
    [DetailFields(v)] + EntryRows(v, FilledAll(v, es, subjectId))
  }

  /**
   * The layout of a detail file: every row has one cell per field, the
   * high-necessity rows all start with the subject's ID, and the remaining
   * cells are the entry's own, its reaction time reading back as written.
   */
  lemma DetailFileLayout(v: Variant, es: seq<Entry>, subjectId: string)
    ensures var f := DetailFile(v, es, subjectId);
      |f| == |es| + 1 && f[0] == DetailFields(v)
      && forall j | 1 <= j < |f| ::
        |f[j]| == |DetailFields(v)|
        && (HasSubjectIdColumn(v) ==> f[j][0] == subjectId)
        && f[j][|f[j]| - 5..] == [es[j - 1].scene, es[j - 1].stamp, ShowInt(es[j - 1].rt), es[j - 1].key, es[j - 1].note]
        && (es[j - 1].rt >= 0 ==> ParseInt(f[j][|f[j]| - 3]) == Some(es[j - 1].rt))
  {
    var f := DetailFile(v, es, subjectId);
    forall j | 1 <= j < |f|
      ensures |f[j]| == |DetailFields(v)|
      ensures HasSubjectIdColumn(v) ==> f[j][0] == subjectId
      ensures f[j][|f[j]| - 5..] == [es[j - 1].scene, es[j - 1].stamp, ShowInt(es[j - 1].rt), es[j - 1].key, es[j - 1].note]
      ensures es[j - 1].rt >= 0 ==> ParseInt(f[j][|f[j]| - 3]) == Some(es[j - 1].rt)
    {
      var e := es[j - 1];
      assert f[j] == EntryRow(v, FilledAll(v, es, subjectId)[j - 1]);
      if e.rt >= 0 {
        ParseShow(e.rt);
      }
    }
  }

  /** The detail file never has the summary file's name, so saving one cannot overwrite the other. */
  lemma DetailIsNotSummary(v: Variant, subjectId: string)
    ensures DetailFileName(v, subjectId) != SummaryFileName
  {
    assert DetailFileName(v, subjectId)[0] != SummaryFileName[0];
  }

  /** The files after `save_all_data`, given whether each `open` succeeded. */
  function Saved(v: Variant, files: map<string, seq<Row>>, es: seq<Entry>, subjectId: string, group: string,
                 now: string, investment: nat, summaryOpens: bool, detailOpens: bool): map<string, seq<Row>>
  {
    var existing := if SummaryFileName in files then Some(files[SummaryFileName]) else None;
    var afterSummary := if summaryOpens
      then files[SummaryFileName := AppendSummary(existing, SummaryRow(subjectId, group, now, investment))]
      else files;
    if detailOpens then afterSummary[DetailFileName(v, subjectId) := DetailFile(v, es, subjectId)] else afterSummary
  }

  /** Saving changes no file but the two it names, and each one as described above. */
  lemma SavedTouchesTwoFiles(v: Variant, files: map<string, seq<Row>>, es: seq<Entry>, subjectId: string, group: string, now: string, investment: nat)
    ensures var r := Saved(v, files, es, subjectId, group, now, investment, true, true);
      r.Keys == files.Keys + {SummaryFileName, DetailFileName(v, subjectId)}
      && (forall name | name in files && name != SummaryFileName && name != DetailFileName(v, subjectId) :: r[name] == files[name])
      && r[SummaryFileName][|r[SummaryFileName]| - 1] == SummaryRow(subjectId, group, now, investment)
      && (SummaryFileName !in files ==> r[SummaryFileName][0] == SummaryHeader)
      && r[DetailFileName(v, subjectId)] == DetailFile(v, es, subjectId)
  {
    DetailIsNotSummary(v, subjectId);
  }

  /** A failed `open` leaves its file alone: the error is printed and saving goes on. */
  lemma FailedOpenKeepsFiles(v: Variant, files: map<string, seq<Row>>, es: seq<Entry>, subjectId: string, group: string, now: string, investment: nat)
    ensures Saved(v, files, es, subjectId, group, now, investment, false, false) == files
    ensures var r := Saved(v, files, es, subjectId, group, now, investment, false, true);
      SummaryFileName in files ==> SummaryFileName in r && r[SummaryFileName] == files[SummaryFileName]
  {
    DetailIsNotSummary(v, subjectId);
  }

  class Disk {
    var files: map<string, seq<Row>>

    constructor (files: map<string, seq<Row>>)
      ensures this.files == files
    {
      this.files := files;
    }
  }

  /**
   * The loop over the key log that writes the detail file's rows. In the
   * high-necessity script it first sets each entry's Subject_ID in place.
   */
  method WriteDetailRows(v: Variant, log: Log, subjectId: string) returns (rows: seq<Row>)
    modifies log
    ensures rows == DetailFile(v, old(log.entries), subjectId)
    ensures log.entries == FilledAll(v, old(log.entries), subjectId)
  {
    rows := [DetailFields(v)];
    var i := 0;
    while i < |log.entries|
      invariant 0 <= i <= |log.entries| == |old(log.entries)|
      invariant forall j | 0 <= j < i :: log.entries[j] == Filled(v, old(log.entries)[j], subjectId)
      invariant forall j | i <= j < |log.entries| :: log.entries[j] == old(log.entries)[j]
      invariant |rows| == i + 1 && rows[0] == DetailFields(v)
      invariant forall j | 1 <= j <= i :: rows[j] == EntryRow(v, Filled(v, old(log.entries)[j - 1], subjectId))
    {
      if HasSubjectIdColumn(v) {
        log.entries := log.entries[i := log.entries[i].(subjectId := Some(subjectId))];
      }
      rows := rows + [EntryRow(v, log.entries[i])];
      i := i + 1;
    }
    assert log.entries == FilledAll(v, old(log.entries), subjectId);
  }

  /**
   * `save_all_data`: the summary row is appended if that file opens, and
   * the detail file is written if it opens; the log's Subject_IDs are
   * filled in only when the detail file opened.
   */
  method SaveAllData(v: Variant, disk: Disk, log: Log, subjectId: string, group: string, now: string, investment: nat,
                     summaryOpens: bool, detailOpens: bool)
    requires log.withSubjectId == HasSubjectIdColumn(v)
    modifies disk, log
    ensures disk.files == Saved(v, old(disk.files), old(log.entries), subjectId, group, now, investment, summaryOpens, detailOpens)
    ensures log.entries == if detailOpens then FilledAll(v, old(log.entries), subjectId) else old(log.entries)
  {
    if summaryOpens {
      var existing := if SummaryFileName in disk.files then Some(disk.files[SummaryFileName]) else None;
      disk.files := disk.files[SummaryFileName := AppendSummary(existing, SummaryRow(subjectId, group, now, investment))];
    }
    if detailOpens {
      var rows := WriteDetailRows(v, log, subjectId);
      disk.files := disk.files[DetailFileName(v, subjectId) := rows];
    }
  }
}
