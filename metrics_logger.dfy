/** The metrics logger of metrics_logger.py: the list of trial records, and
 *  their export as a CSV table whose columns are the first record's keys.
 *  The file itself is not modelled: an export yields the header and the rows
 *  that `csv.DictWriter` writes.
 */
module Metrics {
  import opened Records

  /** The header and the data rows of an exported table; a row holds one
   *  value per header column. */
  datatype CsvTable = CsvTable(header: seq<string>, rows: seq<seq<Value>>)

  /** How `export_csv` ends: with the whole table written; with `IndexError`
   *  because there is no trial; or with the `ValueError` `DictWriter` raises
   *  for a record that has a key outside the header, after the rows before
   *  that record have been written. */
  datatype ExportResult =
    | Exported(table: CsvTable)
    | NoTrials
    | ExtraFields(written: CsvTable)

  /** Every key of `rec` is a column of `header`. */
  predicate Fits(rec: Record, header: seq<string>) {
    forall i :: 0 <= i < |rec| ==> rec[i].key in header
  }

  /** The row `DictWriter` writes for `rec`: its value for each column, and
   *  the empty string where it has no such key. */
  function CsvRow(header: seq<string>, rec: Record): (row: seq<Value>)
    ensures |row| == |header|
    ensures forall i :: 0 <= i < |header| ==> row[i] == Get(rec, header[i]).GetOr(TextVal(""))
  {
    seq(|header|, i requires 0 <= i < |header| => Get(rec, header[i]).GetOr(TextVal("")))
  }

  /** The index of the first record that does not fit `header`, or |recs|. */
  function FirstMisfit(header: seq<string>, recs: seq<Record>): (k: nat)
    ensures k <= |recs|
    ensures forall i :: 0 <= i < k ==> Fits(recs[i], header)
    ensures k < |recs| ==> !Fits(recs[k], header)
  {
    if recs == [] || !Fits(recs[0], header) then 0 else 1 + FirstMisfit(header, recs[1..])
  }

  function Rows(header: seq<string>, recs: seq<Record>, n: nat): (rows: seq<seq<Value>>)
    requires n <= |recs|
    ensures |rows| == n
    ensures forall i :: 0 <= i < n ==> rows[i] == CsvRow(header, recs[i])
  {
    seq(n, i requires 0 <= i < n => CsvRow(header, recs[i]))
  }

  lemma RowsStep(header: seq<string>, recs: seq<Record>, n: nat)
    requires n < |recs|
    ensures Rows(header, recs, n + 1) == Rows(header, recs, n) + [CsvRow(header, recs[n])]
  {
  }

  /** `export_csv()` on the given trials: the header is the first trial's keys
   *  in order, and each trial gives one row, in order, until one of them has
   *  a key outside the header. */
  function Export(trials: seq<Record>): (r: ExportResult)
    ensures r.NoTrials? <==> trials == []
    ensures r.Exported? <==> trials != [] && forall i :: 0 <= i < |trials| ==> Fits(trials[i], Keys(trials[0]))
    ensures r.Exported? ==>
              && r.table.header == Keys(trials[0])
              && |r.table.rows| == |trials|
              && forall i :: 0 <= i < |trials| ==> r.table.rows[i] == CsvRow(Keys(trials[0]), trials[i])
    ensures r.ExtraFields? ==>
              var k := |r.written.rows|;
              && r.written.header == Keys(trials[0])
              && k < |trials| && !Fits(trials[k], Keys(trials[0]))
              && forall i :: 0 <= i < k ==> (Fits(trials[i], Keys(trials[0]))
                                            && r.written.rows[i] == CsvRow(Keys(trials[0]), trials[i]))
  {
    if trials == [] then NoTrials
    else
      var header := Keys(trials[0]);
      var k := FirstMisfit(header, trials);
      var table := CsvTable(header, Rows(header, trials, k));
      if k == |trials| then Exported(table) else ExtraFields(table)
  }

  class MetricsLogger {
    /** `trials`: the trial records, in the order they were logged. */
    var trials: seq<Record>

    /** `MetricsLogger()` */
    constructor ()
      ensures trials == []
    {
      trials := [];
    }

    /** `log_trial(trial_data)` */
    method LogTrial(trialData: Record)
      modifies this`trials
      ensures trials == old(trials) + [trialData]
    {
      trials := trials + [trialData];
    }

    /** `export_csv(filename)`: the table written, as `DictWriter.writeheader`
     *  and `DictWriter.writerows` produce it one row at a time. */
    method ExportCsv() returns (r: ExportResult)
      ensures r == Export(trials)
    {
      if trials == [] {
        return NoTrials;
      }
      var header := Keys(trials[0]);
      var rows: seq<seq<Value>> := [];
      var i := 0;
      while i < |trials|
        invariant 0 <= i <= |trials|
        invariant forall j :: 0 <= j < i ==> Fits(trials[j], header)
        invariant rows == Rows(header, trials, i)
      {
        if !Fits(trials[i], header) {
          ExportUpTo(trials, i);
          return ExtraFields(CsvTable(header, rows));
        }
        RowsStep(header, trials, i);
        rows := rows + [CsvRow(header, trials[i])];
        i := i + 1;
      }
      ExportUpTo(trials, |trials|);
      r := Exported(CsvTable(header, rows));
    }
  }

  /** The export of trials whose first misfit is at `k`. */
  lemma ExportUpTo(trials: seq<Record>, k: nat)
    requires trials != [] && k <= |trials|
    requires forall i :: 0 <= i < k ==> Fits(trials[i], Keys(trials[0]))
    requires k < |trials| ==> !Fits(trials[k], Keys(trials[0]))
    ensures var table := CsvTable(Keys(trials[0]), Rows(Keys(trials[0]), trials, k));
            Export(trials) == if k == |trials| then Exported(table) else ExtraFields(table)
  {
    if k < |trials| {
      FirstMisfitIs(Keys(trials[0]), trials, k);
    }
  }

  // ---------------------------------------------------------------------------
  // Properties of the export

  /** The values of a record, in key order. */
  function Values(rec: seq<Field>): (vs: seq<Value>)
    ensures |vs| == |rec|
    ensures forall i :: 0 <= i < |rec| ==> vs[i] == rec[i].value
  {
    seq(|rec|, i requires 0 <= i < |rec| => rec[i].value)
  }

  /** The header row and the first data row together give back the first
   *  record: column i holds the value of the record's i-th key. */
  lemma FirstRowRoundTrip(rec: Record)
    ensures CsvRow(Keys(rec), rec) == Values(rec)
  {
    var header := Keys(rec);
    forall i | 0 <= i < |rec|
      ensures CsvRow(header, rec)[i] == Values(rec)[i]
    {
      assert Get(rec, header[i]) == Some(rec[i].value);
    }
  }

  /** Records with the same keys, in the same order, export completely: one
   *  row per record holding its values. */
  lemma UniformTrialsExport(trials: seq<Record>)
    requires trials != []
    requires forall i :: 0 <= i < |trials| ==> Keys(trials[i]) == Keys(trials[0])
    ensures Export(trials).Exported?
    ensures Export(trials).table == CsvTable(Keys(trials[0]), seq(|trials|, i requires 0 <= i < |trials| => Values(trials[i])))
  {
    var header := Keys(trials[0]);
    forall i | 0 <= i < |trials|
      ensures Fits(trials[i], header) && CsvRow(header, trials[i]) == Values(trials[i])
    {
      FirstRowRoundTrip(trials[i]);
      forall j | 0 <= j < |trials[i]| ensures trials[i][j].key in header {
        assert trials[i][j].key == Keys(trials[i])[j];
      }
    }
  }

  /** A record without one of the header's keys gets an empty cell in that column. */
  lemma MissingKeyLeavesBlank(header: seq<string>, rec: Record, i: nat)
    requires i < |header| && header[i] !in Keys(rec)
    ensures CsvRow(header, rec)[i] == TextVal("")
  {
  }

  /** A record with a key outside the first record's keys stops the export,
   *  and only the records before it are written. */
  lemma ExtraKeyStopsExport(trials: seq<Record>, k: nat)
    requires 0 < k < |trials| && !Fits(trials[k], Keys(trials[0]))
    requires forall i :: 0 <= i < k ==> Fits(trials[i], Keys(trials[0]))
    ensures Export(trials).ExtraFields?
    ensures |Export(trials).written.rows| == k
  {
    var header := Keys(trials[0]);
    FirstMisfitIs(header, trials, k);
  }

  lemma {:induction false} FirstMisfitIs(header: seq<string>, recs: seq<Record>, k: nat)
    requires k < |recs| && !Fits(recs[k], header)
    requires forall i :: 0 <= i < k ==> Fits(recs[i], header)
    ensures FirstMisfit(header, recs) == k
    decreases k
  {
    if k > 0 {
      assert Fits(recs[0], header);
      FirstMisfitIs(header, recs[1..], k - 1);
    }
  }
}
