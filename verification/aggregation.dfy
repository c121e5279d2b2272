/**
 * The processing run over every uploaded file, and the two summaries
 * computed from its records: the roll-up by file name (pandas `groupby`,
 * which sorts its keys) and the grand totals over all sheets.
 */
module Aggregation {
  import opened Text
  import opened Classifier
  import opened Dispatch

  /** An uploaded file: its name and its content. */
  datatype Upload = Upload(name: string, data: Bytes)

  /** One line of the roll-up: a file name and the totals of all its sheets. */
  datatype FileSummary = FileSummary(file: string, entrada: real, saida: real)

  /** The records of a whole run: each file's records, appended in upload order. */
  function RunRecords(uploads: seq<Upload>,
                      readExcel: Bytes -> seq<NamedSheet>, readCsv: Bytes -> Table): seq<Record>
  {
    if uploads == [] then []
    else
      var last := uploads[|uploads| - 1];
      RunRecords(uploads[..|uploads| - 1], readExcel, readCsv)
        + FileRecords(last.name, last.data, readExcel, readCsv)
  }

  /** Reads one upload and appends its records, unless it yielded none. */
  method AppendUpload(records: seq<Record>, upload: Upload,
                      readExcel: Bytes -> seq<NamedSheet>, readCsv: Bytes -> Table)
    returns (extended: seq<Record>)
    ensures extended == records + FileRecords(upload.name, upload.data, readExcel, readCsv)
  {
    var result, _ := ProcessFile(upload.name, upload.data, readExcel, readCsv);
    if result != [] {
      extended := records + result;
    } else {
      extended := records;
      assert records + result == records;
    }
  }

  /**
   * The processing loop: every upload is read in turn and a non-empty
   * result is appended to the run's records.
   */
  method ProcessRun(uploads: seq<Upload>,
                    readExcel: Bytes -> seq<NamedSheet>, readCsv: Bytes -> Table)
    returns (records: seq<Record>)
    ensures records == RunRecords(uploads, readExcel, readCsv)
  {
    records := [];
    var i := 0;
    while i < |uploads|
      invariant 0 <= i <= |uploads|
      invariant records == RunRecords(uploads[..i], readExcel, readCsv)
    {
      records := AppendUpload(records, uploads[i], readExcel, readCsv);
      RunRecordsStep(uploads, i, readExcel, readCsv);
      i := i + 1;
    }
    assert uploads[..|uploads|] == uploads;
  }

  /** The records of the first `i + 1` uploads extend those of the first `i` by upload `i`'s. */
  lemma RunRecordsStep(uploads: seq<Upload>, i: nat,
                       readExcel: Bytes -> seq<NamedSheet>, readCsv: Bytes -> Table)
    requires i < |uploads|
    ensures RunRecords(uploads[..i + 1], readExcel, readCsv)
            == RunRecords(uploads[..i], readExcel, readCsv)
               + FileRecords(uploads[i].name, uploads[i].data, readExcel, readCsv)
  {
    assert uploads[..i + 1][..i] == uploads[..i];
  }

  /** An upload with a refused extension adds no record to the run. */
  lemma RefusedUploadAddsNothing(uploads: seq<Upload>, u: Upload,
                                 readExcel: Bytes -> seq<NamedSheet>, readCsv: Bytes -> Table)
    requires KindOf(u.name) == Unsupported
    ensures RunRecords(uploads + [u], readExcel, readCsv) == RunRecords(uploads, readExcel, readCsv)
  {
    assert (uploads + [u])[..|uploads|] == uploads;
    UnsupportedRecords(u.name, u.data, readExcel, readCsv);
    assert RunRecords(uploads, readExcel, readCsv) + [] == RunRecords(uploads, readExcel, readCsv);
  }

  /** A run in which every extension is refused has no records. */
  lemma AllRefusedRun(uploads: seq<Upload>,
                      readExcel: Bytes -> seq<NamedSheet>, readCsv: Bytes -> Table)
    requires forall k :: 0 <= k < |uploads| ==> KindOf(uploads[k].name) == Unsupported
    ensures RunRecords(uploads, readExcel, readCsv) == []
  {
    RefusedPrefixes(uploads, |uploads|);
    assert uploads[..|uploads|] == uploads;
    RefusedRunEmpty(uploads, readExcel, readCsv);
  }

  /** Every upload of the run has a refused extension, checked from the last upload back. */
  predicate AllRefused(uploads: seq<Upload>) {
    uploads == [] || (KindOf(uploads[|uploads| - 1].name) == Unsupported && AllRefused(uploads[..|uploads| - 1]))
  }

  lemma {:induction false} RefusedPrefixes(uploads: seq<Upload>, i: nat)
    requires i <= |uploads|
    requires forall k :: 0 <= k < |uploads| ==> KindOf(uploads[k].name) == Unsupported
    ensures AllRefused(uploads[..i])
  {
    if i > 0 {
      RefusedPrefixes(uploads, i - 1);
      var prefix := uploads[..i];
      assert prefix[..i - 1] == uploads[..i - 1];
      assert prefix[i - 1] == uploads[i - 1];
    }
  }

  lemma {:induction false} RefusedRunEmpty(uploads: seq<Upload>,
                                           readExcel: Bytes -> seq<NamedSheet>, readCsv: Bytes -> Table)
    requires AllRefused(uploads)
    ensures RunRecords(uploads, readExcel, readCsv) == []
  {
    if uploads != [] {
      var n := |uploads| - 1;
      RefusedRunEmpty(uploads[..n], readExcel, readCsv);
      UnsupportedRecords(uploads[n].name, uploads[n].data, readExcel, readCsv);
    }
  }

  /** The grand incoming total: the sum of every record's incoming total. */
  function TotalEntrada(records: seq<Record>): real {
    if records == [] then 0.0
    else TotalEntrada(records[..|records| - 1]) + records[|records| - 1].entrada
  }

  /** The grand outgoing total: the sum of every record's outgoing total. */
  function TotalSaida(records: seq<Record>): real {
    if records == [] then 0.0
    else TotalSaida(records[..|records| - 1]) + records[|records| - 1].saida
  }

  /** Grand totals over two runs of records add up. */
  lemma {:induction false} TotalsAppend(a: seq<Record>, b: seq<Record>)
    ensures TotalEntrada(a + b) == TotalEntrada(a) + TotalEntrada(b)
    ensures TotalSaida(a + b) == TotalSaida(a) + TotalSaida(b)
  {
    if b == [] {
      assert a + b == a;
    } else {
      var init := b[..|b| - 1];
      assert (a + b)[..|a + b| - 1] == a + init;
      TotalsAppend(a, init);
    }
  }

  /** The incoming total of the records of one file. */
  function FileEntrada(records: seq<Record>, file: string): real {
    if records == [] then 0.0
    else
      var last := records[|records| - 1];
      FileEntrada(records[..|records| - 1], file) + (if last.file == file then last.entrada else 0.0)
  }

  /** The outgoing total of the records of one file. */
  function FileSaida(records: seq<Record>, file: string): real {
    if records == [] then 0.0
    else
      var last := records[|records| - 1];
      FileSaida(records[..|records| - 1], file) + (if last.file == file then last.saida else 0.0)
  }

  /** The distinct file names of a run. */
  function Files(records: seq<Record>): set<string> {
    if records == [] then {} else Files(records[..|records| - 1]) + {records[|records| - 1].file}
  }

  /** The file names of a roll-up. */
  function SummaryFiles(rows: seq<FileSummary>): set<string> {
    if rows == [] then {} else {rows[0].file} + SummaryFiles(rows[1..])
  }

  /** File names in strictly increasing order, so each appears once. */
  predicate Sorted(rows: seq<FileSummary>) {
    forall i, j :: 0 <= i < j < |rows| ==> Less(rows[i].file, rows[j].file)
  }

  /** The sum of the incoming totals of the summary lines with the given file name. */
  function SummaryEntrada(rows: seq<FileSummary>, file: string): real {
    if rows == [] then 0.0
    else (if rows[0].file == file then rows[0].entrada else 0.0) + SummaryEntrada(rows[1..], file)
  }

  /** The sum of the outgoing totals of the summary lines with the given file name. */
  function SummarySaida(rows: seq<FileSummary>, file: string): real {
    if rows == [] then 0.0
    else (if rows[0].file == file then rows[0].saida else 0.0) + SummarySaida(rows[1..], file)
  }

  /** The sum of the incoming totals of all summary lines. */
  function SummaryTotalEntrada(rows: seq<FileSummary>): real {
    if rows == [] then 0.0 else rows[0].entrada + SummaryTotalEntrada(rows[1..])
  }

  /** The sum of the outgoing totals of all summary lines. */
  function SummaryTotalSaida(rows: seq<FileSummary>): real {
    if rows == [] then 0.0 else rows[0].saida + SummaryTotalSaida(rows[1..])
  }

  /**
   * Adds one record to a roll-up kept in file-name order: its totals join
   * the line of its file, or a new line is opened in its place.
   */
  function Insert(rows: seq<FileSummary>, r: Record): (result: seq<FileSummary>)
    ensures SummaryFiles(result) == SummaryFiles(rows) + {r.file}
  {
    if rows == [] then [FileSummary(r.file, r.entrada, r.saida)]
    else if rows[0].file == r.file then
      var merged := FileSummary(r.file, rows[0].entrada + r.entrada, rows[0].saida + r.saida);
      assert ([merged] + rows[1..])[1..] == rows[1..];
      [merged] + rows[1..]
    else if Less(r.file, rows[0].file) then
      var line := FileSummary(r.file, r.entrada, r.saida);
      assert ([line] + rows)[1..] == rows;
      [line] + rows
    else
      var tail := Insert(rows[1..], r);
      assert ([rows[0]] + tail)[1..] == tail;
      [rows[0]] + tail
  }

  /**
   * The roll-up by file name: one line per distinct file name, in name
   * order, with the sums of that file's records.
   */
  function Rollup(records: seq<Record>): seq<FileSummary> {
    if records == [] then []
    else Insert(Rollup(records[..|records| - 1]), records[|records| - 1])
  }

  /** Every line's file name belongs to the roll-up's names. */
  lemma {:induction false} LineInFiles(rows: seq<FileSummary>, k: nat)
    requires k < |rows|
    ensures rows[k].file in SummaryFiles(rows)
  {
    if k > 0 {
      LineInFiles(rows[1..], k - 1);
    }
  }

  /** A name below every line's name is below every name of the roll-up. */
  lemma {:induction false} BelowAllFiles(bound: string, rows: seq<FileSummary>)
    requires forall j :: 0 <= j < |rows| ==> Less(bound, rows[j].file)
    ensures forall x :: x in SummaryFiles(rows) ==> Less(bound, x)
  {
    if rows != [] {
      BelowAllFiles(bound, rows[1..]);
    }
  }

  /** Adding a record keeps the roll-up in strictly increasing name order. */
  lemma {:induction false} InsertSorted(rows: seq<FileSummary>, r: Record)
    requires Sorted(rows)
    ensures Sorted(Insert(rows, r))
  {
    var result := Insert(rows, r);
    if rows == [] {
    } else if rows[0].file == r.file {
      assert forall k :: 0 <= k < |rows| ==> result[k].file == rows[k].file;
    } else if Less(r.file, rows[0].file) {
      forall i, j | 0 <= i < j < |result|
        ensures Less(result[i].file, result[j].file)
      {
        if i == 0 && j > 1 {
          LessTransitive(r.file, rows[0].file, rows[j - 1].file);
        }
      }
    } else {
      LessTotal(r.file, rows[0].file);
      var tail := Insert(rows[1..], r);
      InsertSorted(rows[1..], r);
      BelowAllFiles(rows[0].file, rows[1..]);
      forall k | 0 <= k < |tail|
        ensures Less(rows[0].file, tail[k].file)
      {
        LineInFiles(tail, k);
      }
    }
  }

  /** Adding a record adds its totals to its own file's line and to no other. */
  lemma {:induction false} InsertSums(rows: seq<FileSummary>, r: Record, file: string)
    ensures SummaryEntrada(Insert(rows, r), file)
            == SummaryEntrada(rows, file) + (if r.file == file then r.entrada else 0.0)
    ensures SummarySaida(Insert(rows, r), file)
            == SummarySaida(rows, file) + (if r.file == file then r.saida else 0.0)
  {
    if rows != [] && rows[0].file != r.file && !Less(r.file, rows[0].file) {
      InsertSums(rows[1..], r, file);
    }
  }

  /** Adding a record adds its totals to the sum over all lines. */
  lemma {:induction false} InsertTotals(rows: seq<FileSummary>, r: Record)
    ensures SummaryTotalEntrada(Insert(rows, r)) == SummaryTotalEntrada(rows) + r.entrada
    ensures SummaryTotalSaida(Insert(rows, r)) == SummaryTotalSaida(rows) + r.saida
  {
    if rows != [] && rows[0].file != r.file && !Less(r.file, rows[0].file) {
      InsertTotals(rows[1..], r);
    }
  }

  /** In a sorted roll-up a name has one line, so the sum for a line's name is that line's total. */
  lemma {:induction false} SortedLineSums(rows: seq<FileSummary>, k: nat)
    requires Sorted(rows) && k < |rows|
    ensures SummaryEntrada(rows, rows[k].file) == rows[k].entrada
    ensures SummarySaida(rows, rows[k].file) == rows[k].saida
  {
    var tail := rows[1..];
    if k == 0 {
      forall j | 0 <= j < |tail|
        ensures tail[j].file != rows[0].file
      {
        LessIrreflexive(rows[0].file);
      }
      AbsentSums(tail, rows[0].file);
    } else {
      LessIrreflexive(rows[k].file);
      SortedLineSums(tail, k - 1);
    }
  }

  /** A name without a line sums to zero. */
  lemma {:induction false} AbsentSums(rows: seq<FileSummary>, file: string)
    requires forall j :: 0 <= j < |rows| ==> rows[j].file != file
    ensures SummaryEntrada(rows, file) == 0.0 && SummarySaida(rows, file) == 0.0
  {
    if rows != [] {
      AbsentSums(rows[1..], file);
    }
  }

  /** The roll-up lists file names in strictly increasing order, hence each name once. */
  lemma {:induction false} RollupSorted(records: seq<Record>)
    ensures Sorted(Rollup(records))
  {
    if records != [] {
      RollupSorted(records[..|records| - 1]);
      InsertSorted(Rollup(records[..|records| - 1]), records[|records| - 1]);
    }
  }

  /** The roll-up has a line for exactly the file names of the run. */
  lemma {:induction false} RollupFiles(records: seq<Record>)
    ensures SummaryFiles(Rollup(records)) == Files(records)
  {
    if records != [] {
      RollupFiles(records[..|records| - 1]);
    }
  }

  /** For every name, the roll-up carries the sums of that file's records. */
  lemma {:induction false} RollupSums(records: seq<Record>, file: string)
    ensures SummaryEntrada(Rollup(records), file) == FileEntrada(records, file)
    ensures SummarySaida(Rollup(records), file) == FileSaida(records, file)
  {
    if records != [] {
      var init := records[..|records| - 1];
      RollupSums(init, file);
      InsertSums(Rollup(init), records[|records| - 1], file);
    }
  }

  /**
   * Each line of the roll-up holds the totals of all records, across all
   * sheets and all uploads, that carry its file name.
   */
  lemma RollupLines(records: seq<Record>, k: nat)
    requires k < |Rollup(records)|
    ensures Rollup(records)[k].entrada == FileEntrada(records, Rollup(records)[k].file)
    ensures Rollup(records)[k].saida == FileSaida(records, Rollup(records)[k].file)
  {
    RollupSorted(records);
    SortedLineSums(Rollup(records), k);
    RollupSums(records, Rollup(records)[k].file);
  }

  /** The lines of the roll-up add up to the grand totals. */
  lemma {:induction false} RollupTotals(records: seq<Record>)
    ensures SummaryTotalEntrada(Rollup(records)) == TotalEntrada(records)
    ensures SummaryTotalSaida(Rollup(records)) == TotalSaida(records)
  {
    if records != [] {
      var init := records[..|records| - 1];
      RollupTotals(init);
      InsertTotals(Rollup(init), records[|records| - 1]);
    }
  }

  /** The same file uploaded twice ends up on one line holding the sum of both uploads. */
  lemma DuplicateUploadsMerge(a: Record, b: Record)
    requires a.file == b.file
    ensures Rollup([a, b]) == [FileSummary(a.file, a.entrada + b.entrada, a.saida + b.saida)]
  {
    assert [a, b][..1] == [a];
    assert [a][..0] == [];
    var first := [FileSummary(a.file, a.entrada, a.saida)];
    assert Rollup([a]) == first;
    assert Insert(first, b) == [FileSummary(a.file, a.entrada + b.entrada, a.saida + b.saida)] + first[1..];
  }

  /** A run in which every extension is refused has nothing to roll up and zero grand totals. */
  lemma AllRefusedSummary(uploads: seq<Upload>,
                          readExcel: Bytes -> seq<NamedSheet>, readCsv: Bytes -> Table)
    requires forall k :: 0 <= k < |uploads| ==> KindOf(uploads[k].name) == Unsupported
    ensures Rollup(RunRecords(uploads, readExcel, readCsv)) == []
    ensures TotalEntrada(RunRecords(uploads, readExcel, readCsv)) == 0.0
    ensures TotalSaida(RunRecords(uploads, readExcel, readCsv)) == 0.0
  {
    AllRefusedRun(uploads, readExcel, readCsv);
  }
}
