/**
 * `processar_arquivo`: an uploaded file is routed by its extension. A
 * workbook yields one record per sheet, in the workbook's order; a CSV
 * file yields a single record labelled "CSV"; any other extension is
 * reported as unsupported and yields nothing. The spreadsheet readers
 * themselves are parameters of the model.
 */
module Dispatch {
  import opened Wrappers
  import opened Text
  import opened Classifier

  /** The raw content of an uploaded file. */
  type Bytes = seq<bv8>

  /** A sheet of a workbook, under its tab name. */
  datatype NamedSheet = NamedSheet(name: string, table: Table)

  /** How a file is read, decided by its extension. */
  datatype Kind = Excel | Csv | Unsupported

  /** The label the single record of a CSV file carries as its sheet name. */
  const CsvSheet := "CSV"

  /** The last position of `x` in `s`, if any. */
  function LastIndexOf(s: string, x: char): (r: Option<nat>)
    ensures r.Some? ==> r.value < |s|
  {
    if s == [] then None
    else match LastIndexOf(s[1..], x)
      case Some(i) => Some(i + 1)
      case None => if s[0] == x then Some(0) else None
  }

  /** `x` is found iff it occurs, and then at a position holding `x` with no `x` after it. */
  lemma {:induction false} LastIndexOfSpec(s: string, x: char)
    ensures var r := LastIndexOf(s, x);
            && (r.None? <==> x !in s)
            && (r.Some? ==> r.value < |s| && s[r.value] == x && x !in s[r.value + 1..])
  {
    if s != [] {
      LastIndexOfSpec(s[1..], x);
      match LastIndexOf(s[1..], x)
      case Some(i) =>
        assert s[i + 2..] == s[1..][i + 1..];
      case None =>
        assert s == [s[0]] + s[1..];
    }
  }

  /**
   * The path as `pathlib` parses it, seen from its end: trailing slashes and
   * trailing `.` components are dropped, and a path that is only `.` is empty.
   */
  function TrimTail(path: string): string {
    if |path| > 0 && path[|path| - 1] == '/' then TrimTail(path[..|path| - 1])
    else if path == "." then ""
    else if |path| >= 2 && path[|path| - 2] == '/' && path[|path| - 1] == '.' then TrimTail(path[..|path| - 2])
    else path
  }

  /**
   * `TrimTail` keeps a prefix of the path and drops only slashes and points;
   * what it keeps ends neither in a slash nor in a `.` component.
   */
  lemma {:induction false} TrimTailSpec(path: string)
    ensures var t := TrimTail(path);
            && |t| <= |path| && t == path[..|t|]
            && (forall k :: |t| <= k < |path| ==> path[k] == '/' || path[k] == '.')
            && (forall k :: |t| <= k < |path| && path[k] == '.' ==>
                  (k == 0 || path[k - 1] == '/') && (k + 1 == |path| || path[k + 1] == '/'))
            && (t != [] ==> t[|t| - 1] != '/' && t != ".")
            && (|t| >= 2 ==> !(t[|t| - 2] == '/' && t[|t| - 1] == '.'))
  {
    if |path| > 0 && path[|path| - 1] == '/' {
      TrimTailSpec(path[..|path| - 1]);
    } else if path == "." {
    } else if |path| >= 2 && path[|path| - 2] == '/' && path[|path| - 1] == '.' {
      TrimTailSpec(path[..|path| - 2]);
    }
  }

  /** A path whose last character is neither a slash nor a point is already trimmed. */
  lemma TrimTailPlain(path: string)
    requires path != [] && path[|path| - 1] != '/' && path[|path| - 1] != '.'
    ensures TrimTail(path) == path
  {
  }

  /** What follows the last slash. */
  function AfterLastSlash(s: string): string {
    match LastIndexOf(s, '/')
    case None => s
    case Some(i) => s[i + 1..]
  }

  /** `Path(name).name`: the last component once the trailing slashes and `.` components are gone. */
  function BaseName(path: string): string {
    AfterLastSlash(TrimTail(path))
  }

  /**
   * The base name is the end of the trimmed path after its last slash, and
   * holds no slash; it is never the `.` component.
   */
  lemma BaseNameSpec(path: string)
    ensures var r, t := BaseName(path), TrimTail(path);
            && '/' !in r && r != "."
            && |r| <= |t| && r == t[|t| - |r|..]
            && (|r| < |t| ==> t[|t| - |r| - 1] == '/')
  {
    var t := TrimTail(path);
    TrimTailSpec(path);
    LastIndexOfSpec(t, '/');
    AfterLastSlashNotDot(t);
  }

  /** In a path that does not end in a `.` component, what follows the last slash is not `.`. */
  lemma AfterLastSlashNotDot(t: string)
    requires t != "." && (|t| >= 2 ==> !(t[|t| - 2] == '/' && t[|t| - 1] == '.'))
    ensures AfterLastSlash(t) != "."
  {
    LastIndexOfSpec(t, '/');
    match LastIndexOf(t, '/')
    case Some(i) =>
      if i == |t| - 2 {
        assert AfterLastSlash(t)[0] == t[|t| - 1];
      }
    case None =>
  }

  /** A trailing slash does not change how a file is read. */
  lemma TrailingSlashIgnored(path: string)
    ensures KindOf(path + "/") == KindOf(path)
  {
    assert (path + "/")[..|path|] == path;
    assert TrimTail(path + "/") == TrimTail(path);
  }

  /** A trailing `.` component does not change how a file is read. */
  lemma TrailingDotIgnored(path: string)
    ensures KindOf(path + "/.") == KindOf(path)
  {
    assert (path + "/.")[..|path|] == path;
    assert TrimTail(path + "/.") == TrimTail(path);
  }

  /**
   * `Path(name).suffix`: from the last point of the base name on, provided
   * that point is neither its first nor its last character; otherwise
   * empty.
   */
  function Suffix(path: string): string {
    var name := BaseName(path);
    match LastIndexOf(name, '.')
    case Some(i) => if 0 < i < |name| - 1 then name[i..] else []
    case None => []
  }

  /**
   * A non-empty suffix is a point followed by at least one character and
   * no other point, and it is a proper ending of the base name.
   */
  lemma SuffixSpec(path: string)
    ensures var r, name := Suffix(path), BaseName(path);
            && (r == [] || (|r| >= 2 && r[0] == '.' && '.' !in r[1..]))
            && (r != [] ==> |r| < |name| && r == name[|name| - |r|..])
  {
    var name := BaseName(path);
    LastIndexOfSpec(name, '.');
    match LastIndexOf(name, '.')
    case Some(i) =>
      if 0 < i < |name| - 1 {
        assert name[i..][1..] == name[i + 1..];
      }
    case None =>
  }

  /** The extension test: ".xlsx" and ".xls" are workbooks, ".csv" is CSV, whatever the letter case. */
  function KindOf(path: string): Kind {
    var ext := Lower(Suffix(path));
    if ext == ".xlsx" || ext == ".xls" then Excel
    else if ext == ".csv" then Csv
    else Unsupported
  }

  /** Lowering letters moves no point and no slash. */
  lemma {:induction false} LastIndexOfLower(s: string, x: char)
    requires x == '.' || x == '/'
    ensures LastIndexOf(Lower(s), x) == LastIndexOf(s, x)
  {
    if s != [] {
      LastIndexOfLower(s[1..], x);
    }
  }

  /** Trimming the tail of a path and lowering letters can be done in either order. */
  lemma {:induction false} TrimTailLower(path: string)
    ensures TrimTail(Lower(path)) == Lower(TrimTail(path))
    decreases |path|
  {
    var low := Lower(path);
    LowerDot(path);
    if |path| > 0 && path[|path| - 1] == '/' {
      assert low[..|path| - 1] == Lower(path[..|path| - 1]);
      TrimTailLower(path[..|path| - 1]);
    } else if path == "." {
      assert low == path;
    } else if |path| >= 2 && path[|path| - 2] == '/' && path[|path| - 1] == '.' {
      assert low[..|path| - 2] == Lower(path[..|path| - 2]);
      TrimTailLower(path[..|path| - 2]);
    }
  }

  /** Only "." lowers to ".". */
  lemma LowerDot(s: string)
    ensures Lower(s) == "." <==> s == "."
  {
    if |s| == 1 {
      assert Lower(s)[0] == LowerChar(s[0]);
    }
  }

  /** Taking the base name and lowering letters can be done in either order. */
  lemma BaseNameLower(path: string)
    ensures BaseName(Lower(path)) == Lower(BaseName(path))
  {
    TrimTailLower(path);
    AfterLastSlashLower(TrimTail(path));
  }

  /** Taking what follows the last slash and lowering letters can be done in either order. */
  lemma AfterLastSlashLower(s: string)
    ensures AfterLastSlash(Lower(s)) == Lower(AfterLastSlash(s))
  {
    LastIndexOfLower(s, '/');
    var slash := LastIndexOf(s, '/');
    if slash.Some? {
      AfterLastSlashLowerAt(s, slash.value);
    }
  }

  lemma AfterLastSlashLowerAt(s: string, i: nat)
    requires LastIndexOf(s, '/') == Some(i) && LastIndexOf(Lower(s), '/') == Some(i)
    ensures AfterLastSlash(Lower(s)) == Lower(AfterLastSlash(s))
  {
    LowerFrom(s, i + 1);
  }

  /** Taking the extension and lowering letters can be done in either order. */
  lemma SuffixLower(path: string)
    ensures Suffix(Lower(path)) == Lower(Suffix(path))
  {
    BaseNameLower(path);
    var name := BaseName(path);
    LastIndexOfLower(name, '.');
    var point := LastIndexOf(name, '.');
    if point.Some? {
      LowerFrom(name, point.value);
    }
  }

  /** Lowering letters and dropping a prefix can be done in either order. */
  lemma LowerFrom(s: string, i: nat)
    requires i <= |s|
    ensures Lower(s)[i..] == Lower(s[i..])
  {
  }

  /** Two file names that differ only in letter case are read the same way. */
  lemma KindIgnoresCase(a: string, b: string)
    requires Lower(a) == Lower(b)
    ensures KindOf(a) == KindOf(b)
  {
    SuffixLower(a);
    SuffixLower(b);
  }

  /** A position holding `x` with no `x` after it is the last position of `x`. */
  lemma LastIndexOfIs(s: string, x: char, i: nat)
    requires i < |s| && s[i] == x && x !in s[i + 1..]
    ensures LastIndexOf(s, x) == Some(i)
  {
    LastIndexOfSpec(s, x);
    assert s[i] in s;
  }

  /** `t` is the lower-cased `s` when it agrees with it letter by lowered letter. */
  lemma LowerIs(s: string, t: string)
    requires |s| == |t| && forall k :: 0 <= k < |s| ==> LowerChar(s[k]) == t[k]
    ensures Lower(s) == t
  {
  }

  /** In a name without directories, a point that is neither first nor last and is the last point starts the suffix. */
  lemma SuffixAt(path: string, i: nat)
    requires '/' !in path
    requires 0 < i < |path| - 1 && path[i] == '.' && '.' !in path[i + 1..]
    ensures Suffix(path) == path[i..]
  {
    assert path[|path| - 1] == path[i + 1..][|path| - i - 2];
    TrimTailPlain(path);
    LastIndexOfSpec(path, '/');
    LastIndexOfIs(path, '.', i);
  }

  // The example lemmas below take the file name as a parameter pinned by
  // `requires` rather than writing the literal into their `ensures`: the
  // verifier then unfolds the definitions on the literal only where a proof
  // step asks.

  /** An upper-case workbook extension is still a workbook. */
  lemma UpperCaseWorkbook(path: string)
    requires path == "NOTAS.XLSX"
    ensures KindOf(path) == Excel
  {
    assert path[6..] == "XLSX";
    SuffixAt(path, 5);
    LowerXlsx(path[5..]);
  }

  /** The upper-case workbook extension, lowered. */
  lemma LowerXlsx(ext: string)
    requires ext == ".XLSX"
    ensures Lower(ext) == ".xlsx"
  {
    LowerIs(ext, ".xlsx");
  }

  /** A lower-case extension is left as it is. */
  lemma LowerPdf(ext: string)
    requires ext == ".pdf"
    ensures Lower(ext) == ".pdf"
  {
    LowerIs(ext, ".pdf");
  }

  /** The directories in front of a file name do not change how the file is read. */
  lemma DirectoryIgnored(dir: string, name: string)
    requires '/' !in name && name != "" && name != "."
    ensures KindOf(dir + "/" + name) == KindOf(name)
  {
    var path := dir + "/" + name;
    assert path[|dir| + 1..] == name;
    TrimTailName(dir, name);
    LastIndexOfIs(path, '/', |dir|);
    LastIndexOfSpec(name, '/');
    assert BaseName(path) == BaseName(name);
  }

  /** A file name after a directory is already trimmed, and so is the file name alone. */
  lemma TrimTailName(dir: string, name: string)
    requires '/' !in name && name != "" && name != "."
    ensures TrimTail(dir + "/" + name) == dir + "/" + name
    ensures TrimTail(name) == name
  {
    var path := dir + "/" + name;
    assert path[|path| - 1] == name[|name| - 1];
    assert name[|name| - 1] in name;
    if |name| >= 2 {
      assert path[|path| - 2] == name[|name| - 2];
      assert name[|name| - 2] in name;
    }
  }

  /** A CSV name followed by a slash is still read as CSV, as `pathlib` drops the slash. */
  lemma CsvTrailingSlash(path: string)
    requires path == "notas.csv"
    ensures KindOf(path + "/") == Csv
  {
    TrailingSlashIgnored(path);
    CsvName(path);
  }

  /** "notas.csv" is read as CSV. */
  lemma CsvName(path: string)
    requires path == "notas.csv"
    ensures KindOf(path) == Csv
  {
    assert path[6..] == "csv";
    SuffixAt(path, 5);
    LowerCsv(path[5..]);
  }

  /** A lower-case CSV extension is left as it is. */
  lemma LowerCsv(ext: string)
    requires ext == ".csv"
    ensures Lower(ext) == ".csv"
  {
    LowerIs(ext, ".csv");
  }

  /** A name that is only a dot and an extension has no suffix, so it is refused. */
  lemma DotFileIsUnsupported(path: string)
    requires path == ".csv"
    ensures KindOf(path) == Unsupported
  {
    TrimTailPlain(path);
    assert '/' !in path;
    LastIndexOfSpec(path, '/');
    assert path[1..] == "csv";
    LastIndexOfIs(path, '.', 0);
    assert Suffix(path) == [];
  }

  /** Any other extension is refused. */
  lemma PdfIsUnsupported(path: string)
    requires path == "notas.pdf"
    ensures KindOf(path) == Unsupported
  {
    assert path[6..] == "pdf";
    SuffixAt(path, 5);
    LowerPdf(path[5..]);
  }

  /** The records of a workbook's sheets, appended in the workbook's order. */
  function SheetRecords(file: string, sheets: seq<NamedSheet>): (r: seq<Record>)
    ensures |r| == |sheets|
  {
    if sheets == [] then []
    else
      var last := sheets[|sheets| - 1];
      SheetRecords(file, sheets[..|sheets| - 1]) + [ClassifySheet(file, last.name, last.table)]
  }

  /** Record `k` of a workbook is the record of its sheet `k`. */
  lemma {:induction false} SheetRecordsAt(file: string, sheets: seq<NamedSheet>, k: nat)
    requires k < |sheets|
    ensures SheetRecords(file, sheets)[k] == ClassifySheet(file, sheets[k].name, sheets[k].table)
    decreases |sheets|
  {
    var n := |sheets| - 1;
    if k < n {
      SheetRecordsAt(file, sheets[..n], k);
    }
  }

  /**
   * The records a file yields: one per sheet for a workbook, a single
   * "CSV" record for a CSV file, none for any other extension.
   */
  function FileRecords(file: string, data: Bytes,
                       readExcel: Bytes -> seq<NamedSheet>, readCsv: Bytes -> Table): seq<Record>
  {
    match KindOf(file)
    case Excel => SheetRecords(file, readExcel(data))
    case Csv => [ClassifySheet(file, CsvSheet, readCsv(data))]
    case Unsupported => []
  }

  /** Every record of a file names that file. */
  lemma FileRecordsNameFile(file: string, data: Bytes,
                            readExcel: Bytes -> seq<NamedSheet>, readCsv: Bytes -> Table)
    ensures forall k :: 0 <= k < |FileRecords(file, data, readExcel, readCsv)| ==>
              FileRecords(file, data, readExcel, readCsv)[k].file == file
  {
    if KindOf(file) == Excel {
      forall k | 0 <= k < |readExcel(data)| {
        SheetRecordsAt(file, readExcel(data), k);
      }
    }
  }

  /** A workbook gives one record per sheet, labelled with the sheets' names in order. */
  lemma WorkbookRecords(file: string, data: Bytes,
                        readExcel: Bytes -> seq<NamedSheet>, readCsv: Bytes -> Table)
    requires KindOf(file) == Excel
    ensures |FileRecords(file, data, readExcel, readCsv)| == |readExcel(data)|
    ensures forall k :: 0 <= k < |readExcel(data)| ==>
              FileRecords(file, data, readExcel, readCsv)[k].sheet == readExcel(data)[k].name
  {
    forall k | 0 <= k < |readExcel(data)| {
      SheetRecordsAt(file, readExcel(data), k);
    }
  }

  /** A CSV file gives exactly one record, labelled "CSV". */
  lemma CsvRecord(file: string, data: Bytes,
                  readExcel: Bytes -> seq<NamedSheet>, readCsv: Bytes -> Table)
    requires KindOf(file) == Csv
    ensures |FileRecords(file, data, readExcel, readCsv)| == 1
    ensures FileRecords(file, data, readExcel, readCsv)[0].sheet == CsvSheet
  {
  }

  /** A refused extension gives no record. */
  lemma UnsupportedRecords(file: string, data: Bytes,
                           readExcel: Bytes -> seq<NamedSheet>, readCsv: Bytes -> Table)
    requires KindOf(file) == Unsupported
    ensures FileRecords(file, data, readExcel, readCsv) == []
  {
  }

  /** Classifies the sheets of a workbook one after the other, appending each record. */
  method ClassifySheets(file: string, sheets: seq<NamedSheet>) returns (records: seq<Record>)
    ensures records == SheetRecords(file, sheets)
  {
    records := [];
    var i := 0;
    while i < |sheets|
      invariant 0 <= i <= |sheets|
      invariant records == SheetRecords(file, sheets[..i])
    {
      assert sheets[..i + 1][..i] == sheets[..i];
      records := records + [ClassifySheet(file, sheets[i].name, sheets[i].table)];
      i := i + 1;
    }
    assert sheets[..|sheets|] == sheets;
  }

  /**
   * `processar_arquivo`: reads one uploaded file by its extension and
   * returns its records. `supported` is false exactly when the extension
   * is refused.
   */
  method ProcessFile(file: string, data: Bytes,
                     readExcel: Bytes -> seq<NamedSheet>, readCsv: Bytes -> Table)
    returns (records: seq<Record>, supported: bool)
    ensures records == FileRecords(file, data, readExcel, readCsv)
    ensures supported <==> KindOf(file) != Unsupported
  {
    match KindOf(file)
    case Excel =>
      records := ClassifySheets(file, readExcel(data));
      supported := true;
    case Csv =>
      records := [ClassifySheet(file, CsvSheet, readCsv(data))];
      supported := true;
    case Unsupported =>
      records := [];
      supported := false;
  }
}
