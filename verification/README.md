# CFOP entry/exit totals — a Dafny model

The ledger script `app.py` takes uploaded spreadsheets of fiscal notes (Excel workbooks or
CSV files) and reads two columns: the CFOP code and the note amount ("Valor NF"). It sums
the amounts of incoming operations (codes starting with 1, 2 or 3, *entrada*) and outgoing
ones (codes starting with 5, 6 or 7, *saída*). It produces one record per sheet, a roll-up
per file name and two grand totals.

The model is split into six modules:

- `Wrappers` holds the `Option` type.
- `Text` holds the string operations the script relies on:
  - Python's `str.strip()` on ASCII whitespace;
  - `str.lower()` on ASCII letters;
  - the first position of an element;
  - code-point lexicographic order, which pandas uses to sort group keys.
- `Amount` models the clean-up of a textual amount (`processar_dataframe`, lines 106-113). It applies three passes:
  - drop every `.`;
  - turn every `,` into `.`;
  - keep only digits, `.` and `-`.

  The result is then read as a decimal, and 0 is used when it does not parse.
- `Classifier` models `processar_dataframe`. It does the following:
  - trims the header names;
  - returns a zero record when a required column is missing;
  - trims the codes;
  - fills missing numeric amounts with 0 or normalises textual ones;
  - buckets rows by the first character of the code, and sums each bucket.
- `Dispatch` models `processar_arquivo`.
  - It takes the suffix of the file name by `pathlib`'s rule, lowered. Trailing slashes and
    trailing `.` components are dropped first, then the last component is taken, and then
    its last point (neither its first nor its last character) starts the suffix. The last
    position of a character is `Dispatch.LastIndexOf`.
  - A workbook gives one record per sheet, in sheet order.
  - A CSV file gives a single record labelled `CSV`.
  - Any other extension is refused and gives nothing.
  - `ProcessFile` is a method, and the per-sheet loop is `ClassifySheets`.
- `Aggregation` covers the rest of the pipeline:
  - the upload loop (`ProcessRun`, a method with a loop over the uploads);
  - the grand totals;
  - the roll-up per file name.

The spreadsheet readers (`pd.read_excel`, `pd.read_csv`) are parameters of the model. Each
is a function from the uploaded bytes to sheets, so every property holds for whatever the
readers return.

Amounts are exact reals. Behaviour of the clean-up that the code has and a reader might not
expect is kept as written, and is proved on concrete inputs:

- `"1.234,56"` reads as 1234.56.
- `"R$ 750,50"` reads as 750.50.
- `"1234.56"` (a point used as the decimal mark) reads as 123456, because every point is
  dropped first.
- `"(1.234,56)"` reads as +1234.56, because the parentheses are simply dropped.
- `"10,00-"` reads as 0, because a trailing minus makes the text unparseable.
- A missing text cell becomes the text `"nan"`, which reads as 0.

The roll-up per file follows the code: `groupby("arquivo")` sorts its keys by default, so it
lists the files in ascending name order, not in upload order. Several uploads with the same
name merge into one line. `Aggregation.Rollup` is an insertion into a list kept sorted by
`Text.Less`, and the lemmas show three things:

- the list is sorted;
- it holds exactly the names of the records;
- each line holds the sums of its file.

## Model

| member | source | states |
|---|---|---|
| Text.IndexOf | app.py:87-88 | the column lookup by name; a position it returns is within the header (its meaning is `Text.IndexOfSpec`) |
| Text.Trim | app.py:84 | `str.strip()`, the trim of header names and codes (its meaning is `Text.TrimSpec`) |
| Text.Less | app.py:183 | the order `groupby` sorts file names by (a strict total order: `Text.LessIrreflexive`, `Text.LessTransitive`, `Text.LessTotal`) |
| Text.IndexOfSpec | app.py:87-89 | a column is found iff its name is among the headers, and then at its first occurrence |
| Text.TrimSpec | app.py:84 | `strip()` removes exactly the leading and trailing whitespace: what it drops is whitespace and what it keeps is the middle slice, which neither starts nor ends with whitespace |
| Text.TrimIdempotent | app.py:99 | stripping an already stripped name or code changes nothing |
| Text.Lower | app.py:40 | `lower()` keeps the length and lowers each letter in place |
| Text.LowerIdempotent | app.py:40 | lowering twice is lowering once |
| Text.LessIrreflexive | app.py:183 | the order used to sort the group keys is strict |
| Text.LessTransitive | app.py:183 | the order used to sort the group keys is transitive |
| Text.LessTotal | app.py:183 | any two distinct file names are ordered one way or the other |
| Amount.DropPoints | app.py:109 | the first pass, `str.replace(r"\.", "")` (its meaning is `Amount.DropPointsCounts`) |
| Amount.CommasToPoints | app.py:110 | the second pass, `str.replace(",", ".")` (its meaning is `Amount.CommasToPointsCounts`) |
| Amount.KeepNumeric | app.py:111 | the third pass, `str.replace(r"[^\d\.-]", "")` on ASCII digits (its meaning is `Amount.KeepNumericCounts`) |
| Amount.Normalize | app.py:107-112 | the three passes in the script's order (its meaning is `Amount.NormalizeCounts` and `Amount.NormalizeIsOnePass`) |
| Amount.ParseUnsigned | app.py:113 | `pd.to_numeric` on a text without a sign (its grammar is `Amount.UnsignedGrammar`) |
| Amount.Parse | app.py:113 | `pd.to_numeric(errors="coerce")` on a clean text, `None` for what it cannot read (grammar `Amount.ParseGrammar`, round trip `Amount.ParseRender`) |
| Amount.Amount | app.py:106-113 | a text cell's amount: clean-up, parse, then 0 for what does not parse (`Amount.AmountOfMalformed`) |
| Amount.DropPointsCounts | app.py:109 | the first pass leaves no point and keeps every other character |
| Amount.CommasToPointsCounts | app.py:110 | the second pass turns each comma into a point and keeps every other character |
| Amount.KeepNumericCounts | app.py:111 | the third pass keeps only digits, points and minus signs, and all of them |
| Amount.NormalizeCounts | app.py:107-112 | the clean text holds only digits, points and minus signs; its points are exactly the original commas; its digits and minus signs are the original ones |
| Amount.NormalizeIsOnePass | app.py:109-111 | the three passes equal one character-by-character pass |
| Amount.NormalizeConcat | app.py:109-111 | the clean-up works on each part of a text independently |
| Amount.UnsignedGrammar | app.py:113 | an unsigned text parses iff it is digits with at most one point and at least one digit; its value is non-negative |
| Amount.ParseGrammar | app.py:113 | a text parses iff it is an optional leading minus and an unsigned decimal; without the minus the value is non-negative |
| Amount.AmountOfMalformed | app.py:113 | a clean text that does not parse counts as 0 |
| Amount.NatText | app.py:99 | the decimal digits of a whole number read back as that number, with no leading zero |
| Amount.FractionText | app.py:113 | the zero-padded fraction digits read back as the fraction |
| Amount.ParseRender | app.py:113 | every decimal `m / 10^k` rendered as text is parsed back to itself (the parser's round trip) |
| Amount.ParseNegative | app.py:113 | a leading minus negates what the rest parses to, and fails with it |
| Amount.ParseRejects | app.py:113 | the empty text, a lone minus, two points and a trailing minus do not parse |
| Amount.NormalizeThousands | app.py:109-110 | `"1.234,56"` is cleaned to `"1234.56"` |
| Amount.NormalizeCurrency | app.py:111 | `"R$ 750,50"` is cleaned to `"750.50"` |
| Amount.ParseTwoDecimals | app.py:113 | `"1234.56"` parses to 1234.56 |
| Amount.AmountThousands | app.py:106-113 | `"1.234,56"` amounts to 1234.56 |
| Amount.AmountCurrency | app.py:106-113 | `"R$ 750,50"` amounts to 750.50 |
| Amount.AmountPointIsDropped | app.py:109 | `"1234.56"` amounts to 123456, since every point is dropped as a thousands mark |
| Amount.AmountParenthesesArePositive | app.py:111 | `"(1.234,56)"` amounts to +1234.56 |
| Amount.AmountTrailingMinusIsZero | app.py:111-113 | `"10,00-"` amounts to 0 |
| Amount.AmountOfNan | app.py:108-113 | a missing text cell (`"nan"`) amounts to 0 |
| Classifier.CellText | app.py:99 | `astype(str)` of a code cell: text as it is, a number as its text, a missing cell as `"nan"` (`Classifier.SampleRow3`) |
| Classifier.CellAmount | app.py:101-113 | a cell's amount: a numeric cell as it is or 0 when missing, a text cell through `Amount.Amount` (`Classifier.MissingCellIsZero`) |
| Classifier.IsEntrada | app.py:117 | the incoming mask, codes starting with 1, 2 or 3 (`Classifier.MasksReadFirstCharacter`, `Classifier.MasksDisjoint`) |
| Classifier.IsSaida | app.py:118 | the outgoing mask, codes starting with 5, 6 or 7 (`Classifier.MasksReadFirstCharacter`, `Classifier.MasksDisjoint`) |
| Classifier.Bucket | app.py:120-121 | the sum of the amounts a mask selects (`Classifier.BucketAppend`, `Classifier.BucketPartition`) |
| Classifier.Trimmed | app.py:84 | the header keeps its length and each name is stripped |
| Classifier.NumberText | app.py:99 | a number turned into text is non-empty, starts with a minus exactly when negative, and otherwise starts with a digit |
| Classifier.MissingCellIsZero | app.py:102-104 | a missing numeric amount counts as 0 |
| Classifier.Cleaned | app.py:99-113 | there is one cleaned row per table row |
| Classifier.Rows | app.py:86-113 | when both columns exist, there is one row per table row |
| Classifier.RowsPresent | app.py:86-89 | rows are produced iff both "CFOP" and "Valor NF" are among the stripped headers |
| Classifier.RowsAreTrimmed | app.py:99 | every code handed to the masks is already stripped |
| Classifier.MasksReadFirstCharacter | app.py:117-118 | two codes with the same first character fall in the same bucket |
| Classifier.IgnoredCodes | app.py:117-118 | a code falls in neither bucket exactly when it is empty or starts with none of 1, 2, 3, 5, 6, 7 |
| Classifier.IgnoredSampleCodes | app.py:117-118 | empty, `nan`, `0101`, `4101`, `8101` and `9999` fall in neither bucket |
| Classifier.BucketAppend | app.py:120-121 | a bucket's sum over two runs of rows is the sum of the two sums |
| Classifier.BucketIgnoresRow | app.py:120-121 | a row outside the mask does not change the bucket's sum |
| Classifier.BucketOfNone | app.py:120-121 | a bucket whose mask selects no row sums to 0 |
| Classifier.MasksDisjoint | app.py:117-118 | no row is counted in both buckets: their sums add up to the sum of the rows in either |
| Classifier.BucketPartition | app.py:117-121 | incoming, outgoing and unclassified sums add up to the sum of all amounts |
| Classifier.ClassifySheet | app.py:123-128 | the record carries the file and sheet it was computed for |
| Classifier.MissingColumnGivesZero | app.py:89-96 | a sheet lacking either column gives a zero record for that file and sheet |
| Classifier.EmptySheetGivesZero | app.py:120-121 | a sheet with no rows gives zero totals |
| Classifier.ClassifyPartition | app.py:117-128 | a record's two totals and the unclassified amounts add up to the sum of the sheet's amounts |
| Classifier.SampleHeader | app.py:84 | headers `" CFOP"` and `"Valor NF "` are recognised after stripping |
| Classifier.SampleColumns | app.py:86-99 | the sample sheet has both columns, found at positions 0 and 1 |
| Classifier.SampleRow0 | app.py:99-113 | code `"1102"` with `"1.234,56"` becomes row (1102, 1234.56) |
| Classifier.SampleRow1 | app.py:99-113 | code `" 5102 "` with `"R$ 750,50"` becomes row (5102, 750.50) |
| Classifier.SampleRow2 | app.py:99 | code `"9999"` stays as it is |
| Classifier.SampleRow3 | app.py:99 | a missing code becomes `"nan"` |
| Classifier.SampleBuckets | app.py:117-121 | on the sample rows, the incoming sum is 1234.56 and the outgoing 750.50 |
| Classifier.SampleTotals | app.py:78-128 | the whole sample sheet gives the record (notas.xlsx, Janeiro, 1234.56, 750.50) |
| Dispatch.LastIndexOf | app.py:40 | the last position of a character: the last slash, after which `Path`'s last component starts, and the last point, where `suffix`'s `rfind` starts the extension; a position it returns is within the text (its meaning is `Dispatch.LastIndexOfSpec`) |
| Dispatch.TrimTail | app.py:40 | how `Path` drops trailing slashes and `.` components (`Dispatch.TrimTailSpec`) |
| Dispatch.AfterLastSlash | app.py:40 | the last component of a trimmed path (`Dispatch.BaseNameSpec`) |
| Dispatch.BaseName | app.py:40 | `Path(filename).name` (`Dispatch.BaseNameSpec`) |
| Dispatch.Suffix | app.py:40 | `Path(filename).suffix` (`Dispatch.SuffixSpec`, `Dispatch.SuffixAt`) |
| Dispatch.KindOf | app.py:40-43 | the extension test of lines 43, 56 and 67 on the lowered suffix (`Dispatch.KindIgnoresCase`, `Dispatch.DirectoryIgnored`) |
| Dispatch.FileRecords | app.py:31-75 | the records `processar_arquivo` returns (`Dispatch.WorkbookRecords`, `Dispatch.CsvRecord`, `Dispatch.UnsupportedRecords`) |
| Dispatch.LastIndexOfSpec | app.py:40 | a character is found iff it occurs, and then at a position holding it with none after it |
| Dispatch.LastIndexOfIs | app.py:40 | a position holding the character with none after it is the last position |
| Dispatch.TrimTailSpec | app.py:40 | `Path` keeps a prefix of the name and drops only trailing slashes and `.` components: every dropped character is a slash or a point standing alone between slashes (or at either end); what it keeps ends neither in a slash nor in a `.` component |
| Dispatch.BaseNameSpec | app.py:40 | the base name is the end of the trimmed path after its last slash; it holds no slash and is never `.` |
| Dispatch.TrailingSlashIgnored | app.py:40-43 | a trailing slash does not change how a file is read |
| Dispatch.TrailingDotIgnored | app.py:40-43 | a trailing `/.` does not change how a file is read |
| Dispatch.TrimTailLower | app.py:40 | trimming the tail and lowering letters commute |
| Dispatch.AfterLastSlashLower | app.py:40 | taking what follows the last slash and lowering letters commute |
| Dispatch.CsvName | app.py:40-43 | `notas.csv` is read as CSV |
| Dispatch.CsvTrailingSlash | app.py:40-43 | `notas.csv/` is read as CSV, since `pathlib` drops the trailing slash |
| Dispatch.SuffixSpec | app.py:40 | a non-empty suffix is a point, at least one character and no other point, and it is a proper ending of the base name |
| Dispatch.SuffixAt | app.py:40 | the last point, neither first nor last in the name, starts the suffix |
| Dispatch.LastIndexOfLower | app.py:40 | lowering letters does not move a point or a slash |
| Dispatch.BaseNameLower | app.py:40 | base name and lowering commute |
| Dispatch.SuffixLower | app.py:40 | suffix and lowering commute |
| Dispatch.KindIgnoresCase | app.py:40-43 | names that differ only in letter case are read the same way |
| Dispatch.DirectoryIgnored | app.py:40 | directories in front of a file name (non-empty, not `.`, without a slash) do not change how the file is read |
| Dispatch.UpperCaseWorkbook | app.py:40-43 | `NOTAS.XLSX` is read as a workbook |
| Dispatch.DotFileIsUnsupported | app.py:40 | `.csv` alone has no suffix and is refused |
| Dispatch.PdfIsUnsupported | app.py:67-69 | `notas.pdf` is refused |
| Dispatch.SheetRecords | app.py:51-53 | a workbook yields one record per sheet |
| Dispatch.SheetRecordsAt | app.py:51-53 | record k of a workbook is the classification of its sheet k |
| Dispatch.FileRecordsNameFile | app.py:52 | every record of a file carries that file's name |
| Dispatch.WorkbookRecords | app.py:43-53 | a workbook gives as many records as sheets, labelled with the sheet names in order |
| Dispatch.CsvRecord | app.py:56-65 | a CSV file gives exactly one record, labelled `CSV` |
| Dispatch.UnsupportedRecords | app.py:67-69 | any other extension gives no record |
| Dispatch.ClassifySheets | app.py:51-53 | the loop over the sheets appends exactly the workbook's records |
| Dispatch.ProcessFile | app.py:31-75 | the records returned are the file's records; the file is reported as unsupported exactly when its extension is refused |
| Aggregation.RunRecords | app.py:148-162 | the records of all uploads, in upload order, as `pd.concat` joins them (`Aggregation.RunRecordsStep`, `Aggregation.ProcessRun`) |
| Aggregation.TotalEntrada | app.py:205 | the incoming grand total (`Aggregation.TotalsAppend`, `Aggregation.RollupTotals`) |
| Aggregation.TotalSaida | app.py:206 | the outgoing grand total (`Aggregation.TotalsAppend`, `Aggregation.RollupTotals`) |
| Aggregation.Rollup | app.py:181-192 | the roll-up by file name (`Aggregation.RollupSorted`, `Aggregation.RollupFiles`, `Aggregation.RollupSums`, `Aggregation.RollupLines`) |
| Aggregation.AppendUpload | app.py:150-156 | one upload extends the run's records by that file's records, and by nothing when there are none |
| Aggregation.ProcessRun | app.py:145-166 | the upload loop collects, in upload order, the records of every file |
| Aggregation.RunRecordsStep | app.py:148-156 | each turn of the loop appends the records of the next upload |
| Aggregation.RefusedUploadAddsNothing | app.py:154-156 | an upload with a refused extension leaves the records unchanged |
| Aggregation.AllRefusedRun | app.py:161-166 | when every upload is refused, the run has no records |
| Aggregation.RefusedRunEmpty | app.py:154-156 | a run whose uploads are refused, checked from the last upload back, has no records |
| Aggregation.AllRefusedSummary | app.py:205-206 | when every upload is refused, the roll-up is empty and both grand totals are 0 |
| Aggregation.TotalsAppend | app.py:205-206 | the grand totals of two runs of records add up |
| Aggregation.Insert | app.py:181-187 | merging a record into the roll-up adds its file to the listed files |
| Aggregation.InsertSorted | app.py:183 | merging a record keeps the roll-up sorted by file name |
| Aggregation.InsertSums | app.py:184-187 | merging a record adds its totals to its own file's line and to no other |
| Aggregation.InsertTotals | app.py:184-187 | merging a record adds its totals to the roll-up's overall sums |
| Aggregation.RollupSorted | app.py:183 | the roll-up lists files in ascending name order |
| Aggregation.RollupFiles | app.py:181-187 | the roll-up lists exactly the file names that occur in the records |
| Aggregation.RollupSums | app.py:184-187 | for every file name, the roll-up's sums equal the sums of that file's records |
| Aggregation.RollupLines | app.py:181-192 | each roll-up line holds the incoming and outgoing sums of its file's records |
| Aggregation.RollupTotals | app.py:184-187 | the roll-up's lines add up to the grand totals |
| Aggregation.DuplicateUploadsMerge | app.py:183-187 | two records of the same file name merge into one line |

## Left out

- The page, sidebar, uploader widget, button, progress bar and the tables shown (lines 8-28,
  131-146, 158, 168-200, 208-211) are presentation only.
- The CSV download at the end of the script is left out.
- Reading files is left out:
  - skipping the first 17 rows, the `dtype` hint, delimiter sniffing, the `openpyxl` engine, and the byte buffers;
  - the readers are parameters, so the model holds for whatever tables they return;
  - a reader that raises (a corrupt file, or a `.xls` file opened with the `openpyxl` engine) is not modelled.
- The warnings and error messages (`st.warning`, `st.error`) are not modelled. Only the
  "unsupported" outcome of `processar_arquivo` is visible, as `ProcessFile`'s `supported` result.
- Floating point is left out: sums and parsed amounts are exact reals, with no rounding and
  no loss of precision on large figures.
- Classifier.NumberText: does not model Python's float text form (a trailing `.0`, or
  scientific notation). A numeric code column is written as its sign and the digits of its
  whole part. For codes of at least 1e-4 in size the first character, which is all the masks
  read, is the same in both forms. Smaller non-zero values print in scientific notation and
  can start with another digit.
- Columns of mixed type are left out. A column is either numeric (with missing cells) or
  text (with missing cells), and a text column holding numbers is not modelled.
- Two headers that become equal once stripped are left out; the model takes the first.
- Whitespace is ASCII whitespace only, and letter case is ASCII only. Unicode whitespace and
  non-ASCII letters are not modelled in `strip()` and `lower()`.
- Amount.KeepNumericCounts: keeps the ASCII digits 0-9 only. The script's `\d` in a `str`
  pattern keeps every Unicode decimal digit, so a text such as `"1٢3"` keeps its Arabic-Indic
  digit there and then fails to parse (counting as 0), while the model reads it as 13.
- Dispatch.BaseName: takes `/` as the only separator, as `pathlib` does on POSIX systems. The
  backslash that also separates Windows paths is not modelled.
- Amount.Parse: accepts the decimal forms the clean-up can produce (digits, at most one
  point, an optional leading minus). The clean text never holds exponents, signs other than
  `-`, `inf` or `nan`, so `pd.to_numeric`'s other forms are not modelled.
