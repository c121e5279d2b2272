/**
 * One sheet of a fiscal ledger reduced to two totals: the sum of "Valor NF"
 * over the rows whose CFOP code marks an incoming operation (first digit 1,
 * 2 or 3) and over the rows whose code marks an outgoing one (first digit
 * 5, 6 or 7). Rows with any other code are ignored.
 */
module Classifier {
  import opened Wrappers
  import opened Text
  import opened Amount

  /** The header of the fiscal code column. */
  const CodeColumn := "CFOP"

  /** The header of the invoice amount column. */
  const AmountColumn := "Valor NF"

  /**
   * A column as the spreadsheet reader hands it over: either of a numeric
   * type (a missing cell is NaN, here `None`) or of text (a missing cell
   * is NaN too, written "nan" once the column is turned into strings).
   */
  datatype Column = Numbers(numbers: seq<Option<real>>) | Strings(texts: seq<Option<string>>) {
    function Length(): nat {
      match this
      case Numbers(cells) => |cells|
      case Strings(cells) => |cells|
    }
  }

  /** A sheet: raw column headers, the columns under them, and the number of rows. */
  datatype Sheet = Sheet(header: seq<string>, columns: seq<Column>, rows: nat) {
    /** One header per column, and every column as long as the sheet. */
    predicate Valid() {
      |header| == |columns| && forall j :: 0 <= j < |columns| ==> columns[j].Length() == rows
    }
  }

  /** A well-formed sheet; a data frame is always rectangular. */
  type Table = s: Sheet | s.Valid() witness Sheet([], [], 0)

  /** The per-sheet result: file name, sheet label, incoming and outgoing totals. */
  datatype Record = Record(file: string, sheet: string, entrada: real, saida: real)

  /** A cleaned row: the stripped fiscal code and the amount it carries. */
  datatype Row = Row(code: string, amount: real)

  /** The headers once surrounding whitespace is stripped from each. */
  function Trimmed(names: seq<string>): (r: seq<string>)
    ensures |r| == |names|
    ensures forall j :: 0 <= j < |names| ==> r[j] == Trim(names[j])
  {
    if names == [] then [] else [Trim(names[0])] + Trimmed(names[1..])
  }

  /**
   * The text of an integral-looking number: a minus sign when negative,
   * then the decimal digits of the integer part.
   */
  function NumberText(x: real): (r: string)
    ensures r != []
    ensures r[0] == '-' <==> x < 0.0
    ensures x >= 0.0 ==> IsDigit(r[0])
  {
    var magnitude := if x < 0.0 then -x else x;
    var digits := NatText(magnitude.Floor);
    if x < 0.0 then "-" + digits else digits
  }

  /** Cell `i` turned into a string, as `astype(str)` does it. */
  function CellText(c: Column, i: nat): string
    requires i < c.Length()
  {
    match c
    case Numbers(cells) => if cells[i].None? then "nan" else NumberText(cells[i].value)
    case Strings(cells) => cells[i].GetOr("nan")
  }

  /**
   * The amount of cell `i`: a numeric column keeps its numbers and counts
   * a missing cell as zero; a text column goes through the normaliser and
   * the decimal parse, a failed parse counting as zero.
   */
  function CellAmount(c: Column, i: nat): real
    requires i < c.Length()
  {
    match c
    case Numbers(cells) => cells[i].GetOr(0.0)
    case Strings(_) => Amount.Amount(CellText(c, i))
  }

  /** A missing cell contributes nothing, whatever the column's type. */
  lemma MissingCellIsZero(c: Column, i: nat)
    requires i < c.Length()
    requires c.Numbers? ==> c.numbers[i].None?
    requires c.Strings? ==> c.texts[i].None?
    ensures CellAmount(c, i) == 0.0
  {
    if c.Strings? {
      AmountOfNan();
    }
  }

  /**
   * The cleaned rows read from a code column and an amount column: each
   * code is the stripped text of its cell, each amount the cell's amount.
   */
  function Cleaned(codes: Column, amounts: Column): (r: seq<Row>)
    requires codes.Length() == amounts.Length()
    ensures |r| == codes.Length()
  {
    seq(codes.Length(), k requires 0 <= k < codes.Length() =>
      Row(Trim(CellText(codes, k)), CellAmount(amounts, k)))
  }

  /**
   * The cleaned rows of a sheet, or `None` when one of the two required
   * columns is absent once headers are stripped. When a stripped header
   * occurs twice, the first column under it is read.
   */
  function Rows(t: Table): (r: Option<seq<Row>>)
    ensures r.Some? ==> |r.value| == t.rows
  {
    var names := Trimmed(t.header);
    match (IndexOf(names, CodeColumn), IndexOf(names, AmountColumn))
    case (Some(ci), Some(ai)) => Some(Cleaned(t.columns[ci], t.columns[ai]))
    case _ => None
  }

  /** The rows are read exactly when both required headers are present once stripped. */
  lemma RowsPresent(t: Table)
    ensures Rows(t).Some? <==> CodeColumn in Trimmed(t.header) && AmountColumn in Trimmed(t.header)
  {
    IndexOfSpec(Trimmed(t.header), CodeColumn);
    IndexOfSpec(Trimmed(t.header), AmountColumn);
  }

  /**
   * Every code of a cleaned sheet is already stripped, so the masks see
   * the code's first non-blank character.
   */
  lemma RowsAreTrimmed(t: Table)
    requires Rows(t).Some?
    ensures forall k :: 0 <= k < |Rows(t).value| ==> Trim(Rows(t).value[k].code) == Rows(t).value[k].code
  {
    var names := Trimmed(t.header);
    var ci, ai := IndexOf(names, CodeColumn).value, IndexOf(names, AmountColumn).value;
    var codes, amounts := t.columns[ci], t.columns[ai];
    forall k | 0 <= k < t.rows
      ensures Trim(Rows(t).value[k].code) == Rows(t).value[k].code
    {
      TrimIdempotent(CellText(codes, k));
    }
  }

  /** The incoming mask: the code starts with 1, 2 or 3. */
  predicate IsEntrada(code: string) {
    |code| > 0 && code[0] in "123"
  }

  /** The outgoing mask: the code starts with 5, 6 or 7. */
  predicate IsSaida(code: string) {
    |code| > 0 && code[0] in "567"
  }

  /** A code in neither mask. */
  predicate IsNeither(code: string) {
    !IsEntrada(code) && !IsSaida(code)
  }

  /** A code in one of the two masks. */
  predicate IsEither(code: string) {
    IsEntrada(code) || IsSaida(code)
  }

  /** The sum of the amounts of the rows whose code passes `mask`. */
  function Bucket(rows: seq<Row>, mask: string -> bool): real {
    if rows == [] then 0.0
    else (if mask(rows[0].code) then rows[0].amount else 0.0) + Bucket(rows[1..], mask)
  }

  /** The sum of all amounts. */
  function Total(rows: seq<Row>): real {
    if rows == [] then 0.0 else rows[0].amount + Total(rows[1..])
  }

  /** A bucket over two stretches of rows is the sum of the buckets over each. */
  lemma {:induction false} BucketAppend(a: seq<Row>, b: seq<Row>, mask: string -> bool)
    ensures Bucket(a + b, mask) == Bucket(a, mask) + Bucket(b, mask)
  {
    if a == [] {
      assert a + b == b;
    } else {
      assert (a + b)[1..] == a[1..] + b;
      BucketAppend(a[1..], b, mask);
    }
  }

  /** A row whose code fails the mask can be inserted anywhere without changing the bucket. */
  lemma BucketIgnoresRow(a: seq<Row>, row: Row, b: seq<Row>, mask: string -> bool)
    requires !mask(row.code)
    ensures Bucket(a + [row] + b, mask) == Bucket(a + b, mask)
  {
    BucketAppend(a + [row], b, mask);
    BucketAppend(a, [row], mask);
    BucketAppend(a, b, mask);
    assert Bucket([row], mask) == 0.0;
  }

  /** When no code passes the mask, the bucket is zero, whatever the amounts. */
  lemma {:induction false} BucketOfNone(rows: seq<Row>, mask: string -> bool)
    requires forall k :: 0 <= k < |rows| ==> !mask(rows[k].code)
    ensures Bucket(rows, mask) == 0.0
  {
    if rows != [] {
      BucketOfNone(rows[1..], mask);
    }
  }

  /** The masks never overlap: each row lands in at most one of the two totals. */
  lemma {:induction false} MasksDisjoint(rows: seq<Row>)
    ensures Bucket(rows, IsEntrada) + Bucket(rows, IsSaida) == Bucket(rows, IsEither)
  {
    if rows != [] {
      MasksDisjoint(rows[1..]);
    }
  }

  /** Incoming, outgoing and ignored rows together account for every amount exactly once. */
  lemma {:induction false} BucketPartition(rows: seq<Row>)
    ensures Bucket(rows, IsEntrada) + Bucket(rows, IsSaida) + Bucket(rows, IsNeither) == Total(rows)
  {
    if rows != [] {
      BucketPartition(rows[1..]);
    }
  }

  /**
   * `processar_dataframe`: the record of one sheet, labelled with the file
   * and sheet names. A sheet missing either required column, and a sheet
   * without rows, totals zero on both sides.
   */
  function ClassifySheet(file: string, sheet: string, t: Table): (r: Record)
    ensures r.file == file && r.sheet == sheet
  {
    match Rows(t)
    case None => Record(file, sheet, 0.0, 0.0)
    case Some(rows) => Record(file, sheet, Bucket(rows, IsEntrada), Bucket(rows, IsSaida))
  }

  /** A sheet missing either required column, once headers are stripped, totals zero on both sides. */
  lemma MissingColumnGivesZero(file: string, sheet: string, t: Table)
    requires CodeColumn !in Trimmed(t.header) || AmountColumn !in Trimmed(t.header)
    ensures ClassifySheet(file, sheet, t) == Record(file, sheet, 0.0, 0.0)
  {
    RowsPresent(t);
  }

  /** A sheet without rows totals zero on both sides. */
  lemma EmptySheetGivesZero(file: string, sheet: string, t: Table)
    requires t.rows == 0
    ensures ClassifySheet(file, sheet, t) == Record(file, sheet, 0.0, 0.0)
  {
  }

  /**
   * When both columns are present, the incoming total, the outgoing total
   * and the amounts of the ignored rows share out the sum of every amount.
   */
  lemma ClassifyPartition(file: string, sheet: string, t: Table)
    requires Rows(t).Some?
    ensures var r := ClassifySheet(file, sheet, t);
            r.entrada + r.saida + Bucket(Rows(t).value, IsNeither) == Total(Rows(t).value)
  {
    BucketPartition(Rows(t).value);
  }

  /** Only the first character of a code decides its mask. */
  lemma MasksReadFirstCharacter(a: string, b: string)
    requires a != [] && b != [] && a[0] == b[0]
    ensures IsEntrada(a) <==> IsEntrada(b)
    ensures IsSaida(a) <==> IsSaida(b)
  {
  }

  /** A code falls in neither mask exactly when it is empty or starts with none of 1, 2, 3, 5, 6, 7. */
  lemma IgnoredCodes(code: string)
    ensures IsNeither(code) <==> (code == [] || code[0] !in "123567")
  {
  }

  /** Codes the masks both pass over: empty, a missing cell, and first digits 0, 4, 8, 9. */
  lemma IgnoredSampleCodes()
    ensures IsNeither("") && IsNeither("nan")
    ensures IsNeither("0101") && IsNeither("4101") && IsNeither("8101") && IsNeither("9999")
  {
  }

  // The sample lemmas below take the sample as a parameter pinned by `requires`
  // rather than naming the constant in their `ensures`: the verifier then
  // unfolds the definitions on the literal text only where a proof step asks.

  /** A code column with a plain code, a padded code, a foreign code and a missing cell. */
  const SampleCodes := Strings([Some("1102"), Some(" 5102 "), Some("9999"), None])

  /** An amount column in the Brazilian format, one figure with a currency prefix. */
  const SampleAmounts := Strings([Some("1.234,56"), Some("R$ 750,50"), Some("100,00"), Some("5,00")])

  /** A sheet whose headers carry stray spaces. */
  const Sample: Table := Sheet([" CFOP", "Valor NF "], [SampleCodes, SampleAmounts], 4)

  lemma SampleHeader()
    ensures Trimmed(Sample.header) == [CodeColumn, AmountColumn]
  {
    assert " CFOP"[1..] == "CFOP";
    assert TrimStart(" CFOP") == "CFOP";
    assert "Valor NF "[..8] == "Valor NF";
    assert TrimEnd("Valor NF ") == "Valor NF";
  }

  lemma SampleColumns(t: Table)
    requires t == Sample
    ensures Rows(t) == Some(Cleaned(t.columns[0], t.columns[1]))
  {
    SampleHeader();
    assert IndexOf([CodeColumn, AmountColumn], CodeColumn) == Some(0);
    assert IndexOf([CodeColumn, AmountColumn], AmountColumn) == Some(1);
  }

  lemma SampleRow0(codes: Column, amounts: Column)
    requires codes == SampleCodes && amounts == SampleAmounts
    ensures Cleaned(codes, amounts)[0] == Row("1102", 1234.56)
  {
    assert Trim("1102") == "1102";
    AmountThousands();
  }

  lemma SampleRow1(codes: Column, amounts: Column)
    requires codes == SampleCodes && amounts == SampleAmounts
    ensures Cleaned(codes, amounts)[1] == Row("5102", 750.50)
  {
    assert " 5102 "[1..] == "5102 ";
    assert TrimStart(" 5102 ") == "5102 ";
    assert "5102 "[..4] == "5102";
    assert TrimEnd("5102 ") == "5102";
    AmountCurrency();
  }

  lemma SampleRow2(codes: Column, amounts: Column)
    requires codes == SampleCodes && amounts == SampleAmounts
    ensures Cleaned(codes, amounts)[2].code == "9999"
  {
    assert Trim("9999") == "9999";
  }

  lemma SampleRow3(codes: Column, amounts: Column)
    requires codes == SampleCodes && amounts == SampleAmounts
    ensures Cleaned(codes, amounts)[3].code == "nan"
  {
    assert CellText(codes, 3) == "nan";
    assert Trim("nan") == "nan";
  }

  /** Rows the masks ignore add nothing to the two sample rows' totals. */
  lemma SampleBuckets(rows: seq<Row>)
    requires |rows| == 4 && rows[0] == Row("1102", 1234.56) && rows[1] == Row("5102", 750.50)
    requires rows[2].code == "9999" && rows[3].code == "nan"
    ensures Bucket(rows, IsEntrada) == 1234.56
    ensures Bucket(rows, IsSaida) == 750.50
  {
    var first, last := rows[..2], rows[2..];
    assert rows == first + last;
    assert first == [Row("1102", 1234.56), Row("5102", 750.50)];
    assert IsNeither(last[0].code) && IsNeither(last[1].code);
    BucketAppend(first, last, IsEntrada);
    BucketAppend(first, last, IsSaida);
    BucketOfNone(last, IsEntrada);
    BucketOfNone(last, IsSaida);
    assert IsEntrada("1102") && !IsSaida("1102");
    assert IsSaida("5102") && !IsEntrada("5102");
  }

  /**
   * A worked sheet: the 1102 row is incoming, the padded 5102 row outgoing,
   * and the 9999 row and the row without a code are ignored.
   */
  lemma SampleTotals(t: Table)
    requires t == Sample
    ensures ClassifySheet("notas.xlsx", "Janeiro", t) == Record("notas.xlsx", "Janeiro", 1234.56, 750.50)
  {
    SampleColumns(t);
    var codes, amounts := t.columns[0], t.columns[1];
    SampleRow0(codes, amounts);
    SampleRow1(codes, amounts);
    SampleRow2(codes, amounts);
    SampleRow3(codes, amounts);
    SampleBuckets(Cleaned(codes, amounts));
  }
}
