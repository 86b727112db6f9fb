/** Row resolution and update of src/sheets.py over an in-memory sheet.
    A sheet is a sequence of rows, each a sequence of string cells; row 1 of
    the sheet is `grid[0]` and holds the column names. */
module Sheets {
  import opened Wrappers
  import opened ColumnLetters

  type Row = seq<string>
  type Grid = seq<Row>

  /** The ValueErrors the update raises. */
  datatype SheetError =
    | ColumnNotFound(column: string)
    | RowNotFound(pkValue: string)

  /** One entry of a batch write: `{sheet}!{column}{row}` := value (row 1-based). */
  datatype CellWrite = CellWrite(column: string, row: nat, value: string)

  /** The cell at 0-based row `r` and column `c`; a cell outside the stored rows is blank. */
  function Cell(grid: Grid, r: int, c: int): string {
    if 0 <= r < |grid| && 0 <= c < |grid[r]| then grid[r][c] else ""
  }

  /** The header row as the range `1:1` reads it; a sheet with no rows reads as one empty row. */
  function Header(grid: Grid): (h: Row)
    ensures |grid| == 0 ==> h == []
    ensures |grid| > 0 ==> |h| == |grid[0]|
    ensures forall j :: 0 <= j < |h| ==> h[j] == Cell(grid, 0, j)
  {
    if |grid| == 0 then [] else grid[0]
  }

  /** Python's `list.index`: the first position holding `name`. */
  function IndexOf(headers: Row, name: string): (r: Option<nat>)
    ensures r.Some? ==> r.value < |headers| && headers[r.value] == name
    ensures r.Some? ==> forall j :: 0 <= j < r.value ==> headers[j] != name
    ensures r.None? <==> name !in headers
  {
    if |headers| == 0 then None
    else if headers[0] == name then Some(0)
    else match IndexOf(headers[1..], name)
      case None => None
      case Some(i) => Some(i + 1)
  }

  /** `_get_column_index`: the 0-based position of the first header cell equal to
      `column` (exact comparison), or ColumnNotFound. */
  function ColumnIndex(grid: Grid, column: string): (r: Result<nat, SheetError>)
    ensures r.Success? ==> r.value < |Header(grid)| && Header(grid)[r.value] == column
    ensures r.Success? ==> forall j :: 0 <= j < r.value ==> Header(grid)[j] != column
    ensures r.Failure? <==> column !in Header(grid)
    ensures r.Failure? ==> r.error == ColumnNotFound(column)
  {
    match IndexOf(Header(grid), column)
    case None => Failure(ColumnNotFound(column))
    case Some(i) => Success(i)
  }

  /** What reading the range `{L}:{L}` returns for the column at position `col`:
      one entry per row, `[value]` for a filled cell and `[]` for a blank one. */
  function ReadColumn(grid: Grid, col: nat): (values: Grid)
    ensures |values| == |grid|
    ensures forall i :: 0 <= i < |grid| ==>
      (values[i] == [] <==> Cell(grid, i, col) == "")
    ensures forall i :: 0 <= i < |grid| && values[i] != [] ==>
      values[i] == [Cell(grid, i, col)]
  {
    seq(|grid|, i requires 0 <= i < |grid| =>
      if Cell(grid, i, col) == "" then [] else [Cell(grid, i, col)])
  }

  /** The same read addressed by column letters, as the source issues it. */
  function ReadColumnByLetters(grid: Grid, letters: string): (values: Grid)
    requires IsLetters(letters) && letters != []
    ensures |values| == |grid|
    ensures forall i :: 0 <= i < |grid| ==>
      (values[i] == [] <==> Cell(grid, i, LetterToIndex(letters)) == "")
    ensures forall i :: 0 <= i < |grid| && values[i] != [] ==>
      values[i] == [Cell(grid, i, LetterToIndex(letters))]
  {
    ReadColumn(grid, LetterToIndex(letters))
  }

  /** A row read back from the column range matches when it is non-empty and
      its first cell equals the key. */
  predicate Matches(values: Row, pkValue: string) {
    |values| > 0 && values[0] == pkValue
  }

  /** The scan of `_find_row_by_pk`: the 1-based number of the first matching row. */
  function FirstMatchingRow(values: Grid, pkValue: string): (r: Option<nat>)
    ensures r.Some? ==> 1 <= r.value <= |values| && Matches(values[r.value - 1], pkValue)
    ensures r.Some? ==> forall j :: 0 <= j < r.value - 1 ==> !Matches(values[j], pkValue)
    ensures r.None? <==> forall j :: 0 <= j < |values| ==> !Matches(values[j], pkValue)
  {
    if |values| == 0 then None
    else if Matches(values[0], pkValue) then Some(1)
    else match FirstMatchingRow(values[1..], pkValue)
      case None => None
      case Some(i) => Some(i + 1)
  }

  /** The row search stated on the sheet's cells: the first row, header row
      included, whose key cell is filled and equals `pkValue`. */
  lemma RowSearchByCells(grid: Grid, col: nat, pkValue: string)
    ensures var r := FirstMatchingRow(ReadColumn(grid, col), pkValue);
      (r.Some? ==> pkValue != "" && 1 <= r.value <= |grid| && Cell(grid, r.value - 1, col) == pkValue &&
                   forall i :: 0 <= i < r.value - 1 ==> Cell(grid, i, col) != pkValue) &&
      (r.None? <==> pkValue == "" || forall i :: 0 <= i < |grid| ==> Cell(grid, i, col) != pkValue)
  {
    var values := ReadColumn(grid, col);
    var r := FirstMatchingRow(values, pkValue);
    if r.None? && pkValue != "" {
      forall i | 0 <= i < |grid| ensures Cell(grid, i, col) != pkValue {
        assert !Matches(values[i], pkValue);
      }
    }
    if r.Some? {
      forall i | 0 <= i < r.value - 1 ensures Cell(grid, i, col) != pkValue {
        assert !Matches(values[i], pkValue);
      }
    }
  }

  /** The header row takes part in the search: a key equal to the key column's
      own header text is found in row 1. */
  lemma HeaderRowCanMatch(grid: Grid, col: nat, pkValue: string)
    requires pkValue != "" && Cell(grid, 0, col) == pkValue
    ensures FirstMatchingRow(ReadColumn(grid, col), pkValue) == Some(1)
  {
    assert Matches(ReadColumn(grid, col)[0], pkValue);
  }

  /** The header lookup on a sheet whose header row is id, name, status. */
  lemma ColumnIndexExamples()
    ensures ColumnIndex([["id", "name", "status"]], "status") == Success(2)
    ensures ColumnIndex([["id", "name", "status"]], "missing") == Failure(ColumnNotFound("missing"))
    ensures ColumnIndex([], "id") == Failure(ColumnNotFound("id"))
  {
    assert "missing" !in ["id", "name", "status"];
  }

  /** The row search on a small sheet whose key column is `id`: the first of
      two rows keyed "7" is found, and the header text "id" itself is found in row 1. */
  lemma RowSearchExamples()
    ensures FirstMatchingRow(ReadColumn([["id"], ["7"], ["3"], ["7"]], 0), "7") == Some(2)
    ensures FirstMatchingRow(ReadColumn([["id"], ["7"], ["3"]], 0), "99") == None
    ensures FirstMatchingRow(ReadColumn([["id"], ["7"], ["3"]], 0), "id") == Some(1)
  {
    var g := [["id"], ["7"], ["3"], ["7"]];
    assert ReadColumn(g, 0)[1] == ["7"];
    assert !Matches(ReadColumn(g, 0)[0], "7");
    var h := [["id"], ["7"], ["3"]];
    assert ReadColumn(h, 0)[0] == ["id"];
    assert ReadColumn(h, 0)[1] == ["7"];
    assert ReadColumn(h, 0)[2] == ["3"];
  }

  /** The row `cells` with cell `c` set to `v`, padded with blank cells when it is shorter. */
  function SetCell(cells: Row, c: nat, v: string): (r: Row)
    ensures |r| == if c < |cells| then |cells| else c + 1
    ensures r[c] == v
    ensures forall j :: 0 <= j < |r| && j != c ==> r[j] == (if j < |cells| then cells[j] else "")
  {
    if c < |cells| then cells[c := v] else cells + seq(c - |cells|, _ => "") + [v]
  }

  /** A write the store can apply to a sheet of `height` rows: a non-empty
      column-letter string and an existing 1-based row. */
  predicate WellAddressed(height: nat, w: CellWrite) {
    IsLetters(w.column) && w.column != [] && 1 <= w.row <= height
  }

  /** One entry of a batch write applied to the sheet: exactly one cell changes. */
  function ApplyWrite(grid: Grid, w: CellWrite): (g: Grid)
    requires WellAddressed(|grid|, w)
    ensures |g| == |grid|
  {
    grid[w.row - 1 := SetCell(grid[w.row - 1], LetterToIndex(w.column), w.value)]
  }

  /** One write changes exactly the cell it addresses. */
  lemma ApplyWriteCells(grid: Grid, w: CellWrite)
    requires WellAddressed(|grid|, w)
    ensures forall i, j ::
      Cell(ApplyWrite(grid, w), i, j) == (if i == w.row - 1 && j == LetterToIndex(w.column) then w.value else Cell(grid, i, j))
  {
  }

  /** A batch write applied entry by entry. */
  function ApplyBatch(grid: Grid, batch: seq<CellWrite>): (g: Grid)
    requires forall k :: 0 <= k < |batch| ==> WellAddressed(|grid|, batch[k])
    ensures |g| == |grid|
    decreases |batch|
  {
    if batch == [] then grid
    else ApplyBatch(ApplyWrite(grid, batch[0]), batch[1..])
  }

  /** Where an update writes: the result column, the processed-at column and the 1-based row. */
  datatype Target = Target(resultIndex: nat, processedAtIndex: nat, row: nat)

  /** The resolution steps of `update_sheet_row`: the key column, then the
      result column, the processed-at column taken as the one right of the
      result column, then the row search on the key column. */
  function Locate(grid: Grid, pkColumn: string, pkValue: string, resultColumn: string): (r: Result<Target, SheetError>)
    ensures r.Success? ==> r.value.processedAtIndex == r.value.resultIndex + 1
    ensures r.Success? ==> 1 <= r.value.row <= |grid|
  {
    match ColumnIndex(grid, pkColumn)
    case Failure(e) => Failure(e)
    case Success(pkIndex) =>
      match ColumnIndex(grid, resultColumn)
      case Failure(e) => Failure(e)
      case Success(resultIndex) =>
        match FirstMatchingRow(ReadColumn(grid, pkIndex), pkValue)
        case None => Failure(RowNotFound(pkValue))
        case Some(row) => Success(Target(resultIndex, resultIndex + 1, row))
  }

  /** The two entries of the batch write: the result value and the processed-at
      time, each addressed by its column letters and the row number. */
  function Batch(t: Target, resultValue: string, processedAt: string): (b: seq<CellWrite>)
    ensures |b| == 2
    ensures b[0].row == t.row && b[1].row == t.row
    ensures b[0].value == resultValue && b[1].value == processedAt
    ensures forall k :: 0 <= k < |b| ==> IsLetters(b[k].column) && b[k].column != []
  {
    [CellWrite(Letters(t.resultIndex), t.row, resultValue),
     CellWrite(Letters(t.processedAtIndex), t.row, processedAt)]
  }

  /** The failures of the update, in the order the source checks for them:
      the key column, then the result column, then the row. */
  lemma LocateFailures(grid: Grid, pkColumn: string, pkValue: string, resultColumn: string)
    ensures var r := Locate(grid, pkColumn, pkValue, resultColumn);
      (pkColumn !in Header(grid) ==> r == Failure(ColumnNotFound(pkColumn))) &&
      (pkColumn in Header(grid) && resultColumn !in Header(grid) ==>
         r == Failure(ColumnNotFound(resultColumn))) &&
      (pkColumn in Header(grid) && resultColumn in Header(grid) ==>
         (r == Failure(RowNotFound(pkValue)) <==>
            pkValue == "" ||
            forall i :: 0 <= i < |grid| ==> Cell(grid, i, ColumnIndex(grid, pkColumn).value) != pkValue))
  {
    if pkColumn in Header(grid) && resultColumn in Header(grid) {
      RowSearchByCells(grid, ColumnIndex(grid, pkColumn).value, pkValue);
    }
  }

  /** A successful resolution names the first row whose key cell equals the
      key and the position of the result column's header. */
  /** The update goes ahead exactly when both columns exist and some filled
      cell of the key column equals the key. */
  lemma LocateSucceeds(grid: Grid, pkColumn: string, pkValue: string, resultColumn: string)
    ensures Locate(grid, pkColumn, pkValue, resultColumn).Success? <==>
      pkColumn in Header(grid) && resultColumn in Header(grid) && pkValue != "" &&
      exists i :: 0 <= i < |grid| && Cell(grid, i, ColumnIndex(grid, pkColumn).value) == pkValue
  {
    LocateFailures(grid, pkColumn, pkValue, resultColumn);
  }

  lemma LocateSuccess(grid: Grid, pkColumn: string, pkValue: string, resultColumn: string, t: Target)
    requires Locate(grid, pkColumn, pkValue, resultColumn) == Success(t)
    ensures ColumnIndex(grid, pkColumn).Success? && ColumnIndex(grid, resultColumn) == Success(t.resultIndex)
    ensures pkValue != "" && Cell(grid, t.row - 1, ColumnIndex(grid, pkColumn).value) == pkValue
    ensures forall i :: 0 <= i < t.row - 1 ==> Cell(grid, i, ColumnIndex(grid, pkColumn).value) != pkValue
  {
    var pkIndex := ColumnIndex(grid, pkColumn).value;
    assert FirstMatchingRow(ReadColumn(grid, pkIndex), pkValue) == Some(t.row);
    RowSearchByCells(grid, pkIndex, pkValue);
  }

  /** The batch addresses the target's two columns: the letters decode back to
      the result position and to the position after it, so the two writes never
      land in the same cell. */
  lemma BatchAddresses(t: Target, resultValue: string, processedAt: string)
    requires t.processedAtIndex == t.resultIndex + 1
    ensures var batch := Batch(t, resultValue, processedAt);
      LetterToIndex(batch[0].column) == t.resultIndex &&
      LetterToIndex(batch[1].column) == t.resultIndex + 1 &&
      batch[0].column != batch[1].column &&
      batch[0].value == resultValue && batch[1].value == processedAt
  {
    LetterToIndexOfLetters(t.resultIndex);
    LetterToIndexOfLetters(t.resultIndex + 1);
  }

  /** A batch of two writes into adjacent cells of one row changes those two cells only. */
  lemma AdjacentPairWrite(grid: Grid, first: CellWrite, second: CellWrite)
    requires WellAddressed(|grid|, first) && WellAddressed(|grid|, second)
    requires first.row == second.row
    requires LetterToIndex(second.column) == LetterToIndex(first.column) + 1
    ensures var g := ApplyBatch(grid, [first, second]);
            var r, c := first.row - 1, LetterToIndex(first.column);
      |g| == |grid| &&
      Cell(g, r, c) == first.value && Cell(g, r, c + 1) == second.value &&
      forall i, j :: !(i == r && c <= j <= c + 1) ==> Cell(g, i, j) == Cell(grid, i, j)
  {
    var batch := [first, second];
    var g1 := ApplyWrite(grid, first);
    var g2 := ApplyWrite(g1, second);
    ApplyWriteCells(grid, first);
    ApplyWriteCells(g1, second);
    assert ApplyBatch(grid, batch) == ApplyBatch(g1, batch[1..]);
    assert ApplyBatch(g1, batch[1..]) == ApplyBatch(g2, batch[2..]);
    assert batch[2..] == [];
  }

  /** Applying the batch for a resolved target sets the result cell and the
      processed-at cell of the target row and leaves every other cell as it was. */
  lemma BatchChangesTwoCells(grid: Grid, t: Target, resultValue: string, processedAt: string)
    requires 1 <= t.row <= |grid| && t.processedAtIndex == t.resultIndex + 1
    ensures |ApplyBatch(grid, Batch(t, resultValue, processedAt))| == |grid|
    ensures Cell(ApplyBatch(grid, Batch(t, resultValue, processedAt)), t.row - 1, t.resultIndex) == resultValue
    ensures Cell(ApplyBatch(grid, Batch(t, resultValue, processedAt)), t.row - 1, t.resultIndex + 1) == processedAt
    ensures forall i, j :: !(i == t.row - 1 && t.resultIndex <= j <= t.resultIndex + 1) ==>
      Cell(ApplyBatch(grid, Batch(t, resultValue, processedAt)), i, j) == Cell(grid, i, j)
  {
    var batch := Batch(t, resultValue, processedAt);
    BatchAddresses(t, resultValue, processedAt);
    assert batch == [batch[0], batch[1]];
    AdjacentPairWrite(grid, batch[0], batch[1]);
  }

  /** The sheet as the backing store holds it. */
  class Sheet {
    var rows: Grid

    constructor (rows: Grid)
      ensures this.rows == rows
    {
      this.rows := rows;
    }

    /** `_find_row_by_pk`: read the key column by its letters and scan it top to
        bottom, header row included, for the first filled cell equal to the key. */
    method FindRowByPk(pkColumnIndex: nat, pkValue: string) returns (row: Option<nat>)
      ensures row == FirstMatchingRow(ReadColumn(rows, pkColumnIndex), pkValue)
      ensures row.Some? ==> 1 <= row.value <= |rows| && Cell(rows, row.value - 1, pkColumnIndex) == pkValue
      ensures row.Some? ==> forall i :: 0 <= i < row.value - 1 ==> Cell(rows, i, pkColumnIndex) != pkValue
      ensures row.None? <==> pkValue == "" || forall i :: 0 <= i < |rows| ==> Cell(rows, i, pkColumnIndex) != pkValue
    {
      RowSearchByCells(rows, pkColumnIndex, pkValue);
      var letters := ColumnIndexToLetter(pkColumnIndex);
      LetterToIndexOfLetters(pkColumnIndex);
      var values := ReadColumnByLetters(rows, letters);
      for i := 0 to |values|
        invariant forall j :: 0 <= j < i ==> !Matches(values[j], pkValue)
      {
        if |values[i]| > 0 && values[i][0] == pkValue {
          return Some(i + 1);
        }
      }
      return None;
    }

    /** The resolution steps of `update_sheet_row`, each failure raised as it occurs. */
    method ResolveTarget(pkColumn: string, pkValue: string, resultColumn: string)
      returns (target: Result<Target, SheetError>)
      ensures target == Locate(rows, pkColumn, pkValue, resultColumn)
    {
      var pkIndex := ColumnIndex(rows, pkColumn);
      if pkIndex.Failure? {
        return Failure(pkIndex.error);
      }
      var resultIndex := ColumnIndex(rows, resultColumn);
      if resultIndex.Failure? {
        return Failure(resultIndex.error);
      }
      var processedAtIndex := resultIndex.value + 1;
      var rowNumber := FindRowByPk(pkIndex.value, pkValue);
      if rowNumber.None? {
        return Failure(RowNotFound(pkValue));
      }
      assert Locate(rows, pkColumn, pkValue, resultColumn) == Success(Target(resultIndex.value, processedAtIndex, rowNumber.value));
      return Success(Target(resultIndex.value, processedAtIndex, rowNumber.value));
    }

    /** The batch write of `update_sheet_row`: the result cell and the
        processed-at cell of the target row, addressed by column letters. */
    method WriteResult(t: Target, resultValue: string, processedAt: string)
      requires 1 <= t.row <= |rows|
      modifies this
      ensures rows == ApplyBatch(old(rows), Batch(t, resultValue, processedAt))
    {
      var resultLetters := ColumnIndexToLetter(t.resultIndex);
      var processedAtLetters := ColumnIndexToLetter(t.processedAtIndex);
      var data := [CellWrite(resultLetters, t.row, resultValue),
                   CellWrite(processedAtLetters, t.row, processedAt)];
      assert data == Batch(t, resultValue, processedAt);
      assert WellAddressed(|rows|, data[0]) && WellAddressed(|rows|, data[1]);
      rows := ApplyBatch(rows, data);
    }

    /** `update_sheet_row`: resolve the target, then write the result and the
        processed-at time as one batch; on any failure nothing is written. */
    method UpdateRow(pkColumn: string, pkValue: string, resultColumn: string,
                     resultValue: string, processedAt: string) returns (outcome: Outcome<SheetError>)
      modifies this
      ensures match Locate(old(rows), pkColumn, pkValue, resultColumn)
        case Failure(e) => outcome == Fail(e) && rows == old(rows)
        case Success(t) => outcome == Pass && rows == ApplyBatch(old(rows), Batch(t, resultValue, processedAt))
    {
      var target := ResolveTarget(pkColumn, pkValue, resultColumn);
      if target.Failure? {
        return Fail(target.error);
      }
      WriteResult(target.value, resultValue, processedAt);
      return Pass;
    }
  }
}
