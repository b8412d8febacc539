/**
 * The text `ProcessCsvPagesAsync` builds from a parsed CSV file. The parser
 * is outside the model: the file is given as its records, each a sequence of
 * fields. The first record supplies the column names; every later record
 * adds a line "name: field" for each field that is not blank after trimming,
 * then an empty line.
 */
module CsvFormatting {

  import opened Wrappers
  import opened Common

  /** What `StringBuilder.AppendLine()` appends. */
  const NewLine := "\n"

  /** Indexing the header array past its end. */
  function HeaderIndexError(): Error
  {
    IndexOutOfRange("Index was outside the bounds of the array.")
  }

  /** The line for field `i` of a record. */
  function CellLine(header: seq<string>, row: seq<string>, i: nat): string
    requires i < |header| && i < |row|
  {
    header[i] + ": " + row[i] + NewLine
  }

  /** The lines of the first `n` fields of a record, or the exception the header lookup raises. */
  function CellsText(header: seq<string>, row: seq<string>, n: nat): Result<string>
    requires n <= |row|
  {
    if n == 0 then Ok("")
    else match CellsText(header, row, n - 1)
      case Err(e) => Err(e)
      case Ok(t) =>
        if IsBlank(row[n - 1]) then Ok(t)
        else if n - 1 < |header| then Ok(t + CellLine(header, row, n - 1))
        else Err(HeaderIndexError())
  }

  /** The text of the first `m` data records. */
  function RowsText(header: seq<string>, rows: seq<seq<string>>, m: nat): Result<string>
    requires m <= |rows|
  {
    if m == 0 then Ok("")
    else match RowsText(header, rows, m - 1)
      case Err(e) => Err(e)
      case Ok(t) =>
        match CellsText(header, rows[m - 1], |rows[m - 1]|)
        case Err(e) => Err(e)
        case Ok(c) => Ok(t + c + NewLine)
  }

  /** The text of a whole file: nothing for an empty file, else the data records under the first record's names. */
  function CsvText(records: seq<seq<string>>): Result<string>
  {
    if records == [] then Ok("") else RowsText(records[0], records[1..], |records| - 1)
  }

  /** A field that is not blank and has no column name. */
  predicate WideCell(header: seq<string>, row: seq<string>, i: int)
  {
    |header| <= i < |row| && !IsBlank(row[i])
  }

  /** A record fails exactly when one of its fields is wide. */
  lemma {:induction false} CellsTextFails(header: seq<string>, row: seq<string>, n: nat)
    requires n <= |row|
    ensures CellsText(header, row, n).Err? <==> exists i :: 0 <= i < n && WideCell(header, row, i)
    ensures CellsText(header, row, n).Err? ==> CellsText(header, row, n).error == HeaderIndexError()
  {
    if n > 0 {
      CellsTextFails(header, row, n - 1);
      if CellsText(header, row, n - 1).Err? {
        var i :| 0 <= i < n - 1 && WideCell(header, row, i);
        assert CellsText(header, row, n).Err?;
        assert 0 <= i < n && WideCell(header, row, i);
      } else {
        assert CellsText(header, row, n).Err? <==> WideCell(header, row, n - 1);
      }
    }
  }

  /** The records fail exactly when one of them has a wide field. */
  lemma {:induction false} RowsTextFails(header: seq<string>, rows: seq<seq<string>>, m: nat)
    requires m <= |rows|
    ensures RowsText(header, rows, m).Err? <==> exists r, i :: 0 <= r < m && WideCell(header, rows[r], i)
    ensures RowsText(header, rows, m).Err? ==> RowsText(header, rows, m).error == HeaderIndexError()
  {
    if m > 0 {
      RowsTextFails(header, rows, m - 1);
      var row := rows[m - 1];
      CellsTextFails(header, row, |row|);
      if RowsText(header, rows, m - 1).Err? {
        var r, i :| 0 <= r < m - 1 && WideCell(header, rows[r], i);
        assert RowsText(header, rows, m).Err?;
        assert 0 <= r < m && WideCell(header, rows[r], i);
      } else if CellsText(header, row, |row|).Err? {
        var i :| 0 <= i < |row| && WideCell(header, row, i);
        assert RowsText(header, rows, m).Err?;
        assert WideCell(header, rows[m - 1], i);
      }
    }
  }

  /**
   * Building the text fails, with `IndexOutOfRangeException`, exactly when
   * some data record has a non-blank field beyond the first record's width.
   */
  lemma CsvTextFails(records: seq<seq<string>>)
    ensures CsvText(records).Err? <==>
      exists r, i :: 1 <= r < |records| && WideCell(records[0], records[r], i)
    ensures CsvText(records).Err? ==> CsvText(records).error == HeaderIndexError()
  {
    if records != [] {
      var rows := records[1..];
      RowsTextFails(records[0], rows, |rows|);
      if CsvText(records).Err? {
        var r, i :| 0 <= r < |rows| && WideCell(records[0], rows[r], i);
        assert WideCell(records[0], records[r + 1], i);
      }
      forall r, i | 1 <= r < |records| && WideCell(records[0], records[r], i)
        ensures CsvText(records).Err?
      {
        assert WideCell(records[0], rows[r - 1], i);
      }
    }
  }

  /** A data record without non-blank fields adds only the empty line. */
  lemma {:induction false} BlankCellsAddNothing(header: seq<string>, row: seq<string>, n: nat)
    requires n <= |row|
    requires forall i :: 0 <= i < n ==> IsBlank(row[i])
    ensures CellsText(header, row, n) == Ok("")
  {
    if n > 0 {
      BlankCellsAddNothing(header, row, n - 1);
    }
  }

  /** Appending the lines of one record's fields, the `for` loop over the columns. */
  method AppendCells(header: seq<string>, row: seq<string>, prefix: string) returns (r: Result<string>)
    ensures r == match CellsText(header, row, |row|)
                 case Ok(c) => Ok(prefix + c)
                 case Err(e) => Err(e)
  {
    var text := prefix;
    ghost var cells := "";
    var i := 0;
    while i < |row|
      invariant 0 <= i <= |row|
      invariant CellsText(header, row, i) == Ok(cells)
      invariant text == prefix + cells
    {
      var value := row[i];
      if !IsBlank(value) {
        if i >= |header| {
          CellsTextFails(header, row, |row|);
          assert WideCell(header, row, i);
          return Err(HeaderIndexError());
        }
        text := text + CellLine(header, row, i);
        cells := cells + CellLine(header, row, i);
      }
      i := i + 1;
    }
    return Ok(text);
  }

  /** The `while (csv.Read())` loop over the data records, appending to a `StringBuilder`. */
  method BuildCsvText(records: seq<seq<string>>) returns (r: Result<string>)
    ensures r == CsvText(records)
  {
    if records == [] {
      return Ok("");
    }
    var header := records[0];
    var rows := records[1..];
    var text := "";
    var m := 0;
    while m < |rows|
      invariant 0 <= m <= |rows|
      invariant RowsText(header, rows, m) == Ok(text)
    {
      var appended := AppendCells(header, rows[m], text);
      if appended.Err? {
        CellsTextFails(header, rows[m], |rows[m]|);
        var i :| 0 <= i < |rows[m]| && WideCell(header, rows[m], i);
        RowsTextFails(header, rows, |rows|);
        return Err(appended.error);
      }
      text := appended.value + NewLine;
      m := m + 1;
    }
    return Ok(text);
  }
}
