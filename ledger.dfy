/**
 * The inventory ledger (data/inventory_tracker.csv) as the scripts see it:
 * a sequence of rows, each a map from column name to text.
 */
module Ledger {
  import Text

  /** One ledger record: column name to cell text (what csv.DictReader yields). */
  type Row = map<string, string>

  /**
   * One record on the file: the row a DictWriter was given and that writer's
   * field names, which fix the order of the record's cells on its line.
   */
  datatype Line = Line(names: seq<string>, row: Row)

  /**
   * The ledger file. `Absent` is a missing file; `Present(header, lines)` is a
   * file whose first record is `header` (empty when no header was ever
   * written) followed by the data records. `Present([], [])` is a file of size zero.
   */
  datatype LedgerFile = Absent | Present(header: seq<string>, lines: seq<Line>)

  predicate IsZeroSize(f: LedgerFile) { f.Present? && f.header == [] && f.lines == [] }

  /** The cells DictWriter puts on the line: for each of its field names, the
      row's value, or "" (its `restval`) when the row lacks the column. */
  function Cells(line: Line): (cells: seq<string>)
    ensures |cells| == |line.names|
    ensures forall i :: 0 <= i < |cells| ==> cells[i] == Get(line.row, line.names[i], "")
  {
    seq(|line.names|, i requires 0 <= i < |line.names| => Get(line.row, line.names[i], ""))
  }

  /**
   * `dict(zip(names, cells))`: each name keys the cell at its position, and a
   * name that occurs twice keeps its last cell.
   */
  function Rekey(names: seq<string>, cells: seq<string>): (row: Row)
    requires |names| == |cells|
    ensures row.Keys == set k | k in names
    ensures |names| > 0 ==> row[names[|names| - 1]] == cells[|cells| - 1]
  {
    if names == [] then map[]
    else
      var n := |names| - 1;
      Rekey(names[..n], cells[..n])[names[n] := cells[n]]
  }

  /**
   * The key DictReader files a record's surplus cells under (its `restkey`,
   * `None` in Python). Its j-th character differs from the j-th field name's
   * j-th character, and its length is the number of names, so it differs from
   * every field name in one or the other.
   */
  function RestKey(names: seq<string>): (key: string)
    ensures key !in names
    ensures forall i :: 0 <= i < |key| ==> key[i] == '_' || key[i] == '-'
  {
    var key := seq(|names|, j requires 0 <= j < |names| =>
                 if j < |names[j]| && names[j][j] == '_' then '-' else '_');
    assert forall j :: 0 <= j < |names| ==> key != names[j] by {
      forall j | 0 <= j < |names| ensures key != names[j] {
        if |names[j]| == |key| {
          assert key[j] != names[j][j];
        }
      }
    }
    key
  }

  /** `n` cells of DictReader's `restval`, which the model writes as "". */
  function Padding(n: nat): (cells: seq<string>)
    ensures |cells| == n && forall i :: 0 <= i < n ==> cells[i] == ""
  {
    seq(n, _ => "")
  }

  /**
   * The row DictReader makes of a record under the field names: names and
   * cells are paired by position. A record shorter than the field names gives
   * every name past its last cell the value "" (`restval`, `None` in Python);
   * a longer one keeps its surplus cells, joined by commas, under `RestKey`.
   */
  function ReadLine(names: seq<string>, cells: seq<string>): (row: Row)
    ensures |cells| <= |names| ==> row.Keys == set k | k in names
    ensures |names| < |cells| ==> row.Keys == (set k | k in names) + {RestKey(names)}
    ensures |names| < |cells| ==> row[RestKey(names)] == Text.Join(",", cells[|names|..])
    ensures row.Keys <= (set k | k in names) + {RestKey(names)}
  {
    if |names| < |cells| then
      Rekey(names, cells[..|names|])[RestKey(names) := Text.Join(",", cells[|names|..])]
    else
      Rekey(names, cells + Padding(|names| - |cells|))
  }

  /**
   * The field names DictReader takes from the file: its header or, in a file
   * written without one, the cells of its first record.
   */
  function FieldNames(f: LedgerFile): (names: seq<string>)
    ensures f.Present? && f.header != [] ==> names == f.header
    ensures f.Present? && f.header == [] && f.lines != [] ==> names == Cells(f.lines[0])
  {
    if f.Absent? then []
    else if f.header != [] then f.header
    else if f.lines != [] then Cells(f.lines[0])
    else []
  }

  /** The records read under the given field names, one row per record. */
  function ReadLines(names: seq<string>, lines: seq<Line>): (rows: seq<Row>)
    ensures |rows| == |lines|
    ensures forall i :: 0 <= i < |rows| ==> rows[i] == ReadLine(names, Cells(lines[i]))
  {
    if lines == [] then []
    else [ReadLine(names, Cells(lines[0]))] + ReadLines(names, lines[1..])
  }

  /**
   * The rows a csv.DictReader returns for the file: each data record keyed by
   * the field names by position. In a file written without a header the
   * first record is used up as the field names.
   */
  function RowsOf(f: LedgerFile): (rows: seq<Row>)
    ensures |rows| <= (if f.Present? then |f.lines| else 0)
    ensures f.Present? && f.header != [] ==> |rows| == |f.lines|
    ensures f.Present? && f.header == [] && f.lines != [] ==> |rows| == |f.lines| - 1
    ensures forall i :: 0 <= i < |rows| ==>
              rows[i].Keys <= HeaderSet(FieldNames(f)) + {RestKey(FieldNames(f))}
  {
    if f.Absent? then []
    else if f.header == [] && f.lines != [] then ReadLines(Cells(f.lines[0]), f.lines[1..])
    else ReadLines(f.header, f.lines)
  }

  /** The record of each row under the writer's field names. */
  function LinesOf(names: seq<string>, rows: seq<Row>): (lines: seq<Line>)
    ensures |lines| == |rows|
    ensures forall i :: 0 <= i < |rows| ==> lines[i] == Line(names, rows[i])
  {
    seq(|rows|, i requires 0 <= i < |rows| => Line(names, rows[i]))
  }

  /** A name's cell, when the name does not occur again later, is its value. */
  lemma {:induction false} RekeyAt(names: seq<string>, cells: seq<string>, j: nat)
    requires |names| == |cells| && j < |names|
    requires names[j] !in names[j + 1..]
    ensures Rekey(names, cells)[names[j]] == cells[j]
  {
    var n := |names| - 1;
    if j < n {
      assert names[n] in names[j + 1..];
      assert names[..n][j + 1..] == names[j + 1..n];
      assert names[j + 1..] == names[j + 1..n] + [names[n]];
      RekeyAt(names[..n], cells[..n], j);
    }
  }

  /** Cells taken from a row under its own column names give back that row's values. */
  lemma {:induction false} RekeyValues(names: seq<string>, cells: seq<string>, row: Row)
    requires |names| == |cells|
    requires forall i :: 0 <= i < |names| ==> names[i] in row && cells[i] == row[names[i]]
    ensures forall k :: k in Rekey(names, cells) ==> Rekey(names, cells)[k] == row[k]
  {
    if names != [] {
      var n := |names| - 1;
      RekeyValues(names[..n], cells[..n], row);
    }
  }

  /** A record read under the field names it was written with is the row it was written from. */
  lemma ReadOwnLine(line: Line)
    requires line.row.Keys == set k | k in line.names
    ensures ReadLine(line.names, Cells(line)) == line.row
  {
    var cells := Cells(line);
    RekeyValues(line.names, cells, line.row);
    assert cells + Padding(0) == cells;
  }

  /** A name that does not occur again later, with a cell at its position,
      reads as that cell. */
  lemma ReadLineAt(names: seq<string>, cells: seq<string>, j: nat)
    requires j < |names| && j < |cells| && names[j] !in names[j + 1..]
    ensures names[j] in ReadLine(names, cells) && ReadLine(names, cells)[names[j]] == cells[j]
  {
    if |names| < |cells| {
      RekeyAt(names, cells[..|names|], j);
    } else {
      RekeyAt(names, cells + Padding(|names| - |cells|), j);
    }
  }

  /** A name past the record's last cell that does not occur again later reads as "". */
  lemma ReadLinePadded(names: seq<string>, cells: seq<string>, j: nat)
    requires |cells| <= j < |names| && names[j] !in names[j + 1..]
    ensures names[j] in ReadLine(names, cells) && ReadLine(names, cells)[names[j]] == ""
  {
    var padded := cells + Padding(|names| - |cells|);
    assert padded[j] == "";
    RekeyAt(names, padded, j);
  }

  /** Column names none of which repeats. */
  predicate Distinct(names: seq<string>)
  {
    forall i, j :: 0 <= i < j < |names| ==> names[i] != names[j]
  }

  /** In such names, no name occurs again later. */
  lemma DistinctAt(names: seq<string>, j: nat)
    requires Distinct(names) && j < |names|
    ensures names[j] !in names[j + 1..]
  {
    var rest := names[j + 1..];
    forall t | 0 <= t < |rest| ensures rest[t] != names[j] {
      assert rest[t] == names[j + 1 + t];
    }
  }

  /** Nor does any name occur earlier. */
  lemma DistinctBefore(names: seq<string>, k: nat, j: nat)
    requires Distinct(names) && k <= j < |names|
    ensures names[j] !in names[..k]
  {
    var front := names[..k];
    forall t | 0 <= t < |front| ensures front[t] != names[j] {
      assert front[t] == names[t];
    }
  }

  /** Under distinct field names, the j-th name reads the cell the record's
      writer put in position j. */
  lemma ReadCell(names: seq<string>, line: Line, j: nat)
    requires Distinct(names) && j < |names| && j < |line.names|
    ensures names[j] in ReadLine(names, Cells(line))
    ensures ReadLine(names, Cells(line))[names[j]] == Get(line.row, line.names[j], "")
  {
    DistinctAt(names, j);
    ReadLineAt(names, Cells(line), j);
  }

  /** Under distinct field names, each name as far as the record reaches reads
      the cell its writer put in that position, and every name past it reads "". */
  lemma ReadRecord(names: seq<string>, line: Line)
    requires Distinct(names)
    ensures var r := ReadLine(names, Cells(line));
            forall j :: 0 <= j < |names| && j < |line.names| ==>
              names[j] in r && r[names[j]] == Get(line.row, line.names[j], "")
    ensures var r := ReadLine(names, Cells(line));
            forall j :: |line.names| <= j < |names| ==> names[j] in r && r[names[j]] == ""
  {
    forall j | 0 <= j < |names| && j < |line.names| {
      ReadCell(names, line, j);
    }
    forall j | |line.names| <= j < |names|
      ensures names[j] in ReadLine(names, Cells(line)) && ReadLine(names, Cells(line))[names[j]] == ""
    {
      DistinctAt(names, j);
      ReadLinePadded(names, Cells(line), j);
    }
  }

  /**
   * On a headed file where no record has more cells than the header, every
   * row DictReader returns has exactly the header's names: short records are
   * padded, and no surplus cells go under the `RestKey`.
   */
  lemma ShortRecordsKeyEveryName(f: LedgerFile)
    requires f.Present? && f.header != []
    requires forall i :: 0 <= i < |f.lines| ==> |f.lines[i].names| <= |f.header|
    ensures forall i :: 0 <= i < |RowsOf(f)| ==> RowsOf(f)[i].Keys == HeaderSet(f.header)
  {
    var rows := ReadLines(f.header, f.lines);
    assert RowsOf(f) == rows;
    forall i | 0 <= i < |rows| ensures rows[i].Keys == HeaderSet(f.header) {
      assert |Cells(f.lines[i])| <= |f.header|;
    }
  }

  /** A record with more cells than the field names is read with a `RestKey`
      entry, so DictWriter refuses it under those names. */
  lemma LongRecordDoesNotFit(names: seq<string>, line: Line)
    requires |names| < |line.names|
    ensures RestKey(names) in ReadLine(names, Cells(line))
    ensures !Fits(ReadLine(names, Cells(line)), HeaderSet(names))
  {
  }

  /** The file starts with an Item_ID column that does not occur again. */
  predicate IdFirst(names: seq<string>)
  {
    |names| > 0 && names[0] == "Item_ID" && forall i :: 1 <= i < |names| ==> names[i] != "Item_ID"
  }

  /** Under such field names, a record's Item_ID is its first cell. */
  lemma ReadLineId(names: seq<string>, cells: seq<string>)
    requires IdFirst(names) && |cells| > 0
    ensures "Item_ID" in ReadLine(names, cells) && ReadLine(names, cells)["Item_ID"] == cells[0]
  {
    assert "Item_ID" !in names[1..] by {
      forall t | 0 <= t < |names| - 1 ensures names[1..][t] != "Item_ID" {
        assert names[1..][t] == names[t + 1];
      }
    }
    ReadLineAt(names, cells, 0);
  }

  /**
   * In a file written without a header whose first record has no cell reading
   * "Item_ID", no row DictReader returns has an Item_ID column, so every
   * `row['Item_ID']` lookup on it raises KeyError.
   */
  lemma HeaderlessRowsLackIds(f: LedgerFile)
    requires f.Present? && f.header == [] && f.lines != []
    requires "Item_ID" !in Cells(f.lines[0])
    ensures forall i :: 0 <= i < |RowsOf(f)| ==> "Item_ID" !in RowsOf(f)[i]
  {
    var names := Cells(f.lines[0]);
    var rows := ReadLines(names, f.lines[1..]);
    assert RowsOf(f) == rows;
    assert RestKey(names) != "Item_ID" by {
      if |RestKey(names)| == 7 {
        assert RestKey(names)[0] != 'I';
      }
    }
    forall i | 0 <= i < |rows| ensures "Item_ID" !in rows[i] {
      assert rows[i].Keys <= (set k | k in names) + {RestKey(names)};
    }
  }

  /** `row.get(col, default)` */
  function Get(row: Row, col: string, default: string): string
  {
    if col in row then row[col] else default
  }

  /** `row.get(col)` used as a condition: the column is present and non-empty. */
  predicate Filled(row: Row, col: string) { col in row && row[col] != "" }

  const PhotoColumns: seq<string> := ["Photo_1", "Photo_2", "Photo_3", "Photo_4"]

  /** The columns the web server writes, in header order (photo_server.py:460-466, 656-688). */
  const ServerColumns: seq<string> := [
    "Item_ID", "Brand", "Category", "Subcategory", "Title", "Description",
    "Style", "Source", "Age", "Size", "Color", "Condition",
    "Purchase_Price", "Target_Price", "Actual_Sale_Price",
    "Parcel_Size", "International_Shipping", "City",
    "Photo_1", "Photo_2", "Photo_3", "Photo_4",
    "Hashtags", "Status", "Date_Added", "Date_Listed", "Date_Sold",
    "Likes", "Views", "Notes", "Depop_Folder"]

  /** The columns both command-line scripts write, in header order. */
  const CliColumns: seq<string> := [
    "Item_ID", "Brand", "Category", "Item_Type", "Size", "Color", "Condition",
    "Purchase_Price", "Target_Price", "Actual_Sale_Price",
    "Photo_1", "Photo_2", "Photo_3", "Photo_4",
    "Title", "Description", "Hashtags", "Status",
    "Date_Added", "Date_Listed", "Date_Sold", "Likes", "Views", "Notes"]

  /** The i-th entry of a photo list, or "" past its end
      (`photo_filenames[i] if len(photo_filenames) > i else ''`). */
  function PhotoAt(photos: seq<string>, i: nat): string
  {
    if i < |photos| then photos[i] else ""
  }

  /** The non-empty values of the given columns of a row, in column order. */
  function FilledIn(row: Row, cols: seq<string>): (names: seq<string>)
    ensures |names| <= |cols|
    ensures forall i :: 0 <= i < |names| ==> names[i] != ""
  {
    if cols == [] then []
    else (if Filled(row, cols[0]) then [row[cols[0]]] else []) + FilledIn(row, cols[1..])
  }

  /** The non-empty Photo_1..Photo_4 values of a row, in column order
      (`if row.get(photo_col)` for each of the four columns). */
  function FilledPhotos(row: Row): (names: seq<string>)
    ensures |names| <= 4
    ensures forall i :: 0 <= i < |names| ==> names[i] != ""
  {
    FilledIn(row, PhotoColumns)
  }

  /** The photo names of a row are its non-empty Photo_1..Photo_4 cells, in order. */
  lemma FilledPhotosCells(row: Row, p1: string, p2: string, p3: string, p4: string)
    requires Get(row, "Photo_1", "") == p1 && Get(row, "Photo_2", "") == p2
    requires Get(row, "Photo_3", "") == p3 && Get(row, "Photo_4", "") == p4
    ensures FilledPhotos(row) == (if p1 != "" then [p1] else []) + ((if p2 != "" then [p2] else []) +
                                 ((if p3 != "" then [p3] else []) + (if p4 != "" then [p4] else [])))
  {
    var q1, q2, q3, q4 := (if p1 != "" then [p1] else []), (if p2 != "" then [p2] else []),
                          (if p3 != "" then [p3] else []), (if p4 != "" then [p4] else []);
    assert FilledIn(row, ["Photo_4"]) == q4 by { assert ["Photo_4"][1..] == []; }
    assert FilledIn(row, ["Photo_3", "Photo_4"]) == q3 + q4 by { assert ["Photo_3", "Photo_4"][1..] == ["Photo_4"]; }
    assert FilledIn(row, ["Photo_2", "Photo_3", "Photo_4"]) == q2 + (q3 + q4) by {
      assert ["Photo_2", "Photo_3", "Photo_4"][1..] == ["Photo_3", "Photo_4"];
    }
    assert PhotoColumns[1..] == ["Photo_2", "Photo_3", "Photo_4"];
  }

  /** Columns holding a list of non-empty names, then empty cells, give back that list. */
  lemma {:induction false} FilledInList(row: Row, cols: seq<string>, names: seq<string>)
    requires |names| <= |cols|
    requires forall i :: 0 <= i < |names| ==> names[i] != ""
    requires forall i :: 0 <= i < |cols| ==> cols[i] in row && row[cols[i]] == PhotoAt(names, i)
    ensures FilledIn(row, cols) == names
  {
    if cols != [] {
      var rest := if names == [] then [] else names[1..];
      forall i | 0 <= i < |cols[1..]| ensures cols[1..][i] in row && row[cols[1..][i]] == PhotoAt(rest, i) {
        assert cols[1..][i] == cols[i + 1];
      }
      FilledInList(row, cols[1..], rest);
      assert row[cols[0]] == PhotoAt(names, 0);
      if names != [] {
        assert names == [names[0]] + rest;
      }
    }
  }

  /**
   * The web server's append (photo_server.py:691-700): the row is written
   * under the web server's columns, and the header only when the file does
   * not exist yet.
   */
  function ServerAppend(f: LedgerFile, row: Row): (g: LedgerFile)
    ensures f.Absent? ==> g == Present(ServerColumns, [Line(ServerColumns, row)])
    ensures f.Present? ==> g == Present(f.header, f.lines + [Line(ServerColumns, row)])
  {
    var line := Line(ServerColumns, row);
    if f.Absent? then Present(ServerColumns, [line]) else Present(f.header, f.lines + [line])
  }

  /**
   * The command-line scripts' append (photo_grouper.py:424-435,
   * photo_analyzer.py:244-256): the row is written under their columns, and
   * the header when the file does not exist or has size zero.
   */
  function CliAppend(f: LedgerFile, row: Row): (g: LedgerFile)
    ensures f.Absent? || IsZeroSize(f) ==> g == Present(CliColumns, [Line(CliColumns, row)])
    ensures f.Present? && !IsZeroSize(f) ==> g == Present(f.header, f.lines + [Line(CliColumns, row)])
  {
    var line := Line(CliColumns, row);
    if f.Absent? || IsZeroSize(f) then Present(CliColumns, [line])
    else Present(f.header, f.lines + [line])
  }

  /** A file whose data records DictReader reads in full: missing, empty, or with a header. */
  predicate Readable(f: LedgerFile) { f.Absent? || IsZeroSize(f) || f.header != [] }

  /** A file that is missing, empty, or headed by the given columns. */
  predicate HeadedBy(f: LedgerFile, cols: seq<string>) { f.Absent? || IsZeroSize(f) || f.header == cols }

  /** The header an append leaves above the new record, on a readable file. */
  function HeaderAfterCliAppend(f: LedgerFile): seq<string>
  {
    if f.Absent? || IsZeroSize(f) then CliColumns else f.header
  }

  /** Reading a file after one more record: the old rows, then the new record
      keyed by the file's field names. */
  lemma ReadLinesSnoc(names: seq<string>, lines: seq<Line>, line: Line)
    ensures ReadLines(names, lines + [line]) == ReadLines(names, lines) + [ReadLine(names, Cells(line))]
  {
    var r := ReadLines(names, lines + [line]);
    assert forall i :: 0 <= i < |lines| ==> (lines + [line])[i] == lines[i];
    assert r == ReadLines(names, lines) + [ReadLine(names, Cells(line))];
  }

  /** On a readable file, the command-line append is read back as the old
      rows and the new record keyed by the header above it. */
  lemma CliAppendRows(f: LedgerFile, row: Row)
    requires Readable(f)
    ensures Readable(CliAppend(f, row))
    ensures RowsOf(CliAppend(f, row)) ==
            RowsOf(f) + [ReadLine(HeaderAfterCliAppend(f), Cells(Line(CliColumns, row)))]
  {
    if f.Present? && !IsZeroSize(f) {
      ReadLinesSnoc(f.header, f.lines, Line(CliColumns, row));
    }
  }

  /** On a headed file, the web server's append is read back as the old rows
      and the new record keyed by the header already there. */
  lemma ServerAppendRows(f: LedgerFile, row: Row)
    requires f.Present? && f.header != []
    ensures RowsOf(ServerAppend(f, row)) ==
            RowsOf(f) + [ReadLine(f.header, Cells(Line(ServerColumns, row)))]
  {
    ReadLinesSnoc(f.header, f.lines, Line(ServerColumns, row));
  }

  /** A file on which every row read carries the first cell of its record as
      Item_ID: missing, empty, or headed by an Item_ID column that does not
      occur again (both writers' headers are). */
  predicate IdHeaded(f: LedgerFile) { f.Absent? || IsZeroSize(f) || IdFirst(f.header) }

  /** On such a file, whichever header it has, a command-line append is read
      back last with the row's Item_ID, and the file keeps the property. */
  lemma CliAppendId(f: LedgerFile, row: Row)
    requires IdHeaded(f) && "Item_ID" in row
    ensures IdHeaded(CliAppend(f, row))
    ensures var last := ReadLine(HeaderAfterCliAppend(f), Cells(Line(CliColumns, row)));
            RowsOf(CliAppend(f, row)) == RowsOf(f) + [last] &&
            "Item_ID" in last && last["Item_ID"] == row["Item_ID"]
  {
    CliAppendRows(f, row);
    CliColumnsIdFirst();
    ReadLineId(HeaderAfterCliAppend(f), Cells(Line(CliColumns, row)));
  }

  /** Both writers' headers open with an Item_ID column that does not recur. */
  lemma CliColumnsIdFirst()
    ensures IdFirst(CliColumns) && IdFirst(ServerColumns)
  {
  }

  /** On a file the command-line scripts created (or a missing or empty one),
      a row they append is read back as the last row, and the file stays readable. */
  lemma CliAppendReadable(f: LedgerFile, row: Row)
    requires HeadedBy(f, CliColumns)
    requires row.Keys == set k | k in CliColumns
    ensures Readable(CliAppend(f, row))
    ensures RowsOf(CliAppend(f, row)) == RowsOf(f) + [row]
  {
    CliAppendRows(f, row);
    ReadOwnLine(Line(CliColumns, row));
  }

  /** On a file the web server created, its append reads back the same way;
      on a file of size zero the new row becomes the header and is not read back. */
  lemma ServerAppendReadable(f: LedgerFile, row: Row)
    requires HeadedBy(f, ServerColumns)
    requires row.Keys == set k | k in ServerColumns
    ensures IsZeroSize(f) ==> RowsOf(ServerAppend(f, row)) == []
    ensures !IsZeroSize(f) ==> RowsOf(ServerAppend(f, row)) == RowsOf(f) + [row]
  {
    ReadOwnLine(Line(ServerColumns, row));
    if f.Present? && !IsZeroSize(f) {
      ReadLinesSnoc(f.header, f.lines, Line(ServerColumns, row));
    }
  }

  /** The column names of a header, as a set. */
  function HeaderSet(header: seq<string>): set<string>
  {
    set c | c in header
  }

  /** A row DictWriter accepts for the given columns: it has no other column. */
  predicate Fits(row: Row, names: set<string>) { row.Keys <= names }

  /**
   * The rows `DictWriter.writerows` gets onto the file: it writes row after
   * row and raises ValueError at the first row with a column outside the
   * field names, leaving the rows before it written.
   */
  function WritePrefix(names: set<string>, rows: seq<Row>): (written: seq<Row>)
    ensures |written| <= |rows| && written == rows[..|written|]
    ensures forall i :: 0 <= i < |written| ==> Fits(written[i], names)
    ensures |written| < |rows| ==> !Fits(rows[|written|], names)
  {
    if rows == [] || !Fits(rows[0], names) then []
    else [rows[0]] + WritePrefix(names, rows[1..])
  }

  /** When every row fits, all rows are written. */
  lemma {:induction false} WritePrefixAll(names: set<string>, rows: seq<Row>)
    requires forall i :: 0 <= i < |rows| ==> Fits(rows[i], names)
    ensures WritePrefix(names, rows) == rows
  {
    if rows != [] {
      WritePrefixAll(names, rows[1..]);
      assert [rows[0]] + rows[1..] == rows;
    }
  }
}
