/**
 * The web server's operations on the ledger and the photo folders: building
 * and appending a row for a new item, updating an item in place, deleting an
 * item, listing the completed items, and the stats estimate.
 */
module Server {
  import opened Outcomes
  import opened Text
  import opened Ledger
  import opened ItemIds
  import opened Naming
  import opened Placement
  import opened Hashtags
  import opened ServerRows

  /**
   * `add_to_inventory`: append the new row under the web server's columns
   * (with a header only when the file is new). On a ledger the web server
   * created, the row is read back last.
   */
  function AddToInventory(ledger: LedgerFile, data: Request, photos: seq<string>, itemId: string,
                          folderName: string, today: string): (ledger': LedgerFile)
    ensures ledger'.Present? && (ledger.Absent? ==> |ledger'.lines| == 1)
    ensures ledger.Present? ==> ledger'.header == ledger.header && |ledger'.lines| == |ledger.lines| + 1
    ensures HeadedBy(ledger, ServerColumns) && !IsZeroSize(ledger) ==>
              RowsOf(ledger') == RowsOf(ledger) + [BuildRow(data, photos, itemId, folderName, ChooseHashtags(data), today)]
  {
    var row := BuildRow(data, photos, itemId, folderName, ChooseHashtags(data), today);
    if HeadedBy(ledger, ServerColumns) then
      ServerAppendReadable(ledger, row);
      ServerAppend(ledger, row)
    else ServerAppend(ledger, row)
  }

  // ---------------------------------------------------------------------
  // Update in place
  // ---------------------------------------------------------------------

  /** Some row carries the identifier. */
  predicate HasItem(rows: seq<Row>, itemId: string)
    requires AllHaveIds(rows)
  {
    exists i :: 0 <= i < |rows| && rows[i]["Item_ID"] == itemId
  }

  /** A row after the update with the given cells: rewritten when it carries
      the identifier, as it was otherwise. */
  function UpdateOne(row: Row, itemId: string, cells: Row): Row
    requires "Item_ID" in row
  {
    if row["Item_ID"] == itemId then row + cells else row
  }

  /** The rows after updating every row that carries the identifier. */
  function UpdateRows(rows: seq<Row>, itemId: string, cells: Row): (r: seq<Row>)
    requires AllHaveIds(rows)
    ensures |r| == |rows|
    ensures forall i :: 0 <= i < |rows| ==> r[i] == UpdateOne(rows[i], itemId, cells)
  {
    seq(|rows|, i requires 0 <= i < |rows| => UpdateOne(rows[i], itemId, cells))
  }

  /** The message `str(KeyError('Item_ID'))`. */
  const MissingItemId: string := "'Item_ID'"

  /**
   * The reading loop of `update_inventory_item`: each row is updated when it
   * carries the identifier and collected. `complete` is false when a row
   * without Item_ID raised KeyError; `updated` tells whether a row matched.
   */
  method ReadAndUpdate(rows: seq<Row>, itemId: string, cells: Row)
    returns (out: seq<Row>, updated: bool, complete: bool)
    ensures complete <==> AllHaveIds(rows)
    ensures complete ==> out == UpdateRows(rows, itemId, cells) && (updated <==> HasItem(rows, itemId))
  {
    out, updated := [], false;
    var i := 0;
    while i < |rows|
      invariant 0 <= i <= |rows|
      invariant forall j :: 0 <= j < i ==> "Item_ID" in rows[j]
      invariant |out| == i
      invariant forall j :: 0 <= j < i ==> out[j] == UpdateOne(rows[j], itemId, cells)
      invariant updated <==> exists j :: 0 <= j < i && rows[j]["Item_ID"] == itemId
    {
      if "Item_ID" !in rows[i] {
        return out, updated, false;
      }
      if rows[i]["Item_ID"] == itemId {
        updated := true;
      }
      out := out + [UpdateOne(rows[i], itemId, cells)];
      i := i + 1;
    }
    assert out == UpdateRows(rows, itemId, cells);
    complete := true;
  }

  /**
   * `update_inventory_item`. A missing ledger, a row without Item_ID, or no
   * row with the identifier fail before anything is written. Otherwise the
   * file is rewritten with its own header: the rows are written in order
   * until one has a column the header lacks, which raises and leaves only the
   * rows before it.
   */
  method UpdateInventoryItem(ledger: LedgerFile, data: Request, itemId: string)
    returns (ledger': LedgerFile, result: Result<()>)
    ensures ledger.Absent? ==> ledger' == ledger && result == Err(ServerError("Inventory file not found"))
    ensures ledger.Present? && !AllHaveIds(RowsOf(ledger)) ==>
              ledger' == ledger && result == Err(ServerError(MissingItemId))
    ensures ledger.Present? && AllHaveIds(RowsOf(ledger)) && !HasItem(RowsOf(ledger), itemId) ==>
              ledger' == ledger && result == Err(ServerError("Item " + itemId + " not found"))
    ensures ledger.Present? && AllHaveIds(RowsOf(ledger)) && HasItem(RowsOf(ledger), itemId) ==>
              var updated := UpdateRows(RowsOf(ledger), itemId, UpdateCells(data));
              var written := WritePrefix(HeaderSet(FieldNames(ledger)), updated);
              ledger' == Present(FieldNames(ledger), LinesOf(FieldNames(ledger), written)) &&
              (result.Ok? <==> written == updated)
  {
    if ledger.Absent? {
      return ledger, Err(ServerError("Inventory file not found"));
    }
    var rows := RowsOf(ledger);
    var out, updated, complete := ReadAndUpdate(rows, itemId, UpdateCells(data));
    if !complete {
      return ledger, Err(ServerError(MissingItemId));
    }
    if !updated {
      return ledger, Err(ServerError("Item " + itemId + " not found"));
    }
    var written := WritePrefix(HeaderSet(FieldNames(ledger)), out);
    ledger' := Present(FieldNames(ledger), LinesOf(FieldNames(ledger), written));
    if written == out {
      result := Ok(());
    } else {
      result := Err(ServerError("dict contains fields not in fieldnames"));
    }
  }

  /** A ledger whose header holds every column an update writes takes the update whole. */
  lemma UpdateFitsServerHeader(rows: seq<Row>, header: seq<string>, itemId: string, data: Request)
    requires AllHaveIds(rows)
    requires forall i :: 0 <= i < |rows| ==> Fits(rows[i], HeaderSet(header))
    requires forall c :: c in UpdateColumns ==> c in header
    ensures var updated := UpdateRows(rows, itemId, UpdateCells(data));
            WritePrefix(HeaderSet(header), updated) == updated
  {
    var cells := UpdateCells(data);
    var updated := UpdateRows(rows, itemId, cells);
    forall i | 0 <= i < |updated| ensures Fits(updated[i], HeaderSet(header)) {
      if rows[i]["Item_ID"] == itemId {
        assert updated[i].Keys == rows[i].Keys + HeaderSet(UpdateColumns);
      }
    }
    WritePrefixAll(HeaderSet(header), updated);
  }

  /** Subcategory is a column the web server writes and the command-line scripts' header lacks. */
  lemma SubcategoryOnlyOnServer()
    ensures "Subcategory" in UpdateColumns && "Subcategory" !in HeaderSet(CliColumns)
  {
  }

  /** The command-line scripts' header lacks columns an update writes, so updating
      the first row of their ledger leaves no row on the file. */
  lemma UpdateTruncatesCliLedger(rows: seq<Row>, data: Request)
    requires rows != [] && AllHaveIds(rows)
    ensures WritePrefix(HeaderSet(CliColumns), UpdateRows(rows, rows[0]["Item_ID"], UpdateCells(data))) == []
  {
    var updated := UpdateRows(rows, rows[0]["Item_ID"], UpdateCells(data));
    assert updated[0] == UpdatedRow(rows[0], data);
    SubcategoryOnlyOnServer();
    assert "Subcategory" in updated[0].Keys;
  }

  /** A row the update cannot write because of a name outside the field
      names stays unwritable after the update, so the rewrite stops before it. */
  lemma UpdateKeepsSurplus(rows: seq<Row>, itemId: string, cells: Row, k: nat, key: string, names: set<string>)
    requires AllHaveIds(rows) && k < |rows| && key in rows[k] && key !in names
    ensures |WritePrefix(names, UpdateRows(rows, itemId, cells))| <= k
  {
    var updated := UpdateRows(rows, itemId, cells);
    assert key in updated[k];
    assert !Fits(updated[k], names);
  }

  // ---------------------------------------------------------------------
  // Delete
  // ---------------------------------------------------------------------

  /** The rows whose Item_ID differs from the target, in their order. */
  function Kept(rows: seq<Row>, itemId: string): (kept: seq<Row>)
    requires AllHaveIds(rows)
    ensures |kept| <= |rows|
    ensures AllHaveIds(kept)
    ensures forall i :: 0 <= i < |kept| ==> kept[i]["Item_ID"] != itemId
  {
    if rows == [] then []
    else
      assert AllHaveIds(rows[1..]);
      (if rows[0]["Item_ID"] == itemId then [] else [rows[0]]) + Kept(rows[1..], itemId)
  }

  /** The rows that carry the target identifier, in their order. */
  function Matching(rows: seq<Row>, itemId: string): (matching: seq<Row>)
    requires AllHaveIds(rows)
    ensures AllHaveIds(matching)
    ensures forall i :: 0 <= i < |matching| ==> matching[i]["Item_ID"] == itemId
  {
    if rows == [] then []
    else
      assert AllHaveIds(rows[1..]);
      (if rows[0]["Item_ID"] == itemId then [rows[0]] else []) + Matching(rows[1..], itemId)
  }

  /** The non-empty photo names of the given rows, row by row in column order. */
  function PhotosOf(rows: seq<Row>): (names: seq<string>)
    ensures |names| <= 4 * |rows|
    ensures forall i :: 0 <= i < |names| ==> names[i] != ""
  {
    if rows == [] then [] else FilledPhotos(rows[0]) + PhotosOf(rows[1..])
  }

  /** Deleting splits the ledger: every row is kept or removed, none is lost or duplicated. */
  lemma {:induction false} KeptAndMatchingPartition(rows: seq<Row>, itemId: string)
    requires AllHaveIds(rows)
    ensures multiset(Kept(rows, itemId)) + multiset(Matching(rows, itemId)) == multiset(rows)
    ensures |Kept(rows, itemId)| + |Matching(rows, itemId)| == |rows|
  {
    if rows != [] {
      assert AllHaveIds(rows[1..]);
      KeptAndMatchingPartition(rows[1..], itemId);
      assert rows == [rows[0]] + rows[1..];
    }
  }

  lemma AllHaveIdsConcat(xs: seq<Row>, ys: seq<Row>)
    requires AllHaveIds(xs) && AllHaveIds(ys)
    ensures AllHaveIds(xs + ys)
  {
    forall i | 0 <= i < |xs + ys| ensures "Item_ID" in (xs + ys)[i] {
      if i < |xs| { assert (xs + ys)[i] == xs[i]; } else { assert (xs + ys)[i] == ys[i - |xs|]; }
    }
  }

  lemma {:induction false} KeptConcat(xs: seq<Row>, ys: seq<Row>, itemId: string)
    requires AllHaveIds(xs) && AllHaveIds(ys)
    ensures AllHaveIds(xs + ys)
    ensures Kept(xs + ys, itemId) == Kept(xs, itemId) + Kept(ys, itemId)
  {
    AllHaveIdsConcat(xs, ys);
    if xs == [] {
      assert xs + ys == ys;
    } else {
      assert (xs + ys)[0] == xs[0] && (xs + ys)[1..] == xs[1..] + ys;
      assert AllHaveIds(xs[1..]);
      KeptConcat(xs[1..], ys, itemId);
    }
  }

  lemma {:induction false} MatchingConcat(xs: seq<Row>, ys: seq<Row>, itemId: string)
    requires AllHaveIds(xs) && AllHaveIds(ys)
    ensures AllHaveIds(xs + ys)
    ensures Matching(xs + ys, itemId) == Matching(xs, itemId) + Matching(ys, itemId)
  {
    AllHaveIdsConcat(xs, ys);
    if xs == [] {
      assert xs + ys == ys;
    } else {
      assert (xs + ys)[0] == xs[0] && (xs + ys)[1..] == xs[1..] + ys;
      assert AllHaveIds(xs[1..]);
      MatchingConcat(xs[1..], ys, itemId);
    }
  }

  lemma {:induction false} PhotosOfConcat(xs: seq<Row>, ys: seq<Row>)
    ensures PhotosOf(xs + ys) == PhotosOf(xs) + PhotosOf(ys)
  {
    if xs == [] {
      assert xs + ys == ys;
    } else {
      assert (xs + ys)[0] == xs[0] && (xs + ys)[1..] == xs[1..] + ys;
      PhotosOfConcat(xs[1..], ys);
    }
  }

  /** Without a matching row nothing is removed. */
  lemma {:induction false} KeptWithoutMatch(rows: seq<Row>, itemId: string)
    requires AllHaveIds(rows) && !HasItem(rows, itemId)
    ensures Kept(rows, itemId) == rows && Matching(rows, itemId) == []
  {
    if rows != [] {
      assert AllHaveIds(rows[1..]);
      forall i | 0 <= i < |rows[1..]| ensures rows[1..][i]["Item_ID"] != itemId {
        assert rows[1..][i] == rows[i + 1];
      }
      KeptWithoutMatch(rows[1..], itemId);
      assert rows == [rows[0]] + rows[1..];
    }
  }

  /**
   * The exception the scan of `handle_delete_item` raises, if any: reading
   * the rows in order, a row without Item_ID raises KeyError('Item_ID'), and
   * a matching row without Category raises KeyError('Category').
   */
  function DeleteFault(rows: seq<Row>, itemId: string): (fault: Option<string>)
    ensures fault.None? ==> AllHaveIds(rows)
  {
    if rows == [] then None
    else if "Item_ID" !in rows[0] then Some(MissingItemId)
    else if rows[0]["Item_ID"] == itemId && "Category" !in rows[0] then Some("'Category'")
    else DeleteFault(rows[1..], itemId)
  }

  /** The scan raises nothing exactly when every row has an Item_ID and every
      matching row has a Category. */
  lemma {:induction false} DeleteFaultNone(rows: seq<Row>, itemId: string)
    ensures DeleteFault(rows, itemId).None? <==> AllHaveIds(rows) && AllHaveCategory(Matching(rows, itemId))
  {
    if rows != [] {
      DeleteFaultNone(rows[1..], itemId);
      if AllHaveIds(rows) {
        assert AllHaveIds(rows[1..]);
        var m0: seq<Row> := if rows[0]["Item_ID"] == itemId then [rows[0]] else [];
        var m1 := Matching(rows[1..], itemId);
        assert Matching(rows, itemId) == m0 + m1;
        if AllHaveCategory(m0 + m1) {
          forall i | 0 <= i < |m1| ensures "Category" in m1[i] { assert (m0 + m1)[|m0| + i] == m1[i]; }
          if m0 != [] { assert (m0 + m1)[0] == rows[0]; }
        }
        if AllHaveCategory(m0) && AllHaveCategory(m1) {
          forall i | 0 <= i < |m0 + m1| ensures "Category" in (m0 + m1)[i] {
            if i >= |m0| { assert (m0 + m1)[i] == m1[i - |m0|]; }
          }
        }
      }
    }
  }

  /** A scan that raises nothing on a first part raises what it raises on the rest. */
  lemma {:induction false} DeleteFaultConcat(xs: seq<Row>, ys: seq<Row>, itemId: string)
    requires DeleteFault(xs, itemId).None?
    ensures DeleteFault(xs + ys, itemId) == DeleteFault(ys, itemId)
  {
    if xs == [] {
      assert xs + ys == ys;
    } else {
      assert (xs + ys)[0] == xs[0] && (xs + ys)[1..] == xs[1..] + ys;
      DeleteFaultConcat(xs[1..], ys, itemId);
    }
  }

  /** The disk as the web server sees it. */
  datatype ServerDisk = ServerDisk(staging: Folder, categories: Tree, itemFolders: Tree, ledger: LedgerFile)

  /** The Category column of the last matching row, lowercased, and its item folder name. */
  function LastMatchFolders(matching: seq<Row>): (folders: (string, string))
    ensures matching == [] ==> folders == ("", "")
    ensures matching != [] ==> var last := matching[|matching| - 1];
              HasNoUpper(folders.0) && |folders.0| == |Get(last, "Category", "")| &&
              folders.1 == Get(last, "Depop_Folder", "")
  {
    if matching == [] then ("", "")
    else
      var row := matching[|matching| - 1];
      (Lower(Get(row, "Category", "")), Get(row, "Depop_Folder", ""))
  }

  predicate AllHaveCategory(rows: seq<Row>) { forall i :: 0 <= i < |rows| ==> "Category" in rows[i] }

  /**
   * The ledger logic of `handle_delete_item`. Without a ledger, or without a
   * row carrying the identifier, nothing changes and the answer is "not
   * found"; a KeyError raised while reading the rows fails before anything
   * changes. Otherwise the photos of the matching rows are removed from the
   * folder of the last match's lowercased category, its item folder is
   * removed, the kept rows are written back, and the freed photo names are
   * returned.
   */
  method DeleteItem(disk: ServerDisk, itemId: string) returns (disk': ServerDisk, result: Result<seq<string>>)
    ensures disk.ledger.Absent? ==> disk' == disk && result == Err(NotFound("No inventory file found"))
    ensures disk.ledger.Present? && DeleteFault(RowsOf(disk.ledger), itemId).Some? ==>
              disk' == disk && result == Err(ServerError(DeleteFault(RowsOf(disk.ledger), itemId).value))
    ensures disk.ledger.Present? && DeleteFault(RowsOf(disk.ledger), itemId).None? && !HasItem(RowsOf(disk.ledger), itemId) ==>
              disk' == disk && result == Err(NotFound("Item " + itemId + " not found"))
    ensures disk.ledger.Present? && DeleteFault(RowsOf(disk.ledger), itemId).None? && HasItem(RowsOf(disk.ledger), itemId) ==>
              var rows := RowsOf(disk.ledger);
              var matching := Matching(rows, itemId);
              var kept := Kept(rows, itemId);
              var (category, folder) := LastMatchFolders(matching);
              var freed := PhotosOf(matching);
              var names := if kept == [] then {} else kept[0].Keys;
              var written := WritePrefix(names, kept);
              disk'.staging == disk.staging &&
              disk'.categories == (if category in disk.categories
                                   then disk.categories[category := disk.categories[category] - set p | p in freed]
                                   else disk.categories) &&
              disk'.itemFolders == (if folder != "" then disk.itemFolders - {folder} else disk.itemFolders) &&
              var header := if kept == [] then ServerColumns else FieldNames(disk.ledger);
              disk'.ledger == Present(header, LinesOf(header, written)) &&
              (result.Ok? <==> written == kept) &&
              (result.Ok? ==> result.value == freed)
  {
    if disk.ledger.Absent? {
      return disk, Err(NotFound("No inventory file found"));
    }
    var rows := RowsOf(disk.ledger);
    var fault, kept, found, category, folder, freed := ScanForDelete(rows, itemId);
    if fault.Some? {
      return disk, Err(ServerError(fault.value));
    }
    if !found {
      return disk, Err(NotFound("Item " + itemId + " not found"));
    }
    var categories := disk.categories;
    if category in categories {
      categories := categories[category := categories[category] - set p | p in freed];
    }
    var itemFolders := disk.itemFolders;
    if folder != "" {
      itemFolders := itemFolders - {folder};
    }
    var names := if kept == [] then {} else kept[0].Keys;
    var written := WritePrefix(names, kept);
    var header := if kept == [] then ServerColumns else FieldNames(disk.ledger);
    disk' := ServerDisk(disk.staging, categories, itemFolders, Present(header, LinesOf(header, written)));
    if written == kept {
      result := Ok(freed);
    } else {
      result := Err(ServerError("dict contains fields not in fieldnames"));
    }
  }

  /**
   * On a headed ledger where no record has more cells than the header (the
   * web server's ledger holding records of either writer), every kept row
   * has all the header's names, so the rewrite under the first kept row's
   * names takes every kept row.
   */
  lemma DeleteRewritesShortRecords(f: LedgerFile, itemId: string)
    requires f.Present? && f.header != []
    requires forall i :: 0 <= i < |f.lines| ==> |f.lines[i].names| <= |f.header|
    requires AllHaveIds(RowsOf(f))
    ensures var kept := Kept(RowsOf(f), itemId);
            WritePrefix(if kept == [] then {} else kept[0].Keys, kept) == kept
  {
    var rows := RowsOf(f);
    assert forall i :: 0 <= i < |rows| ==> rows[i].Keys == HeaderSet(f.header) by {
      ShortRecordsKeyEveryName(f);
    }
    KeptKeyedAlike(rows, itemId, HeaderSet(f.header));
    var kept := Kept(rows, itemId);
    if kept != [] {
      WritePrefixAll(kept[0].Keys, kept);
    }
  }

  /** Rows that all have the same names keep them when some are deleted. */
  lemma KeptKeyedAlike(rows: seq<Row>, itemId: string, names: set<string>)
    requires AllHaveIds(rows)
    requires forall i :: 0 <= i < |rows| ==> rows[i].Keys == names
    ensures forall i :: 0 <= i < |Kept(rows, itemId)| ==> Kept(rows, itemId)[i].Keys == names
  {
    var kept := Kept(rows, itemId);
    KeptAndMatchingPartition(rows, itemId);
    forall i | 0 <= i < |kept| ensures kept[i].Keys == names {
      assert kept[i] in multiset(kept);
      assert kept[i] in multiset(rows);
      assert kept[i] in rows;
    }
  }

  /** One row of the delete scan that raises nothing: it extends the kept or the matching rows. */
  lemma ScanStep(rows: seq<Row>, i: nat, itemId: string)
    requires i < |rows| && DeleteFault(rows[..i], itemId).None?
    requires "Item_ID" in rows[i] && (rows[i]["Item_ID"] == itemId ==> "Category" in rows[i])
    ensures DeleteFault(rows[..i + 1], itemId).None?
    ensures var hit := rows[i]["Item_ID"] == itemId;
            Kept(rows[..i + 1], itemId) == Kept(rows[..i], itemId) + (if hit then [] else [rows[i]]) &&
            Matching(rows[..i + 1], itemId) == Matching(rows[..i], itemId) + (if hit then [rows[i]] else [])
    ensures var m := Matching(rows[..i], itemId);
            rows[i]["Item_ID"] == itemId ==> PhotosOf(m + [rows[i]]) == PhotosOf(m) + FilledPhotos(rows[i])
  {
    var row := rows[i];
    assert rows[..i + 1] == rows[..i] + [row];
    assert [row][1..] == [];
    DeleteFaultConcat(rows[..i], [row], itemId);
    KeptConcat(rows[..i], [row], itemId);
    MatchingConcat(rows[..i], [row], itemId);
    PhotosOfConcat(Matching(rows[..i], itemId), [row]);
    assert PhotosOf([row]) == FilledPhotos(row) + PhotosOf([]);
  }

  /**
   * The scan loop of `handle_delete_item`: it reads the rows in order, stops
   * at the first KeyError, keeps the rows that do not match, and remembers the
   * folders of the last match and the photo names of every match.
   */
  method ScanForDelete(rows: seq<Row>, itemId: string)
    returns (fault: Option<string>, kept: seq<Row>, found: bool, category: string, folder: string, freed: seq<string>)
    ensures fault == DeleteFault(rows, itemId)
    ensures fault.None? ==> kept == Kept(rows, itemId) && (found <==> HasItem(rows, itemId))
    ensures fault.None? && found ==> (category, folder) == LastMatchFolders(Matching(rows, itemId))
    ensures fault.None? ==> freed == PhotosOf(Matching(rows, itemId))
  {
    kept, found, category, folder, freed := [], false, "", "", [];
    ghost var matching: seq<Row> := [];
    var i := 0;
    while i < |rows|
      invariant 0 <= i <= |rows|
      invariant DeleteFault(rows[..i], itemId).None?
      invariant kept == Kept(rows[..i], itemId) && matching == Matching(rows[..i], itemId)
      invariant found <==> matching != []
      invariant found ==> (category, folder) == LastMatchFolders(matching)
      invariant freed == PhotosOf(matching)
    {
      var row := rows[i];
      if "Item_ID" !in row || (row["Item_ID"] == itemId && "Category" !in row) {
        assert rows[..i] + rows[i..] == rows;
        DeleteFaultConcat(rows[..i], rows[i..], itemId);
        fault := Some(if "Item_ID" !in row then MissingItemId else "'Category'");
        return;
      }
      ScanStep(rows, i, itemId);
      if row["Item_ID"] == itemId {
        found := true;
        category := Lower(row["Category"]);
        folder := Get(row, "Depop_Folder", "");
        freed := freed + FilledPhotos(row);
        matching := matching + [row];
      } else {
        kept := kept + [row];
      }
      i := i + 1;
    }
    assert rows[..i] == rows;
    MatchingNonEmpty(rows, itemId);
    fault := None;
  }

  /** Some row matches exactly when the matching rows are not empty. */
  lemma {:induction false} MatchingNonEmpty(rows: seq<Row>, itemId: string)
    requires AllHaveIds(rows)
    ensures HasItem(rows, itemId) <==> Matching(rows, itemId) != []
  {
    if !HasItem(rows, itemId) {
      KeptWithoutMatch(rows, itemId);
    } else {
      var i :| 0 <= i < |rows| && rows[i]["Item_ID"] == itemId;
      var pre, post := rows[..i], rows[i + 1..];
      assert rows == pre + [rows[i]] + post;
      assert AllHaveIds(pre) && AllHaveIds(post) && AllHaveIds([rows[i]]);
      KeptConcat(pre, [rows[i]], itemId);
      MatchingConcat(pre, [rows[i]], itemId);
      KeptConcat(pre + [rows[i]], post, itemId);
      MatchingConcat(pre + [rows[i]], post, itemId);
    }
  }

  /** Deleting an item just appended gives back the ledger's rows and frees
      exactly the photos the new row lists. */
  lemma DeleteAfterAdd(rows: seq<Row>, data: Request, photos: seq<string>, itemId: string,
                       folderName: string, hashtags: string, today: string)
    requires AllHaveIds(rows) && !HasItem(rows, itemId)
    requires |photos| <= 4 && forall i :: 0 <= i < |photos| ==> photos[i] != ""
    ensures var all := rows + [BuildRow(data, photos, itemId, folderName, hashtags, today)];
            AllHaveIds(all) && Kept(all, itemId) == rows && PhotosOf(Matching(all, itemId)) == photos
  {
    var row := BuildRow(data, photos, itemId, folderName, hashtags, today);
    BuiltRowId(data, photos, itemId, folderName, hashtags, today);
    assert AllHaveIds([row]);
    KeptConcat(rows, [row], itemId);
    MatchingConcat(rows, [row], itemId);
    KeptWithoutMatch(rows, itemId);
    assert Kept([row], itemId) == [] && Matching([row], itemId) == [row];
    BuiltRowPhotos(data, photos, itemId, folderName, hashtags, today);
    assert PhotosOf([row]) == FilledPhotos(row) + PhotosOf([]);
  }

  /** With identifiers unique, deleting the item of row k removes that row and nothing else. */
  lemma {:induction false} KeptRemovesOnly(rows: seq<Row>, k: nat)
    requires AllHaveIds(rows) && k < |rows|
    requires forall i :: 0 <= i < |rows| && i != k ==> rows[i]["Item_ID"] != rows[k]["Item_ID"]
    ensures Kept(rows, rows[k]["Item_ID"]) == rows[..k] + rows[k + 1..]
  {
    var id := rows[k]["Item_ID"];
    var pre, mid, post := rows[..k], [rows[k]], rows[k + 1..];
    NoOtherMatch(rows, k);
    assert AllHaveIds(mid);
    KeptConcat(mid, post, id);
    assert Kept(mid + post, id) == post by {
      KeptWithoutMatch(post, id);
      assert Kept(mid, id) == [];
    }
    KeptConcat(pre, mid + post, id);
    KeptWithoutMatch(pre, id);
    assert rows == pre + (mid + post);
  }

  lemma {:induction false} NoOtherMatch(rows: seq<Row>, k: nat)
    requires AllHaveIds(rows) && k < |rows|
    requires forall i :: 0 <= i < |rows| && i != k ==> rows[i]["Item_ID"] != rows[k]["Item_ID"]
    ensures AllHaveIds(rows[..k]) && !HasItem(rows[..k], rows[k]["Item_ID"])
    ensures AllHaveIds(rows[k + 1..]) && !HasItem(rows[k + 1..], rows[k]["Item_ID"])
  {
    var id := rows[k]["Item_ID"];
    var pre, post := rows[..k], rows[k + 1..];
    forall i | 0 <= i < |pre| ensures "Item_ID" in pre[i] && pre[i]["Item_ID"] != id {
      assert pre[i] == rows[i];
    }
    forall i | 0 <= i < |post| ensures "Item_ID" in post[i] && post[i]["Item_ID"] != id {
      assert post[i] == rows[k + 1 + i];
    }
  }

  /** Deleting a row that is not the highest identifier leaves the next
      identifier unchanged; deleting the highest one makes it available again. */
  lemma {:induction false} DeleteAndNextId(rows: seq<Row>, k: nat)
    requires AllHaveIds(rows) && k < |rows|
    requires forall i :: 0 <= i < |rows| && i != k ==> rows[i]["Item_ID"] != rows[k]["Item_ID"]
    requires RowNumber(rows[k]).None? || RowNumber(rows[k]).value < ScanMax(rows, 3)
    ensures ServerNext(Kept(rows, rows[k]["Item_ID"])) == ServerNext(rows)
  {
    KeptRemovesOnly(rows, k);
    RemoveBelowMax(rows, k, 3);
  }

  /** Of two rows numbered m and n, deleting n's item leaves m's row, and the
      next number is then max(3, m) + 1. */
  lemma DeleteSecondOfTwo(m: nat, n: nat)
    requires m != n
    ensures var a: Row := map["Item_ID" := FormatId(m)];
            var b: Row := map["Item_ID" := FormatId(n)];
            Kept([a, b], FormatId(n)) == [a] && ServerNext([a]) == (if m > 3 then m else 3) + 1
  {
    var a: Row := map["Item_ID" := FormatId(m)];
    var b: Row := map["Item_ID" := FormatId(n)];
    assert FormatId(m) != FormatId(n) by {
      if FormatId(m) == FormatId(n) { FormatIdInjective(m, n); }
    }
    assert Kept([a, b], FormatId(n)) == [a] by {
      assert [a, b][1..] == [b];
    }
    RowNumberOfFormatted(a, m);
    assert ScanMax([a], 3) == ScanMax([], if m > 3 then m else 3);
  }

  /** After deleting the item with the highest number, its identifier is issued again. */
  lemma DeletedMaxIsReissued()
    ensures var a := map["Item_ID" := FormatId(4)];
            var b := map["Item_ID" := FormatId(5)];
            FormatId(ServerNext(Kept([a, b], FormatId(5)))) == FormatId(5)
  {
    DeleteSecondOfTwo(4, 5);
  }

  // ---------------------------------------------------------------------
  // Listing the completed items
  // ---------------------------------------------------------------------

  /** A photo of a listed item: its name and the URL of its copy in the category folder. */
  datatype PhotoLink = PhotoLink(name: string, url: string)

  /** An item as the client receives it. */
  datatype Item = Item(
    id: string, brand: string, category: string, itemType: string, size: string,
    color: string, condition: string, purchasePrice: string, targetPrice: string,
    notes: string, photos: seq<PhotoLink>, dateAdded: string, hashtags: string,
    title: string, description: string, depopFolder: string)

  /** The photo links of a row; `quote` is the URL quoting function. */
  function PhotoLinks(row: Row, quote: string -> string): (links: seq<PhotoLink>)
    ensures |links| == |FilledPhotos(row)|
    ensures forall i :: 0 <= i < |links| ==>
              links[i].name == FilledPhotos(row)[i] &&
              links[i].url == "/api/category-photo/" + quote(Lower(Get(row, "Category", ""))) + "/" + quote(links[i].name)
  {
    var category := Lower(Get(row, "Category", ""));
    var names := FilledPhotos(row);
    seq(|names|, i requires 0 <= i < |names| =>
      PhotoLink(names[i], "/api/category-photo/" + quote(category) + "/" + quote(names[i])))
  }

  /** The item a ledger row is listed as. */
  function ProjectRow(row: Row, quote: string -> string): (item: Item)
    requires "Item_ID" in row
    ensures item.id == row["Item_ID"] && item.category == Get(row, "Category", "")
    ensures item.depopFolder == Get(row, "Depop_Folder", "")
    ensures item.photos == PhotoLinks(row, quote)
  {
    Item(row["Item_ID"], Get(row, "Brand", ""), Get(row, "Category", ""), Get(row, "Item_Type", ""),
         Get(row, "Size", ""), Get(row, "Color", ""), Get(row, "Condition", ""),
         Get(row, "Purchase_Price", ""), Get(row, "Target_Price", ""), Get(row, "Notes", ""),
         PhotoLinks(row, quote), Get(row, "Date_Added", ""), Get(row, "Hashtags", ""),
         Get(row, "Title", ""), Get(row, "Description", ""), Get(row, "Depop_Folder", ""))
  }

  /**
   * `serve_completed_items`: without a ledger the list is empty; a row
   * without Item_ID makes the whole request fail; otherwise one item per row,
   * in order.
   */
  method ServeCompletedItems(ledger: LedgerFile, quote: string -> string) returns (result: Result<seq<Item>>)
    ensures ledger.Absent? ==> result == Ok([])
    ensures ledger.Present? && !AllHaveIds(RowsOf(ledger)) ==> result == Err(ServerError(MissingItemId))
    ensures ledger.Present? && AllHaveIds(RowsOf(ledger)) ==>
              result.Ok? && |result.value| == |RowsOf(ledger)| &&
              forall i :: 0 <= i < |RowsOf(ledger)| ==> result.value[i] == ProjectRow(RowsOf(ledger)[i], quote)
  {
    if ledger.Absent? {
      return Ok([]);
    }
    result := ProjectRows(RowsOf(ledger), quote);
  }

  /** The listing loop over the rows read: one item per row, in order, or a
      failure at the first row without Item_ID. */
  method ProjectRows(rows: seq<Row>, quote: string -> string) returns (result: Result<seq<Item>>)
    ensures !AllHaveIds(rows) ==> result == Err(ServerError(MissingItemId))
    ensures AllHaveIds(rows) ==>
              result.Ok? && |result.value| == |rows| &&
              forall i :: 0 <= i < |rows| ==> result.value[i] == ProjectRow(rows[i], quote)
  {
    var items: seq<Item> := [];
    var i := 0;
    while i < |rows|
      invariant 0 <= i <= |rows|
      invariant AllHaveIds(rows[..i])
      invariant |items| == i
      invariant forall j :: 0 <= j < i ==> items[j] == ProjectRow(rows[j], quote)
    {
      if "Item_ID" !in rows[i] {
        return Err(ServerError(MissingItemId));
      }
      items := items + [ProjectRow(rows[i], quote)];
      i := i + 1;
      assert rows[..i] == rows[..i - 1] + [rows[i - 1]];
    }
    assert rows[..i] == rows;
    result := Ok(items);
  }

  /**
   * A ledger written without a header, whose first record has no cell
   * reading "Item_ID": every scan stops at its first row, so the next
   * identifier is DP004 again, and the listing, the update and the delete
   * raise KeyError('Item_ID') before changing anything.
   */
  lemma HeaderlessLedgerFails(f: LedgerFile, itemId: string)
    requires f.Present? && f.header == [] && |f.lines| >= 2
    requires "Item_ID" !in Cells(f.lines[0])
    ensures ServerNext(RowsOf(f)) == 4
    ensures !AllHaveIds(RowsOf(f))
    ensures DeleteFault(RowsOf(f), itemId) == Some(MissingItemId)
  {
    HeaderlessRowsLackIds(f);
    assert "Item_ID" !in RowsOf(f)[0];
  }

  /** Two saves onto a ledger of size zero: the first row becomes the field
      names, and the identifier allocated after the second save is DP004 again. */
  lemma ZeroSizeLedgerReissuesFirstId(first: Row, second: Row)
    requires "Item_ID" !in Cells(Line(ServerColumns, first))
    ensures var f := ServerAppend(ServerAppend(Present([], []), first), second);
            f == Present([], [Line(ServerColumns, first), Line(ServerColumns, second)]) &&
            FormatId(ServerNext(RowsOf(f))) == "DP004"
  {
    var f := ServerAppend(ServerAppend(Present([], []), first), second);
    assert f.lines == [Line(ServerColumns, first), Line(ServerColumns, second)];
    HeaderlessLedgerFails(f, "");
    FirstServerId();
  }

  /** A new item is listed under its identifier. */
  lemma ListedAfterAdd(data: Request, photos: seq<string>, itemId: string, folderName: string,
                       hashtags: string, today: string, quote: string -> string)
    ensures ProjectRow(BuildRow(data, photos, itemId, folderName, hashtags, today), quote).id == itemId
  {
    BuiltRowId(data, photos, itemId, folderName, hashtags, today);
  }

  /** A new item is listed with its photos, each linked in the folder of its
      lowercased full category. */
  lemma ListedPhotosAfterAdd(data: Request, photos: seq<string>, itemId: string, folderName: string,
                             hashtags: string, today: string, quote: string -> string)
    requires |photos| <= 4 && forall i :: 0 <= i < |photos| ==> photos[i] != ""
    ensures var links := PhotoLinks(BuildRow(data, photos, itemId, folderName, hashtags, today), quote);
            |links| == |photos| &&
            forall i :: 0 <= i < |photos| ==>
              links[i].name == photos[i] &&
              links[i].url == "/api/category-photo/" + quote(Lower(CategoryFull(data))) + "/" + quote(photos[i])
  {
    BuiltRowCategory(data, photos, itemId, folderName, hashtags, today);
    BuiltRowPhotos(data, photos, itemId, folderName, hashtags, today);
  }

  /** With a subcategory, the listed URLs name a folder other than the one the
      photos were copied to (the lowercased category alone). */
  lemma SubcategoryUrlFolder(data: Request)
    requires Filled(data, "subcategory")
    ensures Lower(CategoryFull(data)) != Lower(Get(data, "category", ""))
  {
    assert |Lower(CategoryFull(data))| > |Lower(Get(data, "category", ""))|;
  }

  // ---------------------------------------------------------------------
  // Stats
  // ---------------------------------------------------------------------

  /** `max(0, staging_count // 4)`: the number of four-photo items the staged photos make. */
  function EstimateRemaining(stagingCount: nat): (r: nat)
    ensures 4 * r <= stagingCount < 4 * r + 4
  {
    Max(0, stagingCount / 4)
  }
}
