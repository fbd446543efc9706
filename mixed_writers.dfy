/**
 * The web server and the command-line scripts append to the same ledger file
 * under different column lists. A record is laid out in its writer's order,
 * but it is read back under the header already on the file, so a record
 * written by one side onto a file the other side created is keyed cell by
 * cell under the wrong names.
 */
module MixedWriters {
  import opened Ledger
  import opened CliRows
  import opened ServerRows
  import opened Server
  import opened ItemIds
  import Text

  /** The photo names of one row are its own. */
  lemma PhotosOfOne(row: Row)
    ensures PhotosOf([row]) == FilledPhotos(row)
  {
    assert PhotosOf([row]) == FilledPhotos(row) + PhotosOf([]);
  }

  /**
   * Any record laid out in the command-line column order and read under the
   * web server's header: cell j is keyed by the web server's j-th name, and
   * the seven names past the record's 24 cells read "" (DictReader's
   * `restval`), so the row has every one of the web server's names.
   */
  lemma CliLineUnderServerNames(row: Row)
    ensures var last := ReadLine(ServerColumns, Cells(Line(CliColumns, row)));
            last.Keys == HeaderSet(ServerColumns)
    ensures var last := ReadLine(ServerColumns, Cells(Line(CliColumns, row)));
            forall j :: 0 <= j < |CliColumns| ==>
              ServerColumns[j] in last && last[ServerColumns[j]] == Get(row, CliColumns[j], "")
    ensures var last := ReadLine(ServerColumns, Cells(Line(CliColumns, row)));
            forall j :: |CliColumns| <= j < |ServerColumns| ==>
              ServerColumns[j] in last && last[ServerColumns[j]] == ""
  {
    assert Distinct(ServerColumns) by { ServerColumnsDistinct(); }
    ReadRecord(ServerColumns, Line(CliColumns, row));
  }

  /** So Item_ID reads the record's Item_ID cell, Photo_1..Photo_4 read its
      Date_Added, Date_Listed, Date_Sold and Likes cells, and Depop_Folder reads "". */
  lemma CliLinePhotos(row: Row)
    ensures var last := ReadLine(ServerColumns, Cells(Line(CliColumns, row)));
            "Item_ID" in last && last["Item_ID"] == Get(row, "Item_ID", "") &&
            Get(last, "Photo_1", "") == Get(row, "Date_Added", "") &&
            Get(last, "Photo_2", "") == Get(row, "Date_Listed", "") &&
            Get(last, "Photo_3", "") == Get(row, "Date_Sold", "") &&
            Get(last, "Photo_4", "") == Get(row, "Likes", "") &&
            "Depop_Folder" in last && last["Depop_Folder"] == ""
  {
    assert ServerColumns[0] == "Item_ID" && CliColumns[0] == "Item_ID";
    assert ServerColumns[18] == "Photo_1" && CliColumns[18] == "Date_Added";
    assert ServerColumns[19] == "Photo_2" && CliColumns[19] == "Date_Listed";
    assert ServerColumns[20] == "Photo_3" && CliColumns[20] == "Date_Sold";
    assert ServerColumns[21] == "Photo_4" && CliColumns[21] == "Likes";
    assert ServerColumns[30] == "Depop_Folder";
    CliLineUnderServerNames(row);
  }

  /** A record with those four cells has the date and "0" as its photos. */
  lemma CliLineReadBack(row: Row, itemId: string, today: string)
    requires "Item_ID" in row && row["Item_ID"] == itemId
    requires Get(row, "Date_Added", "") == today && Get(row, "Date_Listed", "") == ""
    requires Get(row, "Date_Sold", "") == "" && Get(row, "Likes", "") == "0"
    ensures var last := ReadLine(ServerColumns, Cells(Line(CliColumns, row)));
            "Item_ID" in last && last["Item_ID"] == itemId &&
            "Depop_Folder" in last && last["Depop_Folder"] == "" &&
            (today != "" ==> FilledPhotos(last) == [today, "0"])
  {
    CliLinePhotos(row);
    FilledPhotosCells(ReadLine(ServerColumns, Cells(Line(CliColumns, row))), today, "", "", "0");
  }

  /**
   * The command-line row of a saved item read under the web server's header:
   * it keeps its Item_ID, but its photos are the date and "0".
   */
  lemma CliRecordUnderServerNames(d: Details, photos: seq<string>, itemId: string, tags: string, today: string)
    ensures var last := ReadLine(ServerColumns, Cells(Line(CliColumns, CliRow(d, photos, itemId, tags, today))));
            "Item_ID" in last && last["Item_ID"] == itemId &&
            "Depop_Folder" in last && last["Depop_Folder"] == "" &&
            (today != "" ==> FilledPhotos(last) == [today, "0"])
  {
    CliRowId(d, photos, itemId, tags, today);
    CliRowDates(d, photos, itemId, tags, today);
    CliRowLikes(d, photos, itemId, tags, today);
    CliLineReadBack(CliRow(d, photos, itemId, tags, today), itemId, today);
  }

  /**
   * A command-line save onto a ledger the web server created: the record is
   * read back last, keyed as above, so the web server lists and deletes the
   * date and "0" as the item's photos.
   */
  lemma CliSaveUnderServerHeader(f: LedgerFile, d: Details, photos: seq<string>, itemId: string,
                                 tags: string, today: string)
    requires f.Present? && f.header == ServerColumns
    ensures var last := ReadLine(ServerColumns, Cells(Line(CliColumns, CliRow(d, photos, itemId, tags, today))));
            RowsOf(CliAppend(f, CliRow(d, photos, itemId, tags, today))) == RowsOf(f) + [last] &&
            "Item_ID" in last && last["Item_ID"] == itemId &&
            (today != "" ==> PhotosOf([last]) == [today, "0"])
  {
    var last := ReadLine(ServerColumns, Cells(Line(CliColumns, CliRow(d, photos, itemId, tags, today))));
    CliAppendRows(f, CliRow(d, photos, itemId, tags, today));
    CliRecordUnderServerNames(d, photos, itemId, tags, today);
    PhotosOfOne(last);
  }

  /**
   * Any record laid out in the web server's column order and read under the
   * command-line header: each of the 24 names keys the record's cell at its
   * position, and the seven surplus cells go under the `RestKey` (DictReader's
   * `restkey`), a name outside the header, so DictWriter under that header
   * refuses the row.
   */
  lemma ServerLineUnderCliNames(row: Row)
    ensures var last := ReadLine(CliColumns, Cells(Line(ServerColumns, row)));
            last.Keys == HeaderSet(CliColumns) + {RestKey(CliColumns)} &&
            last[RestKey(CliColumns)] == Text.Join(",", Cells(Line(ServerColumns, row))[|CliColumns|..]) &&
            !Fits(last, HeaderSet(CliColumns))
    ensures var last := ReadLine(CliColumns, Cells(Line(ServerColumns, row)));
            forall j :: 0 <= j < |CliColumns| ==>
              CliColumns[j] in last && last[CliColumns[j]] == Get(row, ServerColumns[j], "")
  {
    assert Distinct(CliColumns) by { CliColumnsDistinct(); }
    ReadRecord(CliColumns, Line(ServerColumns, row));
    LongRecordDoesNotFit(CliColumns, Line(ServerColumns, row));
  }

  /** So Item_ID reads the record's Item_ID cell, and Photo_1..Photo_4 read
      its Color, Condition, Purchase_Price and Target_Price cells. */
  lemma ServerLinePhotos(row: Row)
    ensures var last := ReadLine(CliColumns, Cells(Line(ServerColumns, row)));
            "Item_ID" in last && last["Item_ID"] == Get(row, "Item_ID", "") &&
            Get(last, "Photo_1", "") == Get(row, "Color", "") &&
            Get(last, "Photo_2", "") == Get(row, "Condition", "") &&
            Get(last, "Photo_3", "") == Get(row, "Purchase_Price", "") &&
            Get(last, "Photo_4", "") == Get(row, "Target_Price", "")
  {
    assert CliColumns[0] == "Item_ID" && ServerColumns[0] == "Item_ID";
    assert CliColumns[10] == "Photo_1" && ServerColumns[10] == "Color";
    assert CliColumns[11] == "Photo_2" && ServerColumns[11] == "Condition";
    assert CliColumns[12] == "Photo_3" && ServerColumns[12] == "Purchase_Price";
    assert CliColumns[13] == "Photo_4" && ServerColumns[13] == "Target_Price";
    ServerLineUnderCliNames(row);
  }

  /** A record with those cells non-empty has them as its four photos. */
  lemma ServerLineReadBack(row: Row, itemId: string, color: string, condition: string,
                           bought: string, target: string)
    requires "Item_ID" in row && row["Item_ID"] == itemId
    requires Get(row, "Color", "") == color && Get(row, "Condition", "") == condition
    requires Get(row, "Purchase_Price", "") == bought && Get(row, "Target_Price", "") == target
    ensures var last := ReadLine(CliColumns, Cells(Line(ServerColumns, row)));
            "Item_ID" in last && last["Item_ID"] == itemId &&
            (color != "" && condition != "" && bought != "" && target != "" ==>
               PhotosOf([last]) == [color, condition, bought, target])
  {
    var last := ReadLine(CliColumns, Cells(Line(ServerColumns, row)));
    assert "Item_ID" in last && last["Item_ID"] == itemId &&
           Get(last, "Photo_1", "") == color && Get(last, "Photo_2", "") == condition &&
           Get(last, "Photo_3", "") == bought && Get(last, "Photo_4", "") == target by {
      ServerLinePhotos(row);
    }
    if color != "" && condition != "" && bought != "" && target != "" {
      PhotosOfFour(last, color, condition, bought, target);
    }
  }

  /** A row with four non-empty photo cells has exactly those as its photos. */
  lemma PhotosOfFour(row: Row, p1: string, p2: string, p3: string, p4: string)
    requires Get(row, "Photo_1", "") == p1 && Get(row, "Photo_2", "") == p2
    requires Get(row, "Photo_3", "") == p3 && Get(row, "Photo_4", "") == p4
    requires p1 != "" && p2 != "" && p3 != "" && p4 != ""
    ensures PhotosOf([row]) == [p1, p2, p3, p4]
  {
    FilledPhotosCells(row, p1, p2, p3, p4);
    PhotosOfOne(row);
    assert [p1] + ([p2] + ([p3] + [p4])) == [p1, p2, p3, p4];
  }

  /**
   * A web server save onto a ledger the command-line scripts created: the
   * record is read back last, keyed as above, so the listing and the delete
   * treat the request's color, condition and prices as the item's photo names.
   */
  lemma ServerSaveUnderCliHeader(f: LedgerFile, data: Request, photos: seq<string>, itemId: string,
                                 folderName: string, today: string)
    requires f.Present? && f.header == CliColumns
    ensures var last := ReadLine(CliColumns, Cells(Line(ServerColumns,
                          BuildRow(data, photos, itemId, folderName, ChooseHashtags(data), today))));
            var color, condition := Get(data, "color", ""), Get(data, "condition", "");
            var bought, target := Get(data, "purchasePrice", ""), Get(data, "targetPrice", "");
            RowsOf(AddToInventory(f, data, photos, itemId, folderName, today)) == RowsOf(f) + [last] &&
            "Item_ID" in last && last["Item_ID"] == itemId &&
            (color != "" && condition != "" && bought != "" && target != "" ==>
               PhotosOf([last]) == [color, condition, bought, target])
  {
    var row := BuildRow(data, photos, itemId, folderName, ChooseHashtags(data), today);
    assert AddToInventory(f, data, photos, itemId, folderName, today) == ServerAppend(f, row);
    ServerAppendRows(f, row);
    BuiltRowId(data, photos, itemId, folderName, ChooseHashtags(data), today);
    BuiltRowDetails(data, photos, itemId, folderName, ChooseHashtags(data), today);
    ServerLineReadBack(row, itemId, Get(data, "color", ""), Get(data, "condition", ""),
                       Get(data, "purchasePrice", ""), Get(data, "targetPrice", ""));
  }

  /**
   * An update on a ledger the command-line scripts created writes no row
   * from the first web-server record on: that record's surplus cells are
   * under a name the header lacks, and the updated row keeps them.
   */
  lemma UpdateStopsAtServerRecord(f: LedgerFile, k: nat, itemId: string, data: Request)
    requires f.Present? && f.header == CliColumns
    requires k < |f.lines| && f.lines[k].names == ServerColumns
    requires AllHaveIds(RowsOf(f))
    ensures |WritePrefix(HeaderSet(CliColumns), UpdateRows(RowsOf(f), itemId, UpdateCells(data)))| <= k
  {
    var rows := RowsOf(f);
    assert RestKey(CliColumns) in rows[k] by {
      assert rows[k] == ReadLine(CliColumns, Cells(f.lines[k]));
      LongRecordDoesNotFit(CliColumns, f.lines[k]);
    }
    UpdateKeepsSurplus(rows, itemId, UpdateCells(data), k, RestKey(CliColumns), HeaderSet(CliColumns));
  }

  /**
   * A delete on a ledger the web server created, holding records of either
   * writer, rewrites every kept row: the command-line records are padded to
   * the web server's names.
   */
  lemma DeleteKeepsMixedServerLedger(f: LedgerFile, itemId: string)
    requires f.Present? && f.header == ServerColumns
    requires forall i :: 0 <= i < |f.lines| ==> f.lines[i].names in {ServerColumns, CliColumns}
    requires AllHaveIds(RowsOf(f))
    ensures var kept := Kept(RowsOf(f), itemId);
            WritePrefix(if kept == [] then {} else kept[0].Keys, kept) == kept
  {
    forall i | 0 <= i < |f.lines| ensures |f.lines[i].names| <= |f.header| {
    }
    DeleteRewritesShortRecords(f, itemId);
  }
}
