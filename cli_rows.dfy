/**
 * The ledger row both command-line scripts append for a new item
 * (`add_to_inventory` of photo_grouper.py and photo_analyzer.py, which build
 * the same 24 columns; the analyzer passes a single photo name).
 */
module CliRows {
  import opened Text
  import opened Ledger
  import opened Hashtags
  import opened ItemIds

  /** The details the operator confirmed for an item (the `confirmed` dictionary). */
  datatype Details = Details(
    brand: string, category: string, itemType: string, size: string, color: string,
    condition: string, purchasePrice: string, targetPrice: string, material: string,
    notes: string)

  /** `suggest_hashtags(confirmed)` over the loaded bank. */
  function DetailsHashtags(bank: HashtagBank, d: Details): string
  {
    SuggestHashtags(bank, d.category, d.itemType, d.color, d.brand)
  }

  lemma CliColumnsDistinct()
    ensures |CliColumns| == 24
    ensures forall i, j :: 0 <= i < j < 24 ==> CliColumns[i] != CliColumns[j]
  {
  }

  /** The value `add_to_inventory` puts in column col (most used columns first). */
  function CliValue(d: Details, photos: seq<string>, itemId: string, hashtags: string,
                    today: string, col: string): string
  {
    if col == "Item_ID" then itemId
    else if col == "Photo_1" then PhotoAt(photos, 0)
    else if col == "Photo_2" then PhotoAt(photos, 1)
    else if col == "Photo_3" then PhotoAt(photos, 2)
    else if col == "Photo_4" then PhotoAt(photos, 3)
    else if col == "Category" then Title(d.category)
    else if col == "Hashtags" then hashtags
    else if col == "Status" then "Not Listed"
    else if col == "Date_Added" then today
    else if col == "Likes" || col == "Views" then "0"
    else if col == "Brand" then d.brand
    else if col == "Item_Type" then Title(d.itemType)
    else if col == "Size" then d.size
    else if col == "Color" then Title(d.color)
    else if col == "Condition" then d.condition
    else if col == "Purchase_Price" then d.purchasePrice
    else if col == "Target_Price" then d.targetPrice
    else if col == "Notes" then d.notes
    else ""  // Actual_Sale_Price, Title, Description, Date_Listed, Date_Sold
  }

  /**
   * The appended row: one cell per command-line column, holding the details
   * (category, item type and colour title-cased), up to four photo names, the
   * suggested hashtags, status "Not Listed", zero likes and views, and the
   * date stamp; the sale price, title, description and the other dates are empty.
   */
  function CliRow(d: Details, photos: seq<string>, itemId: string, tags: string, today: string): (row: Row)
    ensures row.Keys == HeaderSet(CliColumns)
  {
    map c | c in CliColumns :: CliValue(d, photos, itemId, tags, today, c)
  }

  /** The row has exactly the header's columns, so DictWriter accepts it. */
  lemma CliRowFits(d: Details, photos: seq<string>, itemId: string, tags: string, today: string)
    ensures Fits(CliRow(d, photos, itemId, tags, today), HeaderSet(CliColumns))
    ensures "Depop_Folder" !in CliRow(d, photos, itemId, tags, today)
  {
  }

  /** A command-line column of the row holds the value `add_to_inventory` gives it. */
  lemma CliCell(d: Details, photos: seq<string>, itemId: string, tags: string, today: string, k: nat)
    requires k < |CliColumns|
    ensures CliColumns[k] in CliRow(d, photos, itemId, tags, today)
    ensures CliRow(d, photos, itemId, tags, today)[CliColumns[k]] ==
            CliValue(d, photos, itemId, tags, today, CliColumns[k])
  {
  }

  lemma CliRowId(d: Details, photos: seq<string>, itemId: string, tags: string, today: string)
    ensures CliRow(d, photos, itemId, tags, today)["Item_ID"] == itemId
  {
    CliCell(d, photos, itemId, tags, today, 0);
  }

  lemma CliRowCategory(d: Details, photos: seq<string>, itemId: string, tags: string, today: string)
    ensures CliRow(d, photos, itemId, tags, today)["Category"] == Title(d.category)
  {
    CliCell(d, photos, itemId, tags, today, 2);
  }

  lemma CliRowHashtags(d: Details, photos: seq<string>, itemId: string, tags: string, today: string)
    ensures CliRow(d, photos, itemId, tags, today)["Hashtags"] == tags
  {
    CliCell(d, photos, itemId, tags, today, 16);
  }

  lemma CliRowStatus(d: Details, photos: seq<string>, itemId: string, tags: string, today: string)
    ensures CliRow(d, photos, itemId, tags, today)["Status"] == "Not Listed"
  {
    CliCell(d, photos, itemId, tags, today, 17);
  }

  lemma CliRowLikes(d: Details, photos: seq<string>, itemId: string, tags: string, today: string)
    ensures CliRow(d, photos, itemId, tags, today)["Likes"] == "0"
  {
    CliCell(d, photos, itemId, tags, today, 21);
  }

  lemma CliRowViews(d: Details, photos: seq<string>, itemId: string, tags: string, today: string)
    ensures CliRow(d, photos, itemId, tags, today)["Views"] == "0"
  {
    CliCell(d, photos, itemId, tags, today, 22);
  }

  /** The row is stamped with the date it was added; the listing and sale dates are empty. */
  lemma CliRowDates(d: Details, photos: seq<string>, itemId: string, tags: string, today: string)
    ensures var row := CliRow(d, photos, itemId, tags, today);
            "Date_Added" in row && row["Date_Added"] == today &&
            "Date_Listed" in row && row["Date_Listed"] == "" &&
            "Date_Sold" in row && row["Date_Sold"] == ""
  {
    CliCell(d, photos, itemId, tags, today, 18);
    CliCell(d, photos, itemId, tags, today, 19);
    CliCell(d, photos, itemId, tags, today, 20);
  }

  lemma CliRowSalePrice(d: Details, photos: seq<string>, itemId: string, tags: string, today: string)
    ensures CliRow(d, photos, itemId, tags, today)["Actual_Sale_Price"] == ""
  {
    CliCell(d, photos, itemId, tags, today, 9);
  }

  lemma CliPhotoValue(d: Details, photos: seq<string>, itemId: string, tags: string, today: string, i: nat)
    requires i < 4
    ensures CliColumns[10 + i] == PhotoColumns[i]
    ensures CliValue(d, photos, itemId, tags, today, PhotoColumns[i]) == PhotoAt(photos, i)
  {
    if i == 0 {
      assert PhotoColumns[0] == "Photo_1";
    } else if i == 1 {
      assert PhotoColumns[1] == "Photo_2";
    } else if i == 2 {
      assert PhotoColumns[2] == "Photo_3";
    } else {
      assert PhotoColumns[3] == "Photo_4";
    }
  }

  /** The photo columns hold the first four photo names, "" past the end. */
  lemma CliRowPhotoCells(d: Details, photos: seq<string>, itemId: string, tags: string, today: string)
    ensures forall i :: 0 <= i < 4 ==>
              PhotoColumns[i] in CliRow(d, photos, itemId, tags, today) &&
              CliRow(d, photos, itemId, tags, today)[PhotoColumns[i]] == PhotoAt(photos, i)
  {
    var row := CliRow(d, photos, itemId, tags, today);
    forall i | 0 <= i < 4 ensures PhotoColumns[i] in row && row[PhotoColumns[i]] == PhotoAt(photos, i) {
      CliCell(d, photos, itemId, tags, today, 10 + i);
      CliPhotoValue(d, photos, itemId, tags, today, i);
    }
  }

  /** The photo columns give back the photo names, when there are at most four and none is empty. */
  lemma CliRowPhotos(d: Details, photos: seq<string>, itemId: string, tags: string, today: string)
    requires |photos| <= 4 && forall i :: 0 <= i < |photos| ==> photos[i] != ""
    ensures FilledPhotos(CliRow(d, photos, itemId, tags, today)) == photos
  {
    CliRowPhotoCells(d, photos, itemId, tags, today);
    FilledInList(CliRow(d, photos, itemId, tags, today), PhotoColumns, photos);
  }

  /** The server finds the photos of a command-line item under the lowercased
      Category cell, which is the folder the command-line scripts filed them in. */
  lemma CliRowFolderKey(d: Details, photos: seq<string>, itemId: string, tags: string, today: string)
    ensures Lower(CliRow(d, photos, itemId, tags, today)["Category"]) == Lower(d.category)
  {
    CliRowCategory(d, photos, itemId, tags, today);
  }

  /**
   * The in-memory counter agrees with the ledger: every row read carries its
   * record's first cell as Item_ID, every row has one, and the counter is what `_get_next_item_id` would
   * compute from the file now.
   */
  predicate InSync(ledger: LedgerFile, next: nat)
  {
    IdHeaded(ledger) && AllHaveIds(RowsOf(ledger)) && next == CliNext(RowsOf(ledger))
  }

  /** Saving the row for the counter's identifier and then incrementing the
      counter keeps the two in agreement, so a restarted script continues the
      same sequence of identifiers. */
  lemma SaveKeepsSync(ledger: LedgerFile, next: nat, row: Row)
    requires InSync(ledger, next)
    requires "Item_ID" in row && row["Item_ID"] == FormatId(next)
    ensures InSync(CliAppend(ledger, row), next + 1)
  {
    CliAppendId(ledger, row);
    SyncStep(RowsOf(ledger), ReadLine(HeaderAfterCliAppend(ledger), Cells(Line(CliColumns, row))), next);
  }

  /** One more row carrying the counter's identifier moves the number
      `_get_next_item_id` computes up by one. */
  lemma SyncStep(rows: seq<Row>, last: Row, next: nat)
    requires AllHaveIds(rows) && next == CliNext(rows)
    requires "Item_ID" in last && last["Item_ID"] == FormatId(next)
    ensures AllHaveIds(rows + [last]) && CliNext(rows + [last]) == next + 1
  {
    NextAfterAppend(rows, 0, last);
    assert AllHaveIds(rows + [last]) by {
      forall i | 0 <= i < |rows + [last]| ensures "Item_ID" in (rows + [last])[i] {
        if i < |rows| { assert (rows + [last])[i] == rows[i]; }
      }
    }
  }

  /**
   * The append step of `add_to_inventory`: the row for the counter's
   * identifier goes onto the ledger under the command-line header rule.
   */
  method AppendItemRow(ledger: LedgerFile, bank: HashtagBank, d: Details, photos: seq<string>,
                       next: nat, today: string)
    returns (ledger': LedgerFile)
    ensures ledger' == CliAppend(ledger, CliRow(d, photos, FormatId(next), DetailsHashtags(bank, d), today))
    ensures InSync(ledger, next) ==> InSync(ledger', next + 1)
  {
    var row := CliRow(d, photos, FormatId(next), DetailsHashtags(bank, d), today);
    if InSync(ledger, next) {
      CliRowId(d, photos, FormatId(next), DetailsHashtags(bank, d), today);
      SaveKeepsSync(ledger, next, row);
    }
    ledger' := CliAppend(ledger, row);
  }
}
