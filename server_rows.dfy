/**
 * The ledger rows the web server writes: the row `add_to_inventory` builds
 * for a new item and the row `update_inventory_item` makes of an existing one.
 */
module ServerRows {
  import opened Text
  import opened Ledger
  import opened Hashtags

  /** A request body: JSON field name to text. */
  type Request = map<string, string>

  /** `data.get('category', '')`, followed by " > " and the subcategory when one is given. */
  function CategoryFull(data: Request): (r: string)
    ensures Filled(data, "subcategory") ==> r == Get(data, "category", "") + " > " + data["subcategory"]
    ensures !Filled(data, "subcategory") ==> r == Get(data, "category", "")
  {
    Get(data, "category", "") + (if Filled(data, "subcategory") then " > " + data["subcategory"] else "")
  }

  /** The hashtags of a new item: those found in the description, or the
      generated ones when the description has none. */
  function ChooseHashtags(data: Request): (r: string)
    ensures r != ""
    ensures ExtractHashtags(Get(data, "description", "")) != "" ==> r == ExtractHashtags(Get(data, "description", ""))
    ensures FindAll(Get(data, "description", "")) == [] ==> r == GenerateHashtags(Get(data, "category", ""), Get(data, "brand", ""))
  {
    var found := ExtractHashtags(Get(data, "description", ""));
    if found != "" then found
    else
      var generated := GenerateHashtags(Get(data, "category", ""), Get(data, "brand", ""));
      assert generated != "" by {
        var tags := GenerateHashtagList(Get(data, "category", ""), Get(data, "brand", ""));
        assert tags[0] <= Join(" ", tags);
        assert tags[0] != "" by {
          if |tags| == 1 { assert tags[0] == "#preloved"; }
          else if Lower(Get(data, "category", "")) in ServerBank {
            ServerBankWellFormed();
            assert tags[0] == ServerBank[Lower(Get(data, "category", ""))][0];
          } else {
            assert tags[0] == "#" + Lower(Get(data, "brand", ""));
          }
        }
      }
      generated
  }

  /** The columns the web server fills for a new row, in header order. */
  lemma ServerColumnsDistinct()
    ensures |ServerColumns| == 31
    ensures forall i, j :: 0 <= i < j < 31 ==> ServerColumns[i] != ServerColumns[j]
  {
  }

  /** The value `add_to_inventory` puts in column col of a new row. (The
      if-chain checks the most used columns first; the row's column order is
      the header's, ServerColumns.) */
  function NewValue(data: Request, photos: seq<string>, itemId: string, folderName: string,
                    hashtags: string, today: string, col: string): string
  {
    if col == "Item_ID" then itemId
    else if col == "Photo_1" then PhotoAt(photos, 0)
    else if col == "Photo_2" then PhotoAt(photos, 1)
    else if col == "Photo_3" then PhotoAt(photos, 2)
    else if col == "Photo_4" then PhotoAt(photos, 3)
    else if col == "Category" then CategoryFull(data)
    else if col == "Depop_Folder" then folderName
    else if col == "Hashtags" then hashtags
    else if col == "Status" then "Not Listed"
    else if col == "Date_Added" then today
    else if col == "Likes" || col == "Views" then "0"
    else if col == "Brand" then Get(data, "brand", "")
    else if col == "Subcategory" then Get(data, "subcategory", "")
    else if col == "Title" then Get(data, "title", "")
    else if col == "Description" then Get(data, "description", "")
    else if col == "Style" then Get(data, "style", "")
    else if col == "Source" then Get(data, "source", "")
    else if col == "Age" then Get(data, "age", "")
    else if col == "Size" then Get(data, "size", "")
    else if col == "Color" then Get(data, "color", "")
    else if col == "Condition" then Get(data, "condition", "")
    else if col == "Purchase_Price" then Get(data, "purchasePrice", "")
    else if col == "Target_Price" then Get(data, "targetPrice", "")
    else if col == "Parcel_Size" then Get(data, "parcelSize", "")
    else if col == "International_Shipping" then Get(data, "internationalShipping", "No")
    else if col == "City" then Get(data, "city", "")
    else if col == "Notes" then Get(data, "notes", "")
    else ""  // Actual_Sale_Price, Date_Listed, Date_Sold
  }

  /**
   * The row `add_to_inventory` appends: one cell per server column, holding
   * the request's fields under their column names (empty when missing, "No"
   * for a missing internationalShipping), the category with its subcategory,
   * up to four photo names, the given hashtags, status "Not Listed", zero
   * likes and views, the date stamp and the item folder name.
   */
  function BuildRow(data: Request, photos: seq<string>, itemId: string, folderName: string,
                    hashtags: string, today: string): (row: Row)
    ensures row.Keys == HeaderSet(ServerColumns)
  {
    map c | c in ServerColumns :: NewValue(data, photos, itemId, folderName, hashtags, today, c)
  }

  /** The columns `update_inventory_item` rewrites. */
  const UpdateColumns: seq<string> := [
    "Brand", "Category", "Subcategory", "Title", "Description", "Style", "Source", "Age",
    "Size", "Color", "Condition", "Purchase_Price", "Target_Price", "Parcel_Size",
    "International_Shipping", "City", "Hashtags", "Notes"]

  /** The columns an update leaves as they were. */
  const KeptColumns: seq<string> := [
    "Item_ID", "Photo_1", "Photo_2", "Photo_3", "Photo_4", "Status", "Date_Added",
    "Date_Listed", "Date_Sold", "Likes", "Views", "Actual_Sale_Price", "Depop_Folder"]

  lemma UpdateKeepsColumns()
    ensures forall c :: c in KeptColumns ==> c !in UpdateColumns
  {
  }

  /** The value `update_inventory_item` writes into column col, one of UpdateColumns. */
  function UpdateValue(data: Request, col: string): string
  {
    if col == "Category" then CategoryFull(data)
    else if col == "Hashtags" then ExtractHashtags(Get(data, "description", ""))
    else if col == "Brand" then Get(data, "brand", "")
    else if col == "Subcategory" then Get(data, "subcategory", "")
    else if col == "Title" then Get(data, "title", "")
    else if col == "Description" then Get(data, "description", "")
    else if col == "Style" then Get(data, "style", "")
    else if col == "Source" then Get(data, "source", "")
    else if col == "Age" then Get(data, "age", "")
    else if col == "Size" then Get(data, "size", "")
    else if col == "Color" then Get(data, "color", "")
    else if col == "Condition" then Get(data, "condition", "")
    else if col == "Purchase_Price" then Get(data, "purchasePrice", "")
    else if col == "Target_Price" then Get(data, "targetPrice", "")
    else if col == "Parcel_Size" then Get(data, "parcelSize", "")
    else if col == "International_Shipping" then Get(data, "internationalShipping", "No")
    else if col == "City" then Get(data, "city", "")
    else Get(data, "notes", "")  // Notes
  }

  /** The dictionary `update_inventory_item` passes to `row.update`. */
  function UpdateCells(data: Request): (cells: Row)
    ensures cells.Keys == HeaderSet(UpdateColumns)
  {
    map c | c in UpdateColumns :: UpdateValue(data, c)
  }

  /**
   * `row.update({...})` for a matching row: the request's fields overwrite
   * the rewritable columns; Hashtags comes only from the description and may
   * become empty; every other column keeps its value.
   */
  function UpdatedRow(row: Row, data: Request): (r: Row)
    ensures r.Keys == row.Keys + UpdateCells(data).Keys
  {
    row + UpdateCells(data)
  }

  /** An update leaves every column outside UpdateColumns as it was, photos and status included. */
  lemma UpdateKeepsOthers(row: Row, data: Request)
    ensures forall c :: c in row && c !in UpdateColumns ==> UpdatedRow(row, data)[c] == row[c]
  {
  }


  /** A server column of a new row holds the value `add_to_inventory` gives it. */
  lemma BuiltCell(data: Request, photos: seq<string>, itemId: string, folderName: string,
                  hashtags: string, today: string, k: nat)
    requires k < |ServerColumns|
    ensures ServerColumns[k] in BuildRow(data, photos, itemId, folderName, hashtags, today)
    ensures BuildRow(data, photos, itemId, folderName, hashtags, today)[ServerColumns[k]] ==
            NewValue(data, photos, itemId, folderName, hashtags, today, ServerColumns[k])
  {
  }

  /** A new row carries its identifier. */
  lemma BuiltRowId(data: Request, photos: seq<string>, itemId: string, folderName: string,
                   hashtags: string, today: string)
    ensures BuildRow(data, photos, itemId, folderName, hashtags, today)["Item_ID"] == itemId
  {
    BuiltCell(data, photos, itemId, folderName, hashtags, today, 0);
  }

  /** The colour, condition and prices go into the new row as given. */
  lemma NewValueDetails(data: Request, photos: seq<string>, itemId: string, folderName: string,
                        hashtags: string, today: string)
    ensures NewValue(data, photos, itemId, folderName, hashtags, today, "Color") == Get(data, "color", "")
    ensures NewValue(data, photos, itemId, folderName, hashtags, today, "Condition") == Get(data, "condition", "")
    ensures NewValue(data, photos, itemId, folderName, hashtags, today, "Purchase_Price") ==
            Get(data, "purchasePrice", "")
    ensures NewValue(data, photos, itemId, folderName, hashtags, today, "Target_Price") ==
            Get(data, "targetPrice", "")
  {
  }

  /** A new row holds the request's colour, condition and prices as given. */
  lemma BuiltRowDetails(data: Request, photos: seq<string>, itemId: string, folderName: string,
                        hashtags: string, today: string)
    ensures var row := BuildRow(data, photos, itemId, folderName, hashtags, today);
            Get(row, "Color", "") == Get(data, "color", "") &&
            Get(row, "Condition", "") == Get(data, "condition", "") &&
            Get(row, "Purchase_Price", "") == Get(data, "purchasePrice", "") &&
            Get(row, "Target_Price", "") == Get(data, "targetPrice", "")
  {
    assert ServerColumns[10] == "Color" && ServerColumns[11] == "Condition";
    assert ServerColumns[12] == "Purchase_Price" && ServerColumns[13] == "Target_Price";
    BuiltCell(data, photos, itemId, folderName, hashtags, today, 10);
    BuiltCell(data, photos, itemId, folderName, hashtags, today, 11);
    BuiltCell(data, photos, itemId, folderName, hashtags, today, 12);
    BuiltCell(data, photos, itemId, folderName, hashtags, today, 13);
    NewValueDetails(data, photos, itemId, folderName, hashtags, today);
  }

  /** A new row records the item folder it was copied to. */
  lemma BuiltRowFolder(data: Request, photos: seq<string>, itemId: string, folderName: string,
                       hashtags: string, today: string)
    ensures BuildRow(data, photos, itemId, folderName, hashtags, today)["Depop_Folder"] == folderName
  {
    BuiltCell(data, photos, itemId, folderName, hashtags, today, 30);
  }

  /** A new row's category includes the subcategory. */
  lemma BuiltRowCategory(data: Request, photos: seq<string>, itemId: string, folderName: string,
                         hashtags: string, today: string)
    ensures BuildRow(data, photos, itemId, folderName, hashtags, today)["Category"] == CategoryFull(data)
  {
    BuiltCell(data, photos, itemId, folderName, hashtags, today, 2);
  }

  /** A new row holds the hashtags it is built with (`AddToInventory` passes `ChooseHashtags`). */
  lemma BuiltRowHashtags(data: Request, photos: seq<string>, itemId: string, folderName: string,
                         hashtags: string, today: string)
    ensures BuildRow(data, photos, itemId, folderName, hashtags, today)["Hashtags"] == hashtags
  {
    BuiltCell(data, photos, itemId, folderName, hashtags, today, 22);
  }

  /** A new row is not listed yet. */
  lemma BuiltRowStatus(data: Request, photos: seq<string>, itemId: string, folderName: string,
                       hashtags: string, today: string)
    ensures BuildRow(data, photos, itemId, folderName, hashtags, today)["Status"] == "Not Listed"
  {
    BuiltCell(data, photos, itemId, folderName, hashtags, today, 23);
  }

  /** A new row's photo columns hold the first four photo names, "" past the end. */
  lemma BuiltRowPhotoCells(data: Request, photos: seq<string>, itemId: string, folderName: string,
                           hashtags: string, today: string)
    ensures forall i :: 0 <= i < 4 ==>
              PhotoColumns[i] in BuildRow(data, photos, itemId, folderName, hashtags, today) &&
              BuildRow(data, photos, itemId, folderName, hashtags, today)[PhotoColumns[i]] == PhotoAt(photos, i)
  {
    var row := BuildRow(data, photos, itemId, folderName, hashtags, today);
    forall i | 0 <= i < 4 ensures PhotoColumns[i] in row && row[PhotoColumns[i]] == PhotoAt(photos, i) {
      BuiltCell(data, photos, itemId, folderName, hashtags, today, 18 + i);
      NewPhotoValue(data, photos, itemId, folderName, hashtags, today, i);
    }
  }

  lemma NewPhotoValue(data: Request, photos: seq<string>, itemId: string, folderName: string,
                      hashtags: string, today: string, i: nat)
    requires i < 4
    ensures ServerColumns[18 + i] == PhotoColumns[i]
    ensures NewValue(data, photos, itemId, folderName, hashtags, today, PhotoColumns[i]) == PhotoAt(photos, i)
  {
    if i == 0 {
      assert PhotoColumns[0] == "Photo_1";
    } else if i == 1 {
      assert PhotoColumns[1] == "Photo_2";
    } else if i == 2 {
      assert PhotoColumns[2] == "Photo_3";
    } else {
      assert PhotoColumns[3] == "Photo_4";
    }
  }

  /** The photo columns of a new row give back its photo names, when there are
      at most four and none is empty. */
  lemma BuiltRowPhotos(data: Request, photos: seq<string>, itemId: string, folderName: string,
                       hashtags: string, today: string)
    requires |photos| <= 4 && forall i :: 0 <= i < |photos| ==> photos[i] != ""
    ensures FilledPhotos(BuildRow(data, photos, itemId, folderName, hashtags, today)) == photos
  {
    BuiltRowPhotoCells(data, photos, itemId, folderName, hashtags, today);
    FilledInList(BuildRow(data, photos, itemId, folderName, hashtags, today), PhotoColumns, photos);
  }

  /** An update rewrites the category from the request. */
  lemma UpdatedCategory(row: Row, data: Request)
    ensures UpdatedRow(row, data)["Category"] == CategoryFull(data)
  {
  }

  /** An update takes the hashtags only from the description, so they may become empty. */
  lemma UpdatedHashtags(row: Row, data: Request)
    ensures UpdatedRow(row, data)["Hashtags"] == ExtractHashtags(Get(data, "description", ""))
  {
  }
}
