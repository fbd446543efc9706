/**
 * `PhotoAnalyzer` of photo_analyzer.py: one photo per item. The object keeps
 * its next-identifier counter, the staging folder, the category folders and
 * the ledger file.
 */
module Analyzer {
  import opened Outcomes
  import opened Text
  import opened Ledger
  import opened ItemIds
  import opened Naming
  import opened Placement
  import opened Hashtags
  import opened CliRows

  class PhotoAnalyzer {
    var nextItemId: nat
    var staging: Folder
    var tree: Tree
    var ledger: LedgerFile
    const bank: HashtagBank

    /** `__init__`: the counter starts at `_get_next_item_id()` over the ledger. */
    constructor (staging: Folder, tree: Tree, ledger: LedgerFile, bank: HashtagBank)
      ensures this.staging == staging && this.tree == tree && this.ledger == ledger && this.bank == bank
      ensures nextItemId == CliNext(RowsOf(ledger))
      ensures IdHeaded(ledger) && AllHaveIds(RowsOf(ledger)) ==> InSync(ledger, nextItemId)
    {
      var n := NextItemNumber(ledger);
      nextItemId := n;
      this.staging := staging;
      this.tree := tree;
      this.ledger := ledger;
      this.bank := bank;
    }

    /**
     * `move_and_rename_photo` (photo number 1 unless given): the photo leaves
     * staging for its lowercased category's folder under the first free name
     * among base_N.ext, base_N_1.ext, ..., with base from `generate_filename`.
     * None when the photo is not in staging (`shutil.move` raises).
     */
    method MoveAndRenamePhoto(original: string, d: Details, photoNumber: nat := 1) returns (newName: Option<string>)
      modifies this
      ensures newName.Some? <==> original in old(staging)
      ensures newName.None? ==> staging == old(staging) && tree == old(tree)
      ensures newName.Some? ==>
                var before := FolderAt(old(tree), Lower(d.category));
                newName.value !in before &&
                PlacedAs(before, CliBaseName(d.brand, d.color, d.itemType), photoNumber, original, newName.value) &&
                tree == old(tree)[Lower(d.category) := before + {newName.value}] &&
                staging == old(staging) - {original}
      ensures nextItemId == old(nextItemId) && ledger == old(ledger)
    {
      if original !in staging {
        return None;
      }
      var base := CliBaseName(d.brand, d.color, d.itemType);
      var name;
      name, staging, tree := MoveAndRename(staging, tree, d.category, original, base, photoNumber);
      newName := Some(name);
    }

    /**
     * `add_to_inventory`: append the item's row, with the one photo name, to
     * the ledger, return the counter's identifier, and increment the counter.
     */
    method AddToInventory(d: Details, photoFilename: string, today: string) returns (itemId: string)
      modifies this
      ensures itemId == FormatId(old(nextItemId)) && nextItemId == old(nextItemId) + 1
      ensures ledger == CliAppend(old(ledger), CliRow(d, [photoFilename], itemId, DetailsHashtags(bank, d), today))
      ensures staging == old(staging) && tree == old(tree)
      ensures old(InSync(ledger, nextItemId)) ==> InSync(ledger, nextItemId)
    {
      itemId := FormatId(nextItemId);
      ledger := AppendItemRow(ledger, bank, d, [photoFilename], nextItemId, today);
      nextItemId := nextItemId + 1;
    }
  }

  /** The analyzer's row names its one photo in Photo_1 and leaves Photo_2 to Photo_4 empty. */
  lemma SinglePhotoRow(d: Details, photoFilename: string, itemId: string, tags: string, today: string)
    ensures var row := CliRow(d, [photoFilename], itemId, tags, today);
            "Photo_1" in row && row["Photo_1"] == photoFilename && "Photo_2" in row && row["Photo_2"] == "" &&
            "Photo_3" in row && row["Photo_3"] == "" && "Photo_4" in row && row["Photo_4"] == ""
  {
    CliRowPhotoCells(d, [photoFilename], itemId, tags, today);
    assert PhotoColumns[0] == "Photo_1" && PhotoColumns[1] == "Photo_2";
    assert PhotoColumns[2] == "Photo_3" && PhotoColumns[3] == "Photo_4";
  }
}
