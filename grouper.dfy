/**
 * `MultiPhotoAnalyzer` of photo_grouper.py: turning one group of staging
 * photos into an inventory item. The scanner state the object keeps between
 * groups is its next-identifier counter, the staging folder, the category
 * folders and the ledger file.
 */
module Grouper {
  import opened Outcomes
  import opened Text
  import opened Ledger
  import opened ItemIds
  import opened Naming
  import opened Placement
  import opened Hashtags
  import opened CliRows
  import opened Selection

  /** The ten answers to the detail prompts, as typed. */
  datatype Answers = Answers(
    brand: string, category: string, itemType: string, size: string, color: string,
    condition: string, purchasePrice: string, targetPrice: string, material: string,
    notes: string)

  /** Each answer with surrounding whitespace removed (`input().strip()`), in order. */
  function StripAll(xs: seq<string>): (r: seq<string>)
    ensures |r| == |xs|
  {
    if xs == [] then [] else [Strip(xs[0], IsSpace)] + StripAll(xs[1..])
  }

  lemma {:induction false} StripAllEach(xs: seq<string>, i: nat)
    requires i < |xs|
    ensures StripAll(xs)[i] == Strip(xs[i], IsSpace)
  {
    var head, tail := [Strip(xs[0], IsSpace)], StripAll(xs[1..]);
    assert StripAll(xs) == head + tail;
    if i > 0 {
      StripAllEach(xs[1..], i - 1);
      assert xs[1..][i - 1] == xs[i];
      assert (head + tail)[i] == tail[i - 1];
    }
  }

  /** The `confirmed` dictionary: every answer stripped, the category also lowercased. */
  function Confirmed(a: Answers): (d: Details)
    ensures Lower(d.category) == d.category
  {
    var t := StripAll([a.brand, a.category, a.itemType, a.size, a.color, a.condition,
                       a.purchasePrice, a.targetPrice, a.material, a.notes]);
    LowerIdempotent(t[1]);
    Details(t[0], Lower(t[1]), t[2], t[3], t[4], t[5], t[6], t[7], t[8], t[9])
  }

  /** The details are the stripped answers; only the category is also lowercased. */
  lemma ConfirmedFields(a: Answers)
    ensures var d := Confirmed(a);
            d.brand == Strip(a.brand, IsSpace) && d.category == Lower(Strip(a.category, IsSpace)) &&
            d.itemType == Strip(a.itemType, IsSpace) && d.size == Strip(a.size, IsSpace) &&
            d.color == Strip(a.color, IsSpace) && d.condition == Strip(a.condition, IsSpace) &&
            d.purchasePrice == Strip(a.purchasePrice, IsSpace) && d.targetPrice == Strip(a.targetPrice, IsSpace) &&
            d.material == Strip(a.material, IsSpace) && d.notes == Strip(a.notes, IsSpace)
  {
    var xs := [a.brand, a.category, a.itemType, a.size, a.color, a.condition,
               a.purchasePrice, a.targetPrice, a.material, a.notes];
    forall i | 0 <= i < 10 ensures StripAll(xs)[i] == Strip(xs[i], IsSpace) {
      StripAllEach(xs, i);
    }
  }

  /** Every selected photo is in staging and none is selected twice, so every
      move in turn finds its file. */
  ghost predicate Movable(staging: Folder, selected: seq<string>)
  {
    forall i :: 0 <= i < |selected| ==> selected[i] in staging && selected[i] !in selected[..i]
  }

  /**
   * The first |names| selected photos were moved, in order: each left staging
   * and went into the category folder under the first free name for its photo
   * number, so no two share a name and none was there before.
   */
  ghost predicate Moved(staging: Folder, tree: Tree, category: string, base: string,
                        selected: seq<string>, names: seq<string>, staging': Folder, tree': Tree)
  {
    var key := Lower(category);
    var before := FolderAt(tree, key);
    |names| <= |selected| &&
    staging' == staging - Elements(selected[..|names|]) &&
    (names == [] ==> tree' == tree) &&
    (names != [] ==> tree' == tree[key := before + Elements(names)]) &&
    forall i :: 0 <= i < |names| ==>
      names[i] !in before + Elements(names[..i]) &&
      PlacedAs(before + Elements(names[..i]), base, i + 1, selected[i], names[i])
  }

  lemma ElementsSnoc(s: seq<string>, x: string)
    ensures Elements(s + [x]) == Elements(s) + {x}
  {
    assert forall y :: y in s + [x] <==> y in s || y == x;
  }

  /**
   * The loop over the selected photos (`move_and_rename_photo(photo,
   * confirmed, i + 1, base_name)` for each). A photo already moved, or not in
   * staging, makes `shutil.move` raise; the loop stops there (failed), with
   * the earlier photos moved.
   */
  method MovePhotos(staging: Folder, tree: Tree, category: string, selected: seq<string>, base: string)
    returns (names: seq<string>, failed: bool, staging': Folder, tree': Tree)
    ensures Moved(staging, tree, category, base, selected, names, staging', tree')
    ensures failed <==> !Movable(staging, selected)
    ensures !failed ==> |names| == |selected|
    ensures failed ==> |names| < |selected| && selected[|names|] !in staging'
  {
    var key := Lower(category);
    var before := FolderAt(tree, key);
    names, failed, staging', tree' := [], false, staging, tree;
    var i := 0;
    while i < |selected|
      invariant 0 <= i <= |selected| && |names| == i
      invariant Movable(staging, selected[..i])
      invariant Moved(staging, tree, category, base, selected, names, staging', tree')
      invariant i > 0 ==> FolderAt(tree', key) == before + Elements(names)
      invariant i == 0 ==> tree' == tree
    {
      var photo := selected[i];
      if photo !in staging' {
        failed := true;
        NotMovable(staging, selected, i);
        return;
      }
      var name, s2, t2 := MoveAndRename(staging', tree', category, photo, base, i + 1);
      MoveStep(staging, tree, category, base, selected, names, staging', tree', name, s2, t2);
      names, staging', tree' := names + [name], s2, t2;
      MovableSnoc(staging, selected, i);
      i := i + 1;
    }
    assert selected[..i] == selected;
  }

  lemma MovableSnoc(staging: Folder, selected: seq<string>, i: nat)
    requires i < |selected|
    requires Movable(staging, selected[..i])
    requires selected[i] in staging - Elements(selected[..i])
    ensures Movable(staging, selected[..i + 1])
  {
    var p := selected[..i + 1];
    forall j | 0 <= j < |p| ensures p[j] in staging && p[j] !in p[..j] {
      if j < i {
        assert p[j] == selected[..i][j] && p[..j] == selected[..i][..j];
      } else {
        assert p[..j] == selected[..i];
      }
    }
  }

  lemma {:induction false} NotMovable(staging: Folder, selected: seq<string>, i: nat)
    requires i < |selected|
    requires selected[i] !in staging - Elements(selected[..i])
    ensures !Movable(staging, selected)
  {
    if selected[i] in staging {
      assert selected[i] in selected[..i];
    }
  }

  /** One move extends the record of moved photos by the photo just placed. */
  lemma MoveStep(staging: Folder, tree: Tree, category: string, base: string,
                 selected: seq<string>, names: seq<string>, s1: Folder, t1: Tree,
                 name: string, s2: Folder, t2: Tree)
    requires |names| < |selected|
    requires Moved(staging, tree, category, base, selected, names, s1, t1)
    requires |names| > 0 ==> FolderAt(t1, Lower(category)) == FolderAt(tree, Lower(category)) + Elements(names)
    requires |names| == 0 ==> t1 == tree
    requires var here := FolderAt(t1, Lower(category));
             name !in here && PlacedAs(here, base, |names| + 1, selected[|names|], name) &&
             t2 == t1[Lower(category) := here + {name}]
    requires s2 == s1 - {selected[|names|]}
    ensures Moved(staging, tree, category, base, selected, names + [name], s2, t2)
    ensures FolderAt(t2, Lower(category)) == FolderAt(tree, Lower(category)) + Elements(names + [name])
  {
    var key := Lower(category);
    var before := FolderAt(tree, key);
    var n := |names|;
    var here := before + Elements(names);
    assert n == 0 ==> Elements(names) == {} by { if n == 0 { assert names == []; } }
    assert FolderAt(t1, key) == here;
    TreeStep(tree, t1, key, before, names, name, t2);
    StagingStep(staging, selected, n, s1, s2);
    PlacedStep(before, base, selected, names, name);
  }

  lemma StagingStep(staging: Folder, selected: seq<string>, n: nat, s1: Folder, s2: Folder)
    requires n < |selected|
    requires s1 == staging - Elements(selected[..n]) && s2 == s1 - {selected[n]}
    ensures s2 == staging - Elements(selected[..n + 1])
  {
    assert selected[..n + 1] == selected[..n] + [selected[n]];
    ElementsSnoc(selected[..n], selected[n]);
  }

  lemma TreeStep(tree: Tree, t1: Tree, key: string, before: Folder, names: seq<string>,
                 name: string, t2: Tree)
    requires names == [] ==> t1 == tree && Elements(names) == {}
    requires names != [] ==> t1 == tree[key := before + Elements(names)]
    requires t2 == t1[key := before + Elements(names) + {name}]
    ensures t2 == tree[key := before + Elements(names + [name])]
    ensures FolderAt(t2, key) == before + Elements(names + [name])
  {
    ElementsSnoc(names, name);
    var folder := before + Elements(names + [name]);
    assert before + Elements(names) + {name} == folder;
    if names != [] {
      var goal := tree[key := folder];
      assert t2.Keys == goal.Keys;
      forall k | k in t2 ensures t2[k] == goal[k] {
        if k != key { assert t2[k] == t1[k] == tree[k]; }
      }
    }
  }

  lemma PlacedStep(before: Folder, base: string, selected: seq<string>, names: seq<string>, name: string)
    requires |names| < |selected|
    requires forall i :: 0 <= i < |names| ==>
               names[i] !in before + Elements(names[..i]) &&
               PlacedAs(before + Elements(names[..i]), base, i + 1, selected[i], names[i])
    requires name !in before + Elements(names)
    requires PlacedAs(before + Elements(names), base, |names| + 1, selected[|names|], name)
    ensures var names' := names + [name];
            forall i :: 0 <= i < |names'| ==>
              names'[i] !in before + Elements(names'[..i]) &&
              PlacedAs(before + Elements(names'[..i]), base, i + 1, selected[i], names'[i])
  {
    var names' := names + [name];
    assert names'[..|names|] == names;
    forall i | 0 <= i < |names'|
      ensures names'[i] !in before + Elements(names'[..i]) &&
              PlacedAs(before + Elements(names'[..i]), base, i + 1, selected[i], names'[i])
    {
      if i < |names| {
        assert names'[..i] == names[..i];
      }
    }
  }

  /** How `process_photo_group` ends: the item was cancelled at the final
      prompt, saved, or a move raised (an exception nothing catches), after
      the photos before it were moved under the names `moved`. */
  datatype Outcome =
    | Cancelled
    | Saved(itemId: string, details: Details, photos: seq<string>)
    | MoveFailed(itemId: string, moved: seq<string>, photo: string)

  /**
   * What becomes of an item once it has its identifier: the selected photos
   * are moved in order, and the row is appended only when every move
   * succeeded; a move that raises leaves the ledger as it was, and the
   * photos before the failing one stay moved.
   */
  ghost predicate Filed(staging: Folder, tree: Tree, ledger: LedgerFile, bank: HashtagBank, d: Details,
                        selected: seq<string>, itemId: string, today: string,
                        outcome: Outcome, staging': Folder, tree': Tree, ledger': LedgerFile)
  {
    var base := CliBaseName(d.brand, d.color, d.itemType);
    !outcome.Cancelled? && outcome.itemId == itemId &&
    (outcome.Saved? <==> Movable(staging, selected)) &&
    (outcome.Saved? ==>
       outcome.details == d && |outcome.photos| == |selected| &&
       Moved(staging, tree, d.category, base, selected, outcome.photos, staging', tree') &&
       ledger' == CliAppend(ledger, CliRow(d, outcome.photos, itemId, DetailsHashtags(bank, d), today))) &&
    (outcome.MoveFailed? ==>
       ledger' == ledger && |outcome.moved| < |selected| &&
       outcome.photo == selected[|outcome.moved|] && outcome.photo !in staging' &&
       Moved(staging, tree, d.category, base, selected, outcome.moved, staging', tree'))
  }

  /** The part of `process_photo_group` after the identifier is taken from the counter `next`. */
  method SaveItem(staging: Folder, tree: Tree, ledger: LedgerFile, bank: HashtagBank, d: Details,
                  selected: seq<string>, next: nat, today: string)
    returns (outcome: Outcome, staging': Folder, tree': Tree, ledger': LedgerFile)
    ensures Filed(staging, tree, ledger, bank, d, selected, FormatId(next), today, outcome, staging', tree', ledger')
    ensures InSync(ledger, next) && outcome.Saved? ==> InSync(ledger', next + 1)
  {
    var itemId := FormatId(next);
    var base := CliBaseName(d.brand, d.color, d.itemType);
    var names, failed;
    names, failed, staging', tree' := MovePhotos(staging, tree, d.category, selected, base);
    if failed {
      return MoveFailed(itemId, names, selected[|names|]), staging', tree', ledger;
    }
    ledger' := AppendItemRow(ledger, bank, d, names, next, today);
    outcome := Saved(itemId, d, names);
  }

  /** `process_photo_group` on the script's state as values: the confirmed
      details and the selected photos, then the final prompt, then filing
      under the identifier the counter `next` gives. */
  method ProcessGroup(staging: Folder, tree: Tree, ledger: LedgerFile, bank: HashtagBank, next: nat,
                      group: seq<string>, score: string -> int, answers: Answers,
                      useRecommended: string, selection: string, confirm: string, today: string)
    returns (outcome: Outcome, next': nat, staging': Folder, tree': Tree, ledger': LedgerFile)
    ensures IsNo(confirm) ==>
              outcome == Cancelled && next' == next && staging' == staging && tree' == tree && ledger' == ledger
    ensures !IsNo(confirm) ==>
              next' == next + 1 &&
              Filed(staging, tree, ledger, bank, Confirmed(answers),
                    SelectPhotos(group, score, useRecommended, selection), FormatId(next), today,
                    outcome, staging', tree', ledger')
    ensures InSync(ledger, next) && !outcome.MoveFailed? ==> InSync(ledger', next')
  {
    var d := Confirmed(answers);
    var selected := SelectPhotos(group, score, useRecommended, selection);
    if IsNo(confirm) {
      return Cancelled, next, staging, tree, ledger;
    }
    next' := next + 1;
    outcome, staging', tree', ledger' := SaveItem(staging, tree, ledger, bank, d, selected, next, today);
  }

  class MultiPhotoAnalyzer {
    var nextItemId: nat
    var staging: Folder
    var tree: Tree
    var ledger: LedgerFile
    const bank: HashtagBank

    /** `__init__`: the counter starts at `_get_next_item_id()` over the ledger. */
    constructor (staging: Folder, tree: Tree, ledger: LedgerFile, bank: HashtagBank)
      ensures this.staging == staging && this.tree == tree && this.ledger == ledger && this.bank == bank
      ensures nextItemId == CliNext(RowsOf(ledger))
      ensures IdHeaded(ledger) && AllHaveIds(RowsOf(ledger)) ==> InSync(ledger, nextItemId)
    {
      var n := NextItemNumber(ledger);
      nextItemId := n;
      this.staging := staging;
      this.tree := tree;
      this.ledger := ledger;
      this.bank := bank;
    }

    /**
     * `process_photo_group`. When the final answer is "n" or "no" nothing
     * changes. Otherwise the item takes the counter's identifier, the counter
     * goes up by one, and the confirmed details and the selected photos are
     * filed. A successful save keeps the counter in step with the ledger.
     */
    method ProcessPhotoGroup(group: seq<string>, score: string -> int, answers: Answers,
                             useRecommended: string, selection: string, confirm: string, today: string)
      returns (outcome: Outcome)
      modifies this
      ensures IsNo(confirm) ==>
                outcome == Cancelled && nextItemId == old(nextItemId) && staging == old(staging) &&
                tree == old(tree) && ledger == old(ledger)
      ensures !IsNo(confirm) ==>
                nextItemId == old(nextItemId) + 1 &&
                Filed(old(staging), old(tree), old(ledger), bank, Confirmed(answers),
                      SelectPhotos(group, score, useRecommended, selection), FormatId(old(nextItemId)), today,
                      outcome, staging, tree, ledger)
      ensures old(InSync(ledger, nextItemId)) && !outcome.MoveFailed? ==> InSync(ledger, nextItemId)
    {
      outcome, nextItemId, staging, tree, ledger :=
        ProcessGroup(staging, tree, ledger, bank, nextItemId, group, score, answers,
                     useRecommended, selection, confirm, today);
    }
  }

  /** The row of a saved item is read back at the end of a ledger the
      command-line scripts created, with its identifier and its photo names in order. */
  lemma SavedRowReadBack(ledger: LedgerFile, d: Details, names: seq<string>, itemId: string,
                         tags: string, today: string)
    requires HeadedBy(ledger, CliColumns)
    requires |names| <= 4 && forall i :: 0 <= i < |names| ==> names[i] != ""
    ensures var row := CliRow(d, names, itemId, tags, today);
            RowsOf(CliAppend(ledger, row)) == RowsOf(ledger) + [row] &&
            "Item_ID" in row && row["Item_ID"] == itemId && FilledPhotos(row) == names
  {
    var row := CliRow(d, names, itemId, tags, today);
    assert "Item_ID" in row && row["Item_ID"] == itemId && FilledPhotos(row) == names by {
      CliRowId(d, names, itemId, tags, today);
      CliRowPhotos(d, names, itemId, tags, today);
    }
    assert RowsOf(CliAppend(ledger, row)) == RowsOf(ledger) + [row] by {
      CliAppendReadable(ledger, row);
    }
  }

  /** Moved names are never empty: each carries its photo number. */
  lemma PlacedNameNonEmpty(folder: Folder, base: string, photoNumber: nat, original: string, name: string)
    requires PlacedAs(folder, base, photoNumber, original, name)
    ensures name != ""
  {
    var k: nat :| name == RenamedCandidate(base, photoNumber, Lower(Suffix(original)), k);
  }
}
