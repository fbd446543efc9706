/**
 * Collision-free placement of photo files. A folder is the set of file names
 * in it; the category tree maps a lowercased category to its folder. Each
 * placement tries a sequence of candidate names and takes the first one the
 * folder does not hold yet.
 */
module Placement {
  import opened Text

  type Folder = set<string>
  type Tree = map<string, Folder>

  /** The folder under `key`; a folder that does not exist yet is created empty
      (`mkdir(parents=True, exist_ok=True)`). */
  function FolderAt(tree: Tree, key: string): Folder
  {
    if key in tree then tree[key] else {}
  }

  // ---------------------------------------------------------------------
  // pathlib's suffix and stem
  // ---------------------------------------------------------------------

  /** `s.rfind('.')` */
  function RFindDot(s: string): (i: int)
    ensures -1 <= i < |s|
    ensures i >= 0 ==> s[i] == '.' && forall j :: i < j < |s| ==> s[j] != '.'
    ensures i == -1 ==> forall j :: 0 <= j < |s| ==> s[j] != '.'
  {
    if s == [] then -1
    else if s[|s| - 1] == '.' then |s| - 1
    else RFindDot(s[..|s| - 1])
  }

  /** `Path(name).suffix`: from the last "." on, unless that dot is the first
      or the last character. */
  function Suffix(name: string): (r: string)
    ensures r == [] || (|r| >= 2 && r[0] == '.' && forall j :: 0 < j < |r| ==> r[j] != '.')
    ensures |r| <= |name| && r == name[|name| - |r|..]
  {
    var i := RFindDot(name);
    if 0 < i < |name| - 1 then name[i..] else ""
  }

  /** `Path(name).stem` */
  function Stem(name: string): (r: string)
    ensures r + Suffix(name) == name
  {
    var i := RFindDot(name);
    if 0 < i < |name| - 1 then name[..i] else name
  }

  // ---------------------------------------------------------------------
  // Candidate names
  // ---------------------------------------------------------------------

  /** The k-th name the web server tries: the name itself, then `stem_k.suffix`. */
  function DuplicateName(name: string, k: nat): (r: string)
    ensures k == 0 ==> r == name
    ensures k > 0 ==> |r| > |name| && Stem(name) <= r && r[|r| - |Suffix(name)|..] == Suffix(name)
  {
    if k == 0 then name else Stem(name) + "_" + NatToString(k) + Suffix(name)
  }

  /** The k-th name the command-line scripts try: `base_N.ext`, then `base_N_k.ext`. */
  function RenamedCandidate(base: string, photoNumber: nat, ext: string, k: nat): (r: string)
    ensures base + "_" + NatToString(photoNumber) <= r
    ensures |ext| <= |r| && r[|r| - |ext|..] == ext
    ensures k > 0 <==> |r| > |base + "_" + NatToString(photoNumber) + ext|
  {
    var front := base + "_" + NatToString(photoNumber);
    if k == 0 then front + ext else front + "_" + NatToString(k) + ext
  }

  /** The middle of a string can be read back from its ends. */
  lemma MiddleCancels(p: string, m1: string, m2: string, q: string)
    requires p + m1 + q == p + m2 + q
    ensures m1 == m2
  {
    var x := p + m1 + q;
    assert x[|p|..|p| + |m1|] == m1;
    assert |m1| == |m2|;
    assert x[|p|..|p| + |m2|] == m2;
  }

  /** Different k give different server candidates. */
  lemma DuplicateNameInjective(name: string, i: nat, j: nat)
    requires DuplicateName(name, i) == DuplicateName(name, j)
    ensures i == j
  {
    var p, q := Stem(name), Suffix(name);
    if i != 0 && j != 0 {
      assert DuplicateName(name, i) == p + ("_" + NatToString(i)) + q;
      assert DuplicateName(name, j) == p + ("_" + NatToString(j)) + q;
      MiddleCancels(p, "_" + NatToString(i), "_" + NatToString(j), q);
      assert NatToString(i) == ("_" + NatToString(i))[1..];
      NatToStringInjective(i, j);
    }
  }

  /** Different k give different command-line candidates. */
  lemma RenamedCandidateInjective(base: string, photoNumber: nat, ext: string, i: nat, j: nat)
    requires RenamedCandidate(base, photoNumber, ext, i) == RenamedCandidate(base, photoNumber, ext, j)
    ensures i == j
  {
    var p := base + "_" + NatToString(photoNumber);
    if i != 0 && j != 0 {
      assert RenamedCandidate(base, photoNumber, ext, i) == p + ("_" + NatToString(i)) + ext;
      assert RenamedCandidate(base, photoNumber, ext, j) == p + ("_" + NatToString(j)) + ext;
      MiddleCancels(p, "_" + NatToString(i), "_" + NatToString(j), ext);
      assert NatToString(i) == ("_" + NatToString(i))[1..];
      NatToStringInjective(i, j);
    }
  }

  // ---------------------------------------------------------------------
  // The collision loop
  // ---------------------------------------------------------------------

  ghost predicate Injective(cand: nat -> string)
  {
    forall i: nat, j: nat :: cand(i) == cand(j) ==> i == j
  }

  /** `name` is the first candidate the folder does not hold. */
  ghost predicate FirstFree(folder: Folder, cand: nat -> string, name: string)
  {
    exists k: nat :: name == cand(k) && name !in folder && forall j: nat :: j < k ==> cand(j) in folder
  }

  /** There is only one first free candidate. */
  lemma FirstFreeUnique(folder: Folder, cand: nat -> string, a: string, b: string)
    requires FirstFree(folder, cand, a) && FirstFree(folder, cand, b)
    ensures a == b
  {
    var ka: nat :| a == cand(ka) && a !in folder && forall j: nat :: j < ka ==> cand(j) in folder;
    var kb: nat :| b == cand(kb) && b !in folder && forall j: nat :: j < kb ==> cand(j) in folder;
    assert ka == kb;
  }

  /** A subset is no larger. */
  lemma {:induction false} SubsetCard(a: Folder, b: Folder)
    requires a <= b
    ensures |a| <= |b|
    decreases |a|
  {
    if a != {} {
      var x :| x in a;
      SubsetCard(a - {x}, b - {x});
    }
  }

  /**
   * The `while path.exists()` loop: try cand(0), cand(1), ... until one is
   * not in the folder. Since the candidates are all different and the folder
   * is finite, the loop ends after at most |folder| rounds.
   */
  method PickFree(folder: Folder, cand: nat -> string) returns (name: string)
    requires Injective(cand)
    ensures name !in folder
    ensures FirstFree(folder, cand, name)
  {
    var k: nat := 0;
    ghost var tried: set<string> := {};
    while cand(k) in folder
      invariant tried == set j: nat | j < k :: cand(j)
      invariant |tried| == k
      invariant tried <= folder
      decreases |folder| - k
    {
      SubsetCard(tried, folder);
      assert cand(k) !in tried;
      assert tried + {cand(k)} == set j: nat | j < k + 1 :: cand(j);
      tried := tried + {cand(k)};
      k := k + 1;
      SubsetCard(tried, folder);
    }
    assert forall j: nat :: j < k ==> cand(j) in tried;
    name := cand(k);
  }

  // ---------------------------------------------------------------------
  // The three placements
  // ---------------------------------------------------------------------

  /**
   * The web server's `move_photo`: copy the photo into the folder of its
   * lowercased category under the first free name among name, stem_1.ext,
   * stem_2.ext, ..., and return that name. The staging copy is left in place.
   */
  method MovePhoto(tree: Tree, category: string, fileName: string)
    returns (chosen: string, tree': Tree)
    ensures var before := FolderAt(tree, Lower(category));
            chosen !in before &&
            FirstFree(before, (k: nat) => DuplicateName(fileName, k), chosen) &&
            tree' == tree[Lower(category) := before + {chosen}]
  {
    var key := Lower(category);
    var before := FolderAt(tree, key);
    forall i: nat, j: nat | DuplicateName(fileName, i) == DuplicateName(fileName, j) ensures i == j {
      DuplicateNameInjective(fileName, i, j);
    }
    chosen := PickFree(before, (k: nat) => DuplicateName(fileName, k));
    tree' := tree[key := before + {chosen}];
  }

  /** When the first free server candidate is not the name itself, the name was taken. */
  lemma RenamedMeansTaken(folder: Folder, fileName: string, chosen: string)
    requires FirstFree(folder, (k: nat) => DuplicateName(fileName, k), chosen)
    requires chosen != fileName
    ensures fileName in folder
  {
    var cand := (k: nat) => DuplicateName(fileName, k);
    var k: nat :| chosen == cand(k) && chosen !in folder && forall j: nat :: j < k ==> cand(j) in folder;
    assert cand(0) == fileName;
  }

  /**
   * The web server's `move_photo_dual`: the same placement into the category
   * folder and, independently, into the item's folder. It returns the
   * original file name whatever names the copies received, so when the
   * category copy was renamed the returned name is that of another file
   * already in the category folder.
   */
  method MovePhotoDual(tree: Tree, category: string, itemFolder: Folder, fileName: string)
    returns (ret: string, tree': Tree, itemFolder': Folder, ghost categoryName: string, ghost itemName: string)
    ensures ret == fileName
    ensures var before := FolderAt(tree, Lower(category));
            categoryName !in before &&
            FirstFree(before, (k: nat) => DuplicateName(fileName, k), categoryName) &&
            tree' == tree[Lower(category) := before + {categoryName}]
    ensures itemName !in itemFolder
    ensures FirstFree(itemFolder, (k: nat) => DuplicateName(fileName, k), itemName)
    ensures itemFolder' == itemFolder + {itemName}
    ensures categoryName != ret ==> ret in FolderAt(tree, Lower(category))
  {
    ret := fileName;
    var inCategory;
    inCategory, tree' := MovePhoto(tree, category, fileName);
    forall i: nat, j: nat | DuplicateName(fileName, i) == DuplicateName(fileName, j) ensures i == j {
      DuplicateNameInjective(fileName, i, j);
    }
    var inItem := PickFree(itemFolder, (k: nat) => DuplicateName(fileName, k));
    itemFolder' := itemFolder + {inItem};
    categoryName, itemName := inCategory, inItem;
    if categoryName != fileName {
      RenamedMeansTaken(FolderAt(tree, Lower(category)), fileName, categoryName);
    }
  }

  /** Placing "a.jpg" where "a.jpg" already is gives the copy the name "a_1.jpg",
      while `move_photo_dual` still reports "a.jpg". */
  lemma DualCopyRenamed()
    ensures FirstFree({"a.jpg"}, (k: nat) => DuplicateName("a.jpg", k), "a_1.jpg")
  {
    assert RFindDot("a.jpg") == 1 by {
      assert "a.jpg"[..4] == "a.jp" && "a.jp"[..3] == "a.j" && "a.j"[..2] == "a.";
    }
    assert Stem("a.jpg") == "a" && Suffix("a.jpg") == ".jpg";
    assert NatToString(1) == "1";
    var cand := (k: nat) => DuplicateName("a.jpg", k);
    assert cand(1) == "a_1.jpg";
    assert cand(0) in {"a.jpg"};
    assert forall j: nat :: j < 1 ==> cand(j) in {"a.jpg"};
  }

  /** `name` is the first of base_N.ext, base_N_1.ext, base_N_2.ext, ... that
      the folder does not hold, where N is the photo number and ext the
      lowercased suffix of the original name. */
  ghost predicate PlacedAs(folder: Folder, base: string, photoNumber: nat, original: string, name: string)
  {
    FirstFree(folder, (k: nat) => RenamedCandidate(base, photoNumber, Lower(Suffix(original)), k), name)
  }

  /**
   * The command-line scripts' `move_and_rename_photo`: move the photo out of
   * staging into the folder of its lowercased category under the first free
   * name among base_N.ext, base_N_1.ext, ..., where ext is the lowercased
   * suffix of the original name, and return the new name.
   */
  method MoveAndRename(staging: Folder, tree: Tree, category: string, original: string,
                       base: string, photoNumber: nat)
    returns (newName: string, staging': Folder, tree': Tree)
    requires original in staging
    ensures var before := FolderAt(tree, Lower(category));
            newName !in before && PlacedAs(before, base, photoNumber, original, newName) &&
            tree' == tree[Lower(category) := before + {newName}]
    ensures staging' == staging - {original}
  {
    var key := Lower(category);
    var before := FolderAt(tree, key);
    var ext := Lower(Suffix(original));
    forall i: nat, j: nat | RenamedCandidate(base, photoNumber, ext, i) == RenamedCandidate(base, photoNumber, ext, j)
      ensures i == j
    {
      RenamedCandidateInjective(base, photoNumber, ext, i, j);
    }
    newName := PickFree(before, (k: nat) => RenamedCandidate(base, photoNumber, ext, k));
    tree' := tree[key := before + {newName}];
    staging' := staging - {original};
  }
}
