/**
 * The naming engine: base names for photo files, and the folder names under
 * which the web server keeps each item's photos.
 */
module Naming {
  import opened Outcomes
  import opened Text

  // ---------------------------------------------------------------------
  // Photo base names
  // ---------------------------------------------------------------------

  /** `re.sub(r'[^a-zA-Z0-9]', '', s.lower())` */
  function Slug(s: string): (r: string)
    ensures AllAlnum(r) && HasNoUpper(r)
    ensures forall c :: c in r ==> c in Lower(s)
  {
    KeepAlnumOfLowerHasNoUpper(s);
    KeepAlnum(Lower(s))
  }

  /** Slugging a concatenation slugs each part, so every letter and digit of
      the input is kept, lowercased and in order. */
  lemma SlugConcat(a: string, b: string)
    ensures Slug(a + b) == Slug(a) + Slug(b)
  {
    LowerConcat(a, b);
    KeepAlnumConcat(Lower(a), Lower(b));
  }

  /** A string that is already lowercase and alphanumeric is its own slug. */
  lemma SlugFixpoint(s: string)
    requires AllAlnum(s) && HasNoUpper(s)
    ensures Slug(s) == s
  {
    assert Lower(s) == s;
  }

  /** Slugging twice is slugging once. */
  lemma SlugIdempotent(s: string)
    ensures Slug(Slug(s)) == Slug(s)
  {
    SlugFixpoint(Slug(s));
  }

  /** The three parts of a base name. */
  function BaseNameOf(brand: string, color: string, itemType: string): string
  {
    brand + "_" + color + "_" + itemType
  }

  /** A base name splits on "_" back into its three parts when none of them contains "_". */
  lemma BaseNameParts(brand: string, color: string, itemType: string)
    requires AllAlnum(brand) && AllAlnum(color) && AllAlnum(itemType)
    ensures SplitOn(BaseNameOf(brand, color, itemType), '_') == [brand, color, itemType]
  {
    var parts := [brand, color, itemType];
    forall i | 0 <= i < 3 ensures '_' !in parts[i] {
      if '_' in parts[i] {
        var j :| 0 <= j < |parts[i]| && parts[i][j] == '_';
        assert false;
      }
    }
    assert parts[1..] == [color, itemType] && parts[1..][1..] == [itemType];
    assert Join("_", [itemType]) == itemType;
    assert Join("_", [color, itemType]) == color + "_" + itemType;
    assert Join("_", parts) == brand + "_" + (color + "_" + itemType);
    assert BaseNameOf(brand, color, itemType) == brand + "_" + (color + "_" + itemType);
    assert "_" == ['_'];
    SplitOnJoin(parts, '_');
  }

  /**
   * The web server's `generate_filename`. The defaults "item", "unknown" and
   * "clothing" replace a key that is missing from the request; a key that is
   * present but empty yields an empty part.
   */
  function ServerBaseName(data: map<string, string>): (r: string)
    ensures var b, c, t := Slug(if "brand" in data then data["brand"] else "item"),
                           Slug(if "color" in data then data["color"] else "unknown"),
                           Slug(if "itemType" in data then data["itemType"] else "clothing");
            SplitOn(r, '_') == [b, c, t]
  {
    var brand := Slug(if "brand" in data then data["brand"] else "item");
    var color := Slug(if "color" in data then data["color"] else "unknown");
    var itemType := Slug(if "itemType" in data then data["itemType"] else "clothing");
    BaseNameParts(brand, color, itemType);
    BaseNameOf(brand, color, itemType)
  }

  /** A slug, or the default when the slug comes out empty. */
  function SlugOr(s: string, default: string): (r: string)
    requires default != "" && AllAlnum(default) && HasNoUpper(default)
    ensures r != "" && AllAlnum(r) && HasNoUpper(r)
    ensures Slug(s) != "" ==> r == Slug(s)
    ensures Slug(s) == "" ==> r == default
  {
    var r := Slug(s);
    if r == "" then default else r
  }

  /**
   * The command-line scripts' `generate_filename`: each part is slugged, and
   * an empty part is replaced by "item", "unknown" or "clothing".
   */
  function CliBaseName(brand: string, color: string, itemType: string): (r: string)
    ensures SplitOn(r, '_') == [SlugOr(brand, "item"), SlugOr(color, "unknown"), SlugOr(itemType, "clothing")]
  {
    var b, c, t := SlugOr(brand, "item"), SlugOr(color, "unknown"), SlugOr(itemType, "clothing");
    BaseNameParts(b, c, t);
    BaseNameOf(b, c, t)
  }

  // ---------------------------------------------------------------------
  // Folder names
  // ---------------------------------------------------------------------

  /** The characters that are replaced by "_": < > : " / \ | ? * */
  predicate IsIllegal(c: char) { c in "<>:\"/\\|?*" }

  predicate NoIllegal(s: string) { forall i :: 0 <= i < |s| ==> !IsIllegal(s[i]) }

  /** Letters, digits and "_" are neither illegal nor whitespace. */
  lemma WordCharsLegal(s: string)
    requires AllWordChars(s)
    ensures NoIllegal(s) && NoSpace(s)
  {
    WordCharsNoSpace(s);
  }

  /** The characters stripped from both ends at the last step. */
  predicate IsEdge(c: char) { c == '_' || c == '.' }

  /** `re.sub(r'[<>:"/\\|?*]', '_', s)` */
  function ReplaceIllegal(s: string): (r: string)
    ensures |r| == |s| && NoIllegal(r)
    ensures forall i :: 0 <= i < |s| ==> r[i] == (if IsIllegal(s[i]) then '_' else s[i])
  {
    seq(|s|, i requires 0 <= i < |s| => if IsIllegal(s[i]) then '_' else s[i])
  }

  lemma ReplaceIllegalConcat(a: string, b: string)
    ensures ReplaceIllegal(a + b) == ReplaceIllegal(a) + ReplaceIllegal(b)
  {
  }

  /** `re.sub(r'\s+', '_', s)`: every maximal run of whitespace becomes one "_". */
  function CollapseSpaces(s: string): (r: string)
    ensures NoSpace(r)
    ensures NoIllegal(s) ==> NoIllegal(r)
    ensures NoSpace(s) ==> r == s
    decreases |s|
  {
    if s == [] then []
    else if IsSpace(s[0]) then
      TrimStartSuffix(s, IsSpace);
      "_" + CollapseSpaces(TrimStart(s, IsSpace))
    else [s[0]] + CollapseSpaces(s[1..])
  }

  /** A character that is not whitespace passes through unchanged. */
  lemma CollapseSpacesCons(c: char, rest: string)
    requires !IsSpace(c)
    ensures CollapseSpaces([c] + rest) == [c] + CollapseSpaces(rest)
  {
    assert ([c] + rest)[1..] == rest;
  }

  /** A leading part without whitespace passes through unchanged. */
  lemma {:induction false} CollapseSpacesConcat(a: string, b: string)
    requires NoSpace(a)
    ensures CollapseSpaces(a + b) == a + CollapseSpaces(b)
  {
    if a == [] {
      assert a + b == b;
    } else {
      var x := CollapseSpaces(b);
      assert NoSpace(a[1..]);
      CollapseSpacesConcat(a[1..], b);
      ConsRest(a, b);
      CollapseSpacesCons(a[0], a[1..] + b);
      ConsRest(a, x);
    }
  }

  /** What `sanitize_folder_name` keeps before truncation. */
  function Survivors(name: string): string
  {
    Strip(CollapseSpaces(Strip(ReplaceIllegal(name), IsSpace)), IsEdge)
  }

  /** A well-formed folder name: none of < > : " / \ | ? * or whitespace, and
      at most 100 characters that are neither empty nor start with "_" or ".". */
  predicate CleanStart(r: string)
  {
    r != [] && |r| <= 100 && NoIllegal(r) && NoSpace(r) && !IsEdge(r[0])
  }

  /** ...and also not ending in "_" or ".": the names sanitizing leaves alone. */
  predicate Clean(r: string)
  {
    CleanStart(r) && !IsEdge(r[|r| - 1])
  }

  /** The last step of `sanitize_folder_name` on the surviving text s. */
  function Finish(s: string): (r: string)
    requires NoIllegal(s) && NoSpace(s)
    requires s != [] ==> !IsEdge(s[0]) && !IsEdge(s[|s| - 1])
    ensures CleanStart(r)
    ensures s == [] ==> r == "Untitled_Item"
    ensures s != [] ==> r <= s && |r| == Min(100, |s|)
    ensures |s| <= 100 ==> Clean(r)
  {
    if s == [] then UntitledIsClean(); "Untitled_Item"
    else if |s| <= 100 then s
    else s[..100]
  }

  /**
   * `sanitize_folder_name`: replace illegal characters by "_", strip
   * whitespace, collapse every run of whitespace into one "_", strip "_" and
   * "." from both ends, and keep the first 100 characters; "Untitled_Item"
   * when nothing is left.
   */
  function SanitizeFolderName(name: string): (r: string)
    ensures CleanStart(r)
    ensures Survivors(name) == [] ==> r == "Untitled_Item"
    ensures Survivors(name) != [] ==> r <= Survivors(name) && |r| == Min(100, |Survivors(name)|)
    ensures |Survivors(name)| <= 100 ==> Clean(r)
  {
    SurvivorsAreClean(name);
    Finish(Survivors(name))
  }

  /** Stripping removes characters only at the ends, so it adds no illegal
      character and no whitespace. */
  lemma StripKeepsLegal(x: string, p: char -> bool)
    ensures NoIllegal(x) ==> NoIllegal(Strip(x, p))
    ensures NoSpace(x) ==> NoSpace(Strip(x, p))
  {
    var t := TrimStart(x, p);
    var s := TrimEnd(t, p);
    var a := |x| - |t|;
    TrimStartSuffix(x, p);
    TrimEndPrefix(t, p);
    forall i | 0 <= i < |s| ensures s[i] == x[a + i] {
      assert s[i] == t[i];
    }
  }

  /** What survives has no illegal character, no whitespace, and no "_" or "." at either end. */
  lemma SurvivorsAreClean(name: string)
    ensures NoIllegal(Survivors(name)) && NoSpace(Survivors(name))
    ensures Survivors(name) != [] ==> !IsEdge(Survivors(name)[0]) && !IsEdge(Survivors(name)[|Survivors(name)| - 1])
  {
    var r := ReplaceIllegal(name);
    var u := Strip(r, IsSpace);
    StripKeepsLegal(r, IsSpace);
    var t := CollapseSpaces(u);
    StripKeepsLegal(t, IsEdge);
  }

  lemma UntitledIsClean()
    ensures Clean("Untitled_Item")
  {
    assert AllWordChars("Untitled_Item");
    WordCharsLegal("Untitled_Item");
  }

  /** Every step of sanitizing leaves a tidy name unchanged. */
  lemma SurvivorsOfTidy(r: string)
    requires r != [] && NoIllegal(r) && NoSpace(r) && !IsEdge(r[0]) && !IsEdge(r[|r| - 1])
    ensures Survivors(r) == r
  {
    assert ReplaceIllegal(r) == r;
    StripClean(r, IsSpace);
    assert CollapseSpaces(r) == r;
    StripClean(r, IsEdge);
  }

  /** A clean name is left as it is. */
  lemma SanitizeFixpoint(r: string)
    requires Clean(r)
    ensures SanitizeFolderName(r) == r
  {
    SurvivorsOfTidy(r);
  }

  /** Sanitizing again changes nothing unless the first result was cut at 100
      characters just after a "_" or "." . */
  lemma SanitizeIdempotent(name: string)
    requires |Survivors(name)| <= 100
    ensures SanitizeFolderName(SanitizeFolderName(name)) == SanitizeFolderName(name)
  {
    SanitizeFixpoint(SanitizeFolderName(name));
  }

  /** A name cut at 100 characters right after a "_" is shortened again on a second pass. */
  lemma SanitizeNotIdempotentAfterCut()
    ensures var name := seq(99, i => 'a') + "_b";
            SanitizeFolderName(SanitizeFolderName(name)) != SanitizeFolderName(name)
  {
    var name := seq(99, i => 'a') + "_b";
    assert AllWordChars(name);
    WordCharsLegal(name);
    SurvivorsOfTidy(name);
    var once := SanitizeFolderName(name);
    assert once == name[..100];
    assert once[99] == '_';
    assert AllWordChars(once);
    WordCharsLegal(once);
    assert ReplaceIllegal(once) == once;
    StripClean(once, IsSpace);
    assert CollapseSpaces(once) == once;
    StripShrinks(once, IsEdge);
    assert |Survivors(once)| < 100;
  }

  /** The first three words of a title, as `title.split()[:3]`. */
  function TitleWords(title: string): (words: seq<string>)
    ensures |words| <= 3 && |words| <= |Split(title)|
    ensures words == Split(title)[..|words|]
    ensures |words| < 3 ==> words == Split(title)
  {
    var w := Split(title);
    if |w| <= 3 then w else w[..3]
  }

  /** The parts `generate_item_folder_name` joins with "_". */
  function FolderParts(itemId: string, title: string, brand: string, color: string): (parts: seq<string>)
    ensures 1 <= |parts| <= 6 && parts[0] == "Item_" + itemId
    ensures forall i :: 1 <= i < |parts| ==> parts[i] != ""
  {
    ["Item_" + itemId]
    + (if brand != "" && brand != "Other" then [brand] else [])
    + (if color != "" && color != "N/A" then [color] else [])
    + (if title != "" then TitleWords(title) else [])
  }

  /** `generate_item_folder_name` */
  function ItemFolderName(itemId: string, title: string, brand: string, color: string): (r: string)
    ensures CleanStart(r)
  {
    SanitizeFolderName(Join("_", FolderParts(itemId, title, brand, color)))
  }

  /** The placeholder brand "Other" and colour "N/A" are left out of the name like empty ones. */
  lemma PlaceholdersSkipped(itemId: string, title: string, brand: string, color: string)
    ensures ItemFolderName(itemId, title, "Other", color) == ItemFolderName(itemId, title, "", color)
    ensures ItemFolderName(itemId, title, brand, "N/A") == ItemFolderName(itemId, title, brand, "")
  {
    assert FolderParts(itemId, title, "Other", color) == FolderParts(itemId, title, "", color);
    assert FolderParts(itemId, title, brand, "N/A") == FolderParts(itemId, title, brand, "");
  }

  /** Only the first three words of the title reach the name. */
  lemma OnlyThreeTitleWords(itemId: string, words: seq<string>, more: seq<string>, brand: string, color: string)
    requires |words| == 3
    requires forall i :: 0 <= i < |words + more| ==> (words + more)[i] != [] && NoSpace((words + more)[i])
    ensures ItemFolderName(itemId, Join(" ", words + more), brand, color)
         == ItemFolderName(itemId, Join(" ", words), brand, color)
  {
    assert forall i :: 0 <= i < |words| ==> words[i] == (words + more)[i];
    SplitJoin(words + more);
    SplitJoin(words);
    assert (words + more)[..3] == words;
    assert Join(" ", words) != "" by {
      assert Join(" ", words) == words[0] + " " + Join(" ", words[1..]);
    }
    assert Join(" ", words + more) != "" by {
      assert Join(" ", words + more) == words[0] + " " + Join(" ", (words + more)[1..]);
    }
  }

  /** A front part that sanitizing keeps character for character survives in front. */
  lemma SurvivorsKeepPrefix(a: string, b: string)
    requires a != [] && NoIllegal(a) && NoSpace(a) && !IsEdge(a[0]) && !IsEdge(a[|a| - 1])
    ensures a <= Survivors(a + b)
  {
    var s0 := ReplaceIllegal(a + b);
    assert s0 == a + ReplaceIllegal(b) by {
      ReplaceIllegalConcat(a, b);
      assert ReplaceIllegal(a) == a;
    }
    var s1 := Strip(s0, IsSpace);
    assert a <= s1 by {
      StripKeepsPrefix(a, ReplaceIllegal(b), IsSpace);
    }
    var rest := s1[|a|..];
    var s2 := CollapseSpaces(s1);
    assert s2 == a + CollapseSpaces(rest) by {
      assert s1 == a + rest;
      CollapseSpacesConcat(a, rest);
    }
    StripKeepsPrefix(a, CollapseSpaces(rest), IsEdge);
  }

  /** "Item_" followed by an alphanumeric identifier is kept whole by sanitizing. */
  lemma ItemPrefixClean(itemId: string)
    requires itemId != [] && AllAlnum(itemId)
    ensures var a := "Item_" + itemId;
            NoIllegal(a) && NoSpace(a) && !IsEdge(a[0]) && !IsEdge(a[|a| - 1])
  {
    var a := "Item_" + itemId;
    assert forall i :: 5 <= i < |a| ==> a[i] == itemId[i - 5];
    assert a[|a| - 1] == itemId[|itemId| - 1];
  }

  /** For an alphanumeric identifier of at most 95 characters the folder name
      starts with "Item_" followed by the identifier. */
  lemma FolderNameStartsWithId(itemId: string, title: string, brand: string, color: string)
    requires itemId != [] && AllAlnum(itemId) && |itemId| <= 95
    ensures "Item_" + itemId <= ItemFolderName(itemId, title, brand, color)
  {
    var a := "Item_" + itemId;
    var joined := Join("_", FolderParts(itemId, title, brand, color));
    var b := joined[|a|..];
    assert joined == a + b;
    ItemPrefixClean(itemId);
    SurvivorsKeepPrefix(a, b);
  }
}
