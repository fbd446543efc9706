/**
 * Hashtags: extraction of `#word` tokens from a description, the web
 * server's fixed category table, and the command-line scripts' suggestion
 * from a hashtag bank.
 */
module Hashtags {
  import opened Text

  /** The first n elements, as the slice `xs[:n]`. */
  function Take<T>(xs: seq<T>, n: nat): (r: seq<T>)
    ensures |r| == if |xs| <= n then |xs| else n
    ensures r == xs[..|r|]
  {
    if |xs| <= n then xs else xs[..n]
  }

  /** The longest prefix of word characters (`\w*`). */
  function WordRun(s: string): (w: string)
    ensures |w| <= |s| && w == s[..|w|] && AllWordChars(w)
    ensures |w| < |s| ==> !IsWordChar(s[|w|])
    ensures s != [] && IsWordChar(s[0]) ==> w != []
  {
    if s == [] || !IsWordChar(s[0]) then [] else [s[0]] + WordRun(s[1..])
  }

  /** A match of `#\w+`. */
  predicate IsHashtag(t: string) { |t| >= 2 && t[0] == '#' && AllWordChars(t[1..]) }

  /** `re.findall(r'#\w+', s)`: the non-overlapping matches, left to right. */
  function FindAll(s: string): (tags: seq<string>)
    ensures forall i :: 0 <= i < |tags| ==> IsHashtag(tags[i])
    decreases |s|
  {
    if s == [] then []
    else if |s| >= 2 && s[0] == '#' && IsWordChar(s[1]) then
      var w := WordRun(s[1..]);
      assert ("#" + w)[1..] == w;
      ["#" + w] + FindAll(s[1 + |w|..])
    else FindAll(s[1..])
  }

  lemma {:induction false} WordRunOfConcat(w: string, rest: string)
    requires AllWordChars(w)
    requires rest == [] || !IsWordChar(rest[0])
    ensures WordRun(w + rest) == w
  {
    if w == [] {
      assert w + rest == rest;
    } else {
      assert (w + rest)[1..] == w[1..] + rest;
      WordRunOfConcat(w[1..], rest);
      assert [w[0]] + w[1..] == w;
    }
  }

  /** A hashtag followed by a non-word character is matched whole. */
  lemma FindAllOfTag(t: string, rest: string)
    requires IsHashtag(t)
    requires rest == [] || !IsWordChar(rest[0])
    ensures FindAll(t + rest) == [t] + FindAll(rest)
  {
    var s := t + rest;
    assert s[1..] == t[1..] + rest;
    WordRunOfConcat(t[1..], rest);
    assert s[1 + |t[1..]|..] == rest;
    assert "#" + t[1..] == t;
  }

  /** A hashtag has no whitespace. */
  lemma HashtagNoSpace(t: string)
    requires IsHashtag(t)
    ensures t != [] && NoSpace(t)
  {
    WordCharsNoSpace(t[1..]);
    assert !IsSpace(t[0]);
    forall i | 0 <= i < |t| ensures !IsSpace(t[i]) {
      if i > 0 { assert t[i] == t[1..][i - 1]; }
    }
  }

  predicate AllHashtags(tags: seq<string>) { forall i :: 0 <= i < |tags| ==> IsHashtag(tags[i]) }

  /** Hashtags joined by single spaces are found again, in order. */
  lemma {:induction false} FindAllJoin(tags: seq<string>)
    requires AllHashtags(tags)
    ensures FindAll(Join(" ", tags)) == tags
  {
    if |tags| == 1 {
      FindAllOfTag(tags[0], []);
      assert tags[0] + [] == tags[0];
    } else if |tags| > 1 {
      var rest := Join(" ", tags[1..]);
      assert Join(" ", tags) == tags[0] + (" " + rest);
      FindAllOfTag(tags[0], " " + rest);
      assert (" " + rest)[1..] == rest;
      FindAllJoin(tags[1..]);
      assert [tags[0]] + tags[1..] == tags;
    }
  }

  /** Hashtags joined by single spaces split back into the hashtags. */
  lemma SplitJoinHashtags(tags: seq<string>)
    requires AllHashtags(tags)
    ensures Split(Join(" ", tags)) == tags
  {
    forall i | 0 <= i < |tags| ensures tags[i] != [] && NoSpace(tags[i]) {
      HashtagNoSpace(tags[i]);
    }
    SplitJoin(tags);
  }

  /**
   * `extract_hashtags_from_description`: "" for an empty description,
   * otherwise the first five `#\w+` matches joined by spaces.
   */
  function ExtractHashtags(description: string): (r: string)
    ensures description == "" ==> r == ""
    ensures Split(r) == Take(FindAll(description), 5)
    ensures |Split(r)| <= 5
  {
    var tags := Take(FindAll(description), 5);
    SplitJoinHashtags(tags);
    if description == "" then "" else Join(" ", tags)
  }

  /** One to five hashtags joined by spaces are extracted as they are. */
  lemma ExtractJoined(tags: seq<string>)
    requires AllHashtags(tags) && 1 <= |tags| <= 5
    ensures ExtractHashtags(Join(" ", tags)) == Join(" ", tags)
  {
    FindAllJoin(tags);
    assert tags[0] <= Join(" ", tags);
  }

  // ---------------------------------------------------------------------
  // The web server's table
  // ---------------------------------------------------------------------

  // The table `generate_hashtags` draws from, one entry per category.
  const TopsTags: seq<string> := ["#top", "#shirt", "#blouse", "#workwear", "#casual"]
  const DressesTags: seq<string> := ["#dress", "#midi", "#party", "#formal", "#cottagecore"]
  const BottomsTags: seq<string> := ["#jeans", "#trousers", "#y2k", "#highwaisted", "#vintage"]
  const OuterwearTags: seq<string> := ["#jacket", "#coat", "#blazer", "#oversized", "#structured"]
  const ShoesTags: seq<string> := ["#shoes", "#boots", "#sneakers", "#platform", "#chunky"]
  const AccessoriesTags: seq<string> := ["#accessories", "#bag", "#jewelry", "#vintage", "#statement"]

  const ServerBank: map<string, seq<string>> := map[
    "tops" := TopsTags,
    "dresses" := DressesTags,
    "bottoms" := BottomsTags,
    "outerwear" := OuterwearTags,
    "shoes" := ShoesTags,
    "accessories" := AccessoriesTags]

  /** Five hashtags of lowercase letters and digits. */
  predicate FiveLowerTags(tags: seq<string>)
  {
    |tags| == 5 &&
    forall i :: 0 <= i < 5 ==>
      (|tags[i]| >= 2 && tags[i][0] == '#' &&
       forall j :: 1 <= j < |tags[i]| ==> IsAsciiLower(tags[i][j]) || IsDigit(tags[i][j]))
  }

  lemma FiveLowerTagsAreHashtags(tags: seq<string>)
    requires FiveLowerTags(tags)
    ensures AllHashtags(tags)
  {
    forall i | 0 <= i < 5 ensures IsHashtag(tags[i]) {
      assert forall j :: 0 <= j < |tags[i][1..]| ==> tags[i][1..][j] == tags[i][j + 1];
    }
  }

  lemma TopsTagsWellFormed() ensures FiveLowerTags(TopsTags) { }
  lemma DressesTagsWellFormed() ensures FiveLowerTags(DressesTags) { }
  lemma BottomsTagsWellFormed() ensures FiveLowerTags(BottomsTags) { }
  lemma OuterwearTagsWellFormed() ensures FiveLowerTags(OuterwearTags) { }
  lemma ShoesTagsWellFormed() ensures FiveLowerTags(ShoesTags) { }
  lemma AccessoriesTagsWellFormed() ensures FiveLowerTags(AccessoriesTags) { }

  /** Each entry of the table holds five hashtags. */
  lemma ServerBankWellFormed()
    ensures forall k :: k in ServerBank ==> |ServerBank[k]| == 5 && AllHashtags(ServerBank[k])
  {
    TopsTagsWellFormed();
    FiveLowerTagsAreHashtags(TopsTags);
    DressesTagsWellFormed();
    FiveLowerTagsAreHashtags(DressesTags);
    BottomsTagsWellFormed();
    FiveLowerTagsAreHashtags(BottomsTags);
    OuterwearTagsWellFormed();
    FiveLowerTagsAreHashtags(OuterwearTags);
    ShoesTagsWellFormed();
    FiveLowerTagsAreHashtags(ShoesTags);
    AccessoriesTagsWellFormed();
    FiveLowerTagsAreHashtags(AccessoriesTags);
  }

  /**
   * The tags `generate_hashtags` collects: the first three of the table entry
   * for the lowercased category, "#" + the lowercased brand, and "#preloved".
   * An empty category or brand counts as absent.
   */
  function GenerateHashtagList(category: string, brand: string): (tags: seq<string>)
    ensures 1 <= |tags| <= 5 && tags[|tags| - 1] == "#preloved"
    ensures Lower(category) in ServerBank ==> |tags| >= 3 && tags[..3] == ServerBank[Lower(category)][..3]
    ensures Lower(category) !in ServerBank ==> |tags| <= 2
    ensures brand != "" <==> |tags| >= 2 && tags[|tags| - 2] == "#" + Lower(brand)
  {
    ServerBankWellFormed();
    var key := Lower(category);
    assert category == "" ==> key == "";
    (if category != "" && key in ServerBank then ServerBank[key][..3] else [])
    + (if brand != "" then ["#" + Lower(brand)] else [])
    + ["#preloved"]
  }

  /** `generate_hashtags`: the collected tags joined by spaces (never more than five). */
  function GenerateHashtags(category: string, brand: string): (r: string)
    ensures r == Join(" ", GenerateHashtagList(category, brand))
  {
    Join(" ", Take(GenerateHashtagList(category, brand), 5))
  }

  /** For a brand made of word characters the generated text is one to five
      hashtags ending in "#preloved", and extraction reads it back unchanged. */
  lemma GeneratedAreHashtags(category: string, brand: string)
    requires AllWordChars(brand)
    ensures var r := GenerateHashtags(category, brand);
            1 <= |Split(r)| <= 5 && Split(r)[|Split(r)| - 1] == "#preloved" &&
            AllHashtags(Split(r)) && ExtractHashtags(r) == r
  {
    ServerBankWellFormed();
    var tags := GenerateHashtagList(category, brand);
    assert AllHashtags(tags) by {
      forall i | 0 <= i < |tags| ensures IsHashtag(tags[i]) {
        if brand != "" && i == |tags| - 2 {
          var b := Lower(brand);
          assert AllWordChars(b);
          assert ("#" + b)[1..] == b;
        } else if i == |tags| - 1 {
          assert AllWordChars("preloved");
        }
      }
    }
    SplitJoinHashtags(tags);
    ExtractJoined(tags);
  }

  /** A brand with a space yields a tag that is split in two, so the text is not all hashtags. */
  lemma BrandWithSpace()
    ensures Split(GenerateHashtags("", "a b")) == ["#a", "b", "#preloved"]
  {
    assert Lower("a b") == "a b";
    assert "#" + Lower("a b") == "#a b";
    assert GenerateHashtagList("", "a b") == ["#a b", "#preloved"];
    assert Join(" ", ["#a b", "#preloved"]) == Join(" ", ["#a", "b", "#preloved"]);
    SplitJoin(["#a", "b", "#preloved"]);
  }

  // ---------------------------------------------------------------------
  // The command-line scripts' bank
  // ---------------------------------------------------------------------

  /** One row of the hashtag bank: its three columns, each split on " ". */
  datatype BankEntry = BankEntry(primary: seq<string>, style: seq<string>, trending: seq<string>)

  /** The bank, keyed by lowercased category. */
  type HashtagBank = map<string, BankEntry>

  /**
   * The tags `suggest_hashtags` collects: two primary, two style and one
   * trending tag of the bank entry for the lowercased category, or otherwise
   * "#" + item type, "#" + colour, "#" + lowercased brand, "#preloved" and
   * "#sustainable".
   */
  function SuggestHashtagList(bank: HashtagBank, category: string, itemType: string, color: string, brand: string): (tags: seq<string>)
    ensures |tags| <= 5
    ensures Lower(category) in bank ==>
              var e := bank[Lower(category)];
              tags == Take(e.primary, 2) + Take(e.style, 2) + Take(e.trending, 1)
    ensures Lower(category) !in bank ==>
              tags == ["#" + itemType, "#" + color, "#" + Lower(brand), "#preloved", "#sustainable"]
  {
    var key := Lower(category);
    if key in bank then
      var e := bank[key];
      Take(e.primary, 2) + Take(e.style, 2) + Take(e.trending, 1)
    else
      ["#" + itemType, "#" + color, "#" + Lower(brand), "#preloved", "#sustainable"]
  }

  /** `suggest_hashtags`: the collected tags joined by spaces (never more than five). */
  function SuggestHashtags(bank: HashtagBank, category: string, itemType: string, color: string, brand: string): (r: string)
    ensures r == Join(" ", SuggestHashtagList(bank, category, itemType, color, brand))
  {
    Join(" ", Take(SuggestHashtagList(bank, category, itemType, color, brand), 5))
  }

  /** Without a bank entry and with non-empty word-character details the
      suggestion is exactly five hashtags, which extraction reads back unchanged. */
  lemma SuggestedFallbackAreHashtags(bank: HashtagBank, category: string, itemType: string, color: string, brand: string)
    requires Lower(category) !in bank
    requires itemType != "" && color != "" && brand != ""
    requires AllWordChars(itemType) && AllWordChars(color) && AllWordChars(brand)
    ensures var r := SuggestHashtags(bank, category, itemType, color, brand);
            |Split(r)| == 5 && AllHashtags(Split(r)) && ExtractHashtags(r) == r
  {
    var tags := SuggestHashtagList(bank, category, itemType, color, brand);
    assert AllHashtags(tags) by {
      var b := Lower(brand);
      assert AllWordChars(b);
      assert ("#" + itemType)[1..] == itemType;
      assert ("#" + color)[1..] == color;
      assert ("#" + b)[1..] == b;
      assert AllWordChars("preloved") && AllWordChars("sustainable");
    }
    SplitJoinHashtags(tags);
    ExtractJoined(tags);
  }

  /** With a bank entry made of hashtags the suggestion is read back unchanged by extraction. */
  lemma SuggestedFromBankAreHashtags(bank: HashtagBank, category: string, itemType: string, color: string, brand: string)
    requires Lower(category) in bank
    requires var e := bank[Lower(category)];
             AllHashtags(e.primary) && AllHashtags(e.style) && AllHashtags(e.trending) && e.primary != []
    ensures var r := SuggestHashtags(bank, category, itemType, color, brand);
            Split(r) == SuggestHashtagList(bank, category, itemType, color, brand) && ExtractHashtags(r) == r
  {
    var tags := SuggestHashtagList(bank, category, itemType, color, brand);
    var e := bank[Lower(category)];
    assert AllHashtags(tags) by {
      var p, s, t := Take(e.primary, 2), Take(e.style, 2), Take(e.trending, 1);
      assert tags == p + s + t;
      forall i | 0 <= i < |tags| ensures IsHashtag(tags[i]) {
        if i < |p| { assert tags[i] == e.primary[i]; }
        else if i < |p| + |s| { assert tags[i] == e.style[i - |p|]; }
        else { assert tags[i] == e.trending[i - |p| - |s|]; }
      }
    }
    SplitJoinHashtags(tags);
    ExtractJoined(tags);
  }
}
