/**
 * Ordering photos: the name order `list.sort()` gives the staging listing, the
 * best-first order of `process_photo_group`'s quality scores, and the photos
 * the operator ends up selecting for an item.
 */
module Selection {
  import opened Outcomes
  import opened Text
  import opened Hashtags

  // ---------------------------------------------------------------------
  // Sorting photo names
  // ---------------------------------------------------------------------

  predicate SortedNames(s: seq<string>)
  {
    forall i :: 0 <= i < |s| - 1 ==> LexLessEq(s[i], s[i + 1])
  }

  /** x placed before the first name it does not come after. */
  function InsertName(x: string, s: seq<string>): (r: seq<string>)
    ensures multiset(r) == multiset(s) + multiset{x}
    ensures |r| == |s| + 1
    ensures r[0] == x || (s != [] && r[0] == s[0])
  {
    if s == [] then [x]
    else if LexLessEq(x, s[0]) then [x] + s
    else
      assert s == [s[0]] + s[1..];
      [s[0]] + InsertName(x, s[1..])
  }

  lemma {:induction false} InsertNameSorted(x: string, s: seq<string>)
    requires SortedNames(s)
    ensures SortedNames(InsertName(x, s))
  {
    if s != [] && !LexLessEq(x, s[0]) {
      LexTotal(x, s[0]);
      assert SortedNames(s[1..]) by {
        forall i | 0 <= i < |s[1..]| - 1 ensures LexLessEq(s[1..][i], s[1..][i + 1]) {
          assert s[1..][i] == s[i + 1] && s[1..][i + 1] == s[i + 2];
        }
      }
      InsertNameSorted(x, s[1..]);
      var t := InsertName(x, s[1..]);
      assert t[0] == x || t[0] == s[1];
      var r := [s[0]] + t;
      forall i | 0 <= i < |r| - 1 ensures LexLessEq(r[i], r[i + 1]) {
        if i > 0 { assert r[i] == t[i - 1] && r[i + 1] == t[i]; }
      }
    }
  }

  /** The names in ascending order (insertion sort; for names, the order
      `sorted` and `list.sort()` give is lexicographic by code point). */
  function SortNames(s: seq<string>): (r: seq<string>)
    ensures multiset(r) == multiset(s)
    ensures |r| == |s|
  {
    if s == [] then []
    else
      assert s == [s[0]] + s[1..];
      InsertName(s[0], SortNames(s[1..]))
  }

  /** The sort's result is ordered. */
  lemma {:induction false} SortNamesSorted(s: seq<string>)
    ensures SortedNames(SortNames(s))
  {
    if s != [] {
      SortNamesSorted(s[1..]);
      InsertNameSorted(s[0], SortNames(s[1..]));
    }
  }

  // ---------------------------------------------------------------------
  // Best photos first
  // ---------------------------------------------------------------------

  /** A photo and its quality score. */
  datatype Scored = Scored(photo: string, score: int)

  predicate Descending(s: seq<Scored>)
  {
    forall i :: 0 <= i < |s| - 1 ==> s[i].score >= s[i + 1].score
  }

  /** x placed before the first entry that does not score higher, so entries
      with equal scores keep their order. */
  function InsertScored(x: Scored, s: seq<Scored>): (r: seq<Scored>)
    ensures multiset(r) == multiset(s) + multiset{x}
    ensures |r| == |s| + 1
    ensures r[0] == x || (s != [] && r[0] == s[0])
  {
    if s == [] then [x]
    else if s[0].score <= x.score then [x] + s
    else
      assert s == [s[0]] + s[1..];
      [s[0]] + InsertScored(x, s[1..])
  }

  /** `photo_scores.sort(key=score, reverse=True)`: a stable sort by descending score. */
  function SortByScore(s: seq<Scored>): (r: seq<Scored>)
    ensures multiset(r) == multiset(s)
    ensures |r| == |s|
  {
    if s == [] then []
    else
      assert s == [s[0]] + s[1..];
      InsertScored(s[0], SortByScore(s[1..]))
  }

  lemma {:induction false} InsertScoredDescending(x: Scored, s: seq<Scored>)
    requires Descending(s)
    ensures Descending(InsertScored(x, s))
  {
    if s != [] && s[0].score > x.score {
      assert Descending(s[1..]) by {
        forall i | 0 <= i < |s[1..]| - 1 ensures s[1..][i].score >= s[1..][i + 1].score {
          assert s[1..][i] == s[i + 1] && s[1..][i + 1] == s[i + 2];
        }
      }
      InsertScoredDescending(x, s[1..]);
      var t := InsertScored(x, s[1..]);
      assert t[0] == x || t[0] == s[1];
      var r := [s[0]] + t;
      forall i | 0 <= i < |r| - 1 ensures r[i].score >= r[i + 1].score {
        if i > 0 { assert r[i] == t[i - 1] && r[i + 1] == t[i]; }
      }
    }
  }

  /** The sorted photos run from the highest score to the lowest. */
  lemma {:induction false} SortByScoreDescending(s: seq<Scored>)
    ensures Descending(SortByScore(s))
  {
    if s != [] {
      SortByScoreDescending(s[1..]);
      InsertScoredDescending(s[0], SortByScore(s[1..]));
    }
  }

  /** The entries with score v, in their order. */
  function WithScore(s: seq<Scored>, v: int): seq<Scored>
  {
    if s == [] then [] else (if s[0].score == v then [s[0]] else []) + WithScore(s[1..], v)
  }

  lemma WithScoreCons(a: Scored, t: seq<Scored>, v: int)
    ensures WithScore([a] + t, v) == (if a.score == v then [a] else []) + WithScore(t, v)
  {
    assert ([a] + t)[1..] == t;
  }

  lemma {:induction false} InsertScoredStable(x: Scored, s: seq<Scored>, v: int)
    ensures WithScore(InsertScored(x, s), v) == WithScore([x] + s, v)
  {
    if s == [] || s[0].score <= x.score {
      assert InsertScored(x, s) == [x] + s;
    } else {
      var t := InsertScored(x, s[1..]);
      assert InsertScored(x, s) == [s[0]] + t;
      assert s == [s[0]] + s[1..];
      InsertScoredStable(x, s[1..], v);
      WithScoreCons(s[0], t, v);
      WithScoreCons(x, s[1..], v);
      WithScoreCons(s[0], s[1..], v);
      WithScoreCons(x, s, v);
      if s[0].score == v {
        // x scores lower than s[0], so only s[0] is kept in front
        assert WithScore([x] + s[1..], v) == WithScore(s[1..], v);
        assert WithScore([x] + s, v) == WithScore(s, v);
      } else {
        assert WithScore(s, v) == WithScore(s[1..], v);
        assert WithScore(InsertScored(x, s), v) == WithScore(t, v);
      }
    }
  }

  /** The sort is stable: the photos of any one score keep their original order. */
  lemma {:induction false} SortByScoreStable(s: seq<Scored>, v: int)
    ensures WithScore(SortByScore(s), v) == WithScore(s, v)
  {
    if s != [] {
      SortByScoreStable(s[1..], v);
      InsertScoredStable(s[0], SortByScore(s[1..]), v);
      assert ([s[0]] + SortByScore(s[1..]))[1..] == SortByScore(s[1..]);
    }
  }

  function Photos(s: seq<Scored>): (r: seq<string>)
    ensures |r| == |s| && forall i :: 0 <= i < |s| ==> r[i] == s[i].photo
  {
    seq(|s|, i requires 0 <= i < |s| => s[i].photo)
  }

  /** `(photo, score_photo_quality(photo))` for each photo of the group. */
  function ScoreAll(group: seq<string>, score: string -> int): (r: seq<Scored>)
    ensures |r| == |group| && forall i :: 0 <= i < |group| ==> r[i] == Scored(group[i], score(group[i]))
  {
    seq(|group|, i requires 0 <= i < |group| => Scored(group[i], score(group[i])))
  }

  /** `photo_scores[:4]` after the sort: min(4, |group|) photos of the group. */
  function Recommended(group: seq<string>, score: string -> int): (r: seq<string>)
    ensures |r| == Min(4, |group|)
    ensures multiset(r) <= multiset(group)
  {
    var sorted := SortByScore(ScoreAll(group, score));
    var k := |Take(sorted, 4)|;
    assert Take(sorted, 4) == sorted[..k];
    SortedPhotos(group, score);
    assert Photos(sorted) == Photos(sorted[..k]) + Photos(sorted[k..]);
    Photos(Take(sorted, 4))
  }

  /** No photo of the group left out of the recommendation scores higher than
      one recommended. */
  lemma RecommendedAreBest(group: seq<string>, score: string -> int)
    ensures var r := Recommended(group, score);
            forall i, p :: 0 <= i < |r| && p in multiset(group) - multiset(r) ==> score(p) <= score(r[i])
  {
    var all := ScoreAll(group, score);
    var sorted := SortByScore(all);
    var k := |Take(sorted, 4)|;
    assert Take(sorted, 4) == sorted[..k];
    SortedPhotos(group, score);
    SortByScoreDescending(all);
    forall j | 0 <= j < |sorted| ensures sorted[j].score == score(sorted[j].photo) {
      SortedConsistent(group, score, j);
    }
    TopAreBest(sorted, k, score);
  }

  /** In a descending list whose scores are the photos' own, the photos of a
      prefix score at least as high as every other photo of the list. */
  lemma TopAreBest(s: seq<Scored>, k: nat, score: string -> int)
    requires k <= |s| && Descending(s)
    requires forall j :: 0 <= j < |s| ==> s[j].score == score(s[j].photo)
    ensures var r := Photos(s[..k]);
            forall i, p :: 0 <= i < |r| && p in multiset(Photos(s)) - multiset(r) ==> score(p) <= score(r[i])
  {
    var r := Photos(s[..k]);
    forall i, p | 0 <= i < |r| && p in multiset(Photos(s)) - multiset(r) ensures score(p) <= score(r[i]) {
      var j := InRest(s, k, p);
      assert r[i] == s[i].photo;
      DescendingPair(s, i, j);
    }
  }

  /** A photo of the list that is not among the first k comes from position k or later. */
  lemma InRest(s: seq<Scored>, k: nat, p: string) returns (j: nat)
    requires k <= |s| && p in multiset(Photos(s)) - multiset(Photos(s[..k]))
    ensures k <= j < |s| && s[j].photo == p
  {
    var rest := Photos(s[k..]);
    assert s == s[..k] + s[k..];
    PhotosAppend(s[..k], s[k..]);
    assert multiset(Photos(s)) - multiset(Photos(s[..k])) == multiset(rest);
    assert p in rest;
    var m :| 0 <= m < |rest| && rest[m] == p;
    j := k + m;
  }

  lemma PhotosAppend(a: seq<Scored>, b: seq<Scored>)
    ensures Photos(a + b) == Photos(a) + Photos(b)
  {
    assert forall i :: 0 <= i < |a| ==> (a + b)[i] == a[i];
    assert forall i :: |a| <= i < |a| + |b| ==> (a + b)[i] == b[i - |a|];
  }

  /** Sorting keeps the photos of the group, with their scores. */
  lemma SortedPhotos(group: seq<string>, score: string -> int)
    ensures multiset(Photos(SortByScore(ScoreAll(group, score)))) == multiset(group)
  {
    var all := ScoreAll(group, score);
    PhotosOfSort(all);
    assert Photos(all) == group;
  }

  lemma SortedConsistent(group: seq<string>, score: string -> int, j: nat)
    requires j < |group|
    ensures var sorted := SortByScore(ScoreAll(group, score));
            sorted[j].score == score(sorted[j].photo)
  {
    var all := ScoreAll(group, score);
    var sorted := SortByScore(all);
    assert sorted[j] in multiset(all);
    var m :| 0 <= m < |all| && all[m] == sorted[j];
  }


  lemma {:induction false} DescendingPair(s: seq<Scored>, i: nat, j: nat)
    requires Descending(s) && i <= j < |s|
    ensures s[i].score >= s[j].score
    decreases j - i
  {
    if i < j { DescendingPair(s, i + 1, j); }
  }

  lemma PhotosCons(x: Scored, s: seq<Scored>)
    ensures multiset(Photos([x] + s)) == multiset{x.photo} + multiset(Photos(s))
  {
    PhotosAppend([x], s);
    assert Photos([x]) == [x.photo];
  }

  lemma {:induction false} PhotosOfInsert(x: Scored, s: seq<Scored>)
    ensures multiset(Photos(InsertScored(x, s))) == multiset(Photos(s)) + multiset{x.photo}
  {
    if s != [] && s[0].score > x.score {
      var t := InsertScored(x, s[1..]);
      assert InsertScored(x, s) == [s[0]] + t;
      PhotosOfInsert(x, s[1..]);
      PhotosCons(s[0], t);
      PhotosCons(s[0], s[1..]);
      assert s == [s[0]] + s[1..];
    } else {
      assert InsertScored(x, s) == [x] + s;
      PhotosCons(x, s);
    }
  }

  lemma {:induction false} PhotosOfSort(s: seq<Scored>)
    ensures multiset(Photos(SortByScore(s))) == multiset(Photos(s))
  {
    if s != [] {
      var t := SortByScore(s[1..]);
      assert SortByScore(s) == InsertScored(s[0], t);
      PhotosOfSort(s[1..]);
      PhotosOfInsert(s[0], t);
      PhotosCons(s[0], s[1..]);
      assert s == [s[0]] + s[1..];
    }
  }

  // ---------------------------------------------------------------------
  // The operator's choice
  // ---------------------------------------------------------------------

  /** The answer "n" or "no" (after strip and lower). */
  predicate IsNo(answer: string)
    ensures IsNo(answer) <==> Strip(answer, IsSpace) in ["n", "N", "no", "No", "nO", "NO"]
  {
    LowerIsNo(Strip(answer, IsSpace));
    var a := Lower(Strip(answer, IsSpace));
    a == "n" || a == "no"
  }

  /** The strings that lower-case to "n" or "no". */
  lemma LowerIsNo(t: string)
    ensures Lower(t) == "n" || Lower(t) == "no" <==> t in ["n", "N", "no", "No", "nO", "NO"]
  {
    if |t| == 1 {
      assert Lower(t) == "n" <==> t[0] == 'n' || t[0] == 'N';
      assert t == [t[0]];
    } else if |t| == 2 {
      assert Lower(t) == "no" <==> (t[0] == 'n' || t[0] == 'N') && (t[1] == 'o' || t[1] == 'O');
      assert t == [t[0], t[1]];
    }
  }

  /** `int(token)` for each token; None where it raises ValueError. */
  function ParseAll(tokens: seq<string>): (ns: seq<Option<int>>)
    ensures |ns| == |tokens| && forall i :: 0 <= i < |tokens| ==> ns[i] == ParseInt(tokens[i])
  {
    seq(|tokens|, i requires 0 <= i < |tokens| => ParseInt(tokens[i]))
  }

  /**
   * The manual pick over the parsed tokens: each number n with 1 <= n <=
   * |group| (`0 <= int(token) - 1 < len(photo_group)`) takes the n-th photo.
   * None when a token is not an integer: the ValueError throws away the
   * whole pick.
   */
  function PickNumbers(group: seq<string>, ns: seq<Option<int>>): (r: Option<seq<string>>)
    ensures r.Some? ==> |r.value| <= |ns| && forall i :: 0 <= i < |r.value| ==> r.value[i] in group
  {
    if ns == [] then Some([])
    else
      match ns[0]
      case None => None
      case Some(n) =>
        match PickNumbers(group, ns[1..])
        case None => None
        case Some(rest) => Some((if 1 <= n <= |group| then [group[n - 1]] else []) + rest)
  }

  function PickIndices(group: seq<string>, tokens: seq<string>): (r: Option<seq<string>>)
    ensures r.Some? ==> |r.value| <= |tokens| && forall i :: 0 <= i < |r.value| ==> r.value[i] in group
  {
    PickNumbers(group, ParseAll(tokens))
  }

  /** The pick is thrown away exactly when some token is not an integer. */
  lemma {:induction false} PickNone(group: seq<string>, ns: seq<Option<int>>)
    ensures PickNumbers(group, ns).None? <==> exists i :: 0 <= i < |ns| && ns[i].None?
  {
    if ns != [] {
      PickNone(group, ns[1..]);
      if PickNumbers(group, ns[1..]).None? {
        var j :| 0 <= j < |ns[1..]| && ns[1..][j].None?;
        assert ns[j + 1] == ns[1..][j];
      }
      if exists i :: 0 <= i < |ns| && ns[i].None? {
        var i :| 0 <= i < |ns| && ns[i].None?;
        if i > 0 { assert ns[1..][i - 1] == ns[i]; }
      }
    }
  }

  /** The tokens of the answer to "Photo numbers:", at most the first four. */
  function SelectionTokens(line: string): (tokens: seq<string>)
    ensures |tokens| <= 4
  {
    Take(Split(Strip(line, IsSpace)), 4)
  }

  /** The photos that go with the item: the recommendation, unless the
      operator declined it and gave a pick made only of integers. */
  function SelectPhotos(group: seq<string>, score: string -> int, useRecommended: string, line: string): (r: seq<string>)
    ensures |r| <= 4
    ensures forall i :: 0 <= i < |r| ==> r[i] in group
    ensures !IsNo(useRecommended) ==> r == Recommended(group, score)
    ensures var tokens := SelectionTokens(line);
            IsNo(useRecommended) && (exists i :: 0 <= i < |tokens| && ParseInt(tokens[i]).None?) ==>
              r == Recommended(group, score)
    ensures var tokens := SelectionTokens(line);
            IsNo(useRecommended) && (forall i :: 0 <= i < |tokens| ==> ParseInt(tokens[i]).Some?) ==>
              PickIndices(group, tokens).Some? && r == PickIndices(group, tokens).value
  {
    var recommended := Recommended(group, score);
    var tokens := SelectionTokens(line);
    PickNone(group, ParseAll(tokens));
    assert forall i :: 0 <= i < |recommended| ==> recommended[i] in group by {
      forall i | 0 <= i < |recommended| ensures recommended[i] in group {
        assert recommended[i] in multiset(recommended);
      }
    }
    if IsNo(useRecommended) then
      match PickIndices(group, tokens)
      case None => recommended
      case Some(picked) => picked
    else recommended
  }

  /** A pick of numbers in range takes the photos they number, in the order entered. */
  lemma {:induction false} PickInOrder(group: seq<string>, ns: seq<Option<int>>)
    requires forall i :: 0 <= i < |ns| ==> ns[i].Some? && 1 <= ns[i].value <= |group|
    ensures PickNumbers(group, ns).Some?
    ensures |PickNumbers(group, ns).value| == |ns|
    ensures forall i :: 0 <= i < |ns| ==> PickNumbers(group, ns).value[i] == group[ns[i].value - 1]
  {
    if ns != [] {
      var n1 := ns[1..];
      assert forall i :: 0 <= i < |n1| ==> n1[i] == ns[i + 1];
      PickInOrder(group, n1);
      var rest := PickNumbers(group, n1).value;
      var r := [group[ns[0].value - 1]] + rest;
      assert PickNumbers(group, ns).value == r;
      forall i | 0 <= i < |ns| ensures r[i] == group[ns[i].value - 1] {
        if i > 0 { assert r[i] == rest[i - 1] && ns[i] == n1[i - 1]; }
      }
    }
  }

  /** The same photo can be picked twice: "1 1" picks the first photo two times. */
  lemma PickTwice(a: string, b: string)
    ensures PickIndices([a, b], ["1", "1"]) == Some([a, a])
  {
    assert ParseInt("1") == Some(1) by {
      ParseDigits("1");
      assert DigitsValue("1") == 1 by { assert "1"[..0] == ""; }
    }
    var ns := ParseAll(["1", "1"]);
    assert ns == [Some(1), Some(1)];
    PickInOrder([a, b], ns);
    var picked := PickNumbers([a, b], ns).value;
    assert picked[0] == a && picked[1] == a;
    assert picked == [a, a];
  }
}
