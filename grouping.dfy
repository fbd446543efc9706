/**
 * The interactive grouping loop of photo_grouper.py: photos leave the
 * remaining list one command at a time, into the current group or the
 * skipped pile, and finished groups are handed on to be saved as items.
 */
module Grouping {
  import opened Outcomes
  import opened Text
  import opened Placement
  import opened Selection

  /** The extensions `get_all_photos` accepts, compared lowercased. */
  predicate IsImage(name: string)
  {
    Lower(Suffix(name)) in {".jpg", ".jpeg", ".png", ".heic"}
  }

  function Images(listing: seq<string>): (r: seq<string>)
    ensures forall i :: 0 <= i < |r| ==> IsImage(r[i]) && r[i] in listing
    ensures forall i :: 0 <= i < |listing| && IsImage(listing[i]) ==> listing[i] in r
  {
    if listing == [] then []
    else (if IsImage(listing[0]) then [listing[0]] else []) + Images(listing[1..])
  }

  /** `get_all_photos`: the image files of the staging listing, sorted by name. */
  function AllPhotos(listing: seq<string>): (r: seq<string>)
    ensures SortedNames(r)
    ensures multiset(r) == multiset(Images(listing))
  {
    SortNamesSorted(Images(listing));
    SortNames(Images(listing))
  }

  /** The loop's state. `skipped` and `handed` are what left `remaining` by
      "skip" and by a finished group. */
  datatype GroupState = GroupState(remaining: seq<string>, group: seq<string>,
                                   skipped: seq<string>, handed: seq<seq<string>>)

  function Flatten(gs: seq<seq<string>>): seq<string>
  {
    if gs == [] then [] else gs[0] + Flatten(gs[1..])
  }

  lemma {:induction false} FlattenAppend(gs: seq<seq<string>>, g: seq<string>)
    ensures Flatten(gs + [g]) == Flatten(gs) + g
  {
    if gs == [] {
      assert [] + [g] == [g];
      assert Flatten([g]) == g + Flatten([]);
    } else {
      assert (gs + [g])[0] == gs[0] && (gs + [g])[1..] == gs[1..] + [g];
      FlattenAppend(gs[1..], g);
    }
  }

  /** Every photo the state accounts for, wherever it is. */
  function Held(st: GroupState): multiset<string>
  {
    multiset(st.remaining) + multiset(st.group) + multiset(st.skipped) + multiset(Flatten(st.handed))
  }

  function Start(photos: seq<string>): GroupState
  {
    GroupState(photos, [], [], [])
  }

  /** What the prompt's answer means: `input().strip().lower()`. */
  function Choice(answer: string): (c: string)
    ensures HasNoUpper(c) && |c| <= |answer|
  {
    Lower(Strip(answer, IsSpace))
  }

  /** `choice.isdigit()`, for ASCII digits. */
  predicate IsNumber(choice: string)
    ensures IsNumber(choice) ==> choice != "done" && choice != "restart" && choice != "skip" && choice != "quit"
  {
    if |choice| > 0 && AllDigits(choice) then
      assert IsDigit(choice[0]);
      true
    else false
  }

  /** The highest photo number the prompt accepts: min(10, |remaining|). */
  function Shown(remaining: seq<string>): (n: nat)
    ensures n <= 10 && n <= |remaining| && (n == 10 || n == |remaining|)
    ensures remaining != [] ==> n >= 1
  {
    Min(10, |remaining|)
  }

  /**
   * One command other than "quit", while photos remain: "done" hands on a
   * non-empty group, "restart" puts the group back and re-sorts, "skip" drops
   * the first photo, a number k in 1..min(10, |remaining|) moves the k-th
   * photo to the end of the group; anything else changes nothing.
   */
  function Step(st: GroupState, choice: string): (st': GroupState)
    requires st.remaining != []
    ensures st.skipped <= st'.skipped && |st'.skipped| <= |st.skipped| + 1
    ensures |st'.skipped| > |st.skipped| ==> st'.skipped[|st.skipped|] == st.remaining[0]
    ensures st.handed <= st'.handed && |st'.handed| <= |st.handed| + 1
    ensures |st'.handed| > |st.handed| ==> st.group != [] && st'.handed[|st.handed|] == st.group && st'.group == []
  {
    if choice == "done" then
      if st.group != [] then st.(group := [], handed := st.handed + [st.group]) else st
    else if choice == "restart" then
      st.(remaining := SortNames(st.remaining + st.group), group := [])
    else if choice == "skip" then
      st.(remaining := st.remaining[1..], skipped := st.skipped + [st.remaining[0]])
    else if IsNumber(choice) then
      var k := DigitsValue(choice);
      if 1 <= k <= Shown(st.remaining) then
        st.(remaining := st.remaining[..k - 1] + st.remaining[k..], group := st.group + [st.remaining[k - 1]])
      else st
    else st
  }

  /** No command loses or invents a photo. */
  lemma StepConserves(st: GroupState, choice: string)
    requires st.remaining != []
    ensures Held(Step(st, choice)) == Held(st)
  {
    var r := st.remaining;
    if choice == "done" {
      if st.group != [] { DoneConserves(st); }
    } else if choice == "restart" {
      RestartConserves(st);
    } else if choice == "skip" {
      SkipConserves(st);
    } else if IsNumber(choice) && 1 <= DigitsValue(choice) <= Shown(r) {
      var k := DigitsValue(choice);
      assert Step(st, choice) == st.(remaining := r[..k - 1] + r[k..], group := st.group + [r[k - 1]]);
      PickConserves(st, k);
    } else {
      assert Step(st, choice) == st;
    }
  }

  lemma DoneConserves(st: GroupState)
    ensures Held(st.(group := [], handed := st.handed + [st.group])) == Held(st)
  {
    FlattenAppend(st.handed, st.group);
  }

  lemma RestartConserves(st: GroupState)
    ensures Held(st.(remaining := SortNames(st.remaining + st.group), group := [])) == Held(st)
  {
  }

  lemma SkipConserves(st: GroupState)
    requires st.remaining != []
    ensures Held(st.(remaining := st.remaining[1..], skipped := st.skipped + [st.remaining[0]])) == Held(st)
  {
    assert st.remaining == [st.remaining[0]] + st.remaining[1..];
  }

  lemma PickConserves(st: GroupState, k: nat)
    requires 1 <= k <= |st.remaining|
    ensures var r := st.remaining;
            Held(st.(remaining := r[..k - 1] + r[k..], group := st.group + [r[k - 1]])) == Held(st)
  {
    var r := st.remaining;
    assert r == r[..k - 1] + [r[k - 1]] + r[k..];
  }

  /** "restart" leaves the group empty and the remaining photos in name order. */
  lemma RestartSorts(st: GroupState)
    requires st.remaining != []
    ensures Step(st, "restart").group == [] && SortedNames(Step(st, "restart").remaining)
    ensures multiset(Step(st, "restart").remaining) == multiset(st.remaining) + multiset(st.group)
  {
    SortNamesSorted(st.remaining + st.group);
  }

  /** A number out of range, or "done" with an empty group, changes nothing. */
  lemma NoOpChoices(st: GroupState, choice: string)
    requires st.remaining != []
    requires (IsNumber(choice) && !(1 <= DigitsValue(choice) <= Shown(st.remaining))) ||
             (choice == "done" && st.group == [])
    ensures Step(st, choice) == st
  {
  }

  /** How the loop ends: without photos at all, with every photo dealt with,
      by "quit", or by running out of input (EOFError). */
  datatype Ending = NoPhotos | Finished | Quit | InputExhausted

  /** The loop, command by command. */
  function Run(st: GroupState, answers: seq<string>): (r: (Ending, GroupState))
    ensures r.0 == Finished ==> r.1.remaining == []
    ensures r.0 != NoPhotos
    decreases |answers|
  {
    if st.remaining == [] then (Finished, st)
    else if answers == [] then (InputExhausted, st)
    else if Choice(answers[0]) == "quit" then (Quit, st)
    else Run(Step(st, Choice(answers[0])), answers[1..])
  }

  /** The loop keeps every photo accounted for. */
  lemma {:induction false} RunConserves(st: GroupState, answers: seq<string>)
    ensures Held(Run(st, answers).1) == Held(st)
    decreases |answers|
  {
    if st.remaining != [] && answers != [] && Choice(answers[0]) != "quit" {
      StepConserves(st, Choice(answers[0]));
      RunConserves(Step(st, Choice(answers[0])), answers[1..]);
    }
  }

  /** The groups handed to `process_photo_group`, the last one included when
      the loop ran out of photos with a group still open. */
  function FinalHanded(end: Ending, st: GroupState): (gs: seq<seq<string>>)
    ensures st.handed <= gs && |gs| <= |st.handed| + 1
    ensures |gs| > |st.handed| <==> end == Finished && st.group != []
    ensures |gs| > |st.handed| ==> gs[|st.handed|] == st.group
  {
    if end == Finished && st.group != [] then st.handed + [st.group] else st.handed
  }

  /** After the loop finishes, every photo was either skipped or handed on in a group. */
  lemma FinishedAccountsForAll(photos: seq<string>, answers: seq<string>)
    requires Run(Start(photos), answers).0 == Finished
    ensures var st := Run(Start(photos), answers).1;
            multiset(st.skipped) + multiset(Flatten(FinalHanded(Finished, st))) == multiset(photos)
  {
    var st := Run(Start(photos), answers).1;
    RunConserves(Start(photos), answers);
    assert Held(Start(photos)) == multiset(photos);
    if st.group != [] {
      FlattenAppend(st.handed, st.group);
    }
  }

  /**
   * `group_photos_interactively`, with the groups it hands to
   * `process_photo_group` returned in order (`handed`) rather than processed
   * in place; `answers` are the successive answers to the prompt.
   */
  method GroupPhotosInteractively(listing: seq<string>, answers: seq<string>)
    returns (end: Ending, handed: seq<seq<string>>)
    ensures AllPhotos(listing) == [] ==> end == NoPhotos && handed == []
    ensures AllPhotos(listing) != [] ==>
              var r := Run(Start(AllPhotos(listing)), answers);
              end == r.0 && handed == FinalHanded(r.0, r.1)
  {
    var photos := AllPhotos(listing);
    if photos == [] {
      return NoPhotos, [];
    }
    var remaining := photos;
    var current: seq<string> := [];
    ghost var skipped: seq<string> := [];
    handed := [];
    var i := 0;
    while remaining != []
      invariant 0 <= i <= |answers|
      invariant Run(GroupState(remaining, current, skipped, handed), answers[i..]) == Run(Start(photos), answers)
      decreases |answers| - i
    {
      if i == |answers| {
        return InputExhausted, handed;
      }
      var choice := Choice(answers[i]);
      if choice == "quit" {
        return Quit, handed;
      }
      assert answers[i..][1..] == answers[i + 1..];
      remaining, current, skipped, handed := ApplyChoice(remaining, current, skipped, handed, choice);
      i := i + 1;
    }
    end := Finished;
    if current != [] {
      handed := handed + [current];
    }
  }

  /** One round of the loop body for a choice other than "quit": the list
      operations (`pop`, `append`, `extend`, `sort`) the choice performs. This
      is the imperative form of `Step`, which specifies it; the conservation
      lemmas are stated once, about `Step`. */
  method ApplyChoice(remaining: seq<string>, current: seq<string>, ghost skipped: seq<string>,
                     handed: seq<seq<string>>, choice: string)
    returns (remaining': seq<string>, current': seq<string>, ghost skipped': seq<string>, handed': seq<seq<string>>)
    requires remaining != []
    ensures GroupState(remaining', current', skipped', handed') ==
            Step(GroupState(remaining, current, skipped, handed), choice)
  {
    remaining', current', skipped', handed' := remaining, current, skipped, handed;
    if choice == "done" {
      if current != [] {
        handed' := handed + [current];
        current' := [];
      }
    } else if choice == "restart" {
      remaining' := SortNames(remaining + current);
      current' := [];
    } else if choice == "skip" {
      skipped' := skipped + [remaining[0]];
      remaining' := remaining[1..];
    } else if IsNumber(choice) {
      var k := DigitsValue(choice);
      if 1 <= k <= Min(10, |remaining|) {
        var photo := remaining[k - 1];
        remaining' := remaining[..k - 1] + remaining[k..];
        current' := current + [photo];
      }
    }
  }
}
