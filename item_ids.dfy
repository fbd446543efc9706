/**
 * Item identifiers: "DP" followed by a zero-padded number. A new identifier
 * is derived from the ledger by scanning every Item_ID that starts with "DP",
 * parsing the rest as an integer and taking the largest.
 */
module ItemIds {
  import opened Outcomes
  import opened Text
  import opened Ledger

  /** `int(item_id[2:])` for an Item_ID starting with "DP"; None when it does not
      start with "DP" or when int() raises ValueError. */
  function DpNumber(id: string): (r: Option<int>)
    ensures r.Some? ==> |id| > 2 && id[..2] == "DP"
    ensures |id| > 2 && id[..2] == "DP" && AllDigits(id[2..]) ==> r == Some(DigitsValue(id[2..]))
  {
    if |id| >= 2 && id[..2] == "DP" then
      if |id| > 2 && AllDigits(id[2..]) then ParseDigits(id[2..]); ParseInt(id[2..])
      else ParseInt(id[2..])
    else None
  }

  /** `f"DP{n:03d}"` */
  function FormatId(n: nat): (r: string)
    ensures |r| >= 5 && r[..2] == "DP" && AllDigits(r[2..])
  {
    "DP" + Pad3(n)
  }

  /** An identifier made from n is read back as n. */
  lemma FormatIdRoundTrip(n: nat)
    ensures DpNumber(FormatId(n)) == Some(n)
  {
    var s := FormatId(n);
    assert s[..2] == "DP" && s[2..] == Pad3(n);
    ParsePad3(n);
  }

  /** Distinct numbers give distinct identifiers. */
  lemma FormatIdInjective(m: nat, n: nat)
    requires FormatId(m) == FormatId(n)
    ensures m == n
  {
    FormatIdRoundTrip(m);
    FormatIdRoundTrip(n);
  }

  /** The DP number of a row's Item_ID, if it has one. */
  function RowNumber(row: Row): Option<int>
  {
    if "Item_ID" in row then DpNumber(row["Item_ID"]) else None
  }

  predicate AllHaveIds(rows: seq<Row>) { forall i :: 0 <= i < |rows| ==> "Item_ID" in rows[i] }

  /** Every DP number in the rows is below n. */
  predicate Exceeds(rows: seq<Row>, n: int)
  {
    forall i :: 0 <= i < |rows| && RowNumber(rows[i]).Some? ==> RowNumber(rows[i]).value < n
  }

  /** One step of the scan: the maximum so far, raised to the row's DP number if it has one. */
  function Step(acc: int, row: Row): (r: int)
    ensures acc <= r
    ensures RowNumber(row).Some? ==> RowNumber(row).value <= r
    ensures r == acc || RowNumber(row) == Some(r)
  {
    match RowNumber(row)
    case None => acc
    case Some(k) => Max(acc, k)
  }

  /**
   * The running maximum of the scan loop, started at acc. A row without an
   * Item_ID column raises KeyError; the surrounding `try` ends the scan and
   * keeps the maximum found so far.
   */
  function ScanMax(rows: seq<Row>, acc: int): (r: int)
    ensures acc <= r
  {
    if rows == [] || "Item_ID" !in rows[0] then acc
    else ScanMax(rows[1..], Step(acc, rows[0]))
  }

  /** Every DP number the scan reads is bounded by its result. */
  lemma {:induction false} ScanMaxBounds(rows: seq<Row>, acc: int)
    requires AllHaveIds(rows)
    ensures Exceeds(rows, ScanMax(rows, acc) + 1)
  {
    if rows != [] {
      assert AllHaveIds(rows[1..]);
      ScanMaxBounds(rows[1..], Step(acc, rows[0]));
      forall i | 0 <= i < |rows| && RowNumber(rows[i]).Some?
        ensures RowNumber(rows[i]).value < ScanMax(rows, acc) + 1
      {
        if i > 0 { assert rows[1..][i - 1] == rows[i]; }
      }
    }
  }

  /** The scan's result is its start or the DP number of one of the rows:
      with the bound above, it is exactly the maximum. */
  lemma {:induction false} ScanMaxAttained(rows: seq<Row>, acc: int)
    ensures ScanMax(rows, acc) == acc ||
            exists i :: 0 <= i < |rows| && RowNumber(rows[i]) == Some(ScanMax(rows, acc))
  {
    if rows != [] && "Item_ID" in rows[0] {
      var next := Step(acc, rows[0]);
      ScanMaxAttained(rows[1..], next);
      if ScanMax(rows, acc) != acc && ScanMax(rows, acc) != next {
        var i :| 0 <= i < |rows[1..]| && RowNumber(rows[1..][i]) == Some(ScanMax(rows, acc));
        assert rows[1..][i] == rows[i + 1];
      }
    }
  }

  /** Starting the scan higher: ScanMax(rows, max(a, b)) = max(a, ScanMax(rows, b)). */
  lemma {:induction false} ScanMaxShift(rows: seq<Row>, a: int, b: int)
    requires AllHaveIds(rows)
    ensures ScanMax(rows, Max(a, b)) == Max(a, ScanMax(rows, b))
  {
    if rows != [] {
      assert AllHaveIds(rows[1..]);
      match RowNumber(rows[0])
      case None => ScanMaxShift(rows[1..], a, b);
      case Some(k) =>
        assert Max(Max(a, b), k) == Max(a, Max(b, k));
        ScanMaxShift(rows[1..], a, Max(b, k));
    }
  }

  /** Scanning a concatenation scans the second part from where the first ended. */
  lemma {:induction false} ScanMaxConcat(xs: seq<Row>, ys: seq<Row>, acc: int)
    requires AllHaveIds(xs)
    ensures ScanMax(xs + ys, acc) == ScanMax(ys, ScanMax(xs, acc))
  {
    if xs == [] {
      assert xs + ys == ys;
    } else {
      assert (xs + ys)[0] == xs[0] && (xs + ys)[1..] == xs[1..] + ys;
      assert AllHaveIds(xs[1..]);
      ScanMaxConcat(xs[1..], ys, Step(acc, xs[0]));
    }
  }

  /** The number the web server allocates: one more than the largest DP number, and at least 4. */
  function ServerNext(rows: seq<Row>): nat
  {
    ScanMax(rows, 3) + 1
  }

  /** The number the command-line scripts allocate: one more than the largest DP number, and at least 1. */
  function CliNext(rows: seq<Row>): nat
  {
    ScanMax(rows, 0) + 1
  }

  /**
   * `get_next_item_id` of the web server: "DP004" without a ledger, otherwise
   * "DP" + the zero-padded successor of max(3, every DP number it scans).
   */
  method NextItemId(ledger: LedgerFile) returns (id: string)
    ensures ledger.Absent? ==> id == "DP004"
    ensures ledger.Present? ==> id == FormatId(ServerNext(RowsOf(ledger)))
    ensures DpNumber(id).Some? && DpNumber(id).value >= 4
    ensures AllHaveIds(RowsOf(ledger)) ==> Exceeds(RowsOf(ledger), DpNumber(id).value)
  {
    if ledger.Absent? {
      FirstServerId();
      return "DP004";
    }
    id := NextIdFromRows(RowsOf(ledger));
  }

  /** `get_next_item_id` once the ledger is read: "DP" + the zero-padded
      successor of max(3, every DP number it scans). */
  method NextIdFromRows(rows: seq<Row>) returns (id: string)
    ensures id == FormatId(ServerNext(rows))
    ensures DpNumber(id) == Some(ServerNext(rows)) && ServerNext(rows) >= 4
    ensures AllHaveIds(rows) ==> Exceeds(rows, ServerNext(rows))
  {
    var maxId := ScanIds(rows, 3);
    if AllHaveIds(rows) {
      ScanMaxBounds(rows, 3);
    }
    FormatIdRoundTrip(maxId + 1);
    id := FormatId(maxId + 1);
  }

  /**
   * `_get_next_item_id` of the command-line scripts: 1 without a ledger,
   * otherwise 1 + max(0, every DP number it scans).
   */
  method NextItemNumber(ledger: LedgerFile) returns (n: nat)
    ensures ledger.Absent? ==> n == 1
    ensures ledger.Present? ==> n == CliNext(RowsOf(ledger))
    ensures n >= 1
    ensures AllHaveIds(RowsOf(ledger)) ==> Exceeds(RowsOf(ledger), n)
  {
    if ledger.Absent? {
      return 1;
    }
    var rows := RowsOf(ledger);
    var maxId := ScanIds(rows, 0);
    if AllHaveIds(rows) {
      ScanMaxBounds(rows, 0);
    }
    n := maxId + 1;
  }

  /** The web server's first identifier, DP004, has DP number 4. */
  lemma FirstServerId()
    ensures FormatId(4) == "DP004" && DpNumber("DP004") == Some(4)
  {
    assert Pad3(4) == "004";
    assert FormatId(4) == "DP004";
    FormatIdRoundTrip(4);
  }

  /**
   * The scanning loop both allocators share: `max_id` starts at `start` and
   * takes the maximum with each DP number read, until the rows end or a row
   * without Item_ID raises the KeyError that ends the scan.
   */
  method ScanIds(rows: seq<Row>, start: nat) returns (maxId: nat)
    ensures maxId == ScanMax(rows, start)
  {
    maxId := start;
    var i := 0;
    while i < |rows|
      invariant 0 <= i <= |rows|
      invariant start <= maxId
      invariant ScanMax(rows[i..], maxId) == ScanMax(rows, start)
    {
      if "Item_ID" !in rows[i] {
        break;
      }
      assert rows[i..][1..] == rows[i + 1..];
      var n := DpNumber(rows[i]["Item_ID"]);
      if n.Some? {
        maxId := Max(maxId, n.value);
      }
      i := i + 1;
    }
  }

  /** Identifiers issued from a counter that only goes up strictly increase
      in their DP numbers, so none is issued twice. */
  lemma IssuedIdsIncrease(m: nat, n: nat)
    requires m < n
    ensures DpNumber(FormatId(m)).Some? && DpNumber(FormatId(n)).Some?
    ensures DpNumber(FormatId(m)).value < DpNumber(FormatId(n)).value
    ensures FormatId(m) != FormatId(n)
  {
    FormatIdRoundTrip(m);
    FormatIdRoundTrip(n);
  }

  /** A row carrying the identifier made from n has DP number n. */
  lemma RowNumberOfFormatted(row: Row, n: nat)
    requires "Item_ID" in row && row["Item_ID"] == FormatId(n)
    ensures RowNumber(row) == Some(n)
  {
    FormatIdRoundTrip(n);
  }

  /** Appending a row that carries the allocated identifier raises the next
      allocation by exactly one, so identifiers issued one after another
      strictly increase. */
  lemma NextAfterAppend(rows: seq<Row>, floor: nat, row: Row)
    requires AllHaveIds(rows)
    requires "Item_ID" in row && row["Item_ID"] == FormatId(ScanMax(rows, floor) + 1)
    ensures ScanMax(rows + [row], floor) == ScanMax(rows, floor) + 1
  {
    var m := ScanMax(rows, floor);
    ScanMaxConcat(rows, [row], floor);
    RowNumberOfFormatted(row, m + 1);
    assert Step(m, row) == m + 1;
    assert ScanMax([row], m) == ScanMax([], m + 1);
  }

  /** Removing a row whose number is not the maximum (or that has none)
      leaves the next allocation unchanged. */
  lemma RemoveBelowMax(rows: seq<Row>, k: nat, floor: int)
    requires AllHaveIds(rows) && k < |rows|
    requires RowNumber(rows[k]).None? || RowNumber(rows[k]).value < ScanMax(rows, floor)
    ensures ScanMax(rows[..k] + rows[k + 1..], floor) == ScanMax(rows, floor)
  {
    var pre, post := rows[..k], rows[k + 1..];
    assert rows == pre + ([rows[k]] + post);
    assert AllHaveIds(pre) && AllHaveIds(post) && AllHaveIds([rows[k]]);
    ScanMaxConcat(pre, [rows[k]] + post, floor);
    ScanMaxConcat(pre, post, floor);
    var m := ScanMax(pre, floor);
    assert ([rows[k]] + post)[1..] == post;
    match RowNumber(rows[k])
    case None =>
    case Some(v) =>
      ScanMaxShift(post, v, m);
      assert Max(v, m) == Max(m, v);
  }
}
