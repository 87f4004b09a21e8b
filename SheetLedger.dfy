/** The "checkins" worksheet of the spreadsheet ledger (app.py): one row per
    (date, kid, goal), with every cell held as text the way the sheet stores
    it, the rules that decode those cells, the insert-or-update a check-in
    or an approval performs, and the two read-side queries. */
module SheetLedger {
  import opened Text
  import opened Options

  /** One row of the sheet, cell by cell, in header order
      date, kid_id, kid_name, goal_id, goal_title, points, child_checked,
      parent_approved, updated_at. */
  datatype CheckinRow = CheckinRow(
    date: string,
    kidId: string,
    kidName: string,
    goalId: string,
    goalTitle: string,
    points: string,
    childChecked: string,
    parentApproved: string,
    updatedAt: string)

  /** The upsert key, compared cell text against cell text. */
  datatype Key = Key(date: string, kidId: string, goalId: string)

  function KeyOf(r: CheckinRow): Key
  {
    Key(r.date, r.kidId, r.goalId)
  }

  // ---------------------------------------------------------------------
  // Cell decoding

  /** A flag cell is set iff its lower-cased text is "true", "1" or "yes". */
  predicate DecodeFlag(cell: string)
  {
    var t := Lower(cell);
    t == "true" || t == "1" || t == "yes"
  }

  /** The text `str(bool(v))` writes into a flag cell. */
  function FlagCell(b: bool): string
  {
    if b then "True" else "False"
  }

  /** A written flag reads back as the value written. */
  lemma FlagRoundTrip(b: bool)
    ensures DecodeFlag(FlagCell(b)) == b
  {
    assert Lower("True") == "true";
    assert Lower("False") == "false";
  }

  /** The points of a row, decoded as the loader coerces the column. */
  function Points(r: CheckinRow): int
  {
    ParseInt(r.points)
  }

  // ---------------------------------------------------------------------
  // Lookup

  /** The position of the first row with key `k`, if any. */
  function FirstMatch(rows: seq<CheckinRow>, k: Key): (hit: Option<nat>)
    ensures hit.Some? ==> hit.value < |rows| && KeyOf(rows[hit.value]) == k
    ensures hit.Some? ==> forall j :: 0 <= j < hit.value ==> KeyOf(rows[j]) != k
    ensures hit.None? <==> forall j :: 0 <= j < |rows| ==> KeyOf(rows[j]) != k
  {
    if rows == [] then None
    else if KeyOf(rows[0]) == k then Some(0)
    else match FirstMatch(rows[1..], k)
      case None => None
      case Some(j) => Some(j + 1)
  }

  /** The first row with the key is the one `FirstMatch` finds. */
  lemma FirstMatchAt(rows: seq<CheckinRow>, k: Key, i: nat)
    requires i < |rows| && KeyOf(rows[i]) == k
    requires forall j :: 0 <= j < i ==> KeyOf(rows[j]) != k
    ensures FirstMatch(rows, k) == Some(i)
  {
  }

  // ---------------------------------------------------------------------
  // Upsert

  /** The row appended on a miss. An unset flag is written as False. */
  function NewRow(k: Key, kidName: string, goalTitle: string,
                  setChild: Option<bool>, setParent: Option<bool>,
                  points: int, now: string): CheckinRow
  {
    CheckinRow(k.date, k.kidId, kidName, k.goalId, goalTitle, IntText(points),
               FlagCell(setChild.GetOr(false)), FlagCell(setParent.GetOr(false)), now)
  }

  /** The row a hit leaves behind: only the given flags and the timestamp
      are rewritten. */
  function UpdatedRow(r: CheckinRow, setChild: Option<bool>, setParent: Option<bool>,
                      now: string): CheckinRow
  {
    r.(childChecked := if setChild.Some? then FlagCell(setChild.value) else r.childChecked,
       parentApproved := if setParent.Some? then FlagCell(setParent.value) else r.parentApproved,
       updatedAt := now)
  }

  /** The sheet after one upsert. */
  function Upserted(rows: seq<CheckinRow>, k: Key, kidName: string, goalTitle: string,
                    setChild: Option<bool>, setParent: Option<bool>,
                    points: int, now: string): seq<CheckinRow>
  {
    match FirstMatch(rows, k)
    case None => rows + [NewRow(k, kidName, goalTitle, setChild, setParent, points, now)]
    case Some(i) => rows[i := UpdatedRow(rows[i], setChild, setParent, now)]
  }

  /** The worksheet, whose rows the upsert rewrites cell by cell. */
  class CheckinSheet {
    var rows: seq<CheckinRow>

    constructor (initial: seq<CheckinRow>)
      ensures rows == initial
    {
      rows := initial;
    }

    /** `upsert_checkin`: `date` is `str(the_date)`, `now` the timestamp the
        caller read from the clock. */
    method Upsert(date: string, kidId: string, kidName: string, goalId: string,
                  goalTitle: string, setChild: Option<bool>, setParent: Option<bool>,
                  points: int, now: string)
      modifies this
      ensures rows == Upserted(old(rows), Key(date, kidId, goalId), kidName, goalTitle,
                               setChild, setParent, points, now)
    {
      var k := Key(date, kidId, goalId);
      var hit := FirstMatch(rows, k);
      if hit.None? {
        rows := rows + [NewRow(k, kidName, goalTitle, setChild, setParent, points, now)];
      } else {
        var i := hit.value;
        if setChild.Some? {
          rows := rows[i := rows[i].(childChecked := FlagCell(setChild.value))];
        }
        if setParent.Some? {
          rows := rows[i := rows[i].(parentApproved := FlagCell(setParent.value))];
        }
        rows := rows[i := rows[i].(updatedAt := now)];
      }
    }
  }

  /** On a miss, exactly one row is appended, carrying the key, the names,
      `int(points)`, each flag as given (False when not given) and `now`. */
  lemma UpsertMiss(rows: seq<CheckinRow>, k: Key, kidName: string, goalTitle: string,
                   setChild: Option<bool>, setParent: Option<bool>, points: int, now: string)
    requires forall j :: 0 <= j < |rows| ==> KeyOf(rows[j]) != k
    ensures var r := Upserted(rows, k, kidName, goalTitle, setChild, setParent, points, now);
      && |r| == |rows| + 1
      && r[..|rows|] == rows
      && KeyOf(r[|rows|]) == k
      && r[|rows|].kidName == kidName && r[|rows|].goalTitle == goalTitle
      && Points(r[|rows|]) == points
      && DecodeFlag(r[|rows|].childChecked) == (setChild == Some(true))
      && DecodeFlag(r[|rows|].parentApproved) == (setParent == Some(true))
      && r[|rows|].updatedAt == now
  {
    IntTextRoundTrip(points);
    FlagRoundTrip(setChild.GetOr(false));
    FlagRoundTrip(setParent.GetOr(false));
  }

  /** On a hit, only the first matching row changes; the row count, the
      other rows and the key, name, title and points cells stay; a flag is
      rewritten only when given, and the timestamp always. */
  lemma UpsertHit(rows: seq<CheckinRow>, k: Key, kidName: string, goalTitle: string,
                  setChild: Option<bool>, setParent: Option<bool>, points: int, now: string,
                  i: nat)
    requires i < |rows| && KeyOf(rows[i]) == k
    requires forall j :: 0 <= j < i ==> KeyOf(rows[j]) != k
    ensures var r := Upserted(rows, k, kidName, goalTitle, setChild, setParent, points, now);
      && |r| == |rows|
      && (forall j :: 0 <= j < |rows| && j != i ==> r[j] == rows[j])
      && KeyOf(r[i]) == k
      && r[i].kidName == rows[i].kidName && r[i].goalTitle == rows[i].goalTitle
      && r[i].points == rows[i].points
      && DecodeFlag(r[i].childChecked)
           == (if setChild.Some? then setChild.value else DecodeFlag(rows[i].childChecked))
      && DecodeFlag(r[i].parentApproved)
           == (if setParent.Some? then setParent.value else DecodeFlag(rows[i].parentApproved))
      && r[i].updatedAt == now
  {
    assert FirstMatch(rows, k) == Some(i);
    if setChild.Some? { FlagRoundTrip(setChild.value); }
    if setParent.Some? { FlagRoundTrip(setParent.value); }
  }

  // ---------------------------------------------------------------------
  // Queries

  /** `today_check_state`: the decoded flags of the first row for today's
      key, or (False, False) when there is none. */
  function TodayCheckState(rows: seq<CheckinRow>, today: string, kidId: string,
                           goalId: string): (state: (bool, bool))
    ensures (forall j :: 0 <= j < |rows| ==> KeyOf(rows[j]) != Key(today, kidId, goalId))
            ==> state == (false, false)
    ensures forall i :: 0 <= i < |rows| && KeyOf(rows[i]) == Key(today, kidId, goalId)
                        && (forall j :: 0 <= j < i ==> KeyOf(rows[j]) != Key(today, kidId, goalId))
                        ==> state == (DecodeFlag(rows[i].childChecked), DecodeFlag(rows[i].parentApproved))
  {
    match FirstMatch(rows, Key(today, kidId, goalId))
    case None => (false, false)
    case Some(i) => (DecodeFlag(rows[i].childChecked), DecodeFlag(rows[i].parentApproved))
  }

  /** Whether a row counts toward `kidId`'s total for `month`. */
  predicate CountsFor(r: CheckinRow, kidId: string, month: string)
  {
    r.kidId == kidId && StartsWith(r.date, month)
    && DecodeFlag(r.childChecked) && DecodeFlag(r.parentApproved)
  }

  function Contribution(r: CheckinRow, kidId: string, month: string): int
  {
    if CountsFor(r, kidId, month) then Points(r) else 0
  }

  /** `monthly_total`: the points of the kid's rows in that month that are
      both self-checked and approved; 0 for an empty sheet. */
  function MonthlyTotal(rows: seq<CheckinRow>, kidId: string, month: string): int
  {
    if rows == [] then 0
    else MonthlyTotal(rows[..|rows| - 1], kidId, month) + Contribution(rows[|rows| - 1], kidId, month)
  }

  /** A kid with no row that counts in the month has a total of 0. */
  lemma {:induction false} MonthlyTotalZero(rows: seq<CheckinRow>, kidId: string, month: string)
    requires forall i :: 0 <= i < |rows| ==> !CountsFor(rows[i], kidId, month)
    ensures MonthlyTotal(rows, kidId, month) == 0
  {
    if rows != [] {
      MonthlyTotalZero(rows[..|rows| - 1], kidId, month);
    }
  }

  /** Reading the state back after an upsert gives the flags just written,
      and the previous ones where nothing was given. */
  lemma UpsertReadBack(rows: seq<CheckinRow>, k: Key, kidName: string, goalTitle: string,
                       setChild: Option<bool>, setParent: Option<bool>, points: int, now: string)
    ensures var before := TodayCheckState(rows, k.date, k.kidId, k.goalId);
            var after := TodayCheckState(Upserted(rows, k, kidName, goalTitle, setChild,
                                                  setParent, points, now),
                                         k.date, k.kidId, k.goalId);
            after == (setChild.GetOr(before.0), setParent.GetOr(before.1))
  {
    var r := Upserted(rows, k, kidName, goalTitle, setChild, setParent, points, now);
    assert k == Key(k.date, k.kidId, k.goalId);
    FlagRoundTrip(setChild.GetOr(false));
    FlagRoundTrip(setParent.GetOr(false));
    match FirstMatch(rows, k)
    case None =>
      assert r[|rows|] == NewRow(k, kidName, goalTitle, setChild, setParent, points, now);
      assert forall j :: 0 <= j < |rows| ==> r[j] == rows[j];
      FirstMatchAt(r, k, |rows|);
    case Some(i) =>
      if setChild.Some? { FlagRoundTrip(setChild.value); }
      if setParent.Some? { FlagRoundTrip(setParent.value); }
      assert KeyOf(r[i]) == k;
      assert forall j :: 0 <= j < i ==> r[j] == rows[j];
      FirstMatchAt(r, k, i);
  }

  /** An upsert leaves the state of every other key as it was. */
  lemma UpsertOtherKeys(rows: seq<CheckinRow>, k: Key, kidName: string, goalTitle: string,
                        setChild: Option<bool>, setParent: Option<bool>, points: int,
                        now: string, other: Key)
    requires other != k
    ensures TodayCheckState(Upserted(rows, k, kidName, goalTitle, setChild, setParent,
                                     points, now), other.date, other.kidId, other.goalId)
         == TodayCheckState(rows, other.date, other.kidId, other.goalId)
  {
    var r := Upserted(rows, k, kidName, goalTitle, setChild, setParent, points, now);
    assert other == Key(other.date, other.kidId, other.goalId);
    assert SameKeysUpTo: |r| >= |rows| && forall j :: 0 <= j < |rows| ==> KeyOf(r[j]) == KeyOf(rows[j]) by {
      UpsertKeepsKeys(rows, k, kidName, goalTitle, setChild, setParent, points, now);
    }
    assert |r| > |rows| ==> KeyOf(r[|rows|]) == k;
    match FirstMatch(rows, other)
    case None =>
      assert forall j :: 0 <= j < |r| ==> KeyOf(r[j]) != other;
    case Some(i) =>
      assert r[i] == rows[i];
      FirstMatchAt(r, other, i);
  }

  /** An upsert never rewrites a key cell, and writes only the matching row. */
  lemma UpsertKeepsKeys(rows: seq<CheckinRow>, k: Key, kidName: string, goalTitle: string,
                        setChild: Option<bool>, setParent: Option<bool>, points: int,
                        now: string)
    ensures var r := Upserted(rows, k, kidName, goalTitle, setChild, setParent, points, now);
      && |r| >= |rows|
      && (forall j :: 0 <= j < |rows| ==> KeyOf(r[j]) == KeyOf(rows[j]))
      && (forall j :: 0 <= j < |rows| && KeyOf(rows[j]) != k ==> r[j] == rows[j])
      && (|r| > |rows| ==> |r| == |rows| + 1 && KeyOf(r[|rows|]) == k)
  {
  }

  /** No key occurs on two rows. */
  ghost predicate KeysUnique(rows: seq<CheckinRow>)
  {
    forall i, j :: 0 <= i < j < |rows| ==> KeyOf(rows[i]) != KeyOf(rows[j])
  }

  /** A sheet written only through upserts never holds two rows with one key. */
  lemma UpsertKeepsKeysUnique(rows: seq<CheckinRow>, k: Key, kidName: string,
                              goalTitle: string, setChild: Option<bool>,
                              setParent: Option<bool>, points: int, now: string)
    requires KeysUnique(rows)
    ensures KeysUnique(Upserted(rows, k, kidName, goalTitle, setChild, setParent, points, now))
  {
    var r := Upserted(rows, k, kidName, goalTitle, setChild, setParent, points, now);
    assert forall j :: 0 <= j < |rows| ==> KeyOf(r[j]) == KeyOf(rows[j]);
  }

  /** Repeating an upsert with the same arguments changes nothing more. */
  lemma UpsertIdempotent(rows: seq<CheckinRow>, k: Key, kidName: string, goalTitle: string,
                         setChild: Option<bool>, setParent: Option<bool>, points: int,
                         now: string)
    ensures var once := Upserted(rows, k, kidName, goalTitle, setChild, setParent, points, now);
            Upserted(once, k, kidName, goalTitle, setChild, setParent, points, now) == once
  {
    var once := Upserted(rows, k, kidName, goalTitle, setChild, setParent, points, now);
    match FirstMatch(rows, k)
    case None =>
      assert forall j :: 0 <= j < |rows| ==> once[j] == rows[j];
      FirstMatchAt(once, k, |rows|);
      assert once[|rows| := UpdatedRow(once[|rows|], setChild, setParent, now)] == once;
    case Some(i) =>
      assert forall j :: 0 <= j < i ==> once[j] == rows[j];
      FirstMatchAt(once, k, i);
      assert once[i := UpdatedRow(once[i], setChild, setParent, now)] == once;
  }

  /** The monthly total of two stretches of rows is the sum of their totals. */
  lemma {:induction false} MonthlyTotalAppend(a: seq<CheckinRow>, b: seq<CheckinRow>,
                                              kidId: string, month: string)
    ensures MonthlyTotal(a + b, kidId, month)
         == MonthlyTotal(a, kidId, month) + MonthlyTotal(b, kidId, month)
  {
    if b == [] {
      assert a + b == a;
    } else {
      MonthlyTotalAppend(a, b[..|b| - 1], kidId, month);
      assert (a + b)[..|a + b| - 1] == a + b[..|b| - 1];
    }
  }

  /** Rewriting one row changes the total by the difference of that row's
      contributions. */
  lemma {:induction false} MonthlyTotalUpdate(rows: seq<CheckinRow>, i: nat, r: CheckinRow,
                                              kidId: string, month: string)
    requires i < |rows|
    ensures MonthlyTotal(rows[i := r], kidId, month)
         == MonthlyTotal(rows, kidId, month) - Contribution(rows[i], kidId, month)
            + Contribution(r, kidId, month)
  {
    var n := |rows| - 1;
    if i < n {
      MonthlyTotalUpdate(rows[..n], i, r, kidId, month);
      assert rows[i := r][..n] == rows[..n][i := r];
    } else {
      assert rows[i := r][..n] == rows[..n];
    }
  }

  /** Approving a self-checked, unapproved row of the kid in that month adds
      its points to the monthly total. */
  lemma ApprovalAddsPoints(rows: seq<CheckinRow>, k: Key, kidName: string, goalTitle: string,
                           points: int, now: string, month: string, i: nat)
    requires FirstMatch(rows, k) == Some(i)
    requires DecodeFlag(rows[i].childChecked) && !DecodeFlag(rows[i].parentApproved)
    requires StartsWith(k.date, month)
    ensures MonthlyTotal(Upserted(rows, k, kidName, goalTitle, None, Some(true), points, now),
                         k.kidId, month)
         == MonthlyTotal(rows, k.kidId, month) + Points(rows[i])
  {
    var r := UpdatedRow(rows[i], None, Some(true), now);
    FlagRoundTrip(true);
    MonthlyTotalUpdate(rows, i, r, k.kidId, month);
  }

  /** A first check-in by the child, not yet approved, leaves the monthly
      total where it was. */
  lemma NewCheckinKeepsTotal(rows: seq<CheckinRow>, k: Key, kidName: string, goalTitle: string,
                             setChild: Option<bool>, points: int, now: string,
                             kidId: string, month: string)
    requires FirstMatch(rows, k) == None
    ensures MonthlyTotal(Upserted(rows, k, kidName, goalTitle, setChild, None, points, now),
                         kidId, month)
         == MonthlyTotal(rows, kidId, month)
  {
    var row := NewRow(k, kidName, goalTitle, setChild, None, points, now);
    FlagRoundTrip(false);
    MonthlyTotalAppend(rows, [row], kidId, month);
    assert [row][..0] == [];
  }
}
