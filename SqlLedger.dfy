/** The relational ledger (app_old.py): the kids, goals and checkins tables
    with their keys and constraints, the daily fill of the checkins table,
    and the single-row updates the screens issue. */
module SqlLedger {

  datatype Kid = Kid(id: int, name: string, grade: string, active: int)

  datatype Goal = Goal(id: int, title: string, basePoints: int, category: string, active: int)

  datatype Checkin = Checkin(id: int, d: string, kidId: int, goalId: int,
                             selfChecked: int, parentApproved: int)

  /** The UNIQUE(d, kid_id, goal_id) key of a check-in. */
  datatype Key = Key(d: string, kidId: int, goalId: int)

  function KeyOf(c: Checkin): Key
  {
    Key(c.d, c.kidId, c.goalId)
  }

  /** The rows of the checkins table and the next AUTOINCREMENT id. */
  datatype CheckinTable = CheckinTable(rows: seq<Checkin>, nextId: int)

  /** `1 if value else 0` */
  function Bit(b: bool): int
  {
    if b then 1 else 0
  }

  // ---------------------------------------------------------------------
  // Table constraints

  ghost predicate KeysUnique(rows: seq<Checkin>)
  {
    forall i, j :: 0 <= i < j < |rows| ==> KeyOf(rows[i]) != KeyOf(rows[j])
  }

  ghost predicate IdsUnique(rows: seq<Checkin>)
  {
    forall i, j :: 0 <= i < j < |rows| ==> rows[i].id != rows[j].id
  }

  /** The checkins table obeys its PRIMARY KEY, its UNIQUE constraint, and
      every id is below the next one AUTOINCREMENT hands out. */
  ghost predicate TableValid(t: CheckinTable)
  {
    && KeysUnique(t.rows)
    && IdsUnique(t.rows)
    && forall i :: 0 <= i < |t.rows| ==> t.rows[i].id < t.nextId
  }

  predicate HasKey(rows: seq<Checkin>, k: Key)
  {
    exists i :: 0 <= i < |rows| && KeyOf(rows[i]) == k
  }

  // ---------------------------------------------------------------------
  // ensure_today_checkins

  /** `SELECT id FROM kids WHERE active=1` */
  function ActiveKidIds(kids: seq<Kid>): (ids: seq<int>)
    ensures forall x :: x in ids <==> exists k :: k in kids && k.active == 1 && k.id == x
  {
    if kids == [] then []
    else (if kids[0].active == 1 then [kids[0].id] else []) + ActiveKidIds(kids[1..])
  }

  /** `SELECT id FROM goals WHERE active=1` */
  function ActiveGoalIds(goals: seq<Goal>): (ids: seq<int>)
    ensures forall x :: x in ids <==> exists g :: g in goals && g.active == 1 && g.id == x
  {
    if goals == [] then []
    else (if goals[0].active == 1 then [goals[0].id] else []) + ActiveGoalIds(goals[1..])
  }

  /** `INSERT OR IGNORE` of a fresh, unchecked, unapproved check-in. */
  function InsertOrIgnore(t: CheckinTable, d: string, kidId: int, goalId: int): CheckinTable
  {
    if HasKey(t.rows, Key(d, kidId, goalId)) then t
    else CheckinTable(t.rows + [Checkin(t.nextId, d, kidId, goalId, 0, 0)], t.nextId + 1)
  }

  /** The inner loop: one kid against the goals in order. */
  function FillGoals(t: CheckinTable, d: string, kidId: int, goalIds: seq<int>): CheckinTable
  {
    if goalIds == [] then t
    else InsertOrIgnore(FillGoals(t, d, kidId, goalIds[..|goalIds| - 1]), d, kidId, goalIds[|goalIds| - 1])
  }

  /** Both loops: every kid in order against every goal. */
  function FillAll(t: CheckinTable, d: string, kidIds: seq<int>, goalIds: seq<int>): CheckinTable
  {
    if kidIds == [] then t
    else FillGoals(FillAll(t, d, kidIds[..|kidIds| - 1], goalIds), d, kidIds[|kidIds| - 1], goalIds)
  }

  /** A row that a fill for day `d` may have added. */
  ghost predicate FreshRow(c: Checkin, d: string, kidIds: seq<int>, goalIds: seq<int>, lo: int, hi: int)
  {
    c.d == d && c.selfChecked == 0 && c.parentApproved == 0
    && c.kidId in kidIds && c.goalId in goalIds && lo <= c.id < hi
  }

  /** `b` is `a` with unchecked rows for day `d` appended, and nothing else. */
  ghost predicate Grows(a: CheckinTable, b: CheckinTable, d: string, kidIds: seq<int>, goalIds: seq<int>)
  {
    && |a.rows| <= |b.rows|
    && b.rows[..|a.rows|] == a.rows
    && a.nextId <= b.nextId
    && forall i :: |a.rows| <= i < |b.rows| ==> FreshRow(b.rows[i], d, kidIds, goalIds, a.nextId, b.nextId)
  }

  lemma GrowsTransitive(a: CheckinTable, b: CheckinTable, c: CheckinTable, d: string,
                        kidIds: seq<int>, goalIds: seq<int>)
    requires Grows(a, b, d, kidIds, goalIds) && Grows(b, c, d, kidIds, goalIds)
    ensures Grows(a, c, d, kidIds, goalIds)
  {
    assert c.rows[..|a.rows|] == c.rows[..|b.rows|][..|a.rows|];
    forall i | |a.rows| <= i < |c.rows|
      ensures FreshRow(c.rows[i], d, kidIds, goalIds, a.nextId, c.nextId)
    {
      if i < |b.rows| {
        assert c.rows[i] == c.rows[..|b.rows|][i];
      }
    }
  }

  lemma GrowsWiden(a: CheckinTable, b: CheckinTable, d: string, kidIds: seq<int>, goalIds: seq<int>,
                   kidIds': seq<int>, goalIds': seq<int>)
    requires Grows(a, b, d, kidIds, goalIds)
    requires forall x :: x in kidIds ==> x in kidIds'
    requires forall x :: x in goalIds ==> x in goalIds'
    ensures Grows(a, b, d, kidIds', goalIds')
  {
  }

  lemma GrowsKeepsKeys(a: CheckinTable, b: CheckinTable, d: string, kidIds: seq<int>,
                       goalIds: seq<int>, k: Key)
    requires Grows(a, b, d, kidIds, goalIds) && HasKey(a.rows, k)
    ensures HasKey(b.rows, k)
  {
    var i :| 0 <= i < |a.rows| && KeyOf(a.rows[i]) == k;
    assert b.rows[i] == b.rows[..|a.rows|][i];
  }

  /** One `INSERT OR IGNORE`: the key is present afterwards, the table only
      grows by a fresh row, and its constraints still hold. */
  lemma InsertOrIgnoreStep(t: CheckinTable, d: string, kidId: int, goalId: int)
    requires TableValid(t)
    ensures var t' := InsertOrIgnore(t, d, kidId, goalId);
      && TableValid(t')
      && HasKey(t'.rows, Key(d, kidId, goalId))
      && Grows(t, t', d, [kidId], [goalId])
  {
    var t' := InsertOrIgnore(t, d, kidId, goalId);
    if !HasKey(t.rows, Key(d, kidId, goalId)) {
      assert KeyOf(t'.rows[|t.rows|]) == Key(d, kidId, goalId);
      assert t'.rows[..|t.rows|] == t.rows;
    }
  }

  lemma {:induction false} FillGoalsStep(t: CheckinTable, d: string, kidId: int, goalIds: seq<int>)
    requires TableValid(t)
    ensures var t' := FillGoals(t, d, kidId, goalIds);
      && TableValid(t')
      && (forall g :: g in goalIds ==> HasKey(t'.rows, Key(d, kidId, g)))
      && Grows(t, t', d, [kidId], goalIds)
  {
    if goalIds == [] {
      assert t.rows[..|t.rows|] == t.rows;
    } else {
      var n := |goalIds| - 1;
      var mid := FillGoals(t, d, kidId, goalIds[..n]);
      FillGoalsStep(t, d, kidId, goalIds[..n]);
      InsertOrIgnoreStep(mid, d, kidId, goalIds[n]);
      var t' := InsertOrIgnore(mid, d, kidId, goalIds[n]);
      GrowsWiden(t, mid, d, [kidId], goalIds[..n], [kidId], goalIds);
      GrowsWiden(mid, t', d, [kidId], [goalIds[n]], [kidId], goalIds);
      GrowsTransitive(t, mid, t', d, [kidId], goalIds);
      forall g | g in goalIds ensures HasKey(t'.rows, Key(d, kidId, g)) {
        if g in goalIds[..n] {
          GrowsKeepsKeys(mid, t', d, [kidId], goalIds, Key(d, kidId, g));
        } else {
          assert goalIds == goalIds[..n] + [goalIds[n]];
        }
      }
    }
  }

  /** After the fill, every (day, listed kid, listed goal) has a row; the
      existing rows are untouched, the new ones are unchecked and
      unapproved, and the table constraints still hold. */
  lemma {:induction false} FillAllCovers(t: CheckinTable, d: string, kidIds: seq<int>, goalIds: seq<int>)
    requires TableValid(t)
    ensures var t' := FillAll(t, d, kidIds, goalIds);
      && TableValid(t')
      && (forall k, g :: k in kidIds && g in goalIds ==> HasKey(t'.rows, Key(d, k, g)))
      && Grows(t, t', d, kidIds, goalIds)
  {
    if kidIds == [] {
      assert t.rows[..|t.rows|] == t.rows;
    } else {
      var n := |kidIds| - 1;
      var mid := FillAll(t, d, kidIds[..n], goalIds);
      FillAllCovers(t, d, kidIds[..n], goalIds);
      FillGoalsStep(mid, d, kidIds[n], goalIds);
      var t' := FillGoals(mid, d, kidIds[n], goalIds);
      GrowsWiden(t, mid, d, kidIds[..n], goalIds, kidIds, goalIds);
      GrowsWiden(mid, t', d, [kidIds[n]], goalIds, kidIds, goalIds);
      GrowsTransitive(t, mid, t', d, kidIds, goalIds);
      forall k, g | k in kidIds && g in goalIds ensures HasKey(t'.rows, Key(d, k, g)) {
        if k in kidIds[..n] {
          GrowsKeepsKeys(mid, t', d, kidIds, goalIds, Key(d, k, g));
        } else {
          assert kidIds == kidIds[..n] + [kidIds[n]];
        }
      }
    }
  }

  /** A fill whose keys are all present already changes nothing. */
  lemma {:induction false} FillAllPresent(t: CheckinTable, d: string, kidIds: seq<int>, goalIds: seq<int>)
    requires forall k, g :: k in kidIds && g in goalIds ==> HasKey(t.rows, Key(d, k, g))
    ensures FillAll(t, d, kidIds, goalIds) == t
  {
    if kidIds != [] {
      var n := |kidIds| - 1;
      FillAllPresent(t, d, kidIds[..n], goalIds);
      FillGoalsPresent(t, d, kidIds[n], goalIds);
    }
  }

  lemma {:induction false} FillGoalsPresent(t: CheckinTable, d: string, kidId: int, goalIds: seq<int>)
    requires forall g :: g in goalIds ==> HasKey(t.rows, Key(d, kidId, g))
    ensures FillGoals(t, d, kidId, goalIds) == t
  {
    if goalIds != [] {
      var n := |goalIds| - 1;
      FillGoalsPresent(t, d, kidId, goalIds[..n]);
      assert goalIds[n] in goalIds;
    }
  }

  /** Running the fill a second time on the same day adds no rows. */
  lemma FillAllIdempotent(t: CheckinTable, d: string, kidIds: seq<int>, goalIds: seq<int>)
    requires TableValid(t)
    ensures FillAll(FillAll(t, d, kidIds, goalIds), d, kidIds, goalIds) == FillAll(t, d, kidIds, goalIds)
  {
    FillAllCovers(t, d, kidIds, goalIds);
    FillAllPresent(FillAll(t, d, kidIds, goalIds), d, kidIds, goalIds);
  }

  /** One more step of the inner loop. */
  lemma FillGoalsSnoc(t: CheckinTable, d: string, kidId: int, goalIds: seq<int>, j: nat)
    requires j < |goalIds|
    ensures FillGoals(t, d, kidId, goalIds[..j + 1])
         == InsertOrIgnore(FillGoals(t, d, kidId, goalIds[..j]), d, kidId, goalIds[j])
  {
    assert goalIds[..j + 1][..j] == goalIds[..j];
  }

  /** One more step of the outer loop. */
  lemma FillAllSnoc(t: CheckinTable, d: string, kidIds: seq<int>, goalIds: seq<int>, i: nat)
    requires i < |kidIds|
    ensures FillAll(t, d, kidIds[..i + 1], goalIds)
         == FillGoals(FillAll(t, d, kidIds[..i], goalIds), d, kidIds[i], goalIds[..|goalIds|])
  {
    assert kidIds[..i + 1][..i] == kidIds[..i];
    assert goalIds[..|goalIds|] == goalIds;
  }

  // ---------------------------------------------------------------------
  // Single-field updates

  /** The two flag columns of a check-in. */
  datatype Flag = SelfChecked | ParentApproved

  /** `UPDATE checkins SET <flag>=? WHERE id=?` */
  function SetFlag(rows: seq<Checkin>, id: int, f: Flag, value: bool): (r: seq<Checkin>)
    ensures |r| == |rows|
    ensures forall i :: 0 <= i < |rows| ==> KeyOf(r[i]) == KeyOf(rows[i]) && r[i].id == rows[i].id
    ensures forall i :: 0 <= i < |rows| && rows[i].id != id ==> r[i] == rows[i]
    ensures forall i :: 0 <= i < |rows| && rows[i].id == id ==>
              r[i] == (if f == SelfChecked then rows[i].(selfChecked := Bit(value))
                       else rows[i].(parentApproved := Bit(value)))
  {
    if rows == [] then []
    else
      var c := rows[0];
      var c' := if c.id != id then c
                else if f == SelfChecked then c.(selfChecked := Bit(value))
                else c.(parentApproved := Bit(value));
      [c'] + SetFlag(rows[1..], id, f, value)
  }

  /** Flag updates keep every constraint of the checkins table. */
  lemma SetFlagValid(t: CheckinTable, id: int, f: Flag, value: bool)
    requires TableValid(t)
    ensures TableValid(CheckinTable(SetFlag(t.rows, id, f, value), t.nextId))
  {
  }

  /** `UPDATE kids SET active=? WHERE id=?` */
  function SetKidActive(kids: seq<Kid>, id: int, value: bool): (r: seq<Kid>)
    ensures |r| == |kids|
    ensures forall i :: 0 <= i < |kids| ==>
              r[i] == if kids[i].id == id then kids[i].(active := Bit(value)) else kids[i]
  {
    if kids == [] then []
    else [if kids[0].id == id then kids[0].(active := Bit(value)) else kids[0]]
         + SetKidActive(kids[1..], id, value)
  }

  /** `UPDATE goals SET active=? WHERE id=?` */
  function SetGoalActive(goals: seq<Goal>, id: int, value: bool): (r: seq<Goal>)
    ensures |r| == |goals|
    ensures forall i :: 0 <= i < |goals| ==>
              r[i] == if goals[i].id == id then goals[i].(active := Bit(value)) else goals[i]
  {
    if goals == [] then []
    else [if goals[0].id == id then goals[0].(active := Bit(value)) else goals[0]]
         + SetGoalActive(goals[1..], id, value)
  }

  // ---------------------------------------------------------------------
  // The database

  class Database {
    var kids: seq<Kid>
    var goals: seq<Goal>
    var checkins: CheckinTable
    var nextKidId: int
    var nextGoalId: int

    /** The PRIMARY KEY and AUTOINCREMENT discipline of kids and goals, the
        UNIQUE name of kids, and the constraints of the checkins table. */
    ghost predicate Valid()
      reads this
    {
      && TableValid(checkins)
      && (forall i, j :: 0 <= i < j < |kids| ==> kids[i].id != kids[j].id && kids[i].name != kids[j].name)
      && (forall i :: 0 <= i < |kids| ==> kids[i].id < nextKidId)
      && (forall i, j :: 0 <= i < j < |goals| ==> goals[i].id != goals[j].id)
      && (forall i :: 0 <= i < |goals| ==> goals[i].id < nextGoalId)
    }

    /** A freshly created database: three empty tables. */
    constructor ()
      ensures Valid()
      ensures kids == [] && goals == [] && checkins.rows == []
    {
      kids, goals := [], [];
      checkins := CheckinTable([], 1);
      nextKidId, nextGoalId := 1, 1;
    }

    /** `ensure_today_checkins`: insert-or-ignore a row for each active kid
        and each active goal on `today`. */
    method EnsureTodayCheckins(today: string)
      requires Valid()
      modifies this
      ensures Valid()
      ensures kids == old(kids) && goals == old(goals)
      ensures nextKidId == old(nextKidId) && nextGoalId == old(nextGoalId)
      ensures checkins == FillAll(old(checkins), today, ActiveKidIds(kids), ActiveGoalIds(goals))
    {
      var kidIds := ActiveKidIds(kids);
      var goalIds := ActiveGoalIds(goals);
      ghost var start := checkins;
      var i := 0;
      while i < |kidIds|
        invariant 0 <= i <= |kidIds|
        invariant checkins == FillAll(start, today, kidIds[..i], goalIds)
        invariant kids == old(kids) && goals == old(goals)
        invariant nextKidId == old(nextKidId) && nextGoalId == old(nextGoalId)
      {
        var j := 0;
        while j < |goalIds|
          invariant 0 <= j <= |goalIds|
          invariant checkins == FillGoals(FillAll(start, today, kidIds[..i], goalIds), today, kidIds[i], goalIds[..j])
          invariant kids == old(kids) && goals == old(goals)
          invariant nextKidId == old(nextKidId) && nextGoalId == old(nextGoalId)
        {
          var k := Key(today, kidIds[i], goalIds[j]);
          if !HasKey(checkins.rows, k) {
            checkins := CheckinTable(checkins.rows + [Checkin(checkins.nextId, today, kidIds[i], goalIds[j], 0, 0)],
                                     checkins.nextId + 1);
          }
          FillGoalsSnoc(FillAll(start, today, kidIds[..i], goalIds), today, kidIds[i], goalIds, j);
          j := j + 1;
        }
        FillAllSnoc(start, today, kidIds, goalIds, i);
        i := i + 1;
      }
      assert kidIds[..i] == kidIds;
      FillAllCovers(start, today, kidIds, goalIds);
    }

    /** `update_self_checked` */
    method UpdateSelfChecked(checkinId: int, value: bool)
      requires Valid()
      modifies this
      ensures Valid()
      ensures checkins == CheckinTable(SetFlag(old(checkins.rows), checkinId, SelfChecked, value), old(checkins.nextId))
      ensures kids == old(kids) && goals == old(goals)
      ensures nextKidId == old(nextKidId) && nextGoalId == old(nextGoalId)
    {
      SetFlagValid(checkins, checkinId, SelfChecked, value);
      checkins := CheckinTable(SetFlag(checkins.rows, checkinId, SelfChecked, value), checkins.nextId);
    }

    /** `update_parent_approved` */
    method UpdateParentApproved(checkinId: int, value: bool)
      requires Valid()
      modifies this
      ensures Valid()
      ensures checkins == CheckinTable(SetFlag(old(checkins.rows), checkinId, ParentApproved, value), old(checkins.nextId))
      ensures kids == old(kids) && goals == old(goals)
      ensures nextKidId == old(nextKidId) && nextGoalId == old(nextGoalId)
    {
      SetFlagValid(checkins, checkinId, ParentApproved, value);
      checkins := CheckinTable(SetFlag(checkins.rows, checkinId, ParentApproved, value), checkins.nextId);
    }

    /** `toggle_kid_active` */
    method ToggleKidActive(kidId: int, active: bool)
      requires Valid()
      modifies this
      ensures Valid()
      ensures kids == SetKidActive(old(kids), kidId, active)
      ensures goals == old(goals) && checkins == old(checkins)
      ensures nextKidId == old(nextKidId) && nextGoalId == old(nextGoalId)
    {
      kids := SetKidActive(kids, kidId, active);
    }

    /** `toggle_goal_active` */
    method ToggleGoalActive(goalId: int, active: bool)
      requires Valid()
      modifies this
      ensures Valid()
      ensures goals == SetGoalActive(old(goals), goalId, active)
      ensures kids == old(kids) && checkins == old(checkins)
      ensures nextKidId == old(nextKidId) && nextGoalId == old(nextGoalId)
    {
      goals := SetGoalActive(goals, goalId, active);
    }

    /** `add_kid`: an active kid with the next id; the UNIQUE name
        constraint rejects a name already present, leaving the table as it
        was. */
    method AddKid(name: string, grade: string) returns (ok: bool)
      requires Valid()
      modifies this
      ensures Valid()
      ensures ok <==> forall i :: 0 <= i < |old(kids)| ==> old(kids)[i].name != name
      ensures ok ==> kids == old(kids) + [Kid(old(nextKidId), name, grade, 1)] && nextKidId == old(nextKidId) + 1
      ensures !ok ==> kids == old(kids) && nextKidId == old(nextKidId)
      ensures goals == old(goals) && checkins == old(checkins) && nextGoalId == old(nextGoalId)
    {
      ok := forall i :: 0 <= i < |kids| ==> kids[i].name != name;
      if ok {
        kids := kids + [Kid(nextKidId, name, grade, 1)];
        nextKidId := nextKidId + 1;
      }
    }

    /** `add_goal`: an active goal with the next id. */
    method AddGoal(title: string, basePoints: int, category: string)
      requires Valid()
      modifies this
      ensures Valid()
      ensures goals == old(goals) + [Goal(old(nextGoalId), title, basePoints, category, 1)]
      ensures nextGoalId == old(nextGoalId) + 1
      ensures kids == old(kids) && checkins == old(checkins) && nextKidId == old(nextKidId)
    {
      goals := goals + [Goal(nextGoalId, title, basePoints, category, 1)];
      nextGoalId := nextGoalId + 1;
    }
  }
}
