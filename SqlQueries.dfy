/** The read side of the relational ledger (app_old.py): point totals over
    approved check-ins, the pending-approval list, a child's rows for the
    day, and the monthly ranking. Each query is its `WHERE` filter, its
    joins, and its `SUM` or `ORDER BY`, stated on the table sequences. */
module SqlQueries {
  import opened Text
  import opened Filtering
  import opened Sorting
  import opened SqlLedger
  import opened Options

  /** The goal a check-in joins to on `g.id = c.goal_id`, if any. */
  function GoalOf(goals: seq<Goal>, id: int): (r: Option<Goal>)
    ensures r.Some? ==> r.value in goals && r.value.id == id
    ensures r.None? <==> forall g :: g in goals ==> g.id != id
  {
    if goals == [] then None
    else if goals[0].id == id then Some(goals[0])
    else GoalOf(goals[1..], id)
  }

  /** The kid a check-in joins to on `k.id = c.kid_id`, if any. */
  function KidOf(kids: seq<Kid>, id: int): (r: Option<Kid>)
    ensures r.Some? ==> r.value in kids && r.value.id == id
    ensures r.None? <==> forall k :: k in kids ==> k.id != id
  {
    if kids == [] then None
    else if kids[0].id == id then Some(kids[0])
    else KidOf(kids[1..], id)
  }

  // ---------------------------------------------------------------------
  // kid_points_total, kid_points_this_month

  /** `base_points` of the joined goal; a row without one adds nothing to
      the sum, as the inner join drops it. */
  function PointsOf(c: Checkin, goals: seq<Goal>): int
  {
    match GoalOf(goals, c.goalId)
    case None => 0
    case Some(g) => g.basePoints
  }

  /** `COALESCE(SUM(g.base_points), 0)` over the selected rows. */
  function SumPoints(rows: seq<Checkin>, goals: seq<Goal>): int
  {
    if rows == [] then 0 else PointsOf(rows[0], goals) + SumPoints(rows[1..], goals)
  }

  /** `c.kid_id=? AND c.self_checked=1 AND c.parent_approved=1` */
  predicate Earned(c: Checkin, kidId: int)
  {
    c.kidId == kidId && c.selfChecked == 1 && c.parentApproved == 1
  }

  /** `substr(c.d, 1, 7)`: the YYYY-MM part of an ISO date. */
  function MonthKey(d: string): (m: string)
    ensures |m| == if |d| < 7 then |d| else 7
    ensures StartsWith(d, m)
  {
    if |d| < 7 then d else d[..7]
  }

  function EarnedBy(kidId: int): Checkin -> bool
  {
    (c: Checkin) => Earned(c, kidId)
  }

  function EarnedIn(kidId: int, ym: string): Checkin -> bool
  {
    (c: Checkin) => Earned(c, kidId) && MonthKey(c.d) == ym
  }

  /** `kid_points_total` */
  function KidPointsTotal(rows: seq<Checkin>, goals: seq<Goal>, kidId: int): int
  {
    SumPoints(Filter(rows, EarnedBy(kidId)), goals)
  }

  /** `kid_points_this_month` for the month `ym` ("YYYY-MM"). */
  function KidPointsThisMonth(rows: seq<Checkin>, goals: seq<Goal>, kidId: int, ym: string): int
  {
    SumPoints(Filter(rows, EarnedIn(kidId, ym)), goals)
  }

  lemma {:induction false} SumPointsAppend(a: seq<Checkin>, b: seq<Checkin>, goals: seq<Goal>)
    ensures SumPoints(a + b, goals) == SumPoints(a, goals) + SumPoints(b, goals)
  {
    if a == [] {
      assert a + b == b;
    } else {
      SumPointsAppend(a[1..], b, goals);
      assert (a + b)[0] == a[0] && (a + b)[1..] == a[1..] + b;
    }
  }

  /** A kid with no approved, self-checked row has 0 points. */
  lemma NothingEarnedIsZero(rows: seq<Checkin>, goals: seq<Goal>, kidId: int)
    requires forall i :: 0 <= i < |rows| ==> !Earned(rows[i], kidId)
    ensures KidPointsTotal(rows, goals, kidId) == 0
  {
    FilterDropsAll(rows, EarnedBy(kidId));
  }

  /** With no goal worth less than 0 points (the add form allows 0 to 100),
      a month's points never exceed the all-time points. */
  lemma {:induction false} MonthWithinTotal(rows: seq<Checkin>, goals: seq<Goal>, kidId: int, ym: string)
    requires forall g :: g in goals ==> g.basePoints >= 0
    ensures 0 <= KidPointsThisMonth(rows, goals, kidId, ym) <= KidPointsTotal(rows, goals, kidId)
  {
    if rows != [] {
      MonthWithinTotal(rows[1..], goals, kidId, ym);
      var c := rows[0];
      var inMonth, all := Filter(rows[1..], EarnedIn(kidId, ym)), Filter(rows[1..], EarnedBy(kidId));
      var keepM, keepT := EarnedIn(kidId, ym), EarnedBy(kidId);
      var headM, headT := if keepM(c) then [c] else [], if keepT(c) then [c] else [];
      assert Filter(rows, keepM) == headM + inMonth;
      assert Filter(rows, keepT) == headT + all;
      SumPointsAppend(headM, inMonth, goals);
      SumPointsAppend(headT, all, goals);
      assert PointsOf(c, goals) >= 0;
    }
  }

  /** Rows appended by the daily fill are unchecked and unapproved, so they
      change nobody's points. */
  lemma FillKeepsTotals(a: CheckinTable, b: CheckinTable, d: string, kidIds: seq<int>,
                        goalIds: seq<int>, goals: seq<Goal>, kidId: int)
    requires Grows(a, b, d, kidIds, goalIds)
    ensures KidPointsTotal(b.rows, goals, kidId) == KidPointsTotal(a.rows, goals, kidId)
  {
    var added := b.rows[|a.rows|..];
    assert b.rows == a.rows + added;
    FilterAppend(a.rows, added, EarnedBy(kidId));
    forall i | 0 <= i < |added| ensures !EarnedBy(kidId)(added[i]) {
      assert FreshRow(b.rows[|a.rows| + i], d, kidIds, goalIds, a.nextId, b.nextId);
    }
    FilterDropsAll(added, EarnedBy(kidId));
    assert Filter(a.rows, EarnedBy(kidId)) + [] == Filter(a.rows, EarnedBy(kidId));
  }

  /** A flag update whose id is on no row leaves the rows as they were. */
  lemma SetFlagMissing(rows: seq<Checkin>, id: int, f: Flag, value: bool)
    requires forall i :: 0 <= i < |rows| ==> rows[i].id != id
    ensures SetFlag(rows, id, f, value) == rows
  {
  }

  /** Approving the self-checked row `i` credits its kid with the joined
      goal's points and changes no other kid's total. */
  lemma {:induction false} ApproveAddsPoints(rows: seq<Checkin>, goals: seq<Goal>, i: nat, kidId: int)
    requires IdsUnique(rows)
    requires i < |rows| && rows[i].selfChecked == 1 && rows[i].parentApproved == 0
    ensures KidPointsTotal(SetFlag(rows, rows[i].id, ParentApproved, true), goals, kidId)
         == KidPointsTotal(rows, goals, kidId) + (if rows[i].kidId == kidId then PointsOf(rows[i], goals) else 0)
  {
    var id := rows[i].id;
    var after := SetFlag(rows, id, ParentApproved, true);
    var keep := EarnedBy(kidId);
    assert rows == [rows[0]] + rows[1..];
    assert after == [after[0]] + after[1..];
    assert after[1..] == SetFlag(rows[1..], id, ParentApproved, true);
    FilterAppend([rows[0]], rows[1..], keep);
    FilterAppend([after[0]], after[1..], keep);
    SumPointsAppend(Filter([rows[0]], keep), Filter(rows[1..], keep), goals);
    SumPointsAppend(Filter([after[0]], keep), Filter(after[1..], keep), goals);
    if i == 0 {
      SetFlagMissing(rows[1..], id, ParentApproved, true);
      assert after[0] == rows[0].(parentApproved := 1);
    } else {
      ApproveAddsPoints(rows[1..], goals, i - 1, kidId);
      assert after[0] == rows[0];
    }
  }

  // ---------------------------------------------------------------------
  // get_pending_approvals

  /** A row of the pending list: `c.id, c.d, k.name, g.title, g.base_points`. */
  datatype PendingItem = PendingItem(id: int, d: string, kidName: string, goalTitle: string, basePoints: int)

  /** `c.self_checked=1 AND c.parent_approved=0` */
  predicate IsPending(c: Checkin)
  {
    c.selfChecked == 1 && c.parentApproved == 0
  }

  /** The joined row of a check-in, when both its kid and its goal exist. */
  function PendingOf(c: Checkin, kids: seq<Kid>, goals: seq<Goal>): Option<PendingItem>
  {
    match (KidOf(kids, c.kidId), GoalOf(goals, c.goalId))
    case (Some(k), Some(g)) => Some(PendingItem(c.id, c.d, k.name, g.title, g.basePoints))
    case _ => None
  }

  function PendingIn(kids: seq<Kid>, goals: seq<Goal>): Checkin -> Option<PendingItem>
  {
    (c: Checkin) => PendingOf(c, kids, goals)
  }

  /** The inner joins, row by row. */
  function JoinPending(rows: seq<Checkin>, kids: seq<Kid>, goals: seq<Goal>): seq<PendingItem>
  {
    Collect(rows, PendingIn(kids, goals))
  }

  /** `ORDER BY c.d DESC, k.name, g.title` */
  predicate PendingLe(a: PendingItem, b: PendingItem)
  {
    StrLt(b.d, a.d)
    || (a.d == b.d && (StrLt(a.kidName, b.kidName)
                       || (a.kidName == b.kidName && StrLe(a.goalTitle, b.goalTitle))))
  }

  lemma PendingLeTotalPreorder()
    ensures TotalPreorder(PendingLe)
  {
    forall a, b ensures PendingLe(a, b) || PendingLe(b, a) {
      StrLeTotal(a.d, b.d);
      StrLeTotal(a.kidName, b.kidName);
      StrLeTotal(a.goalTitle, b.goalTitle);
    }
    forall a, b, c | PendingLe(a, b) && PendingLe(b, c) ensures PendingLe(a, c) {
      StrOrderFacts(c.d, b.d, a.d);
      StrOrderFacts(a.kidName, b.kidName, c.kidName);
      if a.goalTitle != b.goalTitle || b.goalTitle != c.goalTitle {
        if StrLe(a.goalTitle, b.goalTitle) && StrLe(b.goalTitle, c.goalTitle) {
          StrLeTransitive(a.goalTitle, b.goalTitle, c.goalTitle);
        }
      }
    }
  }

  /** Strict and non-strict code-point order chain as expected. */
  lemma StrOrderFacts(x: string, y: string, z: string)
    ensures StrLt(x, y) && StrLt(y, z) ==> StrLt(x, z)
    ensures StrLt(x, y) && y == z ==> StrLt(x, z)
    ensures x == y && StrLt(y, z) ==> StrLt(x, z)
  {
    if StrLt(x, y) && StrLt(y, z) {
      StrLeTransitive(x, y, z);
      if x == z { StrLeAntisymmetric(x, y); }
    }
  }

  /** `get_pending_approvals` */
  function PendingApprovals(rows: seq<Checkin>, kids: seq<Kid>, goals: seq<Goal>): (r: seq<PendingItem>)
    ensures Sorted(r, PendingLe)
    ensures multiset(r) == multiset(JoinPending(Filter(rows, IsPending), kids, goals))
  {
    PendingLeTotalPreorder();
    SortBy(JoinPending(Filter(rows, IsPending), kids, goals), PendingLe)
  }

  /** The inner joins keep exactly the rows whose kid and goal both exist. */
  lemma JoinPendingMembers(rows: seq<Checkin>, kids: seq<Kid>, goals: seq<Goal>, x: PendingItem)
    ensures x in JoinPending(rows, kids, goals) <==> exists c :: c in rows && PendingOf(c, kids, goals) == Some(x)
  {
    CollectMembers(rows, PendingIn(kids, goals), x);
  }

  /** The list holds exactly the joined rows that are self-checked and not
      yet approved. */
  lemma PendingMembers(rows: seq<Checkin>, kids: seq<Kid>, goals: seq<Goal>, x: PendingItem)
    ensures x in PendingApprovals(rows, kids, goals)
        <==> exists c :: c in rows && IsPending(c) && PendingOf(c, kids, goals) == Some(x)
  {
    var sel := Filter(rows, IsPending);
    var r := PendingApprovals(rows, kids, goals);
    assert x in r <==> x in multiset(r);
    JoinPendingMembers(sel, kids, goals, x);
    forall c ensures c in sel <==> c in rows && IsPending(c) {
      FilterMembers(rows, IsPending, c);
    }
  }

  /** The newest day comes first. */
  lemma PendingNewestFirst(rows: seq<Checkin>, kids: seq<Kid>, goals: seq<Goal>, i: int, j: int)
    requires 0 <= i < j < |PendingApprovals(rows, kids, goals)|
    ensures StrLe(PendingApprovals(rows, kids, goals)[j].d, PendingApprovals(rows, kids, goals)[i].d)
  {
    var r := PendingApprovals(rows, kids, goals);
    StrLeTotal(r[i].d, r[i].d);
  }

  // ---------------------------------------------------------------------
  // get_child_today_checkins

  /** A row of a child's list for the day: `c.id, g.title, g.base_points,
      c.self_checked, c.parent_approved`. */
  datatype TodayItem = TodayItem(id: int, title: string, basePoints: int, selfChecked: int, parentApproved: int)

  function TodayRowsOf(kidId: int, today: string): Checkin -> bool
  {
    (c: Checkin) => c.kidId == kidId && c.d == today
  }

  /** The row joined to its goal, when the goal exists. */
  function TodayOf(c: Checkin, goals: seq<Goal>): Option<TodayItem>
  {
    match GoalOf(goals, c.goalId)
    case None => None
    case Some(g) => Some(TodayItem(c.id, g.title, g.basePoints, c.selfChecked, c.parentApproved))
  }

  function TodayIn(goals: seq<Goal>): Checkin -> Option<TodayItem>
  {
    (c: Checkin) => TodayOf(c, goals)
  }

  /** `JOIN goals g ON g.id = c.goal_id`, row by row. */
  function JoinGoals(rows: seq<Checkin>, goals: seq<Goal>): seq<TodayItem>
  {
    Collect(rows, TodayIn(goals))
  }

  /** `ORDER BY g.title` */
  predicate TitleLe(a: TodayItem, b: TodayItem)
  {
    StrLe(a.title, b.title)
  }

  lemma TitleLeTotalPreorder()
    ensures TotalPreorder(TitleLe)
  {
    forall a, b ensures TitleLe(a, b) || TitleLe(b, a) {
      StrLeTotal(a.title, b.title);
    }
    forall a, b, c | TitleLe(a, b) && TitleLe(b, c) ensures TitleLe(a, c) {
      StrLeTransitive(a.title, b.title, c.title);
    }
  }

  /** `get_child_today_checkins` */
  function ChildTodayCheckins(rows: seq<Checkin>, goals: seq<Goal>, kidId: int, today: string): (r: seq<TodayItem>)
    ensures Sorted(r, TitleLe)
    ensures multiset(r) == multiset(JoinGoals(Filter(rows, TodayRowsOf(kidId, today)), goals))
  {
    TitleLeTotalPreorder();
    SortBy(JoinGoals(Filter(rows, TodayRowsOf(kidId, today)), goals), TitleLe)
  }

  /** The join keeps exactly the rows whose goal exists. */
  lemma JoinGoalsMembers(rows: seq<Checkin>, goals: seq<Goal>, x: TodayItem)
    ensures x in JoinGoals(rows, goals) <==> exists c :: c in rows && TodayOf(c, goals) == Some(x)
  {
    CollectMembers(rows, TodayIn(goals), x);
  }

  /** The list holds exactly the kid's rows for the day whose goal exists,
      each joined to that goal. */
  lemma ChildTodayMembers(rows: seq<Checkin>, goals: seq<Goal>, kidId: int, today: string, x: TodayItem)
    ensures x in ChildTodayCheckins(rows, goals, kidId, today)
        <==> exists c :: c in rows && c.kidId == kidId && c.d == today && TodayOf(c, goals) == Some(x)
  {
    var sel := Filter(rows, TodayRowsOf(kidId, today));
    var r := ChildTodayCheckins(rows, goals, kidId, today);
    assert x in r <==> x in multiset(r);
    JoinGoalsMembers(sel, goals, x);
    forall c ensures c in sel <==> c in rows && c.kidId == kidId && c.d == today {
      FilterMembers(rows, TodayRowsOf(kidId, today), c);
    }
  }

  /** Right after the daily fill, each listed goal of a listed kid shows up
      in that kid's list for the day, with the goal's title and points. */
  lemma ChildTodayAfterFill(t: CheckinTable, goals: seq<Goal>, today: string, kidIds: seq<int>,
                            goalIds: seq<int>, kidId: int, g: Goal)
    requires TableValid(t)
    requires kidId in kidIds && g.id in goalIds && GoalOf(goals, g.id) == Some(g)
    ensures exists x :: x in ChildTodayCheckins(FillAll(t, today, kidIds, goalIds).rows, goals, kidId, today)
                        && x.title == g.title && x.basePoints == g.basePoints
  {
    var rows := FillAll(t, today, kidIds, goalIds).rows;
    FillAllCovers(t, today, kidIds, goalIds);
    assert HasKey(rows, Key(today, kidId, g.id));
    var i :| 0 <= i < |rows| && KeyOf(rows[i]) == Key(today, kidId, g.id);
    var c := rows[i];
    var x := TodayItem(c.id, g.title, g.basePoints, c.selfChecked, c.parentApproved);
    assert TodayOf(c, goals) == Some(x);
    ChildTodayMembers(rows, goals, kidId, today, x);
  }

  // ---------------------------------------------------------------------
  // The monthly ranking

  /** `(name, grade, month points, total points, kid id)` */
  datatype RankEntry = RankEntry(name: string, grade: string, month: int, total: int, kidId: int)

  /** `key=lambda x: (-x[2], x[0])`: more points this month first, then by name. */
  predicate RankLe(a: RankEntry, b: RankEntry)
  {
    a.month > b.month || (a.month == b.month && StrLe(a.name, b.name))
  }

  lemma RankLeTotalPreorder()
    ensures TotalPreorder(RankLe)
  {
    forall a, b ensures RankLe(a, b) || RankLe(b, a) {
      StrLeTotal(a.name, b.name);
    }
    forall a, b, c | RankLe(a, b) && RankLe(b, c) ensures RankLe(a, c) {
      if a.month == b.month == c.month {
        StrLeTransitive(a.name, b.name, c.name);
      }
    }
  }

  /** Two entries tie only when they have the same month points and name. */
  lemma RankTiesShareName(a: RankEntry, b: RankEntry)
    requires RankLe(a, b) && RankLe(b, a)
    ensures a.month == b.month && a.name == b.name
  {
    StrLeAntisymmetric(a.name, b.name);
  }

  predicate Listed(k: Kid)
  {
    k.active == 1
  }

  function EntryFor(k: Kid, rows: seq<Checkin>, goals: seq<Goal>, ym: string): RankEntry
  {
    RankEntry(k.name, k.grade, KidPointsThisMonth(rows, goals, k.id, ym), KidPointsTotal(rows, goals, k.id), k.id)
  }

  function Entries(kids: seq<Kid>, rows: seq<Checkin>, goals: seq<Goal>, ym: string): (es: seq<RankEntry>)
    ensures |es| == |kids|
    ensures forall i :: 0 <= i < |kids| ==> es[i] == EntryFor(kids[i], rows, goals, ym)
  {
    if kids == [] then [] else [EntryFor(kids[0], rows, goals, ym)] + Entries(kids[1..], rows, goals, ym)
  }

  /** The ranking: one entry per active kid, sorted by `RankLe`. */
  function Ranking(kids: seq<Kid>, rows: seq<Checkin>, goals: seq<Goal>, ym: string): (r: seq<RankEntry>)
    ensures Sorted(r, RankLe)
    ensures multiset(r) == multiset(Entries(Filter(kids, Listed), rows, goals, ym))
  {
    RankLeTotalPreorder();
    SortBy(Entries(Filter(kids, Listed), rows, goals, ym), RankLe)
  }

  /** An entry is ranked iff it is the entry of an active kid. */
  lemma RankingMembers(kids: seq<Kid>, rows: seq<Checkin>, goals: seq<Goal>, ym: string, e: RankEntry)
    ensures e in Ranking(kids, rows, goals, ym)
        <==> exists k :: k in kids && k.active == 1 && e == EntryFor(k, rows, goals, ym)
  {
    var listed := Filter(kids, Listed);
    var es := Entries(listed, rows, goals, ym);
    assert e in Ranking(kids, rows, goals, ym) <==> e in multiset(es);
    forall k ensures k in listed <==> k in kids && Listed(k) {
      FilterMembers(kids, Listed, k);
    }
    if e in es {
      var i :| 0 <= i < |es| && es[i] == e;
      assert listed[i] in listed;
    }
    if exists k :: k in kids && k.active == 1 && e == EntryFor(k, rows, goals, ym) {
      var k :| k in kids && k.active == 1 && e == EntryFor(k, rows, goals, ym);
      var i :| 0 <= i < |listed| && listed[i] == k;
      assert es[i] == e;
    }
  }

  /** One entry per active kid. */
  lemma RankingCount(kids: seq<Kid>, rows: seq<Checkin>, goals: seq<Goal>, ym: string)
    ensures |Ranking(kids, rows, goals, ym)| == |Filter(kids, Listed)|
  {
    var r := Ranking(kids, rows, goals, ym);
    assert |r| == |multiset(r)|;
    assert |Entries(Filter(kids, Listed), rows, goals, ym)| == |multiset(Entries(Filter(kids, Listed), rows, goals, ym))|;
  }
}
