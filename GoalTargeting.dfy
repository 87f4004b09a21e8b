/** Which goals a child sees (app.py `goals_for_kid` with its nested
    `is_target`): a goal is shown when it is active, meant for the viewer
    and aimed at the child, either through an empty or "all" target list or
    by naming the child's id in its comma-separated `kid_id` cell. */
module GoalTargeting {
  import opened Text
  import opened Filtering

  /** A row of the "goals" worksheet, every cell as text. */
  datatype GoalRow = GoalRow(
    id: string,
    title: string,
    points: string,
    active: string,
    kidIds: string,
    audience: string)

  /** The worksheet as loaded: which of the optional columns its header has,
      and its rows. A cell of a column the header lacks is never read. */
  datatype GoalSheet = GoalSheet(
    hasActive: bool,
    hasKidId: bool,
    hasAudience: bool,
    rows: seq<GoalRow>)

  /** The loader's failure when it touches a missing column. */
  datatype Outcome = Loaded(goals: seq<GoalRow>) | AttributeError

  // ---------------------------------------------------------------------
  // Per-goal tests

  /** Text of the `active` cell; a missing column reads as "TRUE". */
  function ActiveCell(sheet: GoalSheet, g: GoalRow): string
  {
    if sheet.hasActive then g.active else "TRUE"
  }

  /** Text of the `audience` cell; a missing column reads as "both". */
  function AudienceCell(sheet: GoalSheet, g: GoalRow): string
  {
    if sheet.hasAudience then g.audience else "both"
  }

  /** Text of the `kid_id` cell; a missing column reads as blank. */
  function KidIdCell(sheet: GoalSheet, g: GoalRow): string
  {
    if sheet.hasKidId then g.kidIds else ""
  }

  /** Active iff the stripped, lower-cased text is "true", "1" or "yes". */
  predicate IsActive(cell: string)
  {
    var t := Lower(Strip(cell));
    t == "true" || t == "1" || t == "yes"
  }

  /** Shown to `viewer` iff the stripped, lower-cased audience is "both" or
      the viewer itself. */
  predicate ForViewer(cell: string, viewer: string)
  {
    var a := Lower(Strip(cell));
    a == "both" || a == viewer
  }

  /** Stripped pieces, the empty ones dropped. */
  function NonBlank(parts: seq<string>): seq<string>
  {
    if parts == [] then []
    else
      var p := Strip(parts[0]);
      (if p == [] then [] else [p]) + NonBlank(parts[1..])
  }

  /** The target list of a `kid_id` cell: full-width commas become commas,
      then the text is split on commas, each piece stripped, blanks dropped. */
  function TargetIds(cell: string): seq<string>
  {
    NonBlank(Split(ReplaceChar(cell, '，', ','), ','))
  }

  /** Every entry of a target list is non-empty and has no surrounding
      whitespace. */
  lemma TargetIdsClean(cell: string)
    ensures forall id :: id in TargetIds(cell) ==> id != [] && Trimmed(id)
  {
    NonBlankClean(Split(ReplaceChar(cell, '，', ','), ','));
  }

  lemma {:induction false} NonBlankClean(parts: seq<string>)
    ensures forall id :: id in NonBlank(parts) ==> id != [] && Trimmed(id)
  {
    if parts != [] {
      NonBlankClean(parts[1..]);
      var p := Strip(parts[0]);
      assert NonBlank(parts) == (if p == [] then [] else [p]) + NonBlank(parts[1..]);
    }
  }

  /** `is_target`: an empty list or an "all" entry (any case) means every
      child; otherwise the child's id must be listed exactly. */
  predicate IsTarget(ids: seq<string>, kidId: string)
  {
    ids == []
    || (exists i :: 0 <= i < |ids| && Lower(ids[i]) == "all")
    || kidId in ids
  }

  predicate Selected(sheet: GoalSheet, g: GoalRow, kidId: string, viewer: string)
  {
    IsActive(ActiveCell(sheet, g))
    && ForViewer(AudienceCell(sheet, g), viewer)
    && IsTarget(TargetIds(KidIdCell(sheet, g)), kidId)
  }

  // ---------------------------------------------------------------------
  // The query

  /** The row test of `goals_for_kid` for one child and viewer. */
  function SelectorFor(sheet: GoalSheet, kidId: string, viewer: string): GoalRow -> bool
  {
    g => Selected(sheet, g, kidId, viewer)
  }

  /** `goals_for_kid`, with a missing optional column read as its default. */
  function GoalsForKid(sheet: GoalSheet, kidId: string, viewer: string): seq<GoalRow>
  {
    Filter(sheet.rows, SelectorFor(sheet, kidId, viewer))
  }

  /** `goals_for_kid` as written: `DataFrame.get(column, default)` hands back
      the bare default string when the column is missing, and the `.astype`
      call that follows fails on it. A sheet without data rows is replaced
      by an empty frame with the app's own header, which has no audience
      column, so it fails as well. */
  function GoalsForKidAsWritten(sheet: GoalSheet, kidId: string, viewer: string): Outcome
  {
    if sheet.rows == [] || !sheet.hasActive || !sheet.hasAudience || !sheet.hasKidId then AttributeError
    else Loaded(GoalsForKid(sheet, kidId, viewer))
  }

  /** The result lists goals of the sheet, in the sheet's order. */
  lemma GoalsForKidInOrder(sheet: GoalSheet, kidId: string, viewer: string)
    ensures IsSubsequence(GoalsForKid(sheet, kidId, viewer), sheet.rows)
  {
    FilterInOrder(sheet.rows, SelectorFor(sheet, kidId, viewer));
  }

  /** A goal is listed iff it is on the sheet and passes all three tests. */
  lemma GoalsForKidMembers(sheet: GoalSheet, kidId: string, viewer: string, g: GoalRow)
    ensures g in GoalsForKid(sheet, kidId, viewer) <==> g in sheet.rows && Selected(sheet, g, kidId, viewer)
  {
    FilterMembers(sheet.rows, SelectorFor(sheet, kidId, viewer), g);
  }

  /** The default `active` text counts as active. */
  lemma DefaultIsActive()
    ensures IsActive("TRUE")
  {
    assert Trimmed("TRUE");
    StripTrimmed("TRUE");
    assert Lower("TRUE") == "true";
  }

  /** The default audience text admits every viewer. */
  lemma DefaultForViewer(viewer: string)
    ensures ForViewer("both", viewer)
  {
    assert Trimmed("both");
    StripTrimmed("both");
    assert Lower("both") == "both";
  }

  /** A blank `kid_id` cell gives the empty target list. */
  lemma BlankHasNoTargets()
    ensures TargetIds("") == []
  {
    assert ReplaceChar("", '，', ',') == "";
    assert Split("", ',') == [""];
    assert Strip("") == "";
  }

  /** A goal read with every optional column at its default passes all
      three tests. */
  lemma DefaultsSelect(sheet: GoalSheet, g: GoalRow, kidId: string, viewer: string)
    requires !sheet.hasActive && !sheet.hasAudience && !sheet.hasKidId
    ensures Selected(sheet, g, kidId, viewer)
  {
    DefaultIsActive();
    DefaultForViewer(viewer);
    BlankHasNoTargets();
  }

  /** With none of the optional columns, every goal is shown to everyone. */
  lemma MissingColumnsKeepAll(sheet: GoalSheet, kidId: string, viewer: string)
    requires !sheet.hasActive && !sheet.hasAudience && !sheet.hasKidId
    ensures GoalsForKid(sheet, kidId, viewer) == sheet.rows
  {
    forall i | 0 <= i < |sheet.rows|
      ensures SelectorFor(sheet, kidId, viewer)(sheet.rows[i])
    {
      DefaultsSelect(sheet, sheet.rows[i], kidId, viewer);
    }
    FilterKeepsAll(sheet.rows, SelectorFor(sheet, kidId, viewer));
  }

  /** The sheet's own header (id, title, points, active, kid_id) has no
      audience column, so the query as written fails on it for every child,
      viewer and set of goals. */
  lemma DefaultHeaderFails(rows: seq<GoalRow>, kidId: string, viewer: string)
    ensures GoalsForKidAsWritten(GoalSheet(true, true, false, rows), kidId, viewer) == AttributeError
  {
  }

  /** A sheet without data rows fails as written, whatever its header. */
  lemma EmptySheetFails(sheet: GoalSheet, kidId: string, viewer: string)
    requires sheet.rows == []
    ensures GoalsForKidAsWritten(sheet, kidId, viewer) == AttributeError
  {
  }

  /** Without an audience column, the audience test passes for any viewer,
      so only the active and target tests decide. */
  lemma MissingAudienceIsBoth(sheet: GoalSheet, g: GoalRow, viewer: string)
    requires !sheet.hasAudience
    ensures ForViewer(AudienceCell(sheet, g), viewer)
  {
    DefaultForViewer(viewer);
  }

  /** A cell written as the ids joined with commas, ASCII or full-width,
      targets exactly those ids. */
  lemma TargetIdsOfJoin(ids: seq<string>, sep: char)
    requires sep == ',' || sep == '，'
    requires forall i :: 0 <= i < |ids| ==> ids[i] != [] && Trimmed(ids[i])
    requires forall i :: 0 <= i < |ids| ==> ',' !in ids[i] && '，' !in ids[i]
    ensures TargetIds(Join(ids, sep)) == ids
  {
    var cell := Join(ids, sep);
    if ids == [] {
      BlankHasNoTargets();
    } else {
      if sep == '，' {
        ReplaceJoin(ids, '，', ',');
      } else {
        JoinLacks(ids, ',', '，');
        ReplaceAbsent(cell, '，', ',');
      }
      SplitJoin(ids, ',');
      NonBlankOfTrimmed(ids);
    }
  }

  lemma {:induction false} NonBlankOfTrimmed(ids: seq<string>)
    requires forall i :: 0 <= i < |ids| ==> ids[i] != [] && Trimmed(ids[i])
    ensures NonBlank(ids) == ids
  {
    if ids != [] {
      NonBlankOfTrimmed(ids[1..]);
      assert ids == [ids[0]] + ids[1..];
    }
  }

  /** A cell naming "all", in any case, among its ids targets every child. */
  lemma AllTargetsEveryone(ids: seq<string>, kidId: string)
    requires forall i :: 0 <= i < |ids| ==> ids[i] != [] && Trimmed(ids[i])
    requires forall i :: 0 <= i < |ids| ==> ',' !in ids[i] && '，' !in ids[i]
    requires exists i :: 0 <= i < |ids| && Lower(ids[i]) == "all"
    ensures IsTarget(TargetIds(Join(ids, ',')), kidId)
  {
    TargetIdsOfJoin(ids, ',');
  }
}
