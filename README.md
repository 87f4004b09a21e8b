# Family Points ledger — a Dafny model

Family Points is a chore and goal tracker. Children tick off their daily
goals, a parent approves them, and approved goals earn points. The points
add up to monthly and lifetime totals and a monthly ranking. The repository
holds two revisions of the app:

- `app.py` keeps everything in a spreadsheet. A `checkins` worksheet is
  upserted row by row, keyed on (date, kid id, goal id). A `goals`
  worksheet is filtered per child by an active flag, an optional audience
  column and a comma-separated target list.
- `app_old.py` keeps the same data in three SQLite tables (`kids`, `goals`,
  `checkins`). The table `checkins` carries `UNIQUE(d, kid_id, goal_id)`.
  The app fills it each day with `INSERT OR IGNORE`, and points are
  `SUM`med over joined, approved rows.

This project models the ledger logic of both revisions and proves what each
operation promises. Worksheets and tables are sequences of records. Cells
of the spreadsheet stay text, and the columns of the database are integers
and text. The clock is a parameter (`today`, `now`, `ym`).

| file | module | models |
|---|---|---|
| `Text.dfy` | `Text` | the Python `str` operations the sheet code uses: `lower`, `strip`, `split`, `replace`, `startswith`, `str(int)` and reading an integer back, code-point order; also `join`, which the code never calls, to state what a cell written as a list of ids splits back into |
| `Options.dfy` | `Options` | optional values, and an inner join done row by row, where a row without a match drops out |
| `Filtering.dfy` | `Filtering` | a row filter as a `WHERE` clause or a pandas mask applies it |
| `Sorting.dfy` | `Sorting` | `ORDER BY` and `list.sort(key=…)`, as a sorted permutation under a total preorder |
| `SheetLedger.dfy` | `SheetLedger` | the `checkins` worksheet: flag and points decoding, `upsert_checkin` (class `CheckinSheet`), `today_check_state`, `monthly_total` |
| `GoalTargeting.dfy` | `GoalTargeting` | `goals_for_kid` and its nested `is_target` |
| `KidPicker.dfy` | `KidPicker` | the child picker: the `name（grade）` caption map and the name cut back out of a caption |
| `SqlLedger.dfy` | `SqlLedger` | the three tables and their keys, `ensure_today_checkins`, `update_*`, `toggle_*`, `add_*` (class `Database`) |
| `SqlQueries.dfy` | `SqlQueries` | `kid_points_total`, `kid_points_this_month`, `get_pending_approvals`, `get_child_today_checkins`, the monthly ranking |

The upsert and the database operations change state. They are methods of
`SheetLedger.CheckinSheet` and `SqlLedger.Database`. Each method states
its new state through a specification function (`Upserted`, `FillAll`,
`SetFlag`, …), and the lemmas about those functions carry the properties.
The filters, sums and sorts are pure queries, so they are functions.

## Model

| member | source | states |
|---|---|---|
| SheetLedger.FlagRoundTrip | app.py:76-79 | a flag written as `str(bool(v))` reads back as `v` under the rule "lower-cased text is true, 1 or yes" |
| Text.IntTextRoundTrip | app.py:75 | the `int(points)` written into a new row reads back as the same integer |
| SheetLedger.FirstMatch | app.py:104-109 | the hit is the first row whose (date, kid_id, goal_id) cells equal the key; no hit iff no row has the key |
| SheetLedger.CheckinSheet.Upsert | app.py:98-134 | the rows afterwards are `Upserted` of the rows before: append on a miss, cell rewrites of the first hit otherwise |
| SheetLedger.UpsertMiss | app.py:113-126 | on a miss exactly one row is appended, after the untouched old rows; it has the key, the names, `int(points)`, each flag as given or False, and `now` |
| SheetLedger.UpsertHit | app.py:127-134 | on a hit the row count stays; only the first matching row changes; its key, names and points stay; a flag changes only when given; the timestamp becomes `now` |
| SheetLedger.UpsertReadBack | app.py:127-134 | reading a key's state after an upsert gives the flags just given, and the earlier state where a flag was not given |
| SheetLedger.UpsertOtherKeys | app.py:102-109 | an upsert leaves the read-back state of every other key unchanged |
| SheetLedger.UpsertKeepsKeysUnique | app.py:102-126 | a sheet with no duplicate key keeps that property through an upsert |
| SheetLedger.UpsertIdempotent | app.py:98-134 | repeating an upsert with the same arguments changes nothing more |
| SheetLedger.TodayCheckState | app.py:174-181 | (False, False) when today has no row for the pair; otherwise the decoded flags of the first such row |
| SheetLedger.MonthlyTotalZero | app.py:183-190 | a kid with no self-checked and approved row in the month, the empty sheet included, totals 0 |
| SheetLedger.MonthlyTotalAppend | app.py:183-190 | the total over two stretches of rows is the sum of their totals |
| SheetLedger.MonthlyTotalUpdate | app.py:183-190 | rewriting one row moves the total by exactly that row's change in contribution |
| SheetLedger.ApprovalAddsPoints | app.py:132-133 | approving a self-checked row of the month adds exactly its points to the kid's monthly total |
| SheetLedger.NewCheckinKeepsTotal | app.py:113-126 | a new check-in that is not yet approved leaves every monthly total unchanged |
| GoalTargeting.TargetIdsClean | app.py:156-157 | every entry of a target list is non-empty and carries no surrounding whitespace |
| GoalTargeting.BlankHasNoTargets | app.py:156-161 | a blank `kid_id` cell yields the empty target list, so it targets every child |
| GoalTargeting.TargetIdsOfJoin | app.py:155-157 | a cell written as ids joined by `,` or `，` yields exactly those ids |
| GoalTargeting.AllTargetsEveryone | app.py:159-164 | a target list naming `all` in any letter case selects every child |
| GoalTargeting.GoalsForKidMembers | app.py:145-168 | a goal is returned iff it is on the sheet, its stripped, lower-cased active text is true, 1 or yes, its audience is both or the viewer, and it targets the child |
| GoalTargeting.GoalsForKidInOrder | app.py:143-170 | the result is a subsequence of the sheet's goals in their order |
| GoalTargeting.DefaultIsActive | app.py:146-147 | the default active text counts as active |
| GoalTargeting.DefaultForViewer | app.py:150-151 | the default audience admits every viewer |
| GoalTargeting.DefaultsSelect | app.py:146-156 | a goal read with all three optional columns at their defaults passes all three tests |
| GoalTargeting.MissingColumnsKeepAll | app.py:146-157 | with none of the optional columns every goal is returned, as the defaults intend |
| GoalTargeting.MissingAudienceIsBoth | app.py:149-152 | without an audience column the audience test passes for any viewer |
| GoalTargeting.DefaultHeaderFails | app.py:146-150 | as written, a goals sheet with the app's own header, which has no audience column, fails for every child and viewer |
| GoalTargeting.EmptySheetFails | app.py:58-62 | as written, a goals sheet without data rows fails whatever its header, because it is replaced by an empty frame with the app's own header |
| KidPicker.ListedKidsMembers | app.py:198 | a kid is offered iff its lower-cased active text is exactly "true" |
| KidPicker.LabelRoundTrip | app.py:199-208 | cutting the caption `name（grade）` at its first `（` gives back the name when the name has no `（` |
| KidPicker.KidMapLookup | app.py:199 | a kid's caption maps to its id unless a later kid has the same caption |
| KidPicker.KidMapKeys | app.py:199 | every key of the caption map is some kid's caption and maps to that kid's id |
| SqlLedger.ActiveKidIds | app_old.py:58-59 | exactly the ids of kids with active = 1 |
| SqlLedger.ActiveGoalIds | app_old.py:60-61 | exactly the ids of goals with active = 1 |
| SqlLedger.InsertOrIgnoreStep | app_old.py:64-65 | one `INSERT OR IGNORE` keeps the UNIQUE and PRIMARY KEY constraints, leaves the key present, and only appends an unchecked row |
| SqlLedger.FillGoalsStep | app_old.py:63-65 | the inner loop leaves a row for each listed goal of the kid, keeps the constraints, and only appends unchecked rows |
| SqlLedger.FillAllCovers | app_old.py:54-66 | after the fill every (today, active kid, active goal) has a row; old rows are untouched; new rows are dated today with self_checked = parent_approved = 0; the constraints hold |
| SqlLedger.FillAllPresent | app_old.py:62-65 | a fill whose keys are all present leaves the table as it was |
| SqlLedger.FillAllIdempotent | app_old.py:54-66 | a second fill on the same day adds no rows |
| SqlLedger.SetFlag | app_old.py:86-96 | the row with the given id gets exactly one flag set to 1 or 0 (1 iff the value is true); every other row and field is unchanged |
| SqlLedger.SetFlagValid | app_old.py:86-96 | flag updates keep the UNIQUE and PRIMARY KEY constraints |
| SqlLedger.SetKidActive | app_old.py:162-166 | only `active` of the kid with that id changes, to 1 or 0 |
| SqlLedger.SetGoalActive | app_old.py:168-172 | only `active` of the goal with that id changes, to 1 or 0 |
| SqlLedger.Database.constructor | app_old.py:15-38 | a new database has three empty tables that satisfy their constraints |
| SqlLedger.Database.EnsureTodayCheckins | app_old.py:54-66 | the nested loop leaves the checkins table equal to `FillAll` over the active ids, keeps every constraint, and changes no other table |
| SqlLedger.Database.UpdateSelfChecked | app_old.py:86-90 | the checkins table becomes `SetFlag(…, SelfChecked, value)`; nothing else changes |
| SqlLedger.Database.UpdateParentApproved | app_old.py:92-96 | the checkins table becomes `SetFlag(…, ParentApproved, value)`; nothing else changes |
| SqlLedger.Database.ToggleKidActive | app_old.py:162-166 | kids become `SetKidActive(…)`; nothing else changes |
| SqlLedger.Database.ToggleGoalActive | app_old.py:168-172 | goals become `SetGoalActive(…)`; nothing else changes |
| SqlLedger.Database.AddKid | app_old.py:150-154 | an active kid with the next id is appended iff the name is new; a duplicate name is rejected with no change |
| SqlLedger.Database.AddGoal | app_old.py:156-160 | an active goal with the next id is appended; nothing else changes |
| SqlQueries.GoalOf | app_old.py:130 | the joined goal has the check-in's goal id; none iff no goal has it |
| SqlQueries.KidOf | app_old.py:117 | the joined kid has the check-in's kid id; none iff no kid has it |
| SqlQueries.MonthKey | app_old.py:146 | `substr(d,1,7)` is the first seven characters of the date, or all of a shorter date |
| SqlQueries.NothingEarnedIsZero | app_old.py:124-133 | a kid with no self-checked, approved row totals 0 (`COALESCE`) |
| SqlQueries.MonthWithinTotal | app_old.py:135-148 | with no goal below 0 points, the month's points lie between 0 and the all-time points |
| SqlQueries.FillKeepsTotals | app_old.py:124-133 | the rows the daily fill appends change nobody's total |
| SqlQueries.SetFlagMissing | app_old.py:92-96 | an update whose id is on no row changes nothing |
| SqlQueries.ApproveAddsPoints | app_old.py:124-133 | approving a self-checked row adds its goal's points to its kid's total and changes no other kid's total |
| SqlQueries.PendingLeTotalPreorder | app_old.py:120 | `d DESC, name, title` is a total preorder |
| SqlQueries.PendingApprovals | app_old.py:111-122 | the result is sorted by date descending, then kid name, then goal title, and is a permutation of the joined self-checked, unapproved rows |
| SqlQueries.JoinPendingMembers | app_old.py:115-118 | the inner joins keep exactly the rows whose kid and goal both exist |
| SqlQueries.PendingMembers | app_old.py:114-121 | an item is listed iff it joins a row with self_checked = 1 and parent_approved = 0 |
| SqlQueries.PendingNewestFirst | app_old.py:120 | a later item never has a later date than an earlier one |
| SqlQueries.TitleLeTotalPreorder | app_old.py:107 | ordering by goal title is a total preorder |
| SqlQueries.ChildTodayCheckins | app_old.py:98-109 | the child's rows for today, joined to their goals, as a permutation sorted by title |
| SqlQueries.JoinGoalsMembers | app_old.py:103-105 | an item is in the join iff some row joins to it through an existing goal |
| SqlQueries.ChildTodayMembers | app_old.py:102-108 | an item is listed iff it is one of the kid's rows for today, joined to its existing goal |
| SqlQueries.ChildTodayAfterFill | app_old.py:98-109 | right after the daily fill, every active goal of an active kid appears in that kid's list for the day, with the goal's title and points |
| SqlQueries.RankLeTotalPreorder | app_old.py:234 | the key (−month points, name) orders entries as a total preorder |
| SqlQueries.RankTiesShareName | app_old.py:234 | two entries tie only when month points and name are equal |
| SqlQueries.Ranking | app_old.py:230-234 | the ranking is sorted by month points descending, then by name, and is a permutation of the entries of the active kids |
| SqlQueries.RankingMembers | app_old.py:230-233 | an entry is ranked iff it belongs to an active kid and carries that kid's month and total points |
| SqlQueries.RankingCount | app_old.py:230-233 | the ranking has one entry per active kid |

## Left out

- The Streamlit screens, widgets and reruns (app.py:193-277, app_old.py:174-284) are not modelled. The model covers the calls they make into the ledger.
- The Google Sheets client, credentials and worksheet creation and header repair (app.py:11-36) are not modelled. A worksheet is its header's optional columns plus a sequence of rows.
- The SQLite connection and the execution of the DDL (app_old.py:9-39) are not modelled. The tables are sequences, the constraints are the predicate `TableValid` and `Database.Valid`, and a new `Database` starts empty.
- Seeding (`seed_if_empty` in both files) is not modelled. It writes fixed sample data once.
- `date.today()` and `datetime.now()` are not modelled. They become the parameters `today`, `now` and `ym`.
- Concurrent writers are not modelled. The upsert reads the sheet and then appends, so two writers could both append one key. The model runs one operation at a time.
- Text.Lower: lower-cases ASCII letters only. Compared against the fixed words "true", "1", "yes", "all", "both" and the viewers "child" and "parent", this agrees with Python's `str.lower` on every input. It does not agree for every other word: Python lower-cases the Kelvin sign U+212A to `k`, for example.
- Text.ParseInt: reads an optional minus sign and decimal digits, and everything else as 0. `pd.to_numeric` also accepts decimals, exponents and surrounding spaces, and `astype(int)` then truncates them. A leading `+` is also accepted there, and `ParseInt` reads it as 0. Those forms are not modelled. Integers are unbounded in the model, while pandas' `astype(int)` and `sum()` wrap at 64 bits and SQLite's `SUM` raises on a 64-bit overflow.
- gspread's `get_all_records` turns numeric-looking cells into numbers. The model keeps every cell as text, so keys compare as text.
- `list_kids` and `list_goals` (app_old.py:68-84) are not separate members. The ranking starts from the active kids in table order instead of `ORDER BY name`. Its sort key ends with the name, and names are UNIQUE, so the order of its input should not matter. That is not proved.
- The order among rows that tie under an SQL `ORDER BY` is left open by SQLite. The model fixes one order and proves only that the result is sorted and a permutation.
- `FOREIGN KEY` clauses are not enforced, as SQLite does not enforce them by default. A check-in whose kid or goal is missing drops out of the inner joins.
- SqlLedger.Database.AddKid: the source lets the `IntegrityError` for a duplicate name escape to the screen. The model returns `false` and leaves the tables unchanged.
- `NOT NULL` and column types beyond integer and text are not modelled.
- The caption map of the SQLite revision (app_old.py:188) is not modelled separately. It has the same shape as the spreadsheet's, which `KidPicker` models.
- The `kids.get("active", "TRUE")` in app.py:198 is not modelled for a kids sheet without an active column. The kids header always has one.

## Findings

| source | as written | input that shows it | evidently intended | confidence | as-written member | corrected member |
|---|---|---|---|---|---|---|
| app.py:146-156 | `g.get("active", "TRUE")`, `g.get("audience", "both")` and `g.get("kid_id", "")` return the bare default string when the column is missing, and the `.astype(str)` that follows raises AttributeError | any goals sheet whose header is the app's own (id, title, points, active, kid_id), since it has no audience column; also any goals sheet without data rows, since it is replaced by an empty frame with that header | a missing column reads as its default on every row: active, for both viewers, for every child | high, not executed | GoalTargeting.GoalsForKidAsWritten, GoalTargeting.DefaultHeaderFails, GoalTargeting.EmptySheetFails | GoalTargeting.GoalsForKid, GoalTargeting.MissingColumnsKeepAll |
