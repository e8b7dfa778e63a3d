# Bingoal board and goal rules, in Dafny

Bingoal lets a user keep a yearly 5x5 "bingo" board of goals. A board holds up
to 25 goals, one per cell 0..24, read row by row. Once all 25 cells are filled,
the owner may lock the board. A goal update on a locked board may change only
completion. A goal update on an unlocked board may change the text and the
free-space flag, but may not send `completed`; marking a goal as a free space
still completes it. A board may carry a "free space": that goal is completed
when it is made, cannot be deleted, and its text is frozen while it stays a
free space.

Seven route handlers enforce these rules: create, update and delete a board,
toggle its lock, and create, update and delete a goal. Each one runs a chain of
guards. The chain ends either in a typed rejection (HTTP 401, 400, 403, 404 or
409) or in one write to the boards and goals tables (two when a new board gets
its free space).

The model has six modules:

- `Model`: the table rows, the request bodies and the rejections. A `Rejection`
  constructor is the status code; its `Invalid` or `Denial` argument is the
  reason the handler gives.
- `Text`: JavaScript's `trim`, with its whitespace set written out. Lemmas show
  that it returns the text between any whitespace padding, that trimming twice
  changes nothing, and that it yields `""` exactly on all-whitespace strings.
- `Grid`: the invariant of the two tables. Every goal references an existing
  board, positions lie in 0..24, there is at most one goal per (board,
  position), and `completed` holds exactly when `completed_at` is set. The
  module also holds the pigeonhole argument: under the invariant a board has at
  most 25 goals, and it has 25 exactly when every cell is filled.
- `Goals` and `Boards`: each route's guard chain as a pure function, in the
  handler's order. Each one is specified by when it accepts and by which
  rejection each case gets. These modules also hold the rows and update
  payloads the handlers build.
- `BingoStore`: a `Store` class with the two tables as maps and one method per
  route. A method runs the route's guard chain and then performs its one write.
  It keeps the invariant and states the whole new state.

The acting identity is an `Option<UserId>`. A missing id, or an empty one
(JavaScript finds `""` falsy), is not `Present`. The current time is a
`Timestamp` parameter. Ids that the database would generate are parameters that
must be fresh.

Deleting the free space is rejected with status 400 (`FreeSpaceUndeletable`).

The source states some rules in its own comments and labels: the lock-rule
comment in `app/api/goals/update/route.ts` (lines 71-73), the `is_free_space`
comment in `lib/types.ts` (line 20), and the "Locked"/"Editable" labels of
`app/dashboard/DashboardClient.tsx` (line 124). Where these and the handlers
disagree, the model follows the handlers:

- Goal creation and goal deletion never read the lock flag. Both work on locked
  boards (`Goals.CreateIgnoresLock`, `Goals.DeleteIgnoresLock`). So "a locked
  board has 25 goals" does not survive later writes
  (`Goals.LockedBoardCanLoseGoal`).
- "A free space is always completed" does not survive an update. On a locked
  board, a free-space goal can be set `completed = false`
  (`Goals.FreeSpaceCanBeUncompleted`), although `lib/types.ts` says a free
  space cannot be edited. Neither property is stated as an invariant.
- The lock-rule comment says an unlocked board cannot change completion status.
  That does not hold either. On an unlocked board, `is_free_space: true` passes
  every rule and writes `completed = true` with a time stamp
  (`Goals.FreeSpaceCompletesOnUnlockedBoard`).
- Board update never reads the lock flag: a locked board's title and year can
  still change (`Boards.UpdateBoardIgnoresLock`), although the dashboard labels
  only an unlocked board "Editable".
- The year bounds differ between routes: 2000-2100 at creation, 1900-2100 at
  update. Both are modelled as written (`Boards.YearBoundsDisagree`).

## Model

| member | source | states |
|---|---|---|
| `Text.Trim` | app/api/goals/update/route.ts:110 | the trimmed text has no whitespace at either end and is no longer than the input |
| `Text.TrimPadded` | app/api/goals/update/route.ts:110 | trimming whitespace-padded text returns exactly the text between the padding |
| `Text.TrimIdempotent` | app/api/goals/update/route.ts:110 | trimming a trimmed text changes nothing |
| `Text.TrimEmptyIffBlank` | app/api/goals/update/route.ts:101 | `text.trim() === ""` holds exactly when every character is whitespace |
| `Grid.CountIsOccupiedCells` | app/api/boards/toggle-lock/route.ts:55-68 | with distinct in-grid positions, a board's goal count equals its number of occupied cells, all in 0..24 |
| `Grid.AtMostGridCells` | app/api/goals/create/route.ts:33-92 | the position range and the (board, position) uniqueness together allow at most 25 goals per board |
| `Grid.FullIffEveryCellOccupied` | app/api/boards/toggle-lock/route.ts:68 | under the invariant, `count == 25` holds exactly when every cell 0..24 of the board is occupied |
| `Grid.InsertGoalCount` | app/api/goals/create/route.ts:74-78 | inserting a goal adds one to its own board's count and leaves every other board's count alone |
| `Grid.RemoveGoalCount` | app/api/goals/delete/route.ts:64-67 | removing a goal takes one from its own board's count and leaves every other board's count alone |
| `Grid.InsertGoalKeepsInvariant` | app/api/goals/create/route.ts:74-92 | inserting a completion-consistent goal at a free in-grid cell of an existing board keeps the table invariant |
| `Grid.InsertBoardKeepsInvariant` | app/api/boards/create/route.ts:48-56 | inserting a board under a new id keeps the invariant, and the new board has no goals |
| `Goals.LockRules` | app/api/goals/update/route.ts:56-93 | an update passes exactly when free-space text is only sent with `is_free_space: false`, an unlocked board gets no `completed`, and a locked board gets neither `text` nor `is_free_space`. Each failure names its own reason, and the free-space rule is checked first |
| `Goals.CheckGoalUpdate` | app/api/goals/update/route.ts:12-93 | no identity gives 401 and a missing goal id gives 400; a goal missing or without its board gives 404, and another user's goal gives 403, whatever the request carries. The owner's request that breaks a lock rule gets 400 with that rule's reason; otherwise it is accepted |
| `Goals.NormalizeUpdates` | app/api/goals/update/route.ts:96-125 | rejected exactly when the text is all whitespace. Otherwise the text is stored trimmed and non-empty, and `updated_at` is now. `is_free_space: true` forces completion with a time stamp; without it, `completed` passes through unchanged. `completed` and `completed_at` are always written together and agree |
| `Goals.CompletionColumns` | app/api/goals/update/route.ts:113-125 | `completed` and `completed_at` are written together and agree; `is_free_space: true` forces completion stamped now, and otherwise the requested `completed` is written as sent |
| `Goals.BuildUpdates` | app/api/goals/update/route.ts:96-125 | building the payload field by field gives the normalised payload |
| `Goals.ApplyUpdates` | app/api/goals/update/route.ts:128-133 | id, board, position and creation time never change; fields absent from the payload keep their value; a consistent payload keeps `completed` iff `completed_at` set |
| `Goals.CompletionOnlyOnLockedBoards` | app/api/goals/update/route.ts:74-93 | an accepted update carrying `completed` is on a locked board and carries neither `text` nor `is_free_space` |
| `Goals.FreeSpaceCanBeUncompleted` | app/api/goals/update/route.ts:85-93 | on a locked board, setting `completed: false` on a free-space goal passes the rules and leaves it a free space that is not completed |
| `Goals.FreeSpaceCompletesOnUnlockedBoard` | app/api/goals/update/route.ts:74-125 | on an unlocked board, `is_free_space: true` passes the rules and leaves the goal a completed free space, stamped now |
| `Goals.CheckCreateGoal` | app/api/goals/create/route.ts:12-92 | 401 exactly without an identity. 400 exactly for a missing board id or missing or blank text. Then 400 exactly for a position outside 0..24, before the board is looked up. Then 403 exactly for a missing or foreign board, and 409 exactly when the cell is taken. Accepted exactly when none of these apply |
| `Goals.NewGoal` | app/api/goals/create/route.ts:61-72 | the new goal has the trimmed text; `is_free_space` defaults to false; `completed` equals `is_free_space`; `completed_at` is set only for a free space |
| `Goals.BuildGoalData` | app/api/goals/create/route.ts:61-72 | building `goalData` and then adding `completed_at` gives the new goal row |
| `Goals.SecondCreateConflicts` | app/api/goals/create/route.ts:80-92 | after an accepted creation, the same request again is rejected with 409 |
| `Goals.CreateIgnoresLock` | app/api/goals/create/route.ts:44-48 | goal creation gives the same answer whatever the board's lock flag |
| `Goals.CheckDeleteGoal` | app/api/goals/delete/route.ts:11-61 | no identity gives 401 and a missing id gives 400; 404 for a missing goal, 403 for another user's goal. The owner's free-space goal gets exactly 400 `FreeSpaceUndeletable`; accepted exactly for the owner's ordinary goal |
| `Goals.DeleteIgnoresLock` | app/api/goals/delete/route.ts:30-34 | goal deletion gives the same answer whatever the board's lock flag |
| `Goals.LockedBoardCanLoseGoal` | app/api/goals/delete/route.ts:53-67 | the owner may delete an ordinary goal of a locked full board, leaving it locked with 24 goals |
| `Boards.MissingTitleIffBlank` | app/api/boards/create/route.ts:27 | the title guard rejects exactly a missing or all-whitespace title |
| `Boards.CheckCreateBoard` | app/api/boards/create/route.ts:12-45 | 401 exactly without an identity; 400 for a missing or blank title; then 400 for a year that is missing, 0 or outside 2000..2100; accepted otherwise, owned by the caller |
| `Boards.NewBoard` | app/api/boards/create/route.ts:48-56 | the new board belongs to the caller, with the trimmed title and the given year, and starts unlocked |
| `Boards.FreeSpaceGoal` | app/api/boards/create/route.ts:69-78 | the seeded goal is a completed free space with the text "FREE SPACE", time-stamped now, in the centre cell (row 2, column 2) |
| `Boards.SeededBoardKeepsInvariant` | app/api/boards/create/route.ts:48-78 | inserting a new board, with or without its seeded free space, keeps the invariant of the two tables |
| `Boards.CheckUpdateBoard` | app/api/boards/update/route.ts:11-56 | 401, then 400 for a missing board id, a blank title, or a year missing or outside 1900..2100, all before the lookup. Then 403 for a missing or foreign board. Accepted exactly for the owner's valid request |
| `Boards.YearBoundsDisagree` | app/api/boards/update/route.ts:37-42 | a year of the 1900s that a board update accepts is rejected by board creation |
| `Boards.UpdateBoardIgnoresLock` | app/api/boards/update/route.ts:44-69 | board update gives the same answer whatever the board's lock flag |
| `Boards.CheckToggleLock` | app/api/boards/toggle-lock/route.ts:10-79 | 401; then 400 for a missing id or non-boolean flag; 404 for a missing board; 403 for a foreign one. Locking is accepted only with exactly 25 goals; otherwise 400 naming `25 - count` goals to add. Unlocking needs no count |
| `Boards.ShortfallIsPositive` | app/api/boards/toggle-lock/route.ts:68-78 | under the invariant, the number of goals the lock message asks for is between 1 and 25 |
| `Boards.LockMeansGridFull` | app/api/boards/toggle-lock/route.ts:54-79 | under the invariant, the owner may lock a board exactly when all 25 cells hold a goal |
| `Boards.CheckDeleteBoard` | app/api/boards/delete/route.ts:10-45 | 401, then 400 for a missing id, 404 for a missing board, 403 for a foreign one; accepted exactly for the owner |
| `Boards.WithoutBoardGoals` | app/api/boards/delete/route.ts:47-52 | the cascade keeps exactly the goals of other boards, unchanged, and leaves the deleted board no goals |
| `BingoStore.Store.CreateBoard` | app/api/boards/create/route.ts:48-85 | when accepted, adds the new board. Adds the free space only when requested and the store took that insert; the board is returned either way. Rejections leave the store unchanged. The invariant is kept |
| `BingoStore.Store.UpdateBoard` | app/api/boards/update/route.ts:58-69 | when accepted, only that board's title (trimmed), year and `updated_at` change; the lock flag and all goals stay; rejections change nothing |
| `BingoStore.Store.ToggleLock` | app/api/boards/toggle-lock/route.ts:81-99 | when accepted, only that board's lock flag changes, to the requested value, which is echoed; goals never change |
| `BingoStore.Store.DeleteBoard` | app/api/boards/delete/route.ts:47-62 | when accepted, removes the board and every goal on it; other boards and their goals stay unchanged |
| `BingoStore.Store.CreateGoal` | app/api/goals/create/route.ts:74-92 | when accepted, inserts exactly the new goal row; boards never change; the invariant is kept |
| `BingoStore.Store.UpdateGoal` | app/api/goals/update/route.ts:127-169 | when accepted, the goal becomes the normalised payload written over it. The detectors run only when `completed` was set true, over the board's goals after the write; otherwise `bingoType` is null and `boardComplete` false. Rejections change nothing |
| `BingoStore.Store.DeleteGoal` | app/api/goals/delete/route.ts:63-77 | when accepted, removes exactly that goal; boards and all other goals stay unchanged |

## Left out

- Failures of the database (every status 500 answer), the catch-all handlers and `console.error` logging. Every store write succeeds, except the free-space seed of a new board, whose outcome is the `seedAccepted` parameter.
- `lib/bingoDetection` (`checkForNewBingo`, `isBoardComplete`) is not part of this model. The two detectors are function parameters of `BingoStore.Store.UpdateGoal`; only when and on what they are called is modelled. A failed fetch of the board's goals, which leaves `bingoType` null, is not modelled.
- Authentication (`lib/auth.ts`), the Supabase client (`lib/supabase.ts`), `middleware.ts`, the pages and the build configuration. The session's user id is an `Option<UserId>` parameter.
- JSON parsing and JavaScript typing quirks. Requests are typed values. `position` is an integer: a missing or fractional position is not modelled, nor is a `text` that is not a string.
- Time stamps are opaque: the model stores the `now` parameter. Row defaults for `created_at` and `updated_at` are taken to be now.
- Ids the database generates (uuids) are parameters that must not be in use yet.
- The `locked || false` fallback: the lock column is a boolean, and a new board takes its default, unlocked. The `count || 0` fallback is also left out: the count is never null here.
- The store's unique constraint on (board, position) is checked before the insert. The answer is the same 409 and nothing is written.
- Concurrency between requests: each route is one atomic step on the store.
