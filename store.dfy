/**
 * The boards and goals tables as one in-memory store, with one method per
 * route handler. Each method runs the route's guard chain and, when every
 * guard passes, performs exactly the one write the handler performs.
 */
module BingoStore {
  import opened Model
  import opened Text
  import opened Grid
  import opened Goals
  import opened Boards

  /** The answer of a goal update: the updated row and what the detectors reported. */
  datatype GoalUpdated = GoalUpdated(goal: Goal, bingoType: Option<BingoType>, boardComplete: bool)

  class Store {
    var boards: map<BoardId, Board>
    var goals: map<GoalId, Goal>

    ghost predicate Valid()
      reads this
    {
      StoreInvariant(boards, goals)
    }

    constructor ()
      ensures Valid()
      ensures boards == map[] && goals == map[]
    {
      boards := map[];
      goals := map[];
    }

    /** POST /api/boards/create. `seedAccepted` is whether the store took the free-space insert. */
    method CreateBoard(
      user: Option<UserId>, req: CreateBoardRequest,
      id: BoardId, seedId: GoalId, seedAccepted: bool, now: Timestamp) returns (r: Result<Board>)
      requires Valid()
      requires id !in boards && seedId !in goals
      modifies this
      ensures Valid()
      ensures var c := CheckCreateBoard(user, req);
        if c.Err? then
          r == Err(c.error) && boards == old(boards) && goals == old(goals)
        else
          && r == Ok(NewBoard(id, c.value, req, now))
          && boards == old(boards)[id := NewBoard(id, c.value, req, now)]
          && goals == if req.includeFreeSpace == Some(true) && seedAccepted
                      then old(goals)[seedId := FreeSpaceGoal(seedId, id, now)]
                      else old(goals)
    {
      var c := CheckCreateBoard(user, req);
      if c.Err? {
        return Err(c.error);
      }
      var board := NewBoard(id, c.value, req, now);
      SeededBoardKeepsInvariant(boards, goals, board, seedId, now);
      var newGoals := goals;
      // Best effort: a failed insert of the free space does not fail the creation.
      if req.includeFreeSpace == Some(true) && seedAccepted {
        newGoals := goals[seedId := FreeSpaceGoal(seedId, id, now)];
      }
      boards, goals := boards[id := board], newGoals;
      r := Ok(board);
    }

    /** POST /api/boards/update: only the title, the year and `updated_at` change. */
    method UpdateBoard(
      user: Option<UserId>, boardId: Option<BoardId>, title: Option<string>, year: Option<int>,
      now: Timestamp) returns (r: Result<Board>)
      requires Valid()
      modifies this
      ensures Valid()
      ensures goals == old(goals)
      ensures var c := CheckUpdateBoard(old(boards), user, boardId, title, year);
        if c.Err? then
          r == Err(c.error) && boards == old(boards)
        else
          var updated := old(boards)[c.value].(title := Trim(title.value), year := year.value, updatedAt := now);
          r == Ok(updated) && boards == old(boards)[c.value := updated]
    {
      var c := CheckUpdateBoard(boards, user, boardId, title, year);
      if c.Err? {
        return Err(c.error);
      }
      var updated := boards[c.value].(title := Trim(title.value), year := year.value, updatedAt := now);
      ReplaceBoardKeepsInvariant(boards, goals, updated);
      boards := boards[c.value := updated];
      r := Ok(updated);
    }

    /** POST /api/boards/toggle-lock: writes the requested flag and echoes it. */
    method ToggleLock(
      user: Option<UserId>, boardId: Option<BoardId>, locked: Option<bool>) returns (r: Result<bool>)
      requires Valid()
      modifies this
      ensures Valid()
      ensures goals == old(goals)
      ensures var c := CheckToggleLock(old(boards), old(goals), user, boardId, locked);
        if c.Err? then
          r == Err(c.error) && boards == old(boards)
        else
          r == Ok(locked.value) && boards == old(boards)[c.value := old(boards)[c.value].(locked := locked.value)]
    {
      var c := CheckToggleLock(boards, goals, user, boardId, locked);
      if c.Err? {
        return Err(c.error);
      }
      ReplaceBoardKeepsInvariant(boards, goals, boards[c.value].(locked := locked.value));
      boards := boards[c.value := boards[c.value].(locked := locked.value)];
      r := Ok(locked.value);
    }

    /** POST /api/boards/delete: the board goes, and every goal on it with it. */
    method DeleteBoard(user: Option<UserId>, boardId: Option<BoardId>) returns (r: Result<()>)
      requires Valid()
      modifies this
      ensures Valid()
      ensures var c := CheckDeleteBoard(old(boards), user, boardId);
        if c.Err? then
          r == Err(c.error) && boards == old(boards) && goals == old(goals)
        else
          r == Ok(()) && boards == old(boards) - {c.value} && goals == WithoutBoardGoals(old(goals), c.value)
    {
      var c := CheckDeleteBoard(boards, user, boardId);
      if c.Err? {
        return Err(c.error);
      }
      boards := boards - {c.value};
      goals := WithoutBoardGoals(goals, c.value);
      r := Ok(());
    }

    /** POST /api/goals/create. `id` is the id the store gives the new row. */
    method CreateGoal(
      user: Option<UserId>, req: CreateGoalRequest, id: GoalId, now: Timestamp) returns (r: Result<Goal>)
      requires Valid()
      requires id !in goals
      modifies this
      ensures Valid()
      ensures boards == old(boards)
      ensures var c := CheckCreateGoal(old(boards), old(goals), user, req);
        if c.Err? then
          r == Err(c.error) && goals == old(goals)
        else
          r == Ok(NewGoal(id, c.value, req, now)) && goals == old(goals)[id := NewGoal(id, c.value, req, now)]
    {
      var c := CheckCreateGoal(boards, goals, user, req);
      if c.Err? {
        return Err(c.error);
      }
      var goal := BuildGoalData(id, c.value, req, now);
      InsertGoalKeepsInvariant(boards, goals, goal);
      goals := goals[id := goal];
      r := Ok(goal);
    }

    /**
     * POST /api/goals/update. The bingo detector and the board-complete check are not
     * part of this model; they are passed in and called only as the handler calls them.
     */
    method UpdateGoal(
      user: Option<UserId>, goalId: Option<GoalId>, req: UpdateGoalRequest, now: Timestamp,
      checkForNewBingo: (map<GoalId, Goal>, int) -> Option<BingoType>,
      isBoardComplete: map<GoalId, Goal> -> bool) returns (r: Result<GoalUpdated>)
      requires Valid()
      modifies this
      ensures Valid()
      ensures boards == old(boards)
      ensures var c := CheckGoalUpdate(old(boards), old(goals), user, goalId, req);
              var n := NormalizeUpdates(req, now);
        if c.Err? then
          r == Err(c.error) && goals == old(goals)
        else if n.Err? then
          r == Err(n.error) && goals == old(goals)
        else
          var g := ApplyUpdates(old(goals)[c.value], n.value);
          && goals == old(goals)[c.value := g]
          && r.Ok? && r.value.goal == g
          && if RunsDetection(req) then
               && r.value.bingoType == checkForNewBingo(GoalsOf(goals, g.boardId), g.position)
               && r.value.boardComplete == isBoardComplete(GoalsOf(goals, g.boardId))
             else
               r.value.bingoType == None && !r.value.boardComplete
    {
      var c := CheckGoalUpdate(boards, goals, user, goalId, req);
      if c.Err? {
        return Err(c.error);
      }
      var updates := BuildUpdates(req, now);
      if updates.Err? {
        return Err(updates.error);
      }
      var goal := ApplyUpdates(goals[c.value], updates.value);
      goals := goals[c.value := goal];
      var bingoType: Option<BingoType> := None;
      var boardComplete := false;
      if req.completed == Some(true) {
        var boardGoals := GoalsOf(goals, goal.boardId);
        bingoType := checkForNewBingo(boardGoals, goal.position);
        boardComplete := isBoardComplete(boardGoals);
      }
      r := Ok(GoalUpdated(goal, bingoType, boardComplete));
    }

    /** POST /api/goals/delete: exactly the one goal goes. */
    method DeleteGoal(user: Option<UserId>, goalId: Option<GoalId>) returns (r: Result<()>)
      requires Valid()
      modifies this
      ensures Valid()
      ensures boards == old(boards)
      ensures var c := CheckDeleteGoal(old(boards), old(goals), user, goalId);
        if c.Err? then
          r == Err(c.error) && goals == old(goals)
        else
          r == Ok(()) && goals == old(goals) - {c.value}
    {
      var c := CheckDeleteGoal(boards, goals, user, goalId);
      if c.Err? {
        return Err(c.error);
      }
      goals := goals - {c.value};
      r := Ok(());
    }
  }
}
