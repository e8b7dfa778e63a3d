/**
 * The rules of the three goal routes: the guard chains that decide between a
 * typed rejection and a write, and the rows or payloads those writes carry.
 */
module Goals {
  import opened Model
  import opened Text
  import opened Grid

  /** The goal exists and the inner join with its board finds the board. */
  predicate GoalOnBoard(boards: map<BoardId, Board>, goals: map<GoalId, Goal>, id: GoalId) {
    id in goals && goals[id].boardId in boards
  }

  // ===== app/api/goals/update =====

  /** The free-space and lock rules of a goal update, in the order the handler applies them. */
  function LockRules(isFreeSpace: bool, locked: bool, req: UpdateGoalRequest): (r: Option<Invalid>)
    ensures r.None? <==>
      && (isFreeSpace && req.text.Some? ==> req.isFreeSpace == Some(false))
      && (!locked ==> req.completed.None?)
      && (locked ==> req.text.None? && req.isFreeSpace.None?)
    ensures isFreeSpace && req.text.Some? && req.isFreeSpace != Some(false) ==> r == Some(FreeSpaceTextFrozen)
    ensures r == Some(CompletionNeedsLock) <==>
      !(isFreeSpace && req.text.Some? && req.isFreeSpace != Some(false)) && !locked && req.completed.Some?
    ensures r == Some(ContentFrozenWhenLocked) <==>
      && !(isFreeSpace && req.text.Some? && req.isFreeSpace != Some(false))
      && locked && (req.text.Some? || req.isFreeSpace.Some?)
  {
    if isFreeSpace && req.text.Some? && req.isFreeSpace != Some(false) then Some(FreeSpaceTextFrozen)
    else if !locked && req.completed.Some? then Some(CompletionNeedsLock)
    else if locked && (req.text.Some? || req.isFreeSpace.Some?) then Some(ContentFrozenWhenLocked)
    else None
  }

  /** The guard chain of a goal update up to the lock rules; on success, the goal to update. */
  function CheckGoalUpdate(
    boards: map<BoardId, Board>, goals: map<GoalId, Goal>,
    user: Option<UserId>, goalId: Option<GoalId>, req: UpdateGoalRequest): (r: Result<GoalId>)
    ensures r == Err(Unauthorized) <==> !Present(user)
    ensures Present(user) && !Present(goalId) ==> r == Err(BadRequest(GoalIdRequired))
    ensures r == Err(NotFound(GoalEntity)) <==>
      Present(user) && Present(goalId) && !GoalOnBoard(boards, goals, goalId.value)
    ensures r == Err(Forbidden(AccessDenied)) <==>
      && Present(user) && Present(goalId) && GoalOnBoard(boards, goals, goalId.value)
      && boards[goals[goalId.value].boardId].userId != user.value
    ensures r.Ok? <==>
      && Present(user) && Present(goalId) && GoalOnBoard(boards, goals, goalId.value)
      && boards[goals[goalId.value].boardId].userId == user.value
      && LockRules(goals[goalId.value].isFreeSpace, boards[goals[goalId.value].boardId].locked, req).None?
    ensures
      && Present(user) && Present(goalId) && GoalOnBoard(boards, goals, goalId.value)
      && boards[goals[goalId.value].boardId].userId == user.value
      && LockRules(goals[goalId.value].isFreeSpace, boards[goals[goalId.value].boardId].locked, req).Some?
      ==> r == Err(BadRequest(LockRules(goals[goalId.value].isFreeSpace, boards[goals[goalId.value].boardId].locked, req).value))
    ensures r.Ok? ==> r.value == goalId.value
  {
    if !Present(user) then Err(Unauthorized)
    else if !Present(goalId) then Err(BadRequest(GoalIdRequired))
    else if !GoalOnBoard(boards, goals, goalId.value) then Err(NotFound(GoalEntity))
    else
      var goal := goals[goalId.value];
      var board := boards[goal.boardId];
      if board.userId != user.value then Err(Forbidden(AccessDenied))
      else match LockRules(goal.isFreeSpace, board.locked, req)
        case Some(reason) => Err(BadRequest(reason))
        case None => Ok(goalId.value)
  }

  /** The normalised update payload; None leaves that column as it is. */
  datatype GoalUpdates = GoalUpdates(
    updatedAt: Timestamp,
    text: Option<string>,
    completed: Option<bool>,
    completedAt: Option<Option<Timestamp>>,
    isFreeSpace: Option<bool>)

  /** A payload never writes `completed` without the matching `completed_at`, nor the other way round. */
  predicate UpdatesConsistent(u: GoalUpdates) {
    && (u.completed.Some? <==> u.completedAt.Some?)
    && (u.completed.Some? ==> (u.completed.value <==> u.completedAt.value.Some?))
  }

  /** The `completed` and `completed_at` columns an update writes; `is_free_space: true` wins over `completed`. */
  function CompletionColumns(req: UpdateGoalRequest, now: Timestamp): (c: (Option<bool>, Option<Option<Timestamp>>))
    ensures c.0.Some? <==> c.1.Some?
    ensures c.0.Some? ==> (c.0.value <==> c.1.value.Some?)
    ensures c.0 == Some(true) ==> c.1 == Some(Some(now))
    ensures req.isFreeSpace == Some(true) ==> c.0 == Some(true)
    ensures req.isFreeSpace != Some(true) ==> c.0 == req.completed
  {
    if req.isFreeSpace == Some(true) then (Some(true), Some(Some(now)))
    else if req.completed.Some? then (req.completed, Some(if req.completed.value then Some(now) else None))
    else (None, None)
  }

  /** The payload a request normalises to, or the rejection of blank text. */
  function NormalizeUpdates(req: UpdateGoalRequest, now: Timestamp): (r: Result<GoalUpdates>)
    ensures r.Err? <==> req.text.Some? && IsBlank(req.text.value)
    ensures r.Err? ==> r.error == BadRequest(EmptyGoalText)
    ensures r.Ok? ==> UpdatesConsistent(r.value) && r.value.updatedAt == now
    ensures r.Ok? ==> (r.value.text.Some? <==> req.text.Some?)
    ensures r.Ok? && r.value.text.Some? ==>
      r.value.text.value != [] && IsTrimmed(r.value.text.value) && r.value.text.value == Trim(req.text.value)
    ensures r.Ok? ==> r.value.isFreeSpace == req.isFreeSpace
    ensures r.Ok? && req.isFreeSpace == Some(true) ==>
      r.value.completed == Some(true) && r.value.completedAt == Some(Some(now))
    ensures r.Ok? && req.isFreeSpace != Some(true) ==> r.value.completed == req.completed
    ensures r.Ok? && r.value.completed == Some(true) ==> r.value.completedAt == Some(Some(now))
  {
    if req.text.Some? && Trim(req.text.value) == [] then
      TrimEmptyIffBlank(req.text.value);
      Err(BadRequest(EmptyGoalText))
    else
      TrimEmptyIffBlank(req.text.GetOr([]));
      var completion := CompletionColumns(req, now);
      Ok(GoalUpdates(
        now,
        if req.text.Some? then Some(Trim(req.text.value)) else None,
        completion.0,
        completion.1,
        req.isFreeSpace))
  }

  /** Builds the `updates` object field by field, as the handler does. */
  method BuildUpdates(req: UpdateGoalRequest, now: Timestamp) returns (r: Result<GoalUpdates>)
    ensures r == NormalizeUpdates(req, now)
  {
    var updates := GoalUpdates(now, None, None, None, None);
    if req.text.Some? {
      var trimmed := Trim(req.text.value);
      if trimmed == [] {
        return Err(BadRequest(EmptyGoalText));
      }
      updates := updates.(text := Some(trimmed));
    }
    if req.completed.Some? {
      updates := updates.(completed := req.completed);
      updates := updates.(completedAt := Some(if req.completed.value then Some(now) else None));
    }
    if req.isFreeSpace.Some? {
      updates := updates.(isFreeSpace := req.isFreeSpace);
      if req.isFreeSpace.value {
        updates := updates.(completed := Some(true));
        updates := updates.(completedAt := Some(Some(now)));
      }
    }
    assert (updates.completed, updates.completedAt) == CompletionColumns(req, now);
    assert req.text.Some? ==> Trim(req.text.value) != [];
    r := Ok(updates);
  }

  /** The row the store returns after writing payload `u` over goal `g`. */
  function ApplyUpdates(g: Goal, u: GoalUpdates): (r: Goal)
    ensures r.id == g.id && r.boardId == g.boardId && r.position == g.position && r.createdAt == g.createdAt
    ensures r.updatedAt == u.updatedAt
    ensures r.text == u.text.GetOr(g.text)
    ensures r.completed == u.completed.GetOr(g.completed) && r.completedAt == u.completedAt.GetOr(g.completedAt)
    ensures r.isFreeSpace == u.isFreeSpace.GetOr(g.isFreeSpace)
    ensures CompletionConsistent(g) && UpdatesConsistent(u) ==> CompletionConsistent(r)
  {
    g.(text := u.text.GetOr(g.text),
       completed := u.completed.GetOr(g.completed),
       completedAt := u.completedAt.GetOr(g.completedAt),
       isFreeSpace := u.isFreeSpace.GetOr(g.isFreeSpace),
       updatedAt := u.updatedAt)
  }

  /** The bingo and board-complete detectors run only when the request set `completed` to true. */
  predicate RunsDetection(req: UpdateGoalRequest) {
    req.completed == Some(true)
  }

  /** An accepted update that sets `completed` happens on a locked board and changes only completion. */
  lemma CompletionOnlyOnLockedBoards(
    boards: map<BoardId, Board>, goals: map<GoalId, Goal>,
    user: Option<UserId>, goalId: Option<GoalId>, req: UpdateGoalRequest)
    requires CheckGoalUpdate(boards, goals, user, goalId, req).Ok?
    requires req.completed.Some?
    ensures boards[goals[goalId.value].boardId].locked
    ensures req.text.None? && req.isFreeSpace.None?
  {
  }

  /**
   * "A free space is always completed" is not kept by updates: on a locked
   * board the owner may set `completed` to false on the free-space goal.
   */
  lemma FreeSpaceCanBeUncompleted(g: Goal, now: Timestamp)
    requires g.isFreeSpace
    ensures var req := UpdateGoalRequest(None, Some(false), None);
      && LockRules(g.isFreeSpace, true, req).None?
      && NormalizeUpdates(req, now).Ok?
      && var after := ApplyUpdates(g, NormalizeUpdates(req, now).value);
         after.isFreeSpace && !after.completed && after.completedAt == None
  {
  }

  /**
   * Completion is not confined to locked boards: on an unlocked board the owner
   * may send `is_free_space: true`, which passes the rules and completes the goal.
   */
  lemma FreeSpaceCompletesOnUnlockedBoard(g: Goal, now: Timestamp)
    ensures var req := UpdateGoalRequest(None, None, Some(true));
      && LockRules(g.isFreeSpace, false, req).None?
      && NormalizeUpdates(req, now).Ok?
      && var after := ApplyUpdates(g, NormalizeUpdates(req, now).value);
         after.isFreeSpace && after.completed && after.completedAt == Some(now)
  {
  }

  // ===== app/api/goals/create =====

  /** The guard chain of a goal creation; on success, the board the goal goes on. */
  function CheckCreateGoal(
    boards: map<BoardId, Board>, goals: map<GoalId, Goal>,
    user: Option<UserId>, req: CreateGoalRequest): (r: Result<BoardId>)
    ensures r == Err(Unauthorized) <==> !Present(user)
    ensures r == Err(BadRequest(BoardIdAndTextRequired)) <==>
      Present(user) && (!Present(req.boardId) || req.text.None? || IsBlank(req.text.value))
    ensures r == Err(BadRequest(PositionOutOfRange)) <==>
      && Present(user) && Present(req.boardId) && req.text.Some? && !IsBlank(req.text.value)
      && !(0 <= req.position < GridCells)
    ensures r == Err(Forbidden(BoardNotFoundOrDenied)) <==>
      && Present(user) && Present(req.boardId) && req.text.Some? && !IsBlank(req.text.value)
      && 0 <= req.position < GridCells
      && (req.boardId.value !in boards || boards[req.boardId.value].userId != user.value)
    ensures r == Err(Conflict) <==>
      && Present(user) && Present(req.boardId) && req.text.Some? && !IsBlank(req.text.value)
      && 0 <= req.position < GridCells
      && req.boardId.value in boards && boards[req.boardId.value].userId == user.value
      && Occupied(goals, req.boardId.value, req.position)
    ensures r.Ok? <==>
      && Present(user) && Present(req.boardId) && req.text.Some? && !IsBlank(req.text.value)
      && 0 <= req.position < GridCells
      && req.boardId.value in boards && boards[req.boardId.value].userId == user.value
      && !Occupied(goals, req.boardId.value, req.position)
    ensures r.Ok? ==> r.value == req.boardId.value
  {
    if !Present(user) then Err(Unauthorized)
    else if !Present(req.boardId) || req.text.None? || Trim(req.text.value) == [] then
      TrimEmptyIffBlank(req.text.GetOr([]));
      Err(BadRequest(BoardIdAndTextRequired))
    else
      TrimEmptyIffBlank(req.text.value);
      if req.position < 0 || req.position > 24 then Err(BadRequest(PositionOutOfRange))
      else if req.boardId.value !in boards || boards[req.boardId.value].userId != user.value then
        Err(Forbidden(BoardNotFoundOrDenied))
      else if Occupied(goals, req.boardId.value, req.position) then Err(Conflict)
      else Ok(req.boardId.value)
  }

  /** The row a goal creation inserts. */
  function NewGoal(id: GoalId, boardId: BoardId, req: CreateGoalRequest, now: Timestamp): (g: Goal)
    requires req.text.Some?
    ensures g.id == id && g.boardId == boardId && g.position == req.position
    ensures g.text == Trim(req.text.value) && IsTrimmed(g.text)
    ensures g.isFreeSpace == (req.isFreeSpace == Some(true))
    ensures g.completed == g.isFreeSpace
    ensures g.completedAt == (if g.isFreeSpace then Some(now) else None)
    ensures CompletionConsistent(g)
    ensures g.createdAt == now && g.updatedAt == now
  {
    var isFreeSpace := req.isFreeSpace.GetOr(false);
    Goal(id, boardId, req.position, Trim(req.text.value), isFreeSpace,
         if isFreeSpace then Some(now) else None, isFreeSpace, now, now)
  }

  /** Builds `goalData` and then adds `completed_at` for a free space, as the handler does. */
  method BuildGoalData(id: GoalId, boardId: BoardId, req: CreateGoalRequest, now: Timestamp) returns (g: Goal)
    requires req.text.Some?
    ensures g == NewGoal(id, boardId, req, now)
  {
    var isFreeSpace := req.isFreeSpace.GetOr(false);
    g := Goal(id, boardId, req.position, Trim(req.text.value), isFreeSpace, None, isFreeSpace, now, now);
    if isFreeSpace {
      g := g.(completedAt := Some(now));
    }
  }

  /** A second creation at the cell the first one filled is a conflict. */
  lemma SecondCreateConflicts(
    boards: map<BoardId, Board>, goals: map<GoalId, Goal>,
    user: Option<UserId>, req: CreateGoalRequest, id: GoalId, now: Timestamp)
    requires CheckCreateGoal(boards, goals, user, req).Ok?
    ensures var g := NewGoal(id, req.boardId.value, req, now);
      CheckCreateGoal(boards, goals[id := g], user, req) == Err(Conflict)
  {
    var g := NewGoal(id, req.boardId.value, req, now);
    var after := goals[id := g];
    assert id in BoardGoalIds(after, req.boardId.value);
    assert Occupied(after, req.boardId.value, req.position);
  }

  /** Creation never reads the board's lock flag: it succeeds on locked boards too. */
  lemma CreateIgnoresLock(
    boards: map<BoardId, Board>, goals: map<GoalId, Goal>,
    user: Option<UserId>, req: CreateGoalRequest, b: BoardId, locked: bool)
    requires b in boards
    ensures CheckCreateGoal(boards[b := boards[b].(locked := locked)], goals, user, req)
         == CheckCreateGoal(boards, goals, user, req)
  {
  }

  // ===== app/api/goals/delete =====

  /** The guard chain of a goal deletion; on success, the goal to remove. */
  function CheckDeleteGoal(
    boards: map<BoardId, Board>, goals: map<GoalId, Goal>,
    user: Option<UserId>, goalId: Option<GoalId>): (r: Result<GoalId>)
    ensures r == Err(Unauthorized) <==> !Present(user)
    ensures Present(user) && !Present(goalId) ==> r == Err(BadRequest(GoalIdRequired))
    ensures r == Err(NotFound(GoalEntity)) <==>
      Present(user) && Present(goalId) && !GoalOnBoard(boards, goals, goalId.value)
    ensures r == Err(Forbidden(AccessDenied)) <==>
      && Present(user) && Present(goalId) && GoalOnBoard(boards, goals, goalId.value)
      && boards[goals[goalId.value].boardId].userId != user.value
    ensures Present(goalId) && goalId.value in goals && goals[goalId.value].isFreeSpace ==> r.Err?
    ensures r == Err(BadRequest(FreeSpaceUndeletable)) <==>
      && Present(user) && Present(goalId) && GoalOnBoard(boards, goals, goalId.value)
      && boards[goals[goalId.value].boardId].userId == user.value
      && goals[goalId.value].isFreeSpace
    ensures r.Ok? <==>
      && Present(user) && Present(goalId) && GoalOnBoard(boards, goals, goalId.value)
      && boards[goals[goalId.value].boardId].userId == user.value
      && !goals[goalId.value].isFreeSpace
    ensures r.Ok? ==> r.value == goalId.value
  {
    if !Present(user) then Err(Unauthorized)
    else if !Present(goalId) then Err(BadRequest(GoalIdRequired))
    else if !GoalOnBoard(boards, goals, goalId.value) then Err(NotFound(GoalEntity))
    else if boards[goals[goalId.value].boardId].userId != user.value then Err(Forbidden(AccessDenied))
    else if goals[goalId.value].isFreeSpace then Err(BadRequest(FreeSpaceUndeletable))
    else Ok(goalId.value)
  }

  /** Deletion never reads the board's lock flag. */
  lemma DeleteIgnoresLock(
    boards: map<BoardId, Board>, goals: map<GoalId, Goal>,
    user: Option<UserId>, goalId: Option<GoalId>, b: BoardId, locked: bool)
    requires b in boards
    ensures CheckDeleteGoal(boards[b := boards[b].(locked := locked)], goals, user, goalId)
         == CheckDeleteGoal(boards, goals, user, goalId)
  {
  }

  /**
   * "A locked board has 25 goals" is not kept: deleting an ordinary goal of a
   * locked, full board is accepted and leaves the board locked with 24 goals.
   */
  lemma LockedBoardCanLoseGoal(
    boards: map<BoardId, Board>, goals: map<GoalId, Goal>, user: Option<UserId>, id: GoalId)
    requires StoreInvariant(boards, goals)
    requires Present(user) && id != "" && id in goals && !goals[id].isFreeSpace
    requires boards[goals[id].boardId].userId == user.value && boards[goals[id].boardId].locked
    requires GoalCount(goals, goals[id].boardId) == GridCells
    ensures CheckDeleteGoal(boards, goals, user, Some(id)) == Ok(id)
    ensures GoalCount(goals - {id}, goals[id].boardId) == GridCells - 1
  {
    RemoveGoalCount(goals, id, goals[id].boardId);
  }
}
