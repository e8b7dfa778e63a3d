/**
 * The rules of the four board routes: create, update, toggle-lock and delete.
 */
module Boards {
  import opened Model
  import opened Text
  import opened Grid

  /** The cell a seeded free space takes: the centre of the 5x5 grid. */
  const FreeSpacePosition := 12
  const FreeSpaceText := "FREE SPACE"

  /** `!title || !title.trim()`: the title is missing or whitespace only. */
  predicate MissingTitle(title: Option<string>) {
    title.None? || Trim(title.value) == []
  }

  lemma MissingTitleIffBlank(title: Option<string>)
    ensures MissingTitle(title) <==> title.None? || IsBlank(title.value)
  {
    TrimEmptyIffBlank(title.GetOr([]));
  }

  // ===== app/api/boards/create =====

  /** The guard chain of a board creation; on success, the owner of the new board. */
  function CheckCreateBoard(user: Option<UserId>, req: CreateBoardRequest): (r: Result<UserId>)
    ensures r == Err(Unauthorized) <==> !Present(user)
    ensures r == Err(BadRequest(TitleRequired)) <==>
      Present(user) && (req.title.None? || IsBlank(req.title.value))
    ensures r == Err(BadRequest(YearOutOfRange(2000, 2100))) <==>
      Present(user) && req.title.Some? && !IsBlank(req.title.value) && !ValidYear(req.year, 2000, 2100)
    ensures r.Ok? <==>
      Present(user) && req.title.Some? && !IsBlank(req.title.value) && ValidYear(req.year, 2000, 2100)
    ensures r.Ok? ==> r.value == user.value
  {
    MissingTitleIffBlank(req.title);
    if !Present(user) then Err(Unauthorized)
    else if MissingTitle(req.title) then Err(BadRequest(TitleRequired))
    else if !ValidYear(req.year, 2000, 2100) then Err(BadRequest(YearOutOfRange(2000, 2100)))
    else Ok(user.value)
  }

  /** The row a board creation inserts; the lock flag takes the column default, unlocked. */
  function NewBoard(id: BoardId, owner: UserId, req: CreateBoardRequest, now: Timestamp): (b: Board)
    requires req.title.Some? && req.year.Some?
    ensures b.id == id && b.userId == owner && b.year == req.year.value
    ensures b.title == Trim(req.title.value) && IsTrimmed(b.title)
    ensures !b.locked
    ensures b.createdAt == now && b.updatedAt == now
  {
    Board(id, owner, Trim(req.title.value), req.year.value, false, now, now)
  }

  /** The free-space goal seeded into a new board: completed, in the centre cell. */
  function FreeSpaceGoal(id: GoalId, boardId: BoardId, now: Timestamp): (g: Goal)
    ensures g.id == id && g.boardId == boardId
    ensures g.position / 5 == 2 && g.position % 5 == 2
    ensures g.text == FreeSpaceText
    ensures g.isFreeSpace && g.completed && g.completedAt == Some(now)
    ensures CompletionConsistent(g) && 0 <= g.position < GridCells
  {
    Goal(id, boardId, FreeSpacePosition, FreeSpaceText, true, Some(now), true, now, now)
  }

  /** A new board, with or without its seeded free space, keeps the invariant of the tables. */
  lemma SeededBoardKeepsInvariant(
    boards: map<BoardId, Board>, goals: map<GoalId, Goal>, b: Board, seedId: GoalId, now: Timestamp)
    requires StoreInvariant(boards, goals)
    requires b.id !in boards && seedId !in goals
    ensures StoreInvariant(boards[b.id := b], goals)
    ensures StoreInvariant(boards[b.id := b], goals[seedId := FreeSpaceGoal(seedId, b.id, now)])
  {
    InsertBoardKeepsInvariant(boards, goals, b);
    var seed := FreeSpaceGoal(seedId, b.id, now);
    assert BoardGoalIds(goals, b.id) == {};
    assert !Occupied(goals, b.id, seed.position);
    InsertGoalKeepsInvariant(boards[b.id := b], goals, seed);
  }

  // ===== app/api/boards/update =====

  /** The guard chain of a board update; the title and year are checked before the board is looked up. */
  function CheckUpdateBoard(
    boards: map<BoardId, Board>, user: Option<UserId>,
    boardId: Option<BoardId>, title: Option<string>, year: Option<int>): (r: Result<BoardId>)
    ensures r == Err(Unauthorized) <==> !Present(user)
    ensures Present(user) && !Present(boardId) ==> r == Err(BadRequest(BoardIdRequired))
    ensures r == Err(BadRequest(TitleRequired)) <==>
      Present(user) && Present(boardId) && (title.None? || IsBlank(title.value))
    ensures r == Err(BadRequest(YearOutOfRange(1900, 2100))) <==>
      Present(user) && Present(boardId) && title.Some? && !IsBlank(title.value) && !ValidYear(year, 1900, 2100)
    ensures r == Err(Forbidden(BoardNotFoundOrDenied)) <==>
      && Present(user) && Present(boardId) && title.Some? && !IsBlank(title.value) && ValidYear(year, 1900, 2100)
      && (boardId.value !in boards || boards[boardId.value].userId != user.value)
    ensures r.Ok? <==>
      && Present(user) && Present(boardId) && title.Some? && !IsBlank(title.value) && ValidYear(year, 1900, 2100)
      && boardId.value in boards && boards[boardId.value].userId == user.value
    ensures r.Ok? ==> r.value == boardId.value
  {
    MissingTitleIffBlank(title);
    if !Present(user) then Err(Unauthorized)
    else if !Present(boardId) then Err(BadRequest(BoardIdRequired))
    else if MissingTitle(title) then Err(BadRequest(TitleRequired))
    else if !ValidYear(year, 1900, 2100) then Err(BadRequest(YearOutOfRange(1900, 2100)))
    else if boardId.value !in boards || boards[boardId.value].userId != user.value then
      Err(Forbidden(BoardNotFoundOrDenied))
    else Ok(boardId.value)
  }

  /** The two routes disagree on years: a year of the 1900s passes an update but fails a creation. */
  lemma YearBoundsDisagree(
    boards: map<BoardId, Board>, user: Option<UserId>, boardId: Option<BoardId>,
    title: Option<string>, year: int, includeFreeSpace: Option<bool>)
    requires 1900 <= year < 2000
    requires CheckUpdateBoard(boards, user, boardId, title, Some(year)).Ok?
    ensures CheckCreateBoard(user, CreateBoardRequest(title, Some(year), includeFreeSpace))
         == Err(BadRequest(YearOutOfRange(2000, 2100)))
  {
  }

  /** A board update never reads the lock flag: a locked board's title and year can still change. */
  lemma UpdateBoardIgnoresLock(
    boards: map<BoardId, Board>, user: Option<UserId>, boardId: Option<BoardId>,
    title: Option<string>, year: Option<int>, b: BoardId, locked: bool)
    requires b in boards
    ensures CheckUpdateBoard(boards[b := boards[b].(locked := locked)], user, boardId, title, year)
         == CheckUpdateBoard(boards, user, boardId, title, year)
  {
  }

  // ===== app/api/boards/toggle-lock =====

  /** The guard chain of a lock change; locking needs exactly 25 goals, unlocking nothing more. */
  function CheckToggleLock(
    boards: map<BoardId, Board>, goals: map<GoalId, Goal>,
    user: Option<UserId>, boardId: Option<BoardId>, locked: Option<bool>): (r: Result<BoardId>)
    ensures r == Err(Unauthorized) <==> !Present(user)
    ensures Present(user) && (!Present(boardId) || locked.None?) ==> r == Err(BadRequest(BoardIdAndLockedRequired))
    ensures r == Err(NotFound(BoardEntity)) <==>
      Present(user) && Present(boardId) && locked.Some? && boardId.value !in boards
    ensures r == Err(Forbidden(NotBoardOwner)) <==>
      && Present(user) && Present(boardId) && locked.Some? && boardId.value in boards
      && boards[boardId.value].userId != user.value
    ensures
      && Present(user) && Present(boardId) && locked == Some(true)
      && boardId.value in boards && boards[boardId.value].userId == user.value
      && GoalCount(goals, boardId.value) != GridCells
      ==> r == Err(BadRequest(TooFewGoals(GridCells - GoalCount(goals, boardId.value))))
    ensures r.Err? && r.error.BadRequest? && r.error.reason.TooFewGoals? ==>
      && Present(boardId) && boardId.value in boards && locked == Some(true)
      && GoalCount(goals, boardId.value) != GridCells
      && r.error.reason.missing == GridCells - GoalCount(goals, boardId.value)
    ensures r.Ok? <==>
      && Present(user) && Present(boardId) && locked.Some?
      && boardId.value in boards && boards[boardId.value].userId == user.value
      && (locked.value ==> GoalCount(goals, boardId.value) == GridCells)
    ensures r.Ok? ==> r.value == boardId.value
  {
    if !Present(user) then Err(Unauthorized)
    else if !Present(boardId) || locked.None? then Err(BadRequest(BoardIdAndLockedRequired))
    else if boardId.value !in boards then Err(NotFound(BoardEntity))
    else if boards[boardId.value].userId != user.value then Err(Forbidden(NotBoardOwner))
    else if locked.value && GoalCount(goals, boardId.value) != 25 then
      Err(BadRequest(TooFewGoals(25 - GoalCount(goals, boardId.value))))
    else Ok(boardId.value)
  }

  /** On a store that keeps its invariant, the shortfall in the lock message is between 1 and 25. */
  lemma ShortfallIsPositive(
    boards: map<BoardId, Board>, goals: map<GoalId, Goal>,
    user: Option<UserId>, boardId: Option<BoardId>, locked: Option<bool>, missing: int)
    requires StoreInvariant(boards, goals)
    requires CheckToggleLock(boards, goals, user, boardId, locked) == Err(BadRequest(TooFewGoals(missing)))
    ensures 1 <= missing <= GridCells
  {
    AtMostGridCells(goals, boardId.value);
  }

  /** On a store that keeps its invariant, a board may be locked exactly when all 25 cells are filled. */
  lemma LockMeansGridFull(
    boards: map<BoardId, Board>, goals: map<GoalId, Goal>, user: Option<UserId>, b: BoardId)
    requires StoreInvariant(boards, goals)
    requires Present(user) && b != "" && b in boards && boards[b].userId == user.value
    ensures CheckToggleLock(boards, goals, user, Some(b), Some(true)).Ok?
        <==> forall p :: 0 <= p < GridCells ==> Occupied(goals, b, p)
  {
    FullIffEveryCellOccupied(goals, b);
  }

  // ===== app/api/boards/delete =====

  /** The guard chain of a board deletion; a missing board is 404, another user's board 403. */
  function CheckDeleteBoard(
    boards: map<BoardId, Board>, user: Option<UserId>, boardId: Option<BoardId>): (r: Result<BoardId>)
    ensures r == Err(Unauthorized) <==> !Present(user)
    ensures Present(user) && !Present(boardId) ==> r == Err(BadRequest(BoardIdRequired))
    ensures r == Err(NotFound(BoardEntity)) <==> Present(user) && Present(boardId) && boardId.value !in boards
    ensures r == Err(Forbidden(NotBoardOwner)) <==>
      Present(user) && Present(boardId) && boardId.value in boards && boards[boardId.value].userId != user.value
    ensures r.Ok? <==>
      Present(user) && Present(boardId) && boardId.value in boards && boards[boardId.value].userId == user.value
    ensures r.Ok? ==> r.value == boardId.value
  {
    if !Present(user) then Err(Unauthorized)
    else if !Present(boardId) then Err(BadRequest(BoardIdRequired))
    else if boardId.value !in boards then Err(NotFound(BoardEntity))
    else if boards[boardId.value].userId != user.value then Err(Forbidden(NotBoardOwner))
    else Ok(boardId.value)
  }

  /** The goals that survive deleting board `b`: every goal of `b` goes with it. */
  function WithoutBoardGoals(goals: map<GoalId, Goal>, b: BoardId): (r: map<GoalId, Goal>)
    ensures forall g :: g in r <==> g in goals && goals[g].boardId != b
    ensures forall g :: g in r ==> r[g] == goals[g]
    ensures GoalCount(r, b) == 0
  {
    var r := map g | g in goals && goals[g].boardId != b :: goals[g];
    assert BoardGoalIds(r, b) == {};
    r
  }
}
