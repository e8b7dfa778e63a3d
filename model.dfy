/**
 * The rows of the boards and goals tables, the request bodies of the seven
 * route handlers, and the rejections they answer with, grouped by HTTP status.
 */
module Model {

  datatype Option<+T> = None | Some(value: T) {
    function GetOr(default: T): T {
      match this
      case Some(v) => v
      case None => default
    }
  }

  type UserId = string
  type BoardId = string
  type GoalId = string
  /** An ISO-8601 time stamp; the handlers only ever store "now". */
  type Timestamp = string
  /** What the bingo detector reports for a completed line; its values are not modelled. */
  type BingoType = string

  /** A row of the boards table. */
  datatype Board = Board(
    id: BoardId,
    userId: UserId,
    title: string,
    year: int,
    locked: bool,
    createdAt: Timestamp,
    updatedAt: Timestamp)

  /** A row of the goals table; `position` is the cell of the 5x5 grid, row by row. */
  datatype Goal = Goal(
    id: GoalId,
    boardId: BoardId,
    position: int,
    text: string,
    completed: bool,
    completedAt: Option<Timestamp>,
    isFreeSpace: bool,
    createdAt: Timestamp,
    updatedAt: Timestamp)

  /** Body of a goal update: every field is optional (`undefined` is None). */
  datatype UpdateGoalRequest = UpdateGoalRequest(
    text: Option<string>,
    completed: Option<bool>,
    isFreeSpace: Option<bool>)

  /** Body of a goal creation; `position` is taken as a typed integer. */
  datatype CreateGoalRequest = CreateGoalRequest(
    boardId: Option<BoardId>,
    position: int,
    text: Option<string>,
    isFreeSpace: Option<bool>)

  /** Body of a board creation; a missing `year` is None. */
  datatype CreateBoardRequest = CreateBoardRequest(
    title: Option<string>,
    year: Option<int>,
    includeFreeSpace: Option<bool>)

  /** A string field of a request (or the session's user id) that JavaScript finds truthy. */
  predicate Present(s: Option<string>) {
    s.Some? && s.value != ""
  }

  /** `!year || year < lo || year > hi` rejects; 0 is falsy, so it is rejected even inside the range. */
  predicate ValidYear(year: Option<int>, lo: int, hi: int) {
    year.Some? && year.value != 0 && lo <= year.value <= hi
  }

  /** The reasons behind a 400 answer, one per kind of error the handlers report. */
  datatype Invalid =
    | GoalIdRequired
    | BoardIdRequired
    | BoardIdAndTextRequired
    | BoardIdAndLockedRequired
    | TitleRequired
    | YearOutOfRange(lo: int, hi: int)
    | PositionOutOfRange
    | FreeSpaceTextFrozen
    | CompletionNeedsLock
    | ContentFrozenWhenLocked
    | EmptyGoalText
    | TooFewGoals(missing: int)
    | FreeSpaceUndeletable

  /** The reasons behind a 403 answer. */
  datatype Denial = AccessDenied | NotBoardOwner | BoardNotFoundOrDenied

  datatype Entity = GoalEntity | BoardEntity

  /** A typed rejection; the constructor is the HTTP status. */
  datatype Rejection =
    | Unauthorized                 // 401
    | BadRequest(reason: Invalid)  // 400
    | Forbidden(denial: Denial)    // 403
    | NotFound(entity: Entity)     // 404
    | Conflict                     // 409: the goal's cell is taken
  {
    function Status(): int {
      match this
      case Unauthorized => 401
      case BadRequest(_) => 400
      case Forbidden(_) => 403
      case NotFound(_) => 404
      case Conflict => 409
    }
  }

  datatype Result<+T> = Ok(value: T) | Err(error: Rejection)
}
