/**
 * The goals table seen as 5x5 grids, one per board: which cells a board
 * occupies, how many goals it has, and the invariant every route keeps.
 */
module Grid {
  import opened Model

  const GridCells := 25

  /** The integers 0..n-1, counted. */
  function Range(n: nat): (r: set<int>)
    ensures forall p :: p in r <==> 0 <= p < n
    ensures |r| == n
  {
    if n == 0 then {} else
      var r := Range(n - 1);
      assert n - 1 !in r;
      r + {n - 1}
  }

  /** The ids of the goals that reference board `b`. */
  function BoardGoalIds(goals: map<GoalId, Goal>, b: BoardId): set<GoalId> {
    set g | g in goals && goals[g].boardId == b
  }

  /** `count` of `select * from goals where board_id = b`. */
  function GoalCount(goals: map<GoalId, Goal>, b: BoardId): nat {
    |BoardGoalIds(goals, b)|
  }

  /** The cells held by the goals `ids`. */
  function PositionsOfIds(goals: map<GoalId, Goal>, ids: set<GoalId>): set<int>
    requires ids <= goals.Keys
  {
    set g | g in ids :: goals[g].position
  }

  /** The cells of board `b` that hold a goal. */
  function BoardPositions(goals: map<GoalId, Goal>, b: BoardId): set<int> {
    PositionsOfIds(goals, BoardGoalIds(goals, b))
  }

  /** The goals of board `b`, as `select * from goals where board_id = b` returns them. */
  function GoalsOf(goals: map<GoalId, Goal>, b: BoardId): map<GoalId, Goal> {
    map g | g in goals && goals[g].boardId == b :: goals[g]
  }

  predicate Occupied(goals: map<GoalId, Goal>, b: BoardId, p: int) {
    p in BoardPositions(goals, b)
  }

  // ----- the invariant of the two tables -----

  ghost predicate KeysAreIds(boards: map<BoardId, Board>, goals: map<GoalId, Goal>) {
    && (forall b :: b in boards ==> boards[b].id == b)
    && (forall g :: g in goals ==> goals[g].id == g)
  }

  /** The foreign key goals.board_id -> boards.id. */
  ghost predicate GoalsReferenceBoards(boards: map<BoardId, Board>, goals: map<GoalId, Goal>) {
    forall g :: g in goals ==> goals[g].boardId in boards
  }

  ghost predicate PositionsInGrid(goals: map<GoalId, Goal>) {
    forall g :: g in goals ==> 0 <= goals[g].position < GridCells
  }

  /** At most one goal per (board, position). */
  ghost predicate UniquePositions(goals: map<GoalId, Goal>) {
    forall g, h :: g in goals && h in goals && g != h && goals[g].boardId == goals[h].boardId
      ==> goals[g].position != goals[h].position
  }

  /** `completed` holds exactly when `completed_at` is not null. */
  predicate CompletionConsistent(g: Goal) {
    g.completed <==> g.completedAt.Some?
  }

  ghost predicate AllCompletionConsistent(goals: map<GoalId, Goal>) {
    forall g :: g in goals ==> CompletionConsistent(goals[g])
  }

  ghost predicate StoreInvariant(boards: map<BoardId, Board>, goals: map<GoalId, Goal>) {
    && KeysAreIds(boards, goals)
    && GoalsReferenceBoards(boards, goals)
    && PositionsInGrid(goals)
    && UniquePositions(goals)
    && AllCompletionConsistent(goals)
  }

  // ----- the pigeonhole argument behind the 25-goal lock rule -----

  /** Distinct goals at distinct cells: the cells of `ids` are as many as `ids`. */
  lemma {:induction false} InjectivePositions(goals: map<GoalId, Goal>, ids: set<GoalId>)
    requires ids <= goals.Keys
    requires forall g, h :: g in ids && h in ids && g != h ==> goals[g].position != goals[h].position
    ensures |PositionsOfIds(goals, ids)| == |ids|
    decreases ids
  {
    if ids != {} {
      var x :| x in ids;
      var rest := ids - {x};
      InjectivePositions(goals, rest);
      var image := PositionsOfIds(goals, rest);
      assert goals[x].position !in image;
      assert PositionsOfIds(goals, ids) == image + {goals[x].position};
    } else {
      assert PositionsOfIds(goals, ids) == {};
    }
  }

  /** On a grid that keeps the invariant, a board's goal count is the number of its occupied cells. */
  lemma CountIsOccupiedCells(goals: map<GoalId, Goal>, b: BoardId)
    requires PositionsInGrid(goals) && UniquePositions(goals)
    ensures GoalCount(goals, b) == |BoardPositions(goals, b)|
    ensures forall p :: p in BoardPositions(goals, b) ==> 0 <= p < GridCells
  {
    var ids := BoardGoalIds(goals, b);
    InjectivePositions(goals, ids);
  }

  /** A subset is no larger than its superset, and equally large only when equal. */
  lemma SubsetSize(a: set<int>, c: set<int>)
    requires a <= c
    ensures |a| <= |c|
    ensures |a| == |c| ==> a == c
  {
    var rest := c - a;
    assert c == a + rest;
    assert a * rest == {};
    if |a| == |c| {
      assert |rest| == 0;
    }
  }

  /** A set of integers inside 0..n-1 has at most n members, and exactly n only when it is all of 0..n-1. */
  lemma BoundedSetSize(pos: set<int>, n: nat)
    requires forall p :: p in pos ==> 0 <= p < n
    ensures |pos| <= n
    ensures |pos| == n <==> forall p :: 0 <= p < n ==> p in pos
  {
    var all := Range(n);
    SubsetSize(pos, all);
    if forall p :: 0 <= p < n ==> p in pos {
      assert all <= pos;
      assert pos == all;
    }
  }

  /** A board never holds more than 25 goals. */
  lemma AtMostGridCells(goals: map<GoalId, Goal>, b: BoardId)
    requires PositionsInGrid(goals) && UniquePositions(goals)
    ensures GoalCount(goals, b) <= GridCells
  {
    CountIsOccupiedCells(goals, b);
    BoundedSetSize(BoardPositions(goals, b), GridCells);
  }

  /** The lock rule `count == 25` means "every cell of the grid is filled". */
  lemma FullIffEveryCellOccupied(goals: map<GoalId, Goal>, b: BoardId)
    requires PositionsInGrid(goals) && UniquePositions(goals)
    ensures GoalCount(goals, b) == GridCells <==> forall p :: 0 <= p < GridCells ==> Occupied(goals, b, p)
  {
    CountIsOccupiedCells(goals, b);
    var pos := BoardPositions(goals, b);
    BoundedSetSize(pos, GridCells);
    forall p ensures Occupied(goals, b, p) <==> p in pos {
    }
  }

  // ----- how the two goal mutations move a board's count -----

  /** Inserting a goal adds one to its board's count and leaves every other board's count alone. */
  lemma InsertGoalCount(goals: map<GoalId, Goal>, g: Goal, b: BoardId)
    requires g.id !in goals
    ensures GoalCount(goals[g.id := g], b) == GoalCount(goals, b) + (if g.boardId == b then 1 else 0)
  {
    var after := BoardGoalIds(goals[g.id := g], b);
    if g.boardId == b {
      assert after == BoardGoalIds(goals, b) + {g.id};
    } else {
      assert after == BoardGoalIds(goals, b);
    }
  }

  /** Removing a goal takes one from its board's count and leaves every other board's count alone. */
  lemma RemoveGoalCount(goals: map<GoalId, Goal>, id: GoalId, b: BoardId)
    requires id in goals
    ensures GoalCount(goals - {id}, b) == GoalCount(goals, b) - (if goals[id].boardId == b then 1 else 0)
  {
    var after := BoardGoalIds(goals - {id}, b);
    if goals[id].boardId == b {
      assert after == BoardGoalIds(goals, b) - {id};
    } else {
      assert after == BoardGoalIds(goals, b);
    }
  }

  // ----- the writes that keep the invariant -----

  /** A goal of board `b` at cell `p` makes `p` occupied. */
  lemma OccupiedBy(goals: map<GoalId, Goal>, id: GoalId)
    requires id in goals
    ensures Occupied(goals, goals[id].boardId, goals[id].position)
  {
    assert id in BoardGoalIds(goals, goals[id].boardId);
  }

  /** Inserting a consistent goal at a free cell of an existing board keeps the invariant. */
  lemma InsertGoalKeepsInvariant(boards: map<BoardId, Board>, goals: map<GoalId, Goal>, g: Goal)
    requires StoreInvariant(boards, goals)
    requires g.id !in goals && g.boardId in boards
    requires 0 <= g.position < GridCells && !Occupied(goals, g.boardId, g.position)
    requires CompletionConsistent(g)
    ensures StoreInvariant(boards, goals[g.id := g])
  {
    var after := goals[g.id := g];
    forall h | h in goals && goals[h].boardId == g.boardId
      ensures goals[h].position != g.position
    {
      OccupiedBy(goals, h);
    }
    assert UniquePositions(after);
  }

  /** Rewriting an existing board's row under the same id keeps the invariant. */
  lemma ReplaceBoardKeepsInvariant(boards: map<BoardId, Board>, goals: map<GoalId, Goal>, b: Board)
    requires StoreInvariant(boards, goals)
    requires b.id in boards
    ensures StoreInvariant(boards[b.id := b], goals)
  {
    assert boards[b.id := b].Keys == boards.Keys;
  }

  /** Inserting a board under a new id keeps the invariant. */
  lemma InsertBoardKeepsInvariant(boards: map<BoardId, Board>, goals: map<GoalId, Goal>, b: Board)
    requires StoreInvariant(boards, goals)
    requires b.id !in boards
    ensures StoreInvariant(boards[b.id := b], goals)
    ensures GoalCount(goals, b.id) == 0
  {
    assert BoardGoalIds(goals, b.id) == {};
  }
}
