/**
  A monster remembers which of the 23 by 23 tiles around it can be walked on.  After a step the
  remembered rows and columns are shifted and only the new edge is looked up again.
 */
module WalkCache {

  const HALF := 11             // maxWalkCacheWidth and maxWalkCacheHeight
  const SIDE := 2 * HALF + 1   // mapWalkWidth and mapWalkHeight
  const U16 := 0x1_0000

  datatype Position = Position(x: int, y: int, z: int)

  predicate Valid(p: Position)
  {
    0 <= p.x < U16 && 0 <= p.y < U16
  }

  // Whether a tile exists at a position and lets the monster in; coordinates are 16 bits wide.
  type Walkable = (int, int, int) -> bool

  function Look(walk: Walkable, x: int, y: int, z: int): bool
  {
    walk(x % U16, y % U16, z)
  }

  // A remembered value per row and column
  type Grid = (int, int) -> bool

  predicate OnGrid(r: int, c: int)
  {
    0 <= r < SIDE && 0 <= c < SIDE
  }

  // Everything remembered, except for the tile the monster stands on, is what a lookup would say.
  ghost predicate Exact(g: Grid, p: Position, walk: Walkable)
  {
    forall r, c {:trigger g(r, c)} | OnGrid(r, c) && (r, c) != (HALF, HALF)
      && Valid(Position(p.x + c - HALF, p.y + r - HALF, p.z)) ::
      g(r, c) == walk(p.x + c - HALF, p.y + r - HALF, p.z)
  }

  // ---------- what the edits leave in the grid ----------

  // updateMapCache: every tile whose coordinates do not wrap around is looked up.
  function Rebuilt(g: Grid, p: Position, walk: Walkable): Grid
  {
    (r, c) => if Valid(Tile(p, r, c)) then walk(p.x + c - HALF, p.y + r - HALF, p.z) else g(r, c)
  }

  // updateTileCache for one tile
  function Refreshed(g: Grid, p: Position, q: Position, walk: Walkable): Grid
  {
    (r, c) => if q == Tile(p, r, c) then walk(q.x, q.y, q.z) else g(r, c)
  }

  // The tile a grid cell is about
  function Tile(p: Position, r: int, c: int): Position
  {
    Position(p.x + c - HALF, p.y + r - HALF, p.z)
  }

  function LookCell(walk: Walkable, p: Position, r: int, c: int): bool
  {
    Look(walk, p.x + c - HALF, p.y + r - HALF, p.z)
  }

  // Rows moved against the step and the new edge row looked up
  function RowShifted(g: Grid, dy: int, to: Position, walk: Walkable, r: int, c: int): bool
  {
    if dy < 0 then (if r == 0 then LookCell(walk, to, r, c) else g(r - 1, c))
    else if dy > 0 then (if r == SIDE - 1 then LookCell(walk, to, r, c) else g(r + 1, c))
    else g(r, c)
  }

  function Abs(a: int): int
  {
    if a < 0 then -a else a
  }

  // Then columns moved against the step, in all rows but the first |dy|, and the new edge column looked up
  function ColumnShifted(g: Grid, dx: int, dy: int, to: Position, walk: Walkable, r: int, c: int): bool
  {
    if dx > 0 then
      (if c == SIDE - 1 then LookCell(walk, to, r, c)
       else RowShifted(g, dy, to, walk, r, if r >= Abs(dy) then c + 1 else c))
    else if dx < 0 then
      (if c == 0 then LookCell(walk, to, r, c)
       else RowShifted(g, dy, to, walk, r, if r >= Abs(dy) then c - 1 else c))
    else RowShifted(g, dy, to, walk, r, c)
  }

  // What one cell holds after a step; the tile left behind is looked up last.
  function SteppedCell(g: Grid, from: Position, to: Position, walk: Walkable, r: int, c: int): bool
  {
    if from == Tile(to, r, c) then walk(from.x, from.y, from.z)
    else ColumnShifted(g, to.x - from.x, to.y - from.y, to, walk, r, c)
  }

  function Stepped(g: Grid, from: Position, to: Position, walk: Walkable): Grid
  {
    (r, c) => SteppedCell(g, from, to, walk, r, c)
  }

  // ---------- when that is exact ----------

  predicate OneTileStep(from: Position, to: Position)
  {
    Valid(from) && Valid(to) && from.z == to.z && Abs(to.x - from.x) <= 1 && Abs(to.y - from.y) <= 1
  }

  predicate SouthDiagonal(from: Position, to: Position)
  {
    from.x != to.x && from.y < to.y
  }

  ghost predicate ChangedOnlyAt(walk: Walkable, walk': Walkable, a: Position, b: Position)
  {
    forall x, y, z | Position(x, y, z) != a && Position(x, y, z) != b :: walk'(x, y, z) == walk(x, y, z)
  }

  ghost predicate CellExact(g: Grid, p: Position, walk: Walkable, r: int, c: int)
  {
    var q := Tile(p, r, c);
    OnGrid(r, c) && q != p && Valid(q) ==> g(r, c) == walk(q.x, q.y, q.z)
  }

  lemma {:induction false} ExactCells(g: Grid, p: Position, walk: Walkable)
    ensures Exact(g, p, walk) <==> forall r, c :: CellExact(g, p, walk, r, c)
  {
    if Exact(g, p, walk) {
      forall r, c
        ensures CellExact(g, p, walk, r, c)
      {
        var v := g(r, c);
      }
    }
    if forall r, c :: CellExact(g, p, walk, r, c) {
      forall r, c | OnGrid(r, c) && (r, c) != (HALF, HALF) && Valid(Tile(p, r, c))
        ensures g(r, c) == walk(p.x + c - HALF, p.y + r - HALF, p.z)
      {
        assert CellExact(g, p, walk, r, c);
      }
    }
  }

  lemma {:induction false} LookValid(walk: Walkable, p: Position, r: int, c: int)
    requires Valid(Tile(p, r, c))
    ensures LookCell(walk, p, r, c) == walk(p.x + c - HALF, p.y + r - HALF, p.z)
  {
  }

  // One cell after a step: either looked up, or moved from the cell that was about the same tile.
  lemma {:induction false} StepCell(g: Grid, from: Position, to: Position, walk: Walkable, walk': Walkable, r: int,
                                    c: int)
    requires OneTileStep(from, to) && ChangedOnlyAt(walk, walk', from, to) && !SouthDiagonal(from, to)
    requires CellExact(g, from, walk, r + to.y - from.y, c + to.x - from.x)
    ensures CellExact(Stepped(g, from, to, walk'), to, walk', r, c)
  {
    hide LookCell;
    var q := Tile(to, r, c);
    if OnGrid(r, c) && q != to && Valid(q) {
      LookValid(walk', to, r, c);
      assert Tile(from, r + to.y - from.y, c + to.x - from.x) == q;
      assert SteppedCell(g, from, to, walk', r, c) == walk'(q.x, q.y, q.z);
    }
  }

  /** Every step but south-east and south-west leaves exactly what a full lookup would say. */
  lemma {:induction false} StepExact(g: Grid, from: Position, to: Position, walk: Walkable, walk': Walkable)
    requires OneTileStep(from, to) && ChangedOnlyAt(walk, walk', from, to)
    requires Exact(g, from, walk) && !SouthDiagonal(from, to)
    ensures Exact(Stepped(g, from, to, walk'), to, walk')
  {
    hide Exact, Stepped, ChangedOnlyAt, CellExact;
    ExactCells(g, from, walk);
    ExactCells(Stepped(g, from, to, walk'), to, walk');
    forall r, c
      ensures CellExact(Stepped(g, from, to, walk'), to, walk', r, c)
    {
      assert CellExact(g, from, walk, r + to.y - from.y, c + to.x - from.x);
      StepCell(g, from, to, walk, walk', r, c);
    }
  }

  // ---------- the two diagonal steps to the south ----------

  // All tiles of one row from column a to column b are alike.
  ghost predicate RowAlike(walk: Walkable, y: int, z: int, a: int, b: int)
  {
    forall x | a <= x < b :: SameAsNext(walk, x, y, z)
  }

  predicate SameAsNext(walk: Walkable, x: int, y: int, z: int)
  {
    walk(x, y, z) == walk(x + 1, y, z)
  }

  // The rows that end up shifted wrongly: the first is not shifted at all, the last one tile too far.
  ghost predicate EdgeRowsAlike(from: Position, to: Position, walk: Walkable)
  {
    var first := if to.x > from.x then to.x - HALF - 1 else to.x - HALF + 1;
    && RowAlike(walk, to.y - HALF, to.z, first, first + 2 * HALF)
    && RowAlike(walk, to.y + HALF, to.z, to.x - HALF, to.x + HALF)
  }

  // What column c of the two outer rows ends up with is right: the first row keeps what was known of the tile beside,
  // or an old entry where that is off the map; the last row gets what a lookup says of the tile beside.
  predicate EdgeRight(g: Grid, from: Position, to: Position, walk: Walkable, c: int)
  {
    var dx, top, bottom := to.x - from.x, Tile(to, 0, c), Tile(to, SIDE - 1, c);
    0 <= c < SIDE && 0 <= c + dx < SIDE ==>
      && (Valid(top) ==> walk(top.x, top.y, top.z) == Known(g, walk, Position(top.x - dx, top.y, top.z), c))
      && (Valid(bottom) ==> walk(bottom.x, bottom.y, bottom.z) == Look(walk, bottom.x + dx, bottom.y, bottom.z))
  }

  function Known(g: Grid, walk: Walkable, q: Position, c: int): bool
  {
    if Valid(q) then walk(q.x, q.y, q.z) else g(1, c)
  }

  ghost predicate EdgesRight(g: Grid, from: Position, to: Position, walk: Walkable)
  {
    forall c :: EdgeRight(g, from, to, walk, c)
  }

  /** A step south-east or south-west is exact if and only if, column by column, the two outer rows agree with the
      tiles beside them, on the whole map with its edges. */
  lemma {:induction false} SouthDiagonalExactly(g: Grid, from: Position, to: Position, walk: Walkable, walk': Walkable)
    requires OneTileStep(from, to) && ChangedOnlyAt(walk, walk', from, to)
    requires Exact(g, from, walk) && SouthDiagonal(from, to)
    ensures Exact(Stepped(g, from, to, walk'), to, walk') <==> EdgesRight(g, from, to, walk')
  {
    hide Exact, Stepped, ChangedOnlyAt, CellExact, EdgeRight;
    var g', dx := Stepped(g, from, to, walk'), to.x - from.x;
    ExactCells(g, from, walk);
    ExactCells(g', to, walk');
    if Exact(g', to, walk') {
      forall c
        ensures EdgeRight(g, from, to, walk', c)
      {
        assert CellExact(g, from, walk, 1, c);
        EdgeCells(g, from, to, walk, walk', c);
      }
    }
    if EdgesRight(g, from, to, walk') {
      forall r, c
        ensures CellExact(g', to, walk', r, c)
      {
        assert CellExact(g, from, walk, 1, c) && CellExact(g, from, walk, r + 1, c + dx);
        assert EdgeRight(g, from, to, walk', c);
        EdgeCells(g, from, to, walk, walk', c);
        InnerCell(g, from, to, walk, walk', r, c);
      }
    }
  }

  // Column c of the two outer rows
  lemma {:induction false} EdgeCells(g: Grid, from: Position, to: Position, walk: Walkable, walk': Walkable, c: int)
    requires OneTileStep(from, to) && ChangedOnlyAt(walk, walk', from, to) && SouthDiagonal(from, to)
    requires CellExact(g, from, walk, 1, c)
    ensures var g' := Stepped(g, from, to, walk');
      CellExact(g', to, walk', 0, c) && CellExact(g', to, walk', SIDE - 1, c) ==> EdgeRight(g, from, to, walk', c)
    ensures var g' := Stepped(g, from, to, walk');
      0 <= c + to.x - from.x < SIDE && EdgeRight(g, from, to, walk', c) ==>
        CellExact(g', to, walk', 0, c) && CellExact(g', to, walk', SIDE - 1, c)
  {
    hide LookCell;
    var g', dx := Stepped(g, from, to, walk'), to.x - from.x;
    if 0 <= c < SIDE && 0 <= c + dx < SIDE {
      FirstRow(g, from, to, walk, walk', c);
      LastRow(g, from, to, walk', c);
    }
  }

  lemma {:induction false} FirstRow(g: Grid, from: Position, to: Position, walk: Walkable, walk': Walkable, c: int)
    requires OneTileStep(from, to) && ChangedOnlyAt(walk, walk', from, to) && SouthDiagonal(from, to)
    requires CellExact(g, from, walk, 1, c) && 0 <= c < SIDE && 0 <= c + to.x - from.x < SIDE
    ensures var top := Tile(to, 0, c);
      Valid(top) ==>
        Stepped(g, from, to, walk')(0, c) == Known(g, walk', Position(top.x - to.x + from.x, top.y, top.z), c)
  {
    hide LookCell;
    assert SteppedCell(g, from, to, walk', 0, c) == g(1, c);
    assert Tile(from, 1, c) == Position(to.x + c - HALF - (to.x - from.x), to.y - HALF, to.z);
  }

  lemma {:induction false} LastRow(g: Grid, from: Position, to: Position, walk: Walkable, c: int)
    requires OneTileStep(from, to) && SouthDiagonal(from, to) && 0 <= c < SIDE && 0 <= c + to.x - from.x < SIDE
    ensures var bottom := Tile(to, SIDE - 1, c);
      Stepped(g, from, to, walk)(SIDE - 1, c) == Look(walk, bottom.x + (to.x - from.x), bottom.y, bottom.z)
  {
  }

  // Every cell but those of the outer rows that were not looked up last
  lemma {:induction false} InnerCell(g: Grid, from: Position, to: Position, walk: Walkable, walk': Walkable,
                                     r: int, c: int)
    requires OneTileStep(from, to) && ChangedOnlyAt(walk, walk', from, to) && SouthDiagonal(from, to)
    requires CellExact(g, from, walk, r + 1, c + to.x - from.x)
    ensures (r != 0 && r != SIDE - 1) || !(0 <= c + to.x - from.x < SIDE) ==>
      CellExact(Stepped(g, from, to, walk'), to, walk', r, c)
  {
    hide LookCell;
    var q := Tile(to, r, c);
    if OnGrid(r, c) && q != to && Valid(q) {
      LookValid(walk', to, r, c);
      assert Tile(from, r + 1, c + to.x - from.x) == q;
    }
  }

  /** Away from the map's edge this says that the tiles of the northernmost remembered row, and those of the
      southernmost one, are all alike. */
  lemma {:induction false} EdgesRightInland(g: Grid, from: Position, to: Position, walk: Walkable)
    requires OneTileStep(from, to) && SouthDiagonal(from, to)
    requires HALF < from.x < U16 - HALF - 1 && HALF < from.y < U16 - HALF - 1
    ensures EdgesRight(g, from, to, walk) <==> EdgeRowsAlike(from, to, walk)
  {
    hide EdgeRight, SameAsNext;
    var dx, top, bottom := to.x - from.x, to.y - HALF, to.y + HALF;
    var first := if dx > 0 then to.x - HALF - 1 else to.x - HALF + 1;
    if EdgesRight(g, from, to, walk) {
      forall x | first <= x < first + 2 * HALF
        ensures SameAsNext(walk, x, top, to.z)
      {
        var c := if dx > 0 then x - first else x - first + 1;
        assert EdgeRight(g, from, to, walk, c);
        EdgeRightInland(g, from, to, walk, c);
      }
      forall x | to.x - HALF <= x < to.x + HALF
        ensures SameAsNext(walk, x, bottom, to.z)
      {
        var c := if dx > 0 then x - to.x + HALF else x - to.x + HALF + 1;
        assert EdgeRight(g, from, to, walk, c);
        EdgeRightInland(g, from, to, walk, c);
      }
    }
    if EdgeRowsAlike(from, to, walk) {
      forall c
        ensures EdgeRight(g, from, to, walk, c)
      {
        EdgeRightInland(g, from, to, walk, c);
      }
    }
  }

  lemma {:induction false} EdgeRightInland(g: Grid, from: Position, to: Position, walk: Walkable, c: int)
    requires OneTileStep(from, to) && SouthDiagonal(from, to)
    requires HALF < from.x < U16 - HALF - 1 && HALF < from.y < U16 - HALF - 1
    ensures EdgeRight(g, from, to, walk, c) <==>
      (0 <= c < SIDE && 0 <= c + to.x - from.x < SIDE ==>
        var x, back := to.x + c - HALF, to.x < from.x;
        && SameAsNext(walk, if back then x else x - 1, to.y - HALF, to.z)
        && SameAsNext(walk, if back then x - 1 else x, to.y + HALF, to.z))
  {
  }

  /** A monster one step south-east of (99, 99), with a single blocked tile in the northernmost row. */
  lemma {:induction false} SouthEastCanFail()
    ensures var from, to := Position(99, 99, 7), Position(100, 100, 7);
      var walk := (x: int, y: int, z: int) => !(x == 100 && y == 89);
      var g := Rebuilt((r, c) => false, from, walk);
      Exact(g, from, walk) && !Exact(Stepped(g, from, to, walk), to, walk)
  {
    var from, to := Position(99, 99, 7), Position(100, 100, 7);
    var walk := (x: int, y: int, z: int) => !(x == 100 && y == 89);
    RebuiltExact((r, c) => false, from, walk);
    SouthDiagonalExactly(Rebuilt((r, c) => false, from, walk), from, to, walk, walk);
    EdgesRightInland(Rebuilt((r, c) => false, from, walk), from, to, walk);
    assert !SameAsNext(walk, 99, 89, 7);
  }

  // ---------- the other edits, and whole runs ----------

  lemma {:induction false} RebuiltExact(g: Grid, p: Position, walk: Walkable)
    ensures Exact(Rebuilt(g, p, walk), p, walk)
  {
    ExactCells(Rebuilt(g, p, walk), p, walk);
    forall r, c
      ensures CellExact(Rebuilt(g, p, walk), p, walk, r, c)
    {
    }
  }

  lemma {:induction false} RefreshedExact(g: Grid, p: Position, q: Position, walk: Walkable, walk': Walkable)
    requires Exact(g, p, walk) && ChangedOnlyAt(walk, walk', q, q)
    ensures Exact(Refreshed(g, p, q, walk'), p, walk')
  {
    hide ChangedOnlyAt, Refreshed;
    ExactCells(g, p, walk);
    ExactCells(Refreshed(g, p, q, walk'), p, walk');
    forall r, c
      ensures CellExact(Refreshed(g, p, q, walk'), p, walk', r, c)
    {
      assert CellExact(g, p, walk, r, c);
      RefreshedCell(g, p, q, walk, walk', r, c);
    }
  }

  lemma {:induction false} RefreshedCell(g: Grid, p: Position, q: Position, walk: Walkable, walk': Walkable, r: int,
                                         c: int)
    requires CellExact(g, p, walk, r, c) && ChangedOnlyAt(walk, walk', q, q)
    ensures CellExact(Refreshed(g, p, q, walk'), p, walk', r, c)
  {
  }

  // What happens to a monster: its own steps, jumps to another place or floor, and changes of tiles.
  datatype Event =
    | Step(to: Position, walk: Walkable)
    | Jump(to: Position, walk: Walkable)
    | TileChange(at: Position, walk: Walkable)

  datatype Memory = Memory(grid: Grid, at: Position, walk: Walkable)

  function After(m: Memory, e: Event): Memory
  {
    match e
    case Step(to, walk) => Memory(Stepped(m.grid, m.at, to, walk), to, walk)
    case Jump(to, walk) => Memory(Rebuilt(m.grid, to, walk), to, walk)
    case TileChange(q, walk) => Memory(Refreshed(m.grid, m.at, q, walk), m.at, walk)
  }

  ghost predicate Possible(m: Memory, e: Event)
  {
    match e
    case Step(to, walk) => OneTileStep(m.at, to) && ChangedOnlyAt(m.walk, walk, m.at, to) && !SouthDiagonal(m.at, to)
    case Jump(to, walk) => true
    case TileChange(q, walk) => ChangedOnlyAt(m.walk, walk, q, q)
  }

  function AfterAll(m: Memory, events: seq<Event>): Memory
  {
    if events == [] then m else After(AfterAll(m, events[..|events| - 1]), events[|events| - 1])
  }

  lemma {:induction false} AfterMore(m: Memory, events: seq<Event>, e: Event)
    ensures AfterAll(m, []) == m && AfterAll(m, events + [e]) == After(AfterAll(m, events), e)
  {
    assert (events + [e])[..|events|] == events;
  }

  ghost predicate AllPossible(m: Memory, events: seq<Event>)
  {
    events == [] ||
    (AllPossible(m, events[..|events| - 1]) && Possible(AfterAll(m, events[..|events| - 1]), events[|events| - 1]))
  }

  // What getWalkCache answers: 1 walkable, 0 blocked or another floor, 2 out of range
  function GetWalkCache(m: Memory, q: Position): int
  {
    if m.at.z != q.z then 0
    else if q == m.at then 1
    else if Abs(q.x - m.at.x) <= HALF && Abs(q.y - m.at.y) <= HALF then
      (if m.grid(HALF + q.y - m.at.y, HALF + q.x - m.at.x) then 1 else 0)
    else 2
  }

  lemma {:induction false} StaysExact(m: Memory, events: seq<Event>)
    requires Exact(m.grid, m.at, m.walk) && AllPossible(m, events)
    ensures Exact(AfterAll(m, events).grid, AfterAll(m, events).at, AfterAll(m, events).walk)
  {
    hide Exact, Rebuilt, Refreshed, Stepped, ChangedOnlyAt, OneTileStep, SouthDiagonal;
    if events != [] {
      var last := |events| - 1;
      var before := AfterAll(m, events[..last]);
      StaysExact(m, events[..last]);
      match events[last]
      case Step(to, walk) => StepExact(before.grid, before.at, to, before.walk, walk);
      case Jump(to, walk) => RebuiltExact(before.grid, to, walk);
      case TileChange(at, walk) => RefreshedExact(before.grid, before.at, at, before.walk, walk);
    }
  }

  /** Over every run without a step south-east or south-west, the answer is that of a lookup on the map. */
  lemma {:induction false} AnswersAsTheMap(m: Memory, events: seq<Event>, q: Position)
    requires Exact(m.grid, m.at, m.walk) && AllPossible(m, events) && Valid(q)
    ensures var n := AfterAll(m, events);
      GetWalkCache(n, q) ==
        if n.at.z != q.z then 0
        else if Abs(q.x - n.at.x) > HALF || Abs(q.y - n.at.y) > HALF then 2
        else if q == n.at || n.walk(q.x, q.y, q.z) then 1
        else 0
  {
    hide AllPossible, AfterAll, Exact;
    var n := AfterAll(m, events);
    StaysExact(m, events);
    ExactCells(n.grid, n.at, n.walk);
    assert CellExact(n.grid, n.at, n.walk, HALF + q.y - n.at.y, HALF + q.x - n.at.x);
  }

  // ---------- the edits in place ----------

  class Creature {
    var position: Position
    const localMapCache: array2<bool>

    constructor (position: Position)
      ensures this.position == position && fresh(localMapCache) && Sized()
    {
      this.position := position;
      localMapCache := new bool[SIDE, SIDE]((r, c) => false);
    }

    predicate Sized()
    {
      localMapCache.Length0 == SIDE && localMapCache.Length1 == SIDE
    }

    ghost predicate Shows(g: Grid)
      requires Sized()
      reads localMapCache
    {
      forall r, c | 0 <= r < SIDE && 0 <= c < SIDE :: localMapCache[r, c] == g(r, c)
    }

    method UpdateMapCache(walk: Walkable, ghost g: Grid)
      requires Sized() && Shows(g)
      modifies localMapCache
      ensures Shows(Rebuilt(g, position, walk))
    {
      for r := 0 to SIDE
        invariant forall i, j | 0 <= i < SIDE && 0 <= j < SIDE ::
          localMapCache[i, j] == if i < r then Rebuilt(g, position, walk)(i, j) else g(i, j)
      {
        for c := 0 to SIDE
          invariant forall i, j | 0 <= i < SIDE && 0 <= j < SIDE ::
            localMapCache[i, j] == if i < r || (i == r && j < c) then Rebuilt(g, position, walk)(i, j) else g(i, j)
        {
          var x, y := (position.x + c - HALF) % U16, (position.y + r - HALF) % U16;
          UpdateTileCache(Position(x, y, position.z), walk);
        }
      }
    }

    /** One tile, when it is on our floor and within reach. */
    method UpdateTileCache(q: Position, walk: Walkable)
      requires Sized()
      modifies localMapCache
      ensures forall r, c | 0 <= r < SIDE && 0 <= c < SIDE ::
        localMapCache[r, c] == if q == Tile(position, r, c) then walk(q.x, q.y, q.z) else old(localMapCache[r, c])
    {
      if q.z == position.z {
        var dx, dy := q.x - position.x, q.y - position.y;
        if Abs(dx) <= HALF && Abs(dy) <= HALF {
          localMapCache[HALF + dy, HALF + dx] := walk(q.x, q.y, q.z);
        }
      }
    }

    // ---------- the shifts ----------

    method ShiftRowsSouth()
      requires Sized()
      modifies localMapCache
      ensures forall r, c | 0 <= r < SIDE && 0 <= c < SIDE ::
        localMapCache[r, c] == old(localMapCache[if r > 0 then r - 1 else r, c])
    {
      var y := SIDE - 1;
      while y > 0
        invariant 0 <= y <= SIDE - 1
        invariant forall r, c | 0 <= r <= y && 0 <= c < SIDE :: localMapCache[r, c] == old(localMapCache[r, c])
        invariant forall r, c | y < r < SIDE && 0 <= c < SIDE :: localMapCache[r, c] == old(localMapCache[r - 1, c])
      {
        y := y - 1;
        forall c | 0 <= c < SIDE {
          localMapCache[y + 1, c] := localMapCache[y, c];
        }
      }
    }

    method ShiftRowsNorth()
      requires Sized()
      modifies localMapCache
      ensures forall r, c | 0 <= r < SIDE && 0 <= c < SIDE ::
        localMapCache[r, c] == old(localMapCache[if r < SIDE - 1 then r + 1 else r, c])
    {
      for y := 0 to SIDE - 1
        invariant forall r, c | 0 <= r < y && 0 <= c < SIDE :: localMapCache[r, c] == old(localMapCache[r + 1, c])
        invariant forall r, c | y <= r < SIDE && 0 <= c < SIDE :: localMapCache[r, c] == old(localMapCache[r, c])
      {
        forall c | 0 <= c < SIDE {
          localMapCache[y, c] := localMapCache[y + 1, c];
        }
      }
    }

    method ShiftColumnsWest(starty: int)
      requires Sized() && starty >= 0
      modifies localMapCache
      ensures forall r, c | 0 <= r < SIDE && 0 <= c < SIDE ::
        localMapCache[r, c] == old(localMapCache[r, if r >= starty && c < SIDE - 1 then c + 1 else c])
    {
      var y := starty;
      while y <= SIDE - 1
        invariant starty <= y
        invariant forall r, c | starty <= r < y && r < SIDE && 0 <= c < SIDE ::
          localMapCache[r, c] == old(localMapCache[r, if c < SIDE - 1 then c + 1 else c])
        invariant forall r, c | 0 <= r < SIDE && !(starty <= r < y) && 0 <= c < SIDE ::
          localMapCache[r, c] == old(localMapCache[r, c])
        decreases SIDE - y
      {
        ShiftRowWest(y);
        y := y + 1;
      }
    }

    method ShiftRowWest(y: int)
      requires Sized() && 0 <= y < SIDE
      modifies localMapCache
      ensures forall c | 0 <= c < SIDE ::
        localMapCache[y, c] == old(localMapCache[y, if c < SIDE - 1 then c + 1 else c])
      ensures forall r, c | 0 <= r < SIDE && 0 <= c < SIDE && r != y :: localMapCache[r, c] == old(localMapCache[r, c])
    {
      for x := 0 to SIDE - 1
        invariant forall c | 0 <= c < SIDE :: localMapCache[y, c] == old(localMapCache[y, if c < x then c + 1 else c])
        invariant forall r, c | 0 <= r < SIDE && 0 <= c < SIDE && r != y ::
          localMapCache[r, c] == old(localMapCache[r, c])
      {
        localMapCache[y, x] := localMapCache[y, x + 1];
      }
    }

    method ShiftColumnsEast(starty: int)
      requires Sized() && starty >= 0
      modifies localMapCache
      ensures forall r, c | 0 <= r < SIDE && 0 <= c < SIDE ::
        localMapCache[r, c] == old(localMapCache[r, if r >= starty && c > 0 then c - 1 else c])
    {
      var y := starty;
      while y <= SIDE - 1
        invariant starty <= y
        invariant forall r, c | starty <= r < y && r < SIDE && 0 <= c < SIDE ::
          localMapCache[r, c] == old(localMapCache[r, if c > 0 then c - 1 else c])
        invariant forall r, c | 0 <= r < SIDE && !(starty <= r < y) && 0 <= c < SIDE ::
          localMapCache[r, c] == old(localMapCache[r, c])
        decreases SIDE - y
      {
        ShiftRowEast(y);
        y := y + 1;
      }
    }

    method ShiftRowEast(y: int)
      requires Sized() && 0 <= y < SIDE
      modifies localMapCache
      ensures forall c | 0 <= c < SIDE :: localMapCache[y, c] == old(localMapCache[y, if c > 0 then c - 1 else c])
      ensures forall r, c | 0 <= r < SIDE && 0 <= c < SIDE && r != y :: localMapCache[r, c] == old(localMapCache[r, c])
    {
      var x := SIDE - 2;
      while x >= 0
        invariant -1 <= x <= SIDE - 2
        invariant forall c | 0 <= c <= x + 1 :: localMapCache[y, c] == old(localMapCache[y, c])
        invariant forall c | x + 1 < c < SIDE :: localMapCache[y, c] == old(localMapCache[y, c - 1])
        invariant forall r, c | 0 <= r < SIDE && 0 <= c < SIDE && r != y ::
          localMapCache[r, c] == old(localMapCache[r, c])
      {
        localMapCache[y, x + 1] := localMapCache[y, x];
        x := x - 1;
      }
    }

    method LookRow(r: int, walk: Walkable)
      requires Sized() && 0 <= r < SIDE
      modifies localMapCache
      ensures forall i, c | 0 <= i < SIDE && 0 <= c < SIDE ::
        localMapCache[i, c] == if i == r then LookCell(walk, position, r, c) else old(localMapCache[i, c])
    {
      for x := 0 to SIDE
        invariant forall i, c | 0 <= i < SIDE && 0 <= c < SIDE ::
          localMapCache[i, c] == if i == r && c < x then LookCell(walk, position, r, c) else old(localMapCache[i, c])
      {
        localMapCache[r, x] := Look(walk, position.x + x - HALF, position.y + r - HALF, position.z);
      }
    }

    method LookColumn(c: int, walk: Walkable)
      requires Sized() && 0 <= c < SIDE
      modifies localMapCache
      ensures forall r, j | 0 <= r < SIDE && 0 <= j < SIDE ::
        localMapCache[r, j] == if j == c then LookCell(walk, position, r, c) else old(localMapCache[r, j])
    {
      for y := 0 to SIDE
        invariant forall r, j | 0 <= r < SIDE && 0 <= j < SIDE ::
          localMapCache[r, j] == if j == c && r < y then LookCell(walk, position, r, c) else old(localMapCache[r, j])
      {
        localMapCache[y, c] := Look(walk, position.x + c - HALF, position.y + y - HALF, position.z);
      }
    }

    /** The monster now stands on `position`; it came from oldPos. */
    method OnCreatureMove(oldPos: Position, teleport: bool, walk: Walkable, ghost g: Grid)
      requires Sized() && Shows(g)
      modifies localMapCache
      ensures Shows(if teleport || oldPos.z != position.z then Rebuilt(g, position, walk)
        else Stepped(g, oldPos, position, walk))
    {
      hide ColumnShifted, RowShifted, LookCell;
      if teleport || oldPos.z != position.z {
        UpdateMapCache(walk, g);
        return;
      }
      MoveRows(oldPos, walk, g);
      MoveColumns(oldPos, walk, g);
      UpdateTileCache(oldPos, walk);
    }

    method MoveRows(oldPos: Position, walk: Walkable, ghost g: Grid)
      requires Sized() && Shows(g)
      modifies localMapCache
      ensures forall r, c | 0 <= r < SIDE && 0 <= c < SIDE ::
        localMapCache[r, c] == RowShifted(g, position.y - oldPos.y, position, walk, r, c)
    {
      hide LookCell;
      if oldPos.y > position.y {
        ShiftRowsSouth();
        LookRow(0, walk);
      } else if oldPos.y < position.y {
        ShiftRowsNorth();
        LookRow(SIDE - 1, walk);
      }
    }

    method MoveColumns(oldPos: Position, walk: Walkable, ghost g: Grid)
      requires Sized()
      requires forall r, c | 0 <= r < SIDE && 0 <= c < SIDE ::
        localMapCache[r, c] == RowShifted(g, position.y - oldPos.y, position, walk, r, c)
      modifies localMapCache
      ensures forall r, c | 0 <= r < SIDE && 0 <= c < SIDE ::
        localMapCache[r, c] == ColumnShifted(g, position.x - oldPos.x, position.y - oldPos.y, position, walk, r, c)
    {
      hide LookCell, RowShifted;
      if oldPos.x < position.x {
        ShiftColumnsWest(Abs(oldPos.y - position.y));
        LookColumn(SIDE - 1, walk);
      } else if oldPos.x > position.x {
        ShiftColumnsEast(Abs(oldPos.y - position.y));
        LookColumn(0, walk);
      }
    }
  }
}
