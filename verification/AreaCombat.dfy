/**
  Areas of effect.  A matrix of cells with a centre is given for one direction; those for the other directions
  are computed from it.  What counts of an area are the offsets of its cells from the centre.
 */
module AreaCombat {

  datatype MatrixOperation = Mirror | Flip | Rotate90 | Rotate180 | Rotate270
  datatype Direction = North | East | South | West | SouthWest | SouthEast | NorthWest | NorthEast

  class MatrixArea {
    const rows: nat
    const cols: nat
    const data: array2<bool>
    var centerY: int
    var centerX: int

    constructor (rows: nat, cols: nat)
      ensures this.rows == rows && this.cols == cols && Valid() && fresh(data)
      ensures centerY == centerX == 0
      ensures Blank(data)
      ensures forall y, x | 0 <= y < rows && 0 <= x < cols :: !data[y, x]
    {
      this.rows, this.cols := rows, cols;
      centerY, centerX := 0, 0;
      data := new bool[rows, cols]((y, x) => false);
    }

    predicate Valid()
    {
      data.Length0 == rows && data.Length1 == cols
    }

    method SetCenter(y: int, x: int)
      modifies this`centerY, this`centerX
      ensures centerY == y && centerX == x
    {
      centerY, centerX := y, x;
    }

    /** The area covers the cell dy below and dx to the right of its centre. */
    ghost predicate Covers(dy: int, dx: int)
      reads this, data
    {
      Cell(data, centerY + dy, centerX + dx)
    }
  }

  ghost predicate Cell(data: array2<bool>, y: int, x: int)
    reads data
  {
    0 <= y < data.Length0 && 0 <= x < data.Length1 && data[y, x]
  }

  ghost predicate Blank(data: array2<bool>)
    reads data
  {
    forall y, x :: !Cell(data, y, x)
  }

  // ---------- the geometry ----------

  // Where an operation takes an offset (the rotations by their matrices of sines and cosines) ...
  function TurnX(op: MatrixOperation, dy: int, dx: int): int
  {
    match op
    case Rotate90 => -dy
    case Rotate180 => -dx
    case Rotate270 => dy
    case Mirror => -dx
    case _ => dx
  }

  function TurnY(op: MatrixOperation, dy: int, dx: int): int
  {
    match op
    case Rotate90 => dx
    case Rotate180 => -dy
    case Rotate270 => -dx
    case Flip => -dy
    case _ => dy
  }

  // ... and the operation that takes it back
  function Undo(op: MatrixOperation): MatrixOperation
  {
    match op
    case Rotate90 => Rotate270
    case Rotate270 => Rotate90
    case _ => op
  }

  // One area covers the offsets of another after a turn ...
  ghost predicate Turned(area: MatrixArea, from: MatrixArea, op: MatrixOperation)
    reads area, area.data, from, from.data
  {
    Shifted(area, from, op, 0, 0)
  }

  // ... and a shift
  ghost predicate Shifted(area: MatrixArea, from: MatrixArea, op: MatrixOperation, ky: int, kx: int)
    reads area, area.data, from, from.data
  {
    forall dy, dx :: area.Covers(dy, dx) == from.Covers(TurnY(Undo(op), dy, dx) + ky, TurnX(Undo(op), dy, dx) + kx)
  }

  // ---------- copyArea ----------

  // The cell of the input from which an operation takes a cell of the output, given both centres
  datatype Frame = Frame(op: MatrixOperation, cy: int, cx: int, cy': int, cx': int)
  {
    function FromY(v: int, u: int): int
    {
      TurnY(Undo(op), v - cy', u - cx') + cy
    }

    function FromX(v: int, u: int): int
    {
      TurnX(Undo(op), v - cy', u - cx') + cx
    }

    function ToY(y: int, x: int): int
    {
      TurnY(op, y - cy, x - cx) + cy'
    }

    function ToX(y: int, x: int): int
    {
      TurnX(op, y - cy, x - cx) + cx'
    }

    // To and From are inverse to each other
    lemma {:induction false} OneToOne(y: int, x: int, v: int, u: int)
      ensures v == ToY(y, x) && u == ToX(y, x) <==> y == FromY(v, u) && x == FromX(v, u)
    {
    }
  }

  // The output shows exactly those cells of the input that are done.
  ghost predicate Shows(output: array2<bool>, input: array2<bool>, f: Frame, done: iset<(int, int)>)
    reads output, input
  {
    forall v, u :: Cell(output, v, u) ==
      ((f.FromY(v, u), f.FromX(v, u)) in done && Cell(input, f.FromY(v, u), f.FromX(v, u)))
  }

  // The orders in which the loops take the cells
  ghost function ByRowsFromTheRight(y: int, x: int): iset<(int, int)>
  {
    iset p: (int, int) | p.0 < y || (p.0 == y && p.1 >= x)
  }

  ghost function ByColumns(y: int, x: int): iset<(int, int)>
  {
    iset p: (int, int) | p.1 < x || (p.1 == x && p.0 < y)
  }

  ghost function ByColumnsFromBelow(y: int, x: int): iset<(int, int)>
  {
    iset p: (int, int) | p.1 < x || (p.1 == x && p.0 >= y)
  }

  // Two sets with the same cells inside the matrix
  ghost predicate SameInside(input: array2<bool>, done: iset<(int, int)>, done': iset<(int, int)>)
  {
    forall y, x | 0 <= y < input.Length0 && 0 <= x < input.Length1 :: (y, x) in done <==> (y, x) in done'
  }

  lemma {:induction false} StillShows(output: array2<bool>, input: array2<bool>, f: Frame, done: iset<(int, int)>,
                                      done': iset<(int, int)>)
    requires Shows(output, input, f, done) && SameInside(input, done, done')
    ensures Shows(output, input, f, done')
  {
  }

  lemma {:induction false} ShowsNothing(output: array2<bool>, input: array2<bool>, f: Frame, done: iset<(int, int)>)
    requires Blank(output) && SameInside(input, done, iset{})
    ensures Shows(output, input, f, done)
  {
  }

  /** One cell more. */
  method CopyCell(output: array2<bool>, input: array2<bool>, ghost f: Frame, ghost done: iset<(int, int)>,
                  ghost done': iset<(int, int)>, y: nat, x: nat, v: nat, u: nat)
    requires output != input && y < input.Length0 && x < input.Length1
    requires v == f.ToY(y, x) < output.Length0 && u == f.ToX(y, x) < output.Length1
    requires Shows(output, input, f, done)
    requires forall p :: p in done' <==> p in done || p == (y as int, x as int)
    modifies output
    ensures Shows(output, input, f, done')
  {
    output[v, u] := input[y, x];
    forall v', u'
      ensures Cell(output, v', u') == ((f.FromY(v', u'), f.FromX(v', u')) in done'
        && Cell(input, f.FromY(v', u'), f.FromX(v', u')))
    {
      f.OneToOne(y, x, v', u');
      assert old(Cell(output, v', u')) == ((f.FromY(v', u'), f.FromX(v', u')) in done
        && Cell(input, f.FromY(v', u'), f.FromX(v', u')));
    }
  }

  // What an area covers that shows all of another
  lemma {:induction false} CoversAll(input: MatrixArea, output: MatrixArea, f: Frame, done: iset<(int, int)>)
    requires Shows(output.data, input.data, f, done) && f.cy == input.centerY && f.cx == input.centerX
    requires forall y, x | 0 <= y < input.data.Length0 && 0 <= x < input.data.Length1 :: (y, x) in done
    ensures forall dy, dx ::
      output.Covers(dy, dx) == Cell(input.data, f.FromY(output.centerY + dy, output.centerX + dx),
        f.FromX(output.centerY + dy, output.centerX + dx))
  {
  }

  /** A rotated area covers exactly the turned offsets, and every write is within the output matrix. */
  method RotateArea(input: MatrixArea, output: MatrixArea, op: MatrixOperation)
    requires op in {Rotate90, Rotate180, Rotate270}
    requires input.Valid() && output.Valid() && input.data != output.data && input != output
    requires input.rows > 0 && input.cols > 0 ==> CentreInside(input)
    requires output.rows == output.cols == 2 * Max(input.cols, input.rows)
    requires Blank(output.data)
    modifies output`centerY, output`centerX, output.data
    ensures Turned(output, input, op) && output.centerY == output.centerX == Max(input.cols, input.rows) - 1
  {
    hide Shows, Blank;
    var rotateCenterX, rotateCenterY := output.cols / 2 - 1, output.rows / 2 - 1;
    ghost var f := Frame(op, input.centerY, input.centerX, rotateCenterY, rotateCenterX);
    ShowsNothing(output.data, input.data, f, ByColumns(0, 0));
    for x := 0 to input.cols
      invariant Shows(output.data, input.data, f, ByColumns(0, x))
    {
      for y := 0 to input.rows
        invariant Shows(output.data, input.data, f, ByColumns(y, x))
      {
        var newX, newY := x - input.centerX, y - input.centerY;
        var rotatedX, rotatedY := TurnX(op, newY, newX), TurnY(op, newY, newX);
        CopyCell(output.data, input.data, f, ByColumns(y, x), ByColumns(y + 1, x), y, x, rotatedY + rotateCenterY,
          rotatedX + rotateCenterX);
      }
      StillShows(output.data, input.data, f, ByColumns(input.rows, x), ByColumns(0, x + 1));
    }
    output.SetCenter(rotateCenterY, rotateCenterX);
    CoversAll(input, output, f, ByColumns(0, input.cols));
  }

  /** A mirrored area; its centre is computed from the number of rows, not columns. */
  method MirrorArea(input: MatrixArea, output: MatrixArea)
    requires input.Valid() && output.Valid() && input.data != output.data && input != output
    requires input.rows <= output.rows && input.cols <= output.cols
    requires Blank(output.data)
    modifies output`centerY, output`centerX, output.data
    ensures Shifted(output, input, Mirror, 0, input.cols - input.rows)
  {
    hide Shows, Blank;
    ghost var f := Frame(Mirror, input.centerY, input.centerX, input.centerY, input.cols - 1 - input.centerX);
    ShowsNothing(output.data, input.data, f, ByRowsFromTheRight(0, input.cols));
    for y := 0 to input.rows
      invariant Shows(output.data, input.data, f, ByRowsFromTheRight(y, input.cols))
    {
      var rx, x := 0, input.cols;
      while x > 0
        invariant 0 <= x && rx == input.cols - x
        invariant Shows(output.data, input.data, f, ByRowsFromTheRight(y, x))
      {
        x := x - 1;
        CopyCell(output.data, input.data, f, ByRowsFromTheRight(y, x + 1), ByRowsFromTheRight(y, x), y, x, y, rx);
        rx := rx + 1;
      }
      StillShows(output.data, input.data, f, ByRowsFromTheRight(y, 0), ByRowsFromTheRight(y + 1, input.cols));
    }
    output.SetCenter(input.centerY, input.rows - 1 - input.centerX);
    CoversAll(input, output, f, ByRowsFromTheRight(input.rows, input.cols));
  }

  /** A flipped area; its centre is computed from the number of columns, not rows. */
  method FlipArea(input: MatrixArea, output: MatrixArea)
    requires input.Valid() && output.Valid() && input.data != output.data && input != output
    requires input.rows <= output.rows && input.cols <= output.cols
    requires Blank(output.data)
    modifies output`centerY, output`centerX, output.data
    ensures Shifted(output, input, Flip, input.rows - input.cols, 0)
  {
    hide Shows, Blank;
    ghost var f := Frame(Flip, input.centerY, input.centerX, input.rows - 1 - input.centerY, input.centerX);
    ShowsNothing(output.data, input.data, f, ByColumnsFromBelow(input.rows, 0));
    for x := 0 to input.cols
      invariant Shows(output.data, input.data, f, ByColumnsFromBelow(input.rows, x))
    {
      var ry, y := 0, input.rows;
      while y > 0
        invariant 0 <= y && ry == input.rows - y
        invariant Shows(output.data, input.data, f, ByColumnsFromBelow(y, x))
      {
        y := y - 1;
        CopyCell(output.data, input.data, f, ByColumnsFromBelow(y + 1, x), ByColumnsFromBelow(y, x), y, x, ry, x);
        ry := ry + 1;
      }
      StillShows(output.data, input.data, f, ByColumnsFromBelow(0, x), ByColumnsFromBelow(input.rows, x + 1));
    }
    output.SetCenter(input.cols - 1 - input.centerY, input.centerX);
    CoversAll(input, output, f, ByColumnsFromBelow(input.rows, input.cols));
  }

  /** A new square matrix, large enough for every direction, with a copy of an area. */
  method NewArea(input: MatrixArea, op: MatrixOperation, size: nat) returns (output: MatrixArea)
    requires input.Valid()
    requires op in {Rotate90, Rotate180, Rotate270} ==> size == 2 * Max(input.cols, input.rows)
    requires op in {Rotate90, Rotate180, Rotate270} && input.rows > 0 && input.cols > 0 ==> CentreInside(input)
    requires input.rows <= size && input.cols <= size
    ensures fresh(output) && fresh(output.data) && output.Valid() && output.rows == output.cols == size
    ensures Shifted(output, input, op, if op == Flip then input.rows - input.cols else 0,
      if op == Mirror then input.cols - input.rows else 0)
  {
    hide Blank, Shifted;
    output := new MatrixArea(size, size);
    if op == Mirror {
      MirrorArea(input, output);
    } else if op == Flip {
      FlipArea(input, output);
    } else {
      RotateArea(input, output, op);
    }
  }

  // ---------- createArea ----------

  function Cols(list: seq<nat>, rows: nat): nat
  {
    if rows == 0 then 0 else |list| / rows
  }

  // What is left of the list when the matrix is full marks no cell.
  ghost predicate NothingBehind(list: seq<nat>, rows: nat)
  {
    forall k | rows * Cols(list, rows) <= k < |list| :: list[k] !in {1, 3}
  }

  // A centre that the list marks lies inside the square of the longer side.
  ghost predicate CentreFits(list: seq<nat>, rows: nat)
  {
    forall k | IsLastMark(list, k) && rows > 0 && Cols(list, rows) > 0 ::
      k < Max(Cols(list, rows), rows) * Cols(list, rows)
  }

  ghost predicate CentreInside(area: MatrixArea)
    reads area
  {
    0 <= area.centerY < Max(area.cols, area.rows) && 0 <= area.centerX < Max(area.cols, area.rows)
  }

  // The area has the cells that 1 and 3 mark, and its centre where the last 2 or 3 is, or else in the corner.
  ghost predicate FromList(area: MatrixArea, list: seq<nat>, rows: nat)
    reads area, area.data
  {
    && area.Valid() && area.rows == rows && area.cols == Cols(list, rows)
    && (forall y, x | 0 <= y < area.rows && 0 <= x < area.cols ::
      0 <= Index(area.cols, y, x) < |list| && area.data[y, x] == (list[Index(area.cols, y, x)] in {1, 3}))
    && (forall k | IsLastMark(list, k) :: IsCell(k, area.cols, area.centerY, area.centerX))
    && ((forall k | 0 <= k < |list| :: list[k] !in {2, 3}) ==> area.centerY == area.centerX == 0)
  }

  // Row and column of the entry with number k; without columns there is one endless row.
  predicate IsCell(k: int, cols: nat, y: int, x: int)
  {
    0 <= y && 0 <= x && if cols > 0 then x < cols && k == Index(cols, y, x) else y == 0 && k == x
  }

  lemma {:induction false} OneCell(k: int, cols: nat, y: int, x: int, y': int, x': int)
    requires IsCell(k, cols, y, x) && IsCell(k, cols, y', x')
    ensures y == y' && x == x'
  {
    if cols > 0 {
      CellsAreNumbered(cols, y, x);
    }
  }

  /** Reads a matrix from a list: 1 and 3 are cells of the area, 2 and 3 mark the centre. */
  method CreateArea(list: seq<nat>, rows: nat) returns (area: MatrixArea)
    requires NothingBehind(list, rows)
    ensures fresh(area) && fresh(area.data) && FromList(area, list, rows)
  {
    hide Index;
    var cols := Cols(list, rows);
    area := new MatrixArea(rows, cols);
    FitsList(list, rows);
    IndexZero(cols);
    CellsInRange(rows, cols);
    ghost var mark := -1;
    var x, y := 0, 0;
    for k := 0 to |list|
      invariant IsCell(k, cols, y, x)
      invariant forall v, u | 0 <= v < rows && 0 <= u < cols ::
        area.data[v, u] == (Index(cols, v, u) < k && list[Index(cols, v, u)] in {1, 3})
      invariant -1 <= mark < k && forall j | mark < j < k :: list[j] !in {2, 3}
      invariant if mark == -1 then area.centerY == area.centerX == 0
        else list[mark] in {2, 3} && IsCell(mark, cols, area.centerY, area.centerX)
    {
      if cols > 0 {
        NextCell(rows, cols, y, x);
        CellsAreNumbered(cols, y, x);
      }
      var value := list[k];
      if value == 1 || value == 3 {
        area.data[y, x] := true;
      }
      if value == 2 || value == 3 {
        area.SetCenter(y, x);
        mark := k;
      }
      x := x + 1;
      if cols == x {
        x := 0;
        y := y + 1;
      }
    }
  }

  lemma {:induction false} CentreIsInside(area: MatrixArea, list: seq<nat>, rows: nat)
    requires FromList(area, list, rows) && CentreFits(list, rows) && area.rows > 0 && area.cols > 0
    ensures CentreInside(area)
  {
    if k :| IsLastMark(list, k) {
      AtLeast(area.centerY, Max(area.cols, area.rows), area.cols);
    } else {
      NoMark(list, |list|);
    }
  }

  lemma {:induction false} NoMark(list: seq<nat>, n: nat)
    requires n <= |list| && (forall k :: !IsLastMark(list, k)) && forall j | n <= j < |list| :: list[j] !in {2, 3}
    ensures forall k | 0 <= k < |list| :: list[k] !in {2, 3}
  {
    if n > 0 {
      assert !IsLastMark(list, n - 1);
      NoMark(list, n - 1);
    }
  }

  lemma {:induction false} FitsList(list: seq<nat>, rows: nat)
    ensures 0 <= rows * Cols(list, rows) <= |list|
    ensures if rows == 0 then Cols(list, rows) == 0 else |list| - rows * Cols(list, rows) < rows
    ensures rows * Cols(list, rows) > 0 ==> rows > 0 && Cols(list, rows) > 0
  {
  }

  function Index(cols: int, y: int, x: int): int
  {
    y * cols + x
  }

  lemma {:induction false} IndexZero(cols: int)
    ensures Index(cols, 0, 0) == 0
  {
  }

  // The cells of a matrix are numbered one by one, row after row.
  lemma {:induction false} NextCell(rows: int, cols: int, y: int, x: int)
    requires 0 <= x < cols
    ensures Index(cols, y, x + 1) == Index(cols, y, x) + 1
    ensures x + 1 == cols ==> Index(cols, y + 1, 0) == Index(cols, y, x) + 1
    ensures Index(cols, y, x) < rows * cols ==> y < rows
  {
    AtLeast(y, rows, cols);
  }

  lemma {:induction false} CellsInRange(rows: int, cols: int)
    ensures forall v, u | 0 <= v < rows && 0 <= u < cols :: 0 <= Index(cols, v, u) < rows * cols
  {
    forall v, u | 0 <= v < rows && 0 <= u < cols
      ensures 0 <= Index(cols, v, u) < rows * cols
    {
      AtLeast(v, 0, cols);
      AtLeast(rows, v + 1, cols);
    }
  }

  lemma {:induction false} CellsAreNumbered(cols: int, y: int, x: int)
    requires 0 <= x < cols
    ensures forall v, u | 0 <= u < cols && Index(cols, v, u) == Index(cols, y, x) :: v == y && u == x
  {
    forall v, u | 0 <= u < cols && Index(cols, v, u) == Index(cols, y, x)
      ensures v == y && u == x
    {
      AtLeast(v, y + 1, cols);
      AtLeast(y, v + 1, cols);
    }
  }

  lemma {:induction false} AtLeast(a: int, b: int, k: int)
    requires k >= 0
    ensures a >= b ==> a * k >= b * k
  {
  }

  ghost predicate IsLastMark(list: seq<nat>, k: int)
  {
    0 <= k < |list| && list[k] in {2, 3} && forall j | k < j < |list| :: list[j] !in {2, 3}
  }

  function Max(a: nat, b: nat): nat
  {
    if a < b then b else a
  }

  // ---------- the areas of all directions ----------

  class AreaCombat {
    var areas: map<Direction, MatrixArea>
    var hasExtArea: bool

    constructor ()
      ensures areas == map[] && !hasExtArea
    {
      areas, hasExtArea := map[], false;
    }

    /** The areas for the four main directions are the exact quarter turns of the given one. */
    method SetupArea(list: seq<nat>, rows: nat)
      requires NothingBehind(list, rows) && CentreFits(list, rows)
      modifies this`areas
      ensures forall d :: d in areas <==> d in old(areas) || d in {North, East, South, West}
      ensures forall d <- old(areas) :: d in {North, East, South, West} || areas[d] == old(areas)[d]
      ensures FromList(areas[North], list, rows)
      ensures forall d <- {East, South, West} ::
        areas[d].rows == areas[d].cols == 2 * Max(areas[North].cols, areas[North].rows)
      ensures Turned(areas[East], areas[North], Rotate90)
      ensures Turned(areas[South], areas[North], Rotate180)
      ensures Turned(areas[West], areas[North], Rotate270)
    {
      hide Shifted, Cell, Index, Blank, IsLastMark, NothingBehind, Cols, CentreFits, CentreInside;
      var area := CreateArea(list, rows);
      if area.rows > 0 && area.cols > 0 { CentreIsInside(area, list, rows); }
      var maxOutput := Max(area.cols, area.rows) * 2;
      var southArea := NewArea(area, Rotate180, maxOutput);
      var eastArea := NewArea(area, Rotate90, maxOutput);
      var westArea := NewArea(area, Rotate270, maxOutput);
      areas := areas[North := area][South := southArea][East := eastArea][West := westArea];
    }

    /**
      The diagonal areas mirror the north-western one, shifted by the difference of its rows and columns.
     */
    method SetupExtArea(list: seq<nat>, rows: nat)
      requires NothingBehind(list, rows)
      modifies this`areas, this`hasExtArea
      ensures list == [] ==> areas == old(areas) && hasExtArea == old(hasExtArea)
      ensures list != [] ==>
        && hasExtArea && {NorthWest, NorthEast, SouthWest, SouthEast} <= areas.Keys
        && var nw, k := areas[NorthWest], areas[NorthWest].cols - areas[NorthWest].rows;
          && FromList(nw, list, rows)
          && (forall d <- {NorthEast, SouthWest, SouthEast} ::
            areas[d].rows == areas[d].cols == 2 * Max(nw.cols, nw.rows))
          && Shifted(areas[NorthEast], nw, Mirror, 0, k)
          && Shifted(areas[SouthWest], nw, Flip, -k, 0)
          && Shifted(areas[SouthEast], nw, Rotate180, -k, 0)
    {
      hide Shifted, Cell, Index, Blank, IsLastMark, NothingBehind, Cols, Max;
      if list == [] {
        return;
      }
      hasExtArea := true;
      var area := CreateArea(list, rows);
      var maxOutput := Max(area.cols, area.rows) * 2;
      assert area.rows <= maxOutput && area.cols <= maxOutput by { AtLeastBoth(area.cols, area.rows); }
      var neArea := NewArea(area, Mirror, maxOutput);
      var swArea := NewArea(area, Flip, maxOutput);
      var seArea := NewArea(swArea, Mirror, maxOutput);
      FlippedThenMirrored(area, swArea, seArea, area.rows - area.cols);
      areas := areas[NorthWest := area][NorthEast := neArea][SouthWest := swArea][SouthEast := seArea];
    }

    /** The area for a target at an offset from the caster. */
    method GetArea(dy: int, dx: int) returns (area: MatrixArea?)
      ensures area == var dir := Towards(dy, dx, hasExtArea); if dir in areas then areas[dir] else null
    {
      var dir: Direction;
      if dx < 0 {
        dir := West;
      } else if dx > 0 {
        dir := East;
      } else if dy < 0 {
        dir := North;
      } else {
        dir := South;
      }
      if hasExtArea {
        if dx < 0 && dy < 0 {
          dir := NorthWest;
        } else if dx > 0 && dy < 0 {
          dir := NorthEast;
        } else if dx < 0 && dy > 0 {
          dir := SouthWest;
        } else if dx > 0 && dy > 0 {
          dir := SouthEast;
        }
      }
      area := if dir in areas then areas[dir] else null;
    }
  }

  lemma {:induction false} FlippedThenMirrored(nw: MatrixArea, sw: MatrixArea, se: MatrixArea, k: int)
    requires Shifted(sw, nw, Flip, k, 0) && Shifted(se, sw, Mirror, 0, 0)
    ensures Shifted(se, nw, Rotate180, k, 0)
  {
    forall dy, dx
      ensures se.Covers(dy, dx) == nw.Covers(k - dy, -dx)
    {
      assert se.Covers(dy, dx) == sw.Covers(dy, -dx);
    }
  }

  lemma {:induction false} AtLeastBoth(a: nat, b: nat)
    ensures a <= 2 * Max(a, b) && b <= 2 * Max(a, b)
  {
  }

  function Towards(dy: int, dx: int, hasExtArea: bool): Direction
  {
    if hasExtArea && dx != 0 && dy != 0 then
      if dy < 0 then if dx < 0 then NorthWest else NorthEast else if dx < 0 then SouthWest else SouthEast
    else if dx != 0 then if dx < 0 then West else East
    else if dy < 0 then North else South
  }

  // The mirrored area is the exact mirror image if and only if the given matrix is square or covers nothing.
  lemma {:induction false} MirrorExactly(nw: MatrixArea, ne: MatrixArea)
    requires nw.Valid()
    requires Shifted(ne, nw, Mirror, 0, nw.cols - nw.rows)
    ensures Turned(ne, nw, Mirror) <==> nw.rows == nw.cols || Blank(nw.data)
  {
    if Turned(ne, nw, Mirror) && nw.rows != nw.cols {
      forall y, x
        ensures !Cell(nw.data, y, x)
      {
        if Cell(nw.data, y, x) {
          var dy, dx, k := y - nw.centerY, x - nw.centerX, nw.cols - nw.rows;
          forall e
            ensures nw.Covers(dy, e) == nw.Covers(dy, k + e)
          {
            assert ne.Covers(dy, -e) == nw.Covers(dy, e);
            assert ne.Covers(dy, -e) == nw.Covers(dy, k - -e);
          }
          Repeats(nw, dy, dx, k, nw.cols);
          TooFar(k, nw.cols);
        }
      }
    }
  }

  // Likewise for the flipped one
  lemma {:induction false} FlipExactly(nw: MatrixArea, sw: MatrixArea)
    requires nw.Valid()
    requires Shifted(sw, nw, Flip, nw.rows - nw.cols, 0)
    ensures Turned(sw, nw, Flip) <==> nw.rows == nw.cols || Blank(nw.data)
  {
    if Turned(sw, nw, Flip) && nw.rows != nw.cols {
      forall y, x
        ensures !Cell(nw.data, y, x)
      {
        if Cell(nw.data, y, x) {
          var dy, dx, k := y - nw.centerY, x - nw.centerX, nw.rows - nw.cols;
          forall e
            ensures nw.Covers(e, dx) == nw.Covers(k + e, dx)
          {
            assert sw.Covers(-e, dx) == nw.Covers(e, dx);
            assert sw.Covers(-e, dx) == nw.Covers(k - -e, dx);
          }
          RepeatsDown(nw, dy, dx, k, nw.rows);
          TooFar(k, nw.rows);
        }
      }
    }
  }

  // And for the one that is both: the point reflection is exact if and only if the matrix is square or covers nothing.
  lemma {:induction false} ReflectExactly(nw: MatrixArea, se: MatrixArea)
    requires nw.Valid()
    requires Shifted(se, nw, Rotate180, nw.rows - nw.cols, 0)
    ensures Turned(se, nw, Rotate180) <==> nw.rows == nw.cols || Blank(nw.data)
  {
    if Turned(se, nw, Rotate180) && nw.rows != nw.cols {
      forall y, x
        ensures !Cell(nw.data, y, x)
      {
        if Cell(nw.data, y, x) {
          var dy, dx, k := y - nw.centerY, x - nw.centerX, nw.rows - nw.cols;
          forall e
            ensures nw.Covers(e, dx) == nw.Covers(k + e, dx)
          {
            assert se.Covers(-e, -dx) == nw.Covers(e, dx);
            assert se.Covers(-e, -dx) == nw.Covers(k - -e, dx);
          }
          RepeatsDown(nw, dy, dx, k, nw.rows);
          TooFar(k, nw.rows);
        }
      }
    }
  }

  /** A row of two cells, with the centre in the second: none of the three images is exact. */
  method RowOfTwo() returns (c: AreaCombat)
    ensures {NorthWest, NorthEast, SouthWest, SouthEast} <= c.areas.Keys
    ensures FromList(c.areas[NorthWest], [1, 3], 1)
    ensures !Turned(c.areas[NorthEast], c.areas[NorthWest], Mirror)
    ensures !Turned(c.areas[SouthWest], c.areas[NorthWest], Flip)
    ensures !Turned(c.areas[SouthEast], c.areas[NorthWest], Rotate180)
  {
    hide Shifted, FromList, NothingBehind, Turned, Blank;
    c := new AreaCombat();
    TwoFit();
    c.SetupExtArea([1, 3], 1);
    ghost var nw := c.areas[NorthWest];
    NeitherSquareNorBlank(nw);
    MirrorExactly(nw, c.areas[NorthEast]);
    FlipExactly(nw, c.areas[SouthWest]);
    ReflectExactly(nw, c.areas[SouthEast]);
  }

  lemma {:induction false} TwoFit()
    ensures NothingBehind([1, 3], 1)
  {
  }

  lemma {:induction false} NeitherSquareNorBlank(area: MatrixArea)
    requires FromList(area, [1, 3], 1)
    ensures area.Valid() && area.rows != area.cols && !Blank(area.data)
  {
    hide IsLastMark, Index;
    var list: seq<nat> := [1, 3];
    IndexZero(2);
    assert area.rows == 1 && area.cols == 2 && list[0] == 1;
    assert area.data[0, 0] == (list[Index(2, 0, 0)] in {1, 3});
    assert Cell(area.data, 0, 0);
  }

  lemma {:induction false} Repeats(area: MatrixArea, dy: int, dx: int, k: int, n: nat)
    requires area.Covers(dy, dx) && forall e :: area.Covers(dy, e) == area.Covers(dy, k + e)
    ensures area.Covers(dy, dx + n * k)
  {
    if n > 0 {
      Repeats(area, dy, dx, k, n - 1);
      assert dx + n * k == k + (dx + (n - 1) * k);
    }
  }

  lemma {:induction false} RepeatsDown(area: MatrixArea, dy: int, dx: int, k: int, n: nat)
    requires area.Covers(dy, dx) && forall e :: area.Covers(e, dx) == area.Covers(k + e, dx)
    ensures area.Covers(dy + n * k, dx)
  {
    if n > 0 {
      RepeatsDown(area, dy, dx, k, n - 1);
      assert dy + n * k == k + (dy + (n - 1) * k);
    }
  }

  lemma {:induction false} TooFar(k: int, n: int)
    requires k != 0 && n >= 0
    ensures n * k >= n || n * k <= -n
  {
    AtLeast(k, 1, n);
    AtLeast(-1, k, n);
  }

  function Clockwise(d: Direction): Direction
  {
    match d
    case North => East
    case East => South
    case South => West
    case West => North
    case NorthEast => SouthEast
    case SouthEast => SouthWest
    case SouthWest => NorthWest
    case NorthWest => NorthEast
  }

  function Mirrored(d: Direction): Direction
  {
    match d
    case East => West
    case West => East
    case NorthEast => NorthWest
    case NorthWest => NorthEast
    case SouthEast => SouthWest
    case SouthWest => SouthEast
    case _ => d
  }

  // The direction that a turned or mirrored arrow has
  function TurnDirection(op: MatrixOperation, d: Direction): Direction
  {
    match op
    case Rotate90 => Clockwise(d)
    case Rotate180 => Clockwise(Clockwise(d))
    case Rotate270 => Clockwise(Clockwise(Clockwise(d)))
    case Mirror => Mirrored(d)
    case Flip => Clockwise(Clockwise(Mirrored(d)))
  }

  /** With areas for all directions, turning or mirroring any aim turns or mirrors the direction that is chosen;
      without, that holds of aims along an axis, and all others go to the side.  North is up, north-east
      up and right. */
  lemma {:induction false} AimTurnsDirection(op: MatrixOperation, dy: int, dx: int)
    requires dy != 0 || dx != 0
    ensures Towards(TurnY(op, dy, dx), TurnX(op, dy, dx), true) == TurnDirection(op, Towards(dy, dx, true))
    ensures dy == 0 || dx == 0 ==>
      Towards(TurnY(op, dy, dx), TurnX(op, dy, dx), false) == TurnDirection(op, Towards(dy, dx, false))
    ensures dx != 0 ==> Towards(dy, dx, false) == if dx < 0 then West else East
    ensures dy < 0 && dx == 0 ==> Towards(dy, dx, true) == Towards(dy, dx, false) == North
    ensures dy < 0 && dx > 0 ==> Towards(dy, dx, true) == NorthEast
  {
  }

  // Aiming along an axis and turning the aim turns the area alike.
  lemma {:induction false} AimTurnsArea(c: AreaCombat, dy: int, dx: int, py: int, px: int)
    requires {North, East, South, West} <= c.areas.Keys
    requires Turned(c.areas[East], c.areas[North], Rotate90)
    requires Turned(c.areas[South], c.areas[North], Rotate180)
    requires Turned(c.areas[West], c.areas[North], Rotate270)
    requires (dy == 0) != (dx == 0)
    ensures var (ty, tx) := (TurnY(Rotate90, dy, dx), TurnX(Rotate90, dy, dx));
      && Towards(dy, dx, c.hasExtArea) in c.areas && Towards(ty, tx, c.hasExtArea) in c.areas
      && c.areas[Towards(ty, tx, c.hasExtArea)].Covers(TurnY(Rotate90, py, px), TurnX(Rotate90, py, px))
        == c.areas[Towards(dy, dx, c.hasExtArea)].Covers(py, px)
  {
  }
}
