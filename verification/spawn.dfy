/**
  Scene setup arithmetic: how many bodies fit on the screen in a grid of
  square cells, the refusal when too many are requested, and where each
  spawned body is centred. Cells have pitch `2 * maxRadius + spacing`; the
  grid starts `spacing` from the top-left corner and is filled row by row.
 */
module SpawnGrid {
  import opened Geometry
  import opened Arith

  const ScreenWidth := 1280
  const ScreenHeight := 720

  /**
    Integer conversion of a true quotient: the quotient truncated toward
    zero, whatever the signs. The product `q * b` lies between zero and the
    dividend and is less than one divisor away from it.
   */
  function TruncDiv(a: int, b: int): (q: int)
    requires b != 0
    ensures a >= 0 ==> 0 <= q * b <= a < q * b + Abs(b)
    ensures a < 0 ==> q * b - Abs(b) < a <= q * b <= 0
  {
    var m := Abs(a) / Abs(b);
    MulSignBounds(Abs(a), Abs(b), m);
    if (a < 0) == (b < 0) then m else -m
  }

  /** Python's `int(-7 / 2)` is -3, not the floor -4, and likewise for the other signs. */
  lemma TruncDivExamples()
    ensures TruncDiv(-7, 2) == -3 && TruncDiv(-7, -2) == 3 && TruncDiv(7, -2) == -3 && TruncDiv(7, 2) == 3
  {
  }

  function Abs(x: int): nat {
    if x < 0 then -x else x
  }

  /** The truncated quotient of magnitudes, and its product with either sign of divisor. */
  lemma MulSignBounds(x: int, y: int, m: int)
    requires x >= 0 && y > 0 && m == x / y
    ensures 0 <= m * y <= x < m * y + y
    ensures (-m) * (-y) == m * y && (-m) * y == -(m * y) && m * (-y) == -(m * y)
  {
    MulMono(0, m, y);
  }

  /** Why spawning gives up. */
  datatype SpawnError =
    | ZeroPitch                      // the cell pitch is zero: the quotient divides by zero
    | NotEnoughRoom(capacity: int)   // more bodies requested than cells
    | EmptyRadiusRange               // a body is due but no radius lies between the minimum and the maximum

  datatype Result<T> = Ok(value: T) | Err(error: SpawnError)

  /** A spawned body: its index and the centre of its cell. */
  datatype Spawned = Spawned(indx: int, cx: int, cy: int)

  function Pitch(maxRadius: int, spacing: int): int {
    2 * maxRadius + spacing
  }

  /** Cells per row and per column. */
  function Columns(maxRadius: int, spacing: int): int
    requires Pitch(maxRadius, spacing) != 0
  {
    TruncDiv(ScreenWidth, Pitch(maxRadius, spacing))
  }

  function Rows(maxRadius: int, spacing: int): int
    requires Pitch(maxRadius, spacing) != 0
  {
    TruncDiv(ScreenHeight, Pitch(maxRadius, spacing))
  }

  /** The number of bodies a successful spawn creates. */
  function SpawnCount(numSpawn: int, maxRadius: int, spacing: int): nat
    requires Pitch(maxRadius, spacing) != 0
  {
    if Columns(maxRadius, spacing) > 0 && Rows(maxRadius, spacing) > 0 && numSpawn > 0 then numSpawn else 0
  }

  /** Reference placement of body `k`: cell `k` in row-major order. */
  function GridCell(k: nat, columns: int, maxRadius: int, spacing: int): Spawned
    requires columns > 0
  {
    var pitch := Pitch(maxRadius, spacing);
    Spawned(k, spacing + maxRadius + (k % columns) * pitch, spacing + maxRadius + (k / columns) * pitch)
  }

  /** Bodies created once the first `cells` cells have been offered: at most `numSpawn`, never negative. */
  function Filled(numSpawn: int, cells: int): int {
    if numSpawn < cells then (if numSpawn > 0 then numSpawn else 0) else cells
  }

  /** The whole screen as a box. */
  const Screen := Box(Point(0, 0), Point(ScreenWidth, ScreenHeight))

  /** A circle's rectangle: centred on the body, both sides its diameter. */
  function CircleRect(c: Spawned, radius: int): Rect {
    Rect(c.cx - radius, c.cy - radius, 2 * radius, 2 * radius)
  }

  /** A grid with at least one row has a positive pitch and at least one column. */
  lemma RowsNeedColumns(pitch: int)
    requires pitch != 0 && TruncDiv(ScreenHeight, pitch) > 0
    ensures pitch > 0 && TruncDiv(ScreenWidth, pitch) > 0
  {
  }

  lemma RowMajor(i: int, j: int, columns: int)
    requires 0 <= i && 0 <= j < columns
    ensures (i * columns + j) / columns == i && (i * columns + j) % columns == j
  {
    var n := i * columns + j;
    var q, r := n / columns, n % columns;
    assert (q - i) * columns == j - r;
    if q > i {
      MulAtLeast(q - i, columns);
    } else if q < i {
      MulAtLeast(i - q, columns);
    }
  }

  /** Cell `j` of row `i` is the reference cell with index `i * columns + j`. */
  lemma CellAt(i: int, j: int, columns: int, maxRadius: int, spacing: int)
    requires 0 <= i && 0 <= j < columns
    ensures i * columns + j >= 0
    ensures GridCell(i * columns + j, columns, maxRadius, spacing)
      == Spawned(i * columns + j,
                 spacing + maxRadius + j * Pitch(maxRadius, spacing),
                 spacing + maxRadius + i * Pitch(maxRadius, spacing))
  {
    RowMajor(i, j, columns);
  }

  /** The row of a cell below `columns * rows` is below `rows`. */
  lemma RowInGrid(k: int, columns: int, rows: int)
    requires columns > 0 && 0 <= k < columns * rows
    ensures 0 <= k / columns < rows
  {
    if k / columns >= rows {
      MulMono(rows, k / columns, columns);
    }
  }

  /**
    Every cell of the grid keeps a circle of any radius up to `maxRadius`
    on the screen, edges included, as long as the spacing is not negative.
   */
  lemma {:induction false} GridCellOnScreen(k: nat, maxRadius: int, spacing: int, radius: int)
    requires Pitch(maxRadius, spacing) > 0 && spacing >= 0 && 0 <= radius <= maxRadius
    requires k < Columns(maxRadius, spacing) * Rows(maxRadius, spacing)
    ensures Columns(maxRadius, spacing) > 0
    ensures Contains(Screen, RectBox(CircleRect(GridCell(k, Columns(maxRadius, spacing), maxRadius, spacing), radius)))
  {
    var pitch, columns, rows := Pitch(maxRadius, spacing), Columns(maxRadius, spacing), Rows(maxRadius, spacing);
    if columns <= 0 {
      MulMono(columns, 0, rows);
      assert false;
    }
    RowInGrid(k, columns, rows);
    var col, row := k % columns, k / columns;
    MulMono(0, col, pitch);
    MulMono(0, row, pitch);
    MulMono(col + 1, columns, pitch);
    MulMono(row + 1, rows, pitch);
    MulSucc(col, pitch);
    MulSucc(row, pitch);
  }

  lemma AllOnScreen(cells: seq<Spawned>, maxRadius: int, spacing: int)
    requires Pitch(maxRadius, spacing) > 0 && spacing >= 0
    requires |cells| <= Columns(maxRadius, spacing) * Rows(maxRadius, spacing)
    requires forall k :: 0 <= k < |cells| ==>
      Columns(maxRadius, spacing) > 0 && cells[k] == GridCell(k, Columns(maxRadius, spacing), maxRadius, spacing)
    ensures forall k, radius :: 0 <= k < |cells| && 0 <= radius <= maxRadius ==>
      Contains(Screen, RectBox(CircleRect(cells[k], radius)))
  {
    forall k, radius | 0 <= k < |cells| && 0 <= radius <= maxRadius
      ensures Contains(Screen, RectBox(CircleRect(cells[k], radius)))
    {
      GridCellOnScreen(k, maxRadius, spacing, radius);
    }
  }

  /**
    The spawn check: refuse when the pitch is zero (the quotient divides by
    zero) or when more bodies are requested than there are cells; otherwise
    fill the grid. Each body created draws its radius from
    `minRadius..maxRadius`, so creating any body fails when that range is
    empty.
   */
  method Spawn(numSpawn: int, minRadius: int, maxRadius: int, spacing: int) returns (r: Result<seq<Spawned>>)
    ensures Pitch(maxRadius, spacing) == 0 <==> r == Err(ZeroPitch)
    ensures Pitch(maxRadius, spacing) != 0 ==>
      (r.Err? && r.error.NotEnoughRoom? <==> numSpawn > Columns(maxRadius, spacing) * Rows(maxRadius, spacing))
    ensures r.Err? && r.error.NotEnoughRoom? ==>
      r.error.capacity == Columns(maxRadius, spacing) * Rows(maxRadius, spacing)
    ensures r == Err(EmptyRadiusRange) <==>
      Pitch(maxRadius, spacing) != 0 && numSpawn <= Columns(maxRadius, spacing) * Rows(maxRadius, spacing)
        && SpawnCount(numSpawn, maxRadius, spacing) > 0 && minRadius > maxRadius
    ensures r.Ok? ==> |r.value| == SpawnCount(numSpawn, maxRadius, spacing)
    ensures r.Ok? ==> forall k :: 0 <= k < |r.value| ==>
      Columns(maxRadius, spacing) > 0 && r.value[k] == GridCell(k, Columns(maxRadius, spacing), maxRadius, spacing)
    ensures r.Ok? && spacing >= 0 ==> forall k, radius :: 0 <= k < |r.value| && 0 <= radius <= maxRadius ==>
      Contains(Screen, RectBox(CircleRect(r.value[k], radius)))
  {
    var pitch := 2 * maxRadius + spacing;
    if pitch == 0 {
      return Err(ZeroPitch);
    }
    var columns := TruncDiv(ScreenWidth, pitch);
    var rows := TruncDiv(ScreenHeight, pitch);
    if numSpawn > columns * rows {
      return Err(NotEnoughRoom(columns * rows));
    }
    var bodies := FillGrid(numSpawn, maxRadius, spacing);
    if |bodies| > 0 && minRadius > maxRadius {
      return Err(EmptyRadiusRange);
    }
    if spacing >= 0 && |bodies| > 0 {
      AllOnScreen(bodies, maxRadius, spacing);
    }
    return Ok(bodies);
  }

  /**
    The spawn loop proper: walk the rows and columns, keeping the running
    centre `(cx, cy)` as the driver does, stop filling once `numSpawn`
    bodies exist, and give each new body the next index.
   */
  method FillGrid(numSpawn: int, maxRadius: int, spacing: int) returns (bodies: seq<Spawned>)
    requires Pitch(maxRadius, spacing) != 0
    requires numSpawn <= Columns(maxRadius, spacing) * Rows(maxRadius, spacing)
    ensures |bodies| == SpawnCount(numSpawn, maxRadius, spacing)
    ensures forall k :: 0 <= k < |bodies| ==>
      Columns(maxRadius, spacing) > 0 && bodies[k] == GridCell(k, Columns(maxRadius, spacing), maxRadius, spacing)
  {
    var pitch := 2 * maxRadius + spacing;
    var columns := TruncDiv(ScreenWidth, pitch);
    var rows := TruncDiv(ScreenHeight, pitch);
    bodies := [];
    if rows > 0 {
      RowsNeedColumns(pitch);
    }
    var cy := spacing;
    var i := 0;
    while i < rows
      invariant 0 <= i && (rows > 0 ==> i <= rows && columns > 0)
      invariant cy == spacing + i * pitch
      invariant |bodies| == Filled(numSpawn, i * columns)
      invariant forall k :: 0 <= k < |bodies| ==> columns > 0 && bodies[k] == GridCell(k, columns, maxRadius, spacing)
    {
      cy := cy + maxRadius;
      var cx := spacing;
      var j := 0;
      while j < columns
        invariant 0 <= j <= columns
        invariant cx == spacing + j * pitch
        invariant |bodies| == Filled(numSpawn, i * columns + j)
        invariant forall k :: 0 <= k < |bodies| ==> bodies[k] == GridCell(k, columns, maxRadius, spacing)
      {
        if i * columns + j >= numSpawn {
          break;
        }
        cx := cx + maxRadius;
        CellAt(i, j, columns, maxRadius, spacing);
        bodies := bodies + [Spawned(|bodies|, cx, cy)];
        cx := cx + maxRadius + spacing;
        MulSucc(j, pitch);
        j := j + 1;
      }
      cy := cy + maxRadius + spacing;
      MulSucc(i, pitch);
      MulSucc(i, columns);
      i := i + 1;
    }
  }
}
