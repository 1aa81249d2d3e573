/** Addressing of the flat vertex array `GLfloat vertices[]` of wave.c:
    vertex `r*columns + c` occupies three consecutive floats, x then y
    then z, starting at `3*(r*columns + c)`. */
module VertexLayout {

  import opened Arith

  /** Grid coordinate of one float of the vertex array: row, column, and
      component (0 = x, 1 = y, 2 = z). */
  datatype Cell = Cell(row: int, column: int, component: int)

  /** What wave.c stores in one float of the vertex array, kept symbolic:
      x is computed from the column, y is zero, z is computed from the row
      (the floating-point formulas themselves are not modelled). */
  datatype Coordinate = XOfColumn(column: int) | YZero | ZOfRow(row: int)

  /** The value stored for component `k` of the vertex in row `r`,
      column `c`. */
  function CoordinateOf(cell: Cell): Coordinate
  {
    if cell.component == 0 then XOfColumn(cell.column)
    else if cell.component == 1 then YZero
    else ZOfRow(cell.row)
  }

  /** Position of the float for `component` of the vertex in row `r`,
      column `c`. */
  function Address(columns: int, r: int, c: int, k: int): int
  {
    3 * (r * columns + c) + k
  }

  /** The grid coordinate that the float at position `a` belongs to. */
  function Locate(columns: int, a: int): Cell
    requires columns >= 1
  {
    Cell((a / 3) / columns, (a / 3) % columns, a % 3)
  }

  /** Decoding a grid coordinate's address gives the coordinate back. */
  lemma AddressRoundTrip(columns: int, r: int, c: int, k: int)
    requires columns >= 1 && 0 <= c < columns && 0 <= k < 3
    ensures Locate(columns, Address(columns, r, c, k)) == Cell(r, c, k)
  {
    var v := r * columns + c;
    DivModUnique(3 * v + k, 3, v, k);
    DivModUnique(v, columns, r, c);
  }

  /** Every position is the address of the coordinate it decodes to. */
  lemma LocateRoundTrip(columns: int, a: int)
    requires columns >= 1
    ensures var cell := Locate(columns, a);
      Address(columns, cell.row, cell.column, cell.component) == a
      && 0 <= cell.column < columns && 0 <= cell.component < 3
  {
  }

  /** Floats in the vertex array of a `rows` x `columns` grid. */
  function FloatCount(rows: int, columns: int): int
  {
    3 * (rows * columns)
  }

  /** Addresses of the grid lie in `[0, FloatCount)`, and only the z of
      the last vertex lands on the last float. That every position is hit
      follows from `LocateRoundTrip` and `LocateInGrid`. */
  lemma AddressInBounds(rows: int, columns: int, r: int, c: int, k: int)
    requires columns >= 1 && 0 <= r < rows && 0 <= c < columns && 0 <= k < 3
    ensures 0 <= Address(columns, r, c, k) < FloatCount(rows, columns)
    ensures Address(columns, r, c, k) == FloatCount(rows, columns) - 1 <==> r == rows - 1 && c == columns - 1 && k == 2
  {
    var v := r * columns + c;
    MulLe(0, r, columns);
    MulLe(r + 1, rows, columns);
    assert (r + 1) * columns == v - c + columns;
    var last := rows * columns - 1;
    assert last == (rows - 1) * columns + (columns - 1);
    if 3 * v + k == 3 * last + 2 {
      DivModUnique(3 * v + k, 3, v, k);
      DivModUnique(3 * v + k, 3, last, 2);
      DivModUnique(v, columns, r, c);
      DivModUnique(v, columns, rows - 1, columns - 1);
    }
  }

  /** Positions below `FloatCount` decode to a vertex of the grid. */
  lemma LocateInGrid(rows: int, columns: int, a: int)
    requires columns >= 1 && 0 <= a < FloatCount(rows, columns)
    ensures 0 <= Locate(columns, a).row < rows
  {
    var v := a / 3;
    var q := v / columns;
    assert 0 <= v < rows * columns;
    assert q * columns <= v;
    MulLtCancel(q, rows, columns);
    MulLe(0, q, columns);
  }

  /** The floats wave.c's inner loop stores for the first `n` columns of
      row `r`: x, y and z of each vertex in turn. */
  function RowFloats(r: int, n: nat): (s: seq<Coordinate>)
    ensures |s| == 3 * n
  {
    if n == 0 then [] else RowFloats(r, n - 1) + [XOfColumn(n - 1), YZero, ZOfRow(r)]
  }

  /** Column `c` of row `r` occupies offsets `3c`, `3c + 1` and `3c + 2` of
      the row's floats: x from the column, y zero, z from the row. */
  lemma {:induction false} RowFloatsAt(r: int, n: nat, c: int, k: int)
    requires 0 <= c < n && 0 <= k < 3
    ensures RowFloats(r, n)[3 * c + k] == CoordinateOf(Cell(r, c, k))
  {
    if c < n - 1 {
      RowFloatsAt(r, n - 1, c, k);
      assert RowFloats(r, n)[3 * c + k] == RowFloats(r, n - 1)[3 * c + k];
    }
  }

  /** The contents of the vertex array once the outer loop has run over
      the first `rows` rows: the rows' floats one after the other. */
  function Grid(rows: nat, columns: nat): (s: seq<Coordinate>)
    ensures |s| == FloatCount(rows, columns)
  {
    if rows == 0 then []
    else
      assert rows * columns == (rows - 1) * columns + columns;
      Grid(rows - 1, columns) + RowFloats(rows - 1, columns)
  }

  /** Component `k` of vertex `(r, c)` sits at its address in the grid's
      contents. */
  lemma {:induction false} GridAt(rows: nat, columns: nat, r: int, c: int, k: int)
    requires 0 <= r < rows && 0 <= c < columns && 0 <= k < 3
    ensures Address(columns, r, c, k) < |Grid(rows, columns)|
    ensures Grid(rows, columns)[Address(columns, r, c, k)] == CoordinateOf(Cell(r, c, k))
    decreases rows
  {
    AddressInBounds(rows, columns, r, c, k);
    if r < rows - 1 {
      GridAt(rows - 1, columns, r, c, k);
    } else {
      assert Address(columns, r, c, k) == FloatCount(rows - 1, columns) + (3 * c + k);
      RowFloatsAt(r, columns, c, k);
    }
  }

  /** Every float of the grid's contents holds the coordinate its position
      decodes to. */
  lemma GridLocate(rows: nat, columns: nat, a: int)
    requires columns >= 1 && 0 <= a < FloatCount(rows, columns)
    ensures Grid(rows, columns)[a] == CoordinateOf(Locate(columns, a))
  {
    var cell := Locate(columns, a);
    LocateRoundTrip(columns, a);
    LocateInGrid(rows, columns, a);
    GridAt(rows, columns, cell.row, cell.column, cell.component);
  }
}
