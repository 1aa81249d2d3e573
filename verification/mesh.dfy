/** The two set-up loops of wave.c's `main`: filling the vertex array and
    the index array of the grid mesh. Each array is a fixed-size buffer of
    `capacity` cells; every write must land inside it. */
module Mesh {

  import opened Arith
  import opened Buffers
  import opened StripSpec
  import opened VertexLayout

  /** Fills `indices` with the triangle strip, band by band, advancing the
      write cursor `i` once per stored index. Returns the buffer and the
      final cursor. */
  method FillIndices(rows: nat, columns: nat, capacity: nat) returns (indices: seq<Slot<int>>, i: nat)
    requires rows >= 1 && columns >= 1
    requires StripLength(rows, columns) <= capacity
    ensures i == (rows - 1) * (2 * columns + 2)
    ensures indices == Place(Strip(rows, columns), capacity)
  {
    var b := BandLength(columns);
    indices := Fresh(capacity);
    assert indices == Place([], capacity);
    i := 0;
    var r := 0;
    while r < rows - 1
      invariant 0 <= r <= rows - 1
      invariant i == r * b && i <= capacity
      invariant indices == Place(Bands(r, columns), capacity)
    {
      MulLe(r + 1, rows - 1, b);
      assert (r + 1) * b == r * b + b;
      indices, i := FillBand(indices, i, r, columns, capacity, Bands(r, columns));
      r := r + 1;
    }
  }

  /** One pass of the outer loop: stores band `r` (lead-in, the column
      pairs, lead-out) at the cursor `i`, behind the entries `w` already
      written. */
  method FillBand(indices: seq<Slot<int>>, i: nat, r: nat, columns: nat, capacity: nat, ghost w: seq<int>)
    returns (indices': seq<Slot<int>>, i': nat)
    requires columns >= 1
    requires |w| <= capacity && indices == Place(w, capacity) && i == |w|
    requires i + BandLength(columns) <= capacity
    ensures i' == i + BandLength(columns)
    ensures indices' == Place(w + Band(r, columns), capacity)
  {
    ghost var leadIn := w + [r * columns];
    PlaceAppend(w, r * columns, capacity);
    indices' := indices[i := Written(r * columns)];
    i' := i + 1;
    var c := 0;
    ghost var done := leadIn;
    assert leadIn + Pairs(r, columns, 0) == leadIn;
    while c < columns
      invariant 0 <= c <= columns
      invariant done == leadIn + Pairs(r, columns, c)
      invariant i' == i + 1 + 2 * c == |done|
      invariant indices' == Place(done, capacity)
    {
      indices', i' := FillColumn(indices', i', r, columns, c, capacity, done);
      PairsStep(leadIn, r, columns, c);
      done := done + [r * columns + c, (r + 1) * columns + c];
      c := c + 1;
    }
    var leadOut := (r + 1) * columns + (columns - 1);
    PlaceAppend(done, leadOut, capacity);
    BandAssembled(w, r, columns);
    indices' := indices'[i' := Written(leadOut)];
    i' := i' + 1;
  }

  lemma PairsStep(prefix: seq<int>, r: int, columns: int, c: nat)
    ensures prefix + Pairs(r, columns, c) + [r * columns + c, (r + 1) * columns + c] == prefix + Pairs(r, columns, c + 1)
  {
    assert Pairs(r, columns, c + 1) == Pairs(r, columns, c) + [r * columns + c, (r + 1) * columns + c];
  }

  lemma BandAssembled(w: seq<int>, r: int, columns: int)
    requires columns >= 1
    ensures w + [r * columns] + Pairs(r, columns, columns) + [(r + 1) * columns + (columns - 1)] == w + Band(r, columns)
  {
  }

  /** One pass of the inner loop: stores the pair of column `c` of band
      `r`, the vertex in row `r` and then the one below it in row `r + 1`,
      at the cursor `i`, behind the entries `w` already written. */
  method FillColumn(indices: seq<Slot<int>>, i: nat, r: nat, columns: nat, c: nat, capacity: nat, ghost w: seq<int>)
    returns (indices': seq<Slot<int>>, i': nat)
    requires |w| <= capacity && indices == Place(w, capacity) && i == |w|
    requires i + 2 <= capacity
    ensures i' == i + 2
    ensures indices' == Place(w + [r * columns + c, (r + 1) * columns + c], capacity)
  {
    var top, bottom := r * columns + c, (r + 1) * columns + c;
    PlaceAppend(w, top, capacity);
    PlaceAppend(w + [top], bottom, capacity);
    assert w + [top] + [bottom] == w + [top, bottom];
    indices' := indices[i := Written(top)];
    i' := i + 1;
    indices' := indices'[i' := Written(bottom)];
    i' := i' + 1;
  }

  /** Fills `vertices` row by row, three floats per vertex at
      `3*(r*columns + c)`. The array then holds the grid's contents in its
      leading cells and nothing after them. */
  method FillVertices(rows: nat, columns: nat, capacity: nat) returns (vertices: seq<Slot<Coordinate>>)
    requires FloatCount(rows, columns) <= capacity
    ensures vertices == Place(Grid(rows, columns), capacity)
  {
    vertices := Fresh(capacity);
    var r := 0;
    while r < rows
      invariant 0 <= r <= rows
      invariant FloatCount(r, columns) <= capacity
      invariant vertices == Place(Grid(r, columns), capacity)
    {
      MulLe(r + 1, rows, columns);
      assert (r + 1) * columns == r * columns + columns;
      vertices := FillRow(vertices, r, columns, capacity, Grid(r, columns));
      assert Grid(r, columns) + RowFloats(r, columns) == Grid(r + 1, columns);
      r := r + 1;
    }
  }

  /** One pass of the outer loop: stores the floats of row `r` behind the
      floats `w` of the rows already stored. */
  method FillRow(vertices: seq<Slot<Coordinate>>, r: nat, columns: nat, capacity: nat, ghost w: seq<Coordinate>)
    returns (vertices': seq<Slot<Coordinate>>)
    requires |w| == 3 * (r * columns) && |w| + 3 * columns <= capacity
    requires vertices == Place(w, capacity)
    ensures vertices' == Place(w + RowFloats(r, columns), capacity)
  {
    vertices' := vertices;
    var c := 0;
    while c < columns
      invariant 0 <= c <= columns
      invariant vertices' == Place(w + RowFloats(r, c), capacity)
    {
      vertices' := FillVertex(vertices', r, c, columns, capacity, w + RowFloats(r, c));
      RowStep(w, r, c);
      c := c + 1;
    }
  }

  /** Appending vertex `(r, c)` to the first `c` vertices of row `r`
      gives the first `c + 1`. */
  lemma RowStep(w: seq<Coordinate>, r: int, c: nat)
    ensures w + RowFloats(r, c) + [XOfColumn(c), YZero, ZOfRow(r)] == w + RowFloats(r, c + 1)
  {
  }

  /** One pass of the inner loop: stores x, y and z of vertex `(r, c)` at
      `3*(r*columns + c)`, right behind the floats `done` already stored. */
  method FillVertex(vertices: seq<Slot<Coordinate>>, r: nat, c: nat, columns: nat, capacity: nat, ghost done: seq<Coordinate>)
    returns (vertices': seq<Slot<Coordinate>>)
    requires |done| == 3 * (r * columns + c) && |done| + 3 <= capacity
    requires vertices == Place(done, capacity)
    ensures vertices' == Place(done + [XOfColumn(c), YZero, ZOfRow(r)], capacity)
  {
    var index := r * columns + c;
    vertices' := vertices[3 * index + 0 := Written(XOfColumn(c))];
    PlaceAppend(done, XOfColumn(c), capacity);
    vertices' := vertices'[3 * index + 1 := Written(YZero)];
    PlaceAppend(done + [XOfColumn(c)], YZero, capacity);
    vertices' := vertices'[3 * index + 2 := Written(ZOfRow(r))];
    PlaceAppend(done + [XOfColumn(c)] + [YZero], ZOfRow(r), capacity);
    assert done + [XOfColumn(c)] + [YZero] + [ZOfRow(r)] == done + [XOfColumn(c), YZero, ZOfRow(r)];
  }
}
