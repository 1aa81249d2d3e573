/** The triangle-strip index sequence that wave.c lays over a grid of
    `rows` x `columns` vertices (vertex `r*columns + c` sits in row `r`,
    column `c`). Each pair of neighbouring rows contributes one band:
    a repeated lead-in index, the zig-zag of column pairs, and a repeated
    lead-out index, so that consecutive bands join through zero-area
    triangles and the whole grid draws as one strip. */
module StripSpec {

  import opened Arith

  /** Entries per band: lead-in, two per column, lead-out. */
  function BandLength(columns: int): int
  {
    2 * columns + 2
  }

  /** Number of entries the strip has for the whole grid. */
  function StripLength(rows: int, columns: int): int
  {
    (rows - 1) * BandLength(columns)
  }

  /** The first `n` column pairs of band `r`: the top vertex of column `c`
      followed by the vertex below it. */
  function Pairs(r: int, columns: int, n: nat): (s: seq<int>)
    ensures |s| == 2 * n
    ensures forall m :: 0 <= m < n ==> s[2 * m] == r * columns + m && s[2 * m + 1] == (r + 1) * columns + m
  {
    if n == 0 then []
    else Pairs(r, columns, n - 1) + [r * columns + (n - 1), (r + 1) * columns + (n - 1)]
  }

  /** Band `r`, joining grid row `r` to grid row `r + 1`. */
  function Band(r: int, columns: int): seq<int>
    requires columns >= 0
  {
    [r * columns] + Pairs(r, columns, columns) + [(r + 1) * columns + (columns - 1)]
  }

  /** The first `k` bands, in order. */
  function Bands(k: nat, columns: int): (s: seq<int>)
    requires columns >= 0
    ensures |s| == k * BandLength(columns)
  {
    if k == 0 then []
    else Bands(k - 1, columns) + Band(k - 1, columns)
  }

  /** The whole strip for a grid with at least one row. */
  function Strip(rows: int, columns: int): (s: seq<int>)
    requires rows >= 1 && columns >= 0
    ensures |s| == StripLength(rows, columns)
  {
    Bands(rows - 1, columns)
  }

  /** Offset `o` of band `r` sits at offset `r * BandLength + o` of every
      longer prefix of bands. */
  lemma {:induction false} BandsIndex(k: nat, columns: int, r: nat, o: int)
    requires columns >= 0 && r < k && 0 <= o < BandLength(columns)
    ensures r * BandLength(columns) + o < |Bands(k, columns)|
    ensures Bands(k, columns)[r * BandLength(columns) + o] == Band(r, columns)[o]
    decreases k
  {
    var b := BandLength(columns);
    MulLe(r + 1, k, b);
    assert (r + 1) * b == r * b + b;
    assert k * b == (k - 1) * b + b;
    if r < k - 1 {
      BandsIndex(k - 1, columns, r, o);
    } else {
      assert |Bands(k - 1, columns)| == r * b;
    }
  }

  /** The layout of a single band, offset by offset. */
  lemma BandLayout(r: int, columns: int, c: nat)
    requires columns >= 1 && c < columns
    ensures var band, b := Band(r, columns), BandLength(columns);
      |band| == b
      && band[0] == r * columns
      && band[1 + 2 * c] == r * columns + c
      && band[2 + 2 * c] == (r + 1) * columns + c
      && band[b - 1] == (r + 1) * columns + columns - 1
  {
    var band, pairs := Band(r, columns), Pairs(r, columns, columns);
    assert band[1 + 2 * c] == pairs[2 * c];
    assert band[2 + 2 * c] == pairs[2 * c + 1];
  }

  /** Offset `o` of band `r` of the strip. */
  lemma StripIndex(rows: int, columns: int, r: nat, o: int)
    requires rows >= 1 && columns >= 1 && r < rows - 1 && 0 <= o < BandLength(columns)
    ensures r * BandLength(columns) + o < |Strip(rows, columns)|
    ensures Strip(rows, columns)[r * BandLength(columns) + o] == Band(r, columns)[o]
  {
    BandsIndex(rows - 1, columns, r, o);
  }

  /** Offset `1 + 2c` of band `r` holds the vertex of column `c` in row `r`. */
  lemma StripTop(rows: int, columns: int, r: nat, c: nat)
    requires rows >= 1 && columns >= 1 && r < rows - 1 && c < columns
    ensures r * BandLength(columns) + 1 + 2 * c < |Strip(rows, columns)|
    ensures Strip(rows, columns)[r * BandLength(columns) + 1 + 2 * c] == r * columns + c
  {
    BandLayout(r, columns, c);
    StripIndex(rows, columns, r, 1 + 2 * c);
  }

  /** Offset `2 + 2c` of band `r` holds the vertex of column `c` in row
      `r + 1`. */
  lemma StripBottom(rows: int, columns: int, r: nat, c: nat)
    requires rows >= 1 && columns >= 1 && r < rows - 1 && c < columns
    ensures r * BandLength(columns) + 2 + 2 * c < |Strip(rows, columns)|
    ensures Strip(rows, columns)[r * BandLength(columns) + 2 + 2 * c] == (r + 1) * columns + c
  {
    BandLayout(r, columns, c);
    StripIndex(rows, columns, r, 2 + 2 * c);
  }

  /** Band `r` of the strip, as an independent closed form: the two leading
      entries are both `r*columns` (the degenerate lead-in), offsets
      `1 + 2c` and `2 + 2c` hold the vertex of column `c` in rows `r` and
      `r + 1` (so each pair is `columns` apart), and the two trailing
      entries are both the last vertex of row `r + 1` (the degenerate
      lead-out). */
  lemma StripLayout(rows: int, columns: int, r: nat, c: nat)
    requires rows >= 1 && columns >= 1
    requires r < rows - 1 && c < columns
    ensures var s, base, b := Strip(rows, columns), r * BandLength(columns), BandLength(columns);
      base + b <= |s|
      && s[base] == r * columns
      && s[base + 1] == r * columns
      && s[base + 1 + 2 * c] == r * columns + c
      && s[base + 2 + 2 * c] == (r + 1) * columns + c
      && s[base + 2 + 2 * c] - s[base + 1 + 2 * c] == columns
      && s[base + b - 2] == (r + 1) * columns + columns - 1
      && s[base + b - 1] == (r + 1) * columns + columns - 1
  {
    var b := BandLength(columns);
    BandLayout(r, columns, 0);
    BandLayout(r, columns, columns - 1);
    StripIndex(rows, columns, r, 0);
    StripTop(rows, columns, r, 0);
    StripTop(rows, columns, r, c);
    StripBottom(rows, columns, r, c);
    StripBottom(rows, columns, r, columns - 1);
    StripIndex(rows, columns, r, b - 1);
  }

  /** Every entry of band `r` names a vertex of row `r` or row `r + 1`. */
  lemma BandRange(r: nat, columns: int)
    requires columns >= 1
    ensures forall j :: 0 <= j < |Band(r, columns)| ==>
      r * columns <= Band(r, columns)[j] < r * columns + 2 * columns
  {
    var band := Band(r, columns);
    var pairs := Pairs(r, columns, columns);
    assert (r + 1) * columns == r * columns + columns;
    forall j | 0 <= j < |band|
      ensures r * columns <= band[j] < r * columns + 2 * columns
    {
      if 1 <= j < |band| - 1 {
        var m := (j - 1) / 2;
        assert band[j] == pairs[j - 1];
        if (j - 1) % 2 == 0 {
          assert j - 1 == 2 * m;
        } else {
          assert j - 1 == 2 * m + 1;
        }
      }
    }
  }

  /** Every entry of the first `k` bands names a vertex of rows `0 ..= k`. */
  lemma {:induction false} BandsRange(k: nat, columns: int)
    requires columns >= 1
    ensures forall j :: 0 <= j < |Bands(k, columns)| ==> 0 <= Bands(k, columns)[j] < k * columns + columns
    decreases k
  {
    if k > 0 {
      var prev, band := Bands(k - 1, columns), Band(k - 1, columns);
      BandsRange(k - 1, columns);
      BandRange(k - 1, columns);
      assert (k - 1) * columns == k * columns - columns;
      assert 0 <= (k - 1) * columns by {
        MulLe(0, k - 1, columns);
      }
      assert Bands(k, columns) == prev + band;
      forall j | 0 <= j < |prev + band|
        ensures 0 <= (prev + band)[j] < k * columns + columns
      {
        if j >= |prev| {
          assert (prev + band)[j] == band[j - |prev|];
        }
      }
    }
  }

  /** Every index of the strip names an existing vertex of the grid. */
  lemma StripInRange(rows: int, columns: int)
    requires rows >= 1 && columns >= 1
    ensures forall j :: 0 <= j < |Strip(rows, columns)| ==> 0 <= Strip(rows, columns)[j] < rows * columns
  {
    BandsRange(rows - 1, columns);
    assert (rows - 1) * columns + columns == rows * columns;
  }

  /** Every vertex of a grid with at least two rows appears in the strip:
      a vertex of row `q < rows - 1` as the top of a pair in band `q`, a
      vertex of the last row as the bottom of a pair in the last band. */
  lemma StripCovers(rows: int, columns: int, v: int)
    requires rows >= 2 && columns >= 1
    requires 0 <= v < rows * columns
    ensures v in Strip(rows, columns)
  {
    var q, c := GridPosition(rows, columns, v);
    if q < rows - 1 {
      CoveredAsTop(rows, columns, q, c);
    } else {
      CoveredAsBottom(rows, columns, q - 1, c);
      assert (q - 1 + 1) * columns + c == v;
    }
  }

  /** Row and column of vertex `v`. */
  lemma GridPosition(rows: int, columns: int, v: int) returns (q: nat, c: nat)
    requires columns >= 1 && 0 <= v < rows * columns
    ensures v == q * columns + c && q < rows && c < columns
  {
    q, c := v / columns, v % columns;
    assert q * columns <= v;
    MulLtCancel(q, rows, columns);
  }

  lemma CoveredAsTop(rows: int, columns: int, r: nat, c: nat)
    requires rows >= 1 && columns >= 1 && r < rows - 1 && c < columns
    ensures r * columns + c in Strip(rows, columns)
  {
    StripTop(rows, columns, r, c);
    var s, idx := Strip(rows, columns), r * BandLength(columns) + 1 + 2 * c;
    assert s[idx] == r * columns + c;
  }

  lemma CoveredAsBottom(rows: int, columns: int, r: nat, c: nat)
    requires rows >= 1 && columns >= 1 && r < rows - 1 && c < columns
    ensures (r + 1) * columns + c in Strip(rows, columns)
  {
    StripBottom(rows, columns, r, c);
    var s, idx := Strip(rows, columns), r * BandLength(columns) + 2 + 2 * c;
    assert s[idx] == (r + 1) * columns + c;
  }
}
