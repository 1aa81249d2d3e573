/** The mesh set-up of wave.c's `main`: a grid size, the sizes of the two
    stack arrays, and the element count of the per-frame draw. wave.c uses
    a grid of 16 rows by 32 columns, `GLfloat vertices[1536]`,
    `int indices[1024]`, and draws 1024 indices per frame. */
module WaveConfig {

  import opened Buffers
  import opened StripSpec
  import opened VertexLayout
  import opened Mesh
  import opened Draw

  datatype Config = Config(rows: int, columns: int, vertexCapacity: nat, indexCapacity: nat, drawCount: nat)

  /** The constants of wave.c. */
  const Wave: Config := Config(16, 32, 1536, 1024, 1024)

  /** A configuration whose set-up loops stay inside both arrays. */
  predicate Fits(cfg: Config)
  {
    cfg.rows >= 1 && cfg.columns >= 1
    && FloatCount(cfg.rows, cfg.columns) <= cfg.vertexCapacity
    && StripLength(cfg.rows, cfg.columns) <= cfg.indexCapacity
  }

  /** The element count the draw should use: the number of strip entries
      the set-up loop writes. */
  function CorrectedDrawCount(cfg: Config): (n: nat)
    requires cfg.rows >= 1 && cfg.columns >= 1
    ensures n == |Strip(cfg.rows, cfg.columns)|
  {
    StripLength(cfg.rows, cfg.columns)
  }

  /** wave.c's loops stay inside its arrays: the vertex loop fills all 1536
      floats exactly and the index loop writes 990 of the 1024 cells. */
  lemma WaveFits()
    ensures Fits(Wave)
    ensures FloatCount(Wave.rows, Wave.columns) == Wave.vertexCapacity
    ensures StripLength(Wave.rows, Wave.columns) == 990 && Wave.indexCapacity - 990 == 34
  {
  }

  /** Runs both set-up loops. The vertex array holds the grid's contents;
      the index cursor stops at the strip length and the cells after it
      stay unwritten. */
  method SetUp(cfg: Config) returns (vertices: seq<Slot<Coordinate>>, indices: seq<Slot<int>>, cursor: nat)
    requires Fits(cfg)
    ensures vertices == Place(Grid(cfg.rows, cfg.columns), cfg.vertexCapacity)
    ensures cursor == StripLength(cfg.rows, cfg.columns)
    ensures indices == Place(Strip(cfg.rows, cfg.columns), cfg.indexCapacity)
  {
    vertices := FillVertices(cfg.rows, cfg.columns, cfg.vertexCapacity);
    indices, cursor := FillIndices(cfg.rows, cfg.columns, cfg.indexCapacity);
  }

  /** As written, each frame's draw reads the whole index array. That is
      well defined only if the strip fills the array exactly; otherwise the
      draw fails at the first cell the set-up never wrote. wave.c's
      constants are in the failing case: the strip ends at offset 990 of
      1024. */
  lemma AsWrittenDrawReadsUnwritten(cfg: Config)
    requires Fits(cfg) && cfg.drawCount == cfg.indexCapacity
    ensures DrawElements(Place(Strip(cfg.rows, cfg.columns), cfg.indexCapacity), cfg.drawCount, cfg.rows * cfg.columns).Ok?
      <==> StripLength(cfg.rows, cfg.columns) == cfg.indexCapacity
    ensures StripLength(cfg.rows, cfg.columns) < cfg.indexCapacity ==>
      DrawElements(Place(Strip(cfg.rows, cfg.columns), cfg.indexCapacity), cfg.drawCount, cfg.rows * cfg.columns)
      == Err(UninitialisedRead(StripLength(cfg.rows, cfg.columns)))
    ensures cfg == Wave ==> StripLength(cfg.rows, cfg.columns) == 990 < cfg.indexCapacity
  {
    DrawWithinWritten(cfg.rows, cfg.columns, cfg.indexCapacity, cfg.drawCount);
  }

  /** With the corrected count, every frame's draw of a fitting
      configuration reads exactly the strip, each index of which names one
      of the grid's vertices; for wave.c that is 990 indices. */
  lemma CorrectedDrawReadsStrip(cfg: Config)
    requires Fits(cfg)
    ensures CorrectedDrawCount(cfg) <= cfg.indexCapacity
    ensures DrawElements(Place(Strip(cfg.rows, cfg.columns), cfg.indexCapacity), CorrectedDrawCount(cfg), cfg.rows * cfg.columns)
      == Ok(Strip(cfg.rows, cfg.columns))
    ensures cfg == Wave ==> CorrectedDrawCount(cfg) == 990
  {
    DrawWithinWritten(cfg.rows, cfg.columns, cfg.indexCapacity, CorrectedDrawCount(cfg));
  }

  /** As written, 34 cells of wave.c's index array are never written, and
      each frame's draw reads all 34 of them. */
  lemma AsWrittenUnwrittenReads()
    ensures CountUninit(Place(Strip(Wave.rows, Wave.columns), Wave.indexCapacity)) == 34
    ensures Wave.drawCount <= Wave.indexCapacity
    ensures CountUninit(Place(Strip(Wave.rows, Wave.columns), Wave.indexCapacity)[..Wave.drawCount]) == 34
  {
    WaveFits();
    PlaceUninitTotal(Strip(Wave.rows, Wave.columns), Wave.indexCapacity);
    UnwrittenCellsRead(Wave.rows, Wave.columns, Wave.indexCapacity, Wave.drawCount);
  }
}
