/** The indexed draw of wave.c's frame loop: `glDrawElements` reads the
    first `count` cells of the index array and uses each as a vertex
    number. A draw is well defined only when every cell it reads was
    written and names an existing vertex. */
module Draw {

  import opened Buffers
  import opened StripSpec

  /** Why a draw is not well defined; `at` is the offset of the first bad
      cell read. */
  datatype DrawError =
    | ReadPastBuffer
    | UninitialisedRead(at: nat)
    | VertexOutOfRange(at: nat)

  datatype Result<T> = Ok(value: T) | Err(error: DrawError)

  /** A cell the draw may use: written, and naming one of the vertices. */
  predicate Usable(cell: Slot<int>, vertexCount: int)
  {
    cell.Written? && 0 <= cell.value < vertexCount
  }

  /** The same error, one cell further on. */
  function Later(e: DrawError): DrawError
  {
    match e
    case UninitialisedRead(at) => UninitialisedRead(at + 1)
    case VertexOutOfRange(at) => VertexOutOfRange(at + 1)
    case ReadPastBuffer => e
  }

  /** The vertex numbers held by `cells`, in order, or the first cell that
      cannot be used. */
  function Gather(cells: seq<Slot<int>>, vertexCount: int): (r: Result<seq<int>>)
    ensures r.Ok? <==> forall j :: 0 <= j < |cells| ==> Usable(cells[j], vertexCount)
    ensures r.Ok? ==> |r.value| == |cells| && forall j :: 0 <= j < |cells| ==> cells[j] == Written(r.value[j])
    ensures r.Err? ==>
      && !r.error.ReadPastBuffer? && r.error.at < |cells|
      && !Usable(cells[r.error.at], vertexCount)
      && (r.error.UninitialisedRead? <==> cells[r.error.at].Uninit?)
      && (forall j :: 0 <= j < r.error.at ==> Usable(cells[j], vertexCount))
    decreases |cells|
  {
    if |cells| == 0 then Ok([])
    else if cells[0].Uninit? then Err(UninitialisedRead(0))
    else if !(0 <= cells[0].value < vertexCount) then Err(VertexOutOfRange(0))
    else
      match Gather(cells[1..], vertexCount)
      case Ok(rest) => Ok([cells[0].value] + rest)
      case Err(e) => Err(Later(e))
  }

  /** `glDrawElements` over the first `count` cells of `indices`. */
  function DrawElements(indices: seq<Slot<int>>, count: nat, vertexCount: int): (r: Result<seq<int>>)
    ensures count > |indices| ==> r == Err(ReadPastBuffer)
    ensures r.Ok? <==> count <= |indices| && forall j :: 0 <= j < count ==> Usable(indices[j], vertexCount)
    ensures r.Ok? ==> |r.value| == count && forall j :: 0 <= j < count ==> indices[j] == Written(r.value[j])
  {
    if count > |indices| then Err(ReadPastBuffer) else Gather(indices[..count], vertexCount)
  }

  /** Drawing the strip from a buffer that holds it is well defined exactly
      when the draw count does not exceed the number of entries written;
      a draw of exactly that many entries draws the strip, and a longer one
      fails at the first unwritten cell, which is where the strip ends. */
  lemma DrawWithinWritten(rows: int, columns: int, capacity: nat, count: nat)
    requires rows >= 1 && columns >= 1
    requires StripLength(rows, columns) <= capacity && count <= capacity
    ensures var r := DrawElements(Place(Strip(rows, columns), capacity), count, rows * columns);
      (r.Ok? <==> count <= StripLength(rows, columns))
      && (count == StripLength(rows, columns) ==> r == Ok(Strip(rows, columns)))
      && (count > StripLength(rows, columns) ==> r == Err(UninitialisedRead(StripLength(rows, columns))))
  {
    var s := Strip(rows, columns);
    var buf := Place(s, capacity);
    var r := DrawElements(buf, count, rows * columns);
    StripInRange(rows, columns);
    assert forall j :: 0 <= j < |s| ==> Usable(buf[j], rows * columns);
    if count == |s| {
      assert r.value == s;
    } else if count > |s| {
      assert !Usable(buf[..count][|s|], rows * columns);
      assert r.error.at == |s|;
    }
  }

  /** Number of unwritten cells a draw of `count` reads from a buffer that
      holds the strip. */
  lemma UnwrittenCellsRead(rows: int, columns: int, capacity: nat, count: nat)
    requires rows >= 1 && columns >= 1
    requires StripLength(rows, columns) <= count <= capacity
    ensures CountUninit(Place(Strip(rows, columns), capacity)[..count]) == count - StripLength(rows, columns)
  {
    PlaceUninitCount(Strip(rows, columns), capacity, count);
  }
}
