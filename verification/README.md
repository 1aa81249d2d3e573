# wave: grid-mesh layout of an animated OpenGL wave

wave.c is a small OpenGL/GLFW demo. It builds a grid of `rows` x `columns`
vertices once at start-up and draws it every frame as one indexed triangle
strip. A vertex shader moves the grid's heights over time. This project
models the integer parts of that program:

- the loop that fills `GLfloat vertices[1536]` with three floats per vertex,
  at `3*(r*columns + c) + k`;
- the loop that fills `int indices[1024]` with the strip. Each band between
  grid rows `r` and `r + 1` is a repeated lead-in index, one pair of indices
  per column, and a repeated lead-out index;
- the per-frame `glDrawElements` call, which reads a fixed number of
  indices from that array;
- the key callback, which marks the window for closing on an Escape press.

A C stack array starts out indeterminate. So each buffer is a
`seq<Slot<T>>` whose cells are `Uninit` or `Written(v)`. A write must land
inside the array. A draw is well defined only if every cell it reads was
written and names an existing vertex. The grid size and array sizes are
parameters, collected in `WaveConfig.Config`. `WaveConfig.Wave` holds
wave.c's constants: 16 rows, 32 columns, capacities 1536 and 1024, and a
draw count of 1024.

Modules:
- `StripSpec` is the functional definition of the strip (`Strip`), with its
  closed-form layout, range and coverage lemmas.
- `VertexLayout` covers vertex-array addressing (`Address`), its inverse
  (`Locate`), and the reference contents of the filled array (`Grid`).
- `Buffers` holds fixed-size buffers with unwritten cells.
- `Mesh` holds the two set-up loops, written as methods with loop
  invariants and checked against `StripSpec` and `VertexLayout`.
- `Draw` models `glDrawElements` over an index buffer.
- `Input` models the key callback and the in-order delivery of key events.
- `WaveConfig` instantiates everything with wave.c's constants and holds the
  draw-count defect.
- `Arith` holds multiplication and division facts used by the proofs.

## Model

| member | source | states |
|---|---|---|
| `StripSpec.Pairs` | wave.c:183-186 | Column `m` contributes the vertex `r*columns + m` at offset `2m` and the vertex `(r+1)*columns + m` at offset `2m + 1`, so `n` columns give `2n` entries. |
| `StripSpec.Strip` | wave.c:180-188 | The strip of a grid has `(rows-1)*(2*columns+2)` entries. |
| `StripSpec.StripLayout` | wave.c:181-187 | Band `r` starts at offset `r*(2*columns+2)`. Its first two entries are both `r*columns`, the degenerate lead-in. Offsets `1+2c` and `2+2c` hold `r*columns+c` and `(r+1)*columns+c`, which differ by exactly `columns`. Its last two entries are both `(r+1)*columns+columns-1`, the degenerate lead-out. |
| `StripSpec.StripTop` | wave.c:184 | Offset `1+2c` of band `r` is the vertex of row `r`, column `c`. |
| `StripSpec.StripBottom` | wave.c:185 | Offset `2+2c` of band `r` is the vertex of row `r+1`, column `c`. |
| `StripSpec.StripInRange` | wave.c:182-187 | Every index in the strip lies in `[0, rows*columns)`, so it names an existing vertex. |
| `StripSpec.StripCovers` | wave.c:181-188 | With at least two rows, every vertex `0 <= v < rows*columns` occurs in the strip. |
| `Mesh.FillIndices` | wave.c:180-188 | The loop ends with cursor `i == (rows-1)*(2*columns+2)`. The buffer then holds exactly the strip in its leading cells, and every later cell is unwritten. Every write stays inside the buffer when the strip fits its capacity. |
| `Mesh.FillBand` | wave.c:182-187 | One pass of the outer loop advances the cursor by `2*columns+2` and appends band `r` behind what was already written. |
| `Mesh.FillColumn` | wave.c:183-185 | One pass of the inner index loop writes the top vertex `r*columns+c` and then the bottom vertex `(r+1)*columns+c` behind the indices already written, and advances the cursor by two. |
| `Mesh.FillVertices` | wave.c:171-178 | The nested loop leaves the vertex array holding `Grid(rows, columns)` in its leading `3*rows*columns` cells, with every later cell unwritten. Every write stays inside the array when the grid fits its capacity. |
| `Mesh.FillRow` | wave.c:172-177 | One pass of the outer vertex loop appends the floats of row `r` behind the rows already stored. |
| `Mesh.FillVertex` | wave.c:173-176 | One pass of the inner vertex loop stores x, y and z of vertex `(r, c)` at `3*(r*columns+c)`, `+1` and `+2`, exactly behind the floats already stored. |
| `VertexLayout.RowFloats` | wave.c:172-177 | The floats stored for the first `n` columns of a row number exactly `3n`. |
| `VertexLayout.RowFloatsAt` | wave.c:173-176 | Column `c` of row `r` occupies offsets `3c`, `3c+1` and `3c+2` of the row's floats: x from the column, y = 0, and z from the row. |
| `VertexLayout.Grid` | wave.c:171-178 | The reference contents of the vertex array, row after row, has exactly `3*rows*columns` floats. |
| `VertexLayout.GridAt` | wave.c:173-176 | In the grid's contents, the float at `3*(r*columns+c)+k` is component `k` of vertex `(r, c)`: x from the column, y zero, z from the row. |
| `VertexLayout.GridLocate` | wave.c:173-176 | Every float of the grid's contents holds the coordinate that its position decodes to under `Locate`. |
| `VertexLayout.AddressRoundTrip` | wave.c:173-176 | Decoding the address `3*(r*columns+c)+k` gives back `(r, c, k)`, so different vertex components never share a float. |
| `VertexLayout.LocateRoundTrip` | wave.c:173-176 | Every float position is the address of the `(row, column, component)` it decodes to, with `column < columns` and `component < 3`. |
| `VertexLayout.AddressInBounds` | wave.c:165-178 | Every address of a `rows` x `columns` grid lies in `[0, 3*rows*columns)`. Only the z of the last vertex hits the last float. |
| `Draw.Gather` | wave.c:218 | The result is `Ok` exactly when every cell read is written and names a vertex, and then it lists the values in order. Otherwise it names the first bad cell and whether that cell was unwritten. |
| `Draw.DrawElements` | wave.c:218 | A draw of `count` cells fails if it reads past the array. Otherwise it succeeds exactly when the first `count` cells are all usable, and then yields their values. |
| `Draw.DrawWithinWritten` | wave.c:180-188 | Drawing from the filled index array is well defined if and only if the draw count is at most the number of entries written. A count equal to the strip length draws exactly the strip. A larger count fails at the first unwritten cell, offset `StripLength`. |
| `Draw.UnwrittenCellsRead` | wave.c:218 | A draw of `count >= StripLength` cells reads `count - StripLength` unwritten cells. |
| `WaveConfig.WaveFits` | wave.c:165-168 | With 16 x 32, the vertex loop fills all 1536 floats exactly. The index loop writes 990 entries, which fits in 1024 and leaves 34 cells unwritten. |
| `WaveConfig.SetUp` | wave.c:165-188 | After both loops, the vertex array holds the grid's contents followed by unwritten cells. The index cursor equals the strip length, and the index array holds the strip followed by unwritten cells. |
| `WaveConfig.AsWrittenDrawReadsUnwritten` | wave.c:218 | When the draw count is the index array's size, as in wave.c, the draw is well defined if and only if the strip fills the array exactly. Otherwise it fails at offset `StripLength`, the first cell the set-up never wrote. wave.c's constants fall in the failing case: the strip ends at 990 of 1024. |
| `WaveConfig.AsWrittenUnwrittenReads` | wave.c:218 | 34 cells of wave.c's 1024-cell index array are never written. The draw count fits the array, and the cells the draw reads include all 34 unwritten ones. |
| `WaveConfig.CorrectedDrawReadsStrip` | wave.c:218 | With the draw count set to the strip length (990 for wave.c), every frame draws exactly the strip, and each index names a vertex. |
| `Input.KeyCallback` | wave.c:10-14 | The close flag ends up set if and only if it was already set or the event is (Escape, press). Any other event leaves the window unchanged. |
| `Input.Deliver` | wave.c:221 | One `glfwPollEvents` hands the queued key events to `key_callback` (wave.c:10-14) one at a time, in order. Once the window is marked for closing, no later event in the run clears the mark. |
| `Input.DeliverCloses` | wave.c:10-14 | After a run of key events, the window is marked for closing if and only if it already was or one of the events was an Escape press. |
| `Input.DeliverOthersUnchanged` | wave.c:12-13 | A run of events with no Escape press leaves the window unchanged, whatever the scan codes, modifiers, other keys, releases and repeats. |

## Findings

| source | as written | input that shows it | evidently intended | confidence | as-written member | corrected member |
|---|---|---|---|---|---|---|
| wave.c:218 | The draw passes a fixed element count of 1024 to `glDrawElements`, the size of the index array. | rows = 16, columns = 32: the set-up loop writes 15 * 66 = 990 indices, so the draw reads offsets 990..1023, which were never written (34 indeterminate indices). | The element count should be the number of indices written, `(rows-1)*(2*columns+2)`, which is 990 here. | not executed; high (plain arithmetic on the constants) | `WaveConfig.AsWrittenDrawReadsUnwritten` | `WaveConfig.CorrectedDrawReadsStrip` |

## Left out

- Window and context creation, the frame loop, the viewport, buffer swaps and event polling (wave.c:62-73, 190-226) are left out. They are calls into GLFW and the GL driver. Two parts of the frame loop are modelled. The draw call's index reads (wave.c:218) are modelled by `Draw`. The key events one poll hands to the key callback (wave.c:221) are modelled as in-order callback calls by `Input.Deliver`. Everything else a poll does (window, cursor and other events) is left out.
- Shader loading and program linking (wave.c:16-57, 120-159) are left out. Their outcome is decided by the GL driver. The program branches on whether the shader and program objects were created (wave.c:24, 126) and on the compile and link status flags (wave.c:36, 141), and prints the driver's log. `main` ignores what `LoadShader` returns (wave.c:120-121), so a failed compile shows up only at the link. None of these outcomes is modelled.
- The GLSL shader sources (wave.c:75-110) are left out, because they are floating-point GPU code.
- The error callback (wave.c:5-8) is left out. It only writes to standard error.
- The float values of the vertex coordinates (wave.c:174-176) are kept symbolic as `XOfColumn(c)`, `YZero` and `ZOfRow(r)`. Floating point is not modelled. Note that the x divisor is a fixed 16.0 and the z divisor a fixed 8.0, not `columns/2` and `rows/2`.
- The time counter and the uniform upload (wave.c:117, 163, 214-215) are left out, because they are floating point.
- Blend, depth and attribute-pointer state (wave.c:204-212) are left out. These are rendering side effects only.
- C `int` overflow is not modelled; integers are unbounded. With wave.c's constants the largest value computed is 1535. For general grid sizes the model assumes `3*rows*columns` fits in an `int`.
- `Input.KeyCallback` models `glfwSetWindowShouldClose` as setting a flag. The close flag can also be set by a window-manager close request, which happens inside GLFW and is not modelled. The values of `GLFW_KEY_ESCAPE` (256) and `GLFW_PRESS` (1) come from GLFW's public header, which is not part of this model.
- The grid size is a parameter, taken as natural numbers. `rows >= 1` and `columns >= 1` suffice for the index loop, and coverage needs `rows >= 2`. wave.c itself runs only the 16 x 32 grid. With one row the loop writes nothing, and the model follows that.
- The lead-in index is emitted for the first band (r = 0) as well, as wave.c:182 does, so the strip starts with a repeated index too.
