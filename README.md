# Hex grid creator, modelled and verified in Dafny

`AHexGridCreator` is an Unreal actor. It builds a hexagonal tile grid in axial coordinates and a
flat render mesh for it, then writes five text files:

- the tiles, each with its coordinate, position and rings of neighbours;
- the map from coordinate to tile index;
- the vertices, twelve per tile;
- the triangle indices, 36 per tile;
- the four parameters.

The work runs as a linear workflow of stages. One call of the dispatcher `CreateHexGridFlow` runs
one quantum of the current stage: at most `LoopCountLimit` loop bodies. The stage then saves the
indices it stands at in the stage's loop record and asks the host timer to call the dispatcher
again after the record's `Rate`. The next call resumes at the saved indices.

The stages, in order:

1. `InitWorkflow` resets the eight loop records and fills the table of the six axial directions.
2. `SpiralCreateCenter` emits the origin, then the hexes of rings 1 .. `GridRange` in spiral
   order. It appends each to the tile list and records its index.
3. `SpiralCreateNeighbors` gives every tile one neighbour record per radius 1 .. `NeighborRange`,
   holding the hexes of that ring around the tile, in walk order.
4. `CreateVertices` emits, for every tile and each of its six corners, an outer and an inner
   vertex.
5. `CreateTriangles` emits, for every tile and each of its six sides, two triangles covering the
   band between the outer and the inner outline.
6. `WriteTiles`, `WriteTileIndices`, `WriteVertices`, `WriteTriangles` and `WriteParams` write
   the files. The first four are chunked. If a file does not open, the workflow moves to
   `Error`. After the params file the workflow is `Done`.

## Modules

- `HexAxial` (hex_axial.dfy): axial coordinates, the six directions, hex distance, and the ring
  walk the two spiral stages share. A ring of radius r starts at the centre plus r times
  direction 4 and takes r steps along each direction 0 .. 5 in turn.
- `HexRecords` (hex_records.dfy): the value records. These are the tile, its neighbour records,
  and the loop record with the contract its checkpoint routines must keep.
- `GridSpec` (grid_spec.dfy): specification functions for the two spiral stages and their
  properties. They give the grid as a disk, the tile index as the inverse of the tile list, the
  neighbour records as rings, and the progress targets in closed form.
- `Mesh` (mesh.dfy): the vertex and index buffers as functions of the tile count, and their
  properties.
- `Rows` (rows.dfy): the text of every file row, a reader for each, and round-trip lemmas.
- `Workflow` (workflow.dfy): the state enum, the hand-off order and the progress query.
- `StageState` (stage_state.dfy): the predicates that say where each chunked walk stands when it
  yields, and the lemmas that move a walk from one position to the next.
- `Creator` (hex_grid_creator.dfy): the actor as a class.
  - Its members are fields that the stage methods update in place.
  - Every chunked stage is a method with the source's nested `for` loops, resumed from the loop
    record, with loop invariants.
  - `Valid()` ties the fields to the specification functions at every quantum boundary, whatever
    the quantum. A run that yields and resumes therefore builds exactly what an uninterrupted run
    builds.

How the model handles what it cannot execute:

- The host timer is the `Schedule` value a handler returns.
- A file is the sequence of its rows.
- Whether a file opens is a parameter of the dispatcher.
- Floating-point values are not computed. Tile positions and vertex coordinates reach the files
  through formatter functions given to the constructor (`positionText`, `vertexText`,
  `tileSizeText`, `gridLineRatioText`).
- A vertex is the symbolic triple (tile, corner, inner or outer).

Where the code and the repository's own description of the file formats differ, the model
follows the code:

- The params row has four fields, `tileSize|gridRange|gridLineRatio|neighborRange`
  (HexGridCreator.cpp:896-911).
- A tile row carries the tile's rings inline after its position. Hexes are separated by a
  space and rings by a colon.
- The write stages set `ProgressTarget` but never call `ResetProgress`.
- `WriteParams` sets both progress counters to 1 and schedules the next call after
  `DefaultTimerRate`.

`FlowControlUtility` is not part of this model. Its source is not present, so the model assumes
the following contract (`HexRecords.InitLoopData`, `HexRecords.SaveLoopData`):

- `InitLoopData` sizes `IndexSaved` to `LoopDepthLimit` zeros and clears `IsInitialized` and
  `Count`.
- `SaveLoopData` is called before every innermost loop body with the per-call count.
  - If that count has reached `LoopCountLimit`, it copies the current indices over the front of
    `IndexSaved`, leaves `Count` unchanged, schedules the dispatcher after the record's `Rate`,
    and tells the caller to return.
  - Otherwise it adds one to `Count`.

The stage handlers just return on a yield (for example HexGridCreator.cpp:240-243).
`ProgressCurrent = LoopData.Count` can only measure progress under this contract, and every
progress property below depends on it.

## Model

| member | source | states |
|---|---|---|
| Creator.HexGridCreator.constructor | Source/CreateGridData/HexGridCreator.h:60-145 | the actor starts in InitWorkflow with empty tiles, index, mesh and files, zero progress, and the editor's parameters and loop records; the workflow invariant Valid() holds |
| Creator.ClampSettings | Source/CreateGridData/HexGridCreator.h:81-91 | the editor clamps: both ranges at least 1, tile size not negative, line ratio within [0, 1], each loop depth at least 1 and count not negative; values already in range are kept, and quanta and rates are never changed |
| Creator.ClampLoop | Source/CreateGridData/StructDefine.h:44-54 | a loop record's depth is clamped to at least 1 and its count to at least 0; a record already in range is unchanged |
| Creator.DefaultSettings | Source/CreateGridData/HexGridCreator.h:81-111 | the declared defaults (ranges 10, every loop record 3000 bodies per call and 4 indices deep) are valid settings |
| HexRecords.DefaultLoopData | Source/CreateGridData/StructDefine.h:33-56 | a declared loop record: limit 3000, rate 0.01, depth 4, nothing saved, not initialised, count 0 |
| HexRecords.InitLoopData | Source/CreateGridData/HexGridCreator.cpp:93-102 | the assumed reset: depth-many zero indices, not initialised, count 0, configuration kept |
| HexRecords.SaveLoopData | Source/CreateGridData/HexGridCreator.cpp:240-243 | the assumed checkpoint: it yields exactly when the per-call count has reached the limit; on a yield it saves the indices over the front of IndexSaved and keeps the count; otherwise it adds one to the count; configuration and flag kept |
| Creator.HexGridCreator.InitWorkflow | Source/CreateGridData/HexGridCreator.cpp:48-59 | resets the checkpoints, fills the direction table and moves to SpiralCreateCenter with the centre walk's invariant, scheduled after DefaultTimerRate |
| Creator.HexGridCreator.InitLoopData | Source/CreateGridData/HexGridCreator.cpp:91-103 | every record is fresh: the centre walk resumes at ring 1, the neighbour walk at tile 0 radius 1, the others at 0; the configuration of each record is kept |
| Creator.HexGridCreator.InitAxialDirections | Source/CreateGridData/HexGridCreator.cpp:150-158 | appends the six directions in order; on an empty table entry d is direction d and one step from the origin |
| Creator.HexGridCreator.AxialDirection | Source/CreateGridData/HexGridCreator.cpp:165-168 | with the filled table, entry d is unit direction d |
| Creator.HexGridCreator.AxialNeighbor | Source/CreateGridData/HexGridCreator.cpp:170-173 | with the filled table, the result is the axial neighbour in that direction, at distance 1 |
| Creator.HexGridCreator.ResetProgress | Source/CreateGridData/HexGridCreator.cpp:180-184 | both progress counters are 0 |
| Workflow.GetProgress | Source/CreateGridData/HexGridCreator.cpp:186-197 | 0 when no target is set, never above 1 otherwise |
| Workflow.ProgressBounds | Source/CreateGridData/HexGridCreator.cpp:186-197 | for a positive target the progress is in [0, 1], is 1 exactly when the counter reached the target, and is the fraction done below it |
| Workflow.ProgressMonotone | Source/CreateGridData/HexGridCreator.cpp:186-197 | a growing counter never lowers the progress |
| Creator.HexGridCreator.SpiralCreateCenter | Source/CreateGridData/HexGridCreator.cpp:199-263 | one quantum of the centre walk: it stays in the stage with its invariant and a count grown by one quantum, or ends with tiles and index equal to the whole grid and the neighbour stage's invariant; the next call is scheduled after the record's rate |
| Creator.HexGridCreator.WalkCenter | Source/CreateGridData/HexGridCreator.cpp:207-255 | the progress target is the ring total and the current value is the record's count; it stays below the target when the walk yields and equals it when the walk ends |
| StageState.CenterSavedBelowTarget | Source/CreateGridData/HexGridCreator.cpp:240-248 | a saved centre walk has counted fewer hexes than the ring total |
| StageState.CenterDoneAtTarget | Source/CreateGridData/HexGridCreator.cpp:218-257 | a finished centre walk has counted exactly the ring total |
| Creator.HexGridCreator.InitGridCenter | Source/CreateGridData/HexGridCreator.cpp:265-277 | the tile list is the origin tile alone and the index maps the origin to 0 |
| Creator.HexGridCreator.AddRingTileAndIndex | Source/CreateGridData/HexGridCreator.cpp:279-288 | appends a tile at the cursor and maps the cursor to the new tile's index |
| Creator.HexGridCreator.FindNeighborTileOfRing | Source/CreateGridData/HexGridCreator.cpp:290-298 | the cursor moves to its neighbour in the side's direction |
| GridSpec.CenterComplete | Source/CreateGridData/HexGridCreator.cpp:218-255 | the hexes the walk emits up to the end of ring GridRange are the grid: the origin and rings 1 .. GridRange |
| GridSpec.CenterCoordsLength | Source/CreateGridData/HexGridCreator.cpp:233-249 | before step k of side j of ring i the walk has emitted 1 + (ring total of i - 1) + i j + k hexes |
| GridSpec.RingPositionBelow | Source/CreateGridData/HexGridCreator.cpp:218-249 | any step inside ring i comes before the end of ring m >= i |
| GridSpec.GridIsDisk | Source/CreateGridData/HexGridCreator.cpp:199-288 | the tiles are pairwise distinct and are exactly the hexes within distance GridRange of the origin |
| GridSpec.GridOrder | Source/CreateGridData/HexGridCreator.cpp:218-255 | tile 0 is the origin, tiles 1 .. 6 are ring 1 in walk order, and each grid is the smaller one followed by its outer ring |
| GridSpec.GridSize | Source/CreateGridData/HexGridCreator.cpp:199-263 | the grid has one tile more than the ring total |
| GridSpec.RingHexTotalClosed | Source/CreateGridData/HexGridCreator.cpp:211 | the centre target 6(1 + R)R / 2 is the number of ring hexes, with no rounding in the halving |
| GridSpec.TileIndicesInvert | Source/CreateGridData/HexGridCreator.cpp:279-288 | the index has exactly the grid hexes as keys and sends each tile's coordinate to its position in the tile list |
| GridSpec.IndexMapInverts | Source/CreateGridData/HexGridCreator.cpp:285-287 | for distinct coordinates the map built tile by tile inverts the list and has one key per tile |
| HexAxial.DirectionIsUnit | Source/CreateGridData/HexGridCreator.cpp:150-158 | every direction is one step from the origin |
| HexAxial.RingStartsAt | Source/CreateGridData/HexGridCreator.cpp:228-230 | a ring of radius r starts at the centre plus r times direction 4 |
| HexAxial.RingLength | Source/CreateGridData/HexGridCreator.cpp:234-250 | a ring of radius r has 6r hexes |
| HexAxial.RadiusOneRing | Source/CreateGridData/HexGridCreator.cpp:234-250 | the unit ring is (-1,1), (0,1), (1,0), (1,-1), (0,-1), (-1,0) around the centre, in that order |
| HexAxial.RingDistinctAtRadius | Source/CreateGridData/HexGridCreator.cpp:234-250 | every hex of a ring of radius r is at distance r and none comes twice |
| HexAxial.RingIsCircle | Source/CreateGridData/HexGridCreator.cpp:234-250 | a hex is on the ring of radius r exactly when it is at distance r from the centre |
| GridSpec.RingsAreAnnulus | Source/CreateGridData/HexGridCreator.cpp:326-358 | rings 1 .. n around a hex hold each hex at distance 1 .. n exactly once and nothing else |
| GridSpec.RingsStartWithUnitRing | Source/CreateGridData/HexGridCreator.cpp:326-358 | rings 1 .. n begin with the unit ring in walk order |
| Creator.HexGridCreator.SpiralCreateNeighbors | Source/CreateGridData/HexGridCreator.cpp:300-368 | one quantum of the neighbour walk: it stays in the stage with its invariant and a count grown by one quantum, or ends with every tile finished and the vertex stage's invariant; the next call is scheduled after the record's rate |
| Creator.HexGridCreator.WalkNeighbors | Source/CreateGridData/HexGridCreator.cpp:309-360 | the progress target is the ring hexes of all tiles and the current value is the record's count; it stays below the target on a yield and equals it at the end |
| Creator.HexGridCreator.SetNeighborTarget | Source/CreateGridData/HexGridCreator.cpp:312 | the target, multiplied out left to right and halved, is the number of ring hexes of all tiles |
| GridSpec.NeighborTarget | Source/CreateGridData/HexGridCreator.cpp:312 | tiles × 6 × (1 + n) × n / 2 equals the ring total once per tile |
| GridSpec.NeighborHexTotalProduct | Source/CreateGridData/HexGridCreator.cpp:312 | the neighbour total is the tile count times the ring total |
| Creator.HexGridCreator.NeighborSideSteps | Source/CreateGridData/HexGridCreator.cpp:343-353 | the innermost loop: each body records the cursor in the current ring and steps it; the count tracks the hexes recorded before the position; on a yield the walk is saved at the step it stopped before |
| Creator.HexGridCreator.AddTileNeighbor | Source/CreateGridData/HexGridCreator.cpp:370-375 | tile t gains an empty record of the given radius and nothing else changes |
| Creator.HexGridCreator.SetTileNeighbor | Source/CreateGridData/HexGridCreator.cpp:377-384 | the cursor is appended to tile t's record of that radius and moves to its neighbour in the side's direction |
| GridSpec.NeighborRecordsShape | Source/CreateGridData/HexGridCreator.cpp:326-358 | a finished tile has one record per radius 1 .. n; record k - 1 has radius k and holds the 6k hexes of that ring, in walk order |
| GridSpec.FinishedTilesShape | Source/CreateGridData/HexGridCreator.cpp:320-360 | after the neighbour stage every tile keeps its coordinate and holds exactly these records |
| GridSpec.WalkedHexesBounds | Source/CreateGridData/HexGridCreator.cpp:309-362 | the stage starts with no hex recorded and ends with every ring hex of every tile recorded |
| GridSpec.StageHexes | Source/CreateGridData/HexGridCreator.cpp:320-358 | before tile t the records hold t ring totals plus tile t's records so far |
| GridSpec.WalkPositionHexes | Source/CreateGridData/HexGridCreator.cpp:320-353 | before any step of the walk the records hold exactly the hexes emitted before that step |
| GridSpec.WalkPositionBelow | Source/CreateGridData/HexGridCreator.cpp:320-353 | any step of the walk comes before the last ring hex of the stage |
| StageState.NeighborSavedHexes | Source/CreateGridData/HexGridCreator.cpp:345-352 | while the walk is saved, the record's count is the number of hexes the records hold |
| StageState.NeighborSavedBelowTarget | Source/CreateGridData/HexGridCreator.cpp:345-352 | while the walk is saved, the count is below the stage's target |
| Creator.HexGridCreator.CreateVertices | Source/CreateGridData/HexGridCreator.cpp:386-418 | one quantum of the vertex stage: it stays with its invariant and a count grown by one quantum, or ends with the vertex buffer equal to the mesh of all tiles and the triangle stage's invariant |
| Creator.HexGridCreator.CreateTileLineVertices | Source/CreateGridData/HexGridCreator.cpp:435-445 | appends tile t's twelve vertices, outer then inner for each corner in turn |
| Mesh.MeshVerticesShape | Source/CreateGridData/HexGridCreator.cpp:399-444 | the buffer of n tiles has 12n vertices; 12t + 2c is the outer and 12t + 2c + 1 the inner vertex of corner c of tile t |
| Mesh.MeshCornerVertices | Source/CreateGridData/HexGridCreator.cpp:437-444 | the same, for a single tile and corner |
| Creator.HexGridCreator.CreateTriangles | Source/CreateGridData/HexGridCreator.cpp:447-480 | one quantum of the triangle stage: it stays with its invariant and a count grown by one quantum, or ends with the index buffer equal to the mesh of all tiles and the tiles-file invariant |
| Creator.HexGridCreator.InitCreateTriangles | Source/CreateGridData/HexGridCreator.cpp:482-492 | appends, for each side, the local outer and inner index of its corner and of the next corner |
| Mesh.TriTablesAreCorners | Source/CreateGridData/HexGridCreator.cpp:484-491 | the tables give corner i's vertices 2i, 2i + 1 and the next corner's, with corner 5 wrapping to corner 0 |
| Creator.HexGridCreator.CreateTileTriangles | Source/CreateGridData/HexGridCreator.cpp:494-509 | appends the 36 indices of the tile whose vertices start at the given base |
| Mesh.TileTrianglesBounds | Source/CreateGridData/HexGridCreator.cpp:494-509 | every index of a tile points into its own twelve vertices |
| Mesh.MeshIndexBounds | Source/CreateGridData/HexGridCreator.cpp:462-473 | the index buffer of n tiles has 36n entries, and tile t's point into its vertices 12t .. 12t + 11 |
| Mesh.MeshSideIndices | Source/CreateGridData/HexGridCreator.cpp:498-507 | side f of tile t is the two triangles (outer f, inner f, inner g) and (outer f, inner g, outer g), where g is the next corner |
| Creator.HexGridCreator.WriteTilesToFile | Source/CreateGridData/HexGridCreator.cpp:522-546 | the workflow goes to Error exactly when the file does not open; otherwise the tiles file holds rows 0 .. count of the tile file, and after the last row the workflow moves on to the index file |
| Creator.HexGridCreator.WriteTiles | Source/CreateGridData/HexGridCreator.cpp:548-573 | writes rows from the saved tile on; on a yield it is saved at the next tile, otherwise the file is complete |
| Creator.HexGridCreator.WriteTileLine | Source/CreateGridData/HexGridCreator.cpp:575-584 | appends tile index's row of the tiles file |
| Creator.HexGridCreator.WriteNeighbors | Source/CreateGridData/HexGridCreator.cpp:621-630 | the text of a tile's rings, a colon between two rings |
| Creator.HexGridCreator.WriteNeighborsInfo | Source/CreateGridData/HexGridCreator.cpp:632-644 | the text of one ring, a space between two hexes |
| Rows.TileRowRoundTrip | Source/CreateGridData/HexGridCreator.cpp:575-644 | a tile row reads back as the tile's coordinate, its position text and its rings |
| Rows.TileFileRow | Source/CreateGridData/HexGridCreator.cpp:555-566 | row u of the tiles file reads back as tile u's coordinate, position and rings 1 .. NeighborRange |
| Rows.ReadIntWritten | Source/CreateGridData/HexGridCreator.cpp:604-606 | a written integer, negative or not, reads back, and the reader stops where it ends |
| Creator.HexGridCreator.WriteTileIndicesToFile | Source/CreateGridData/HexGridCreator.cpp:646-670 | Error exactly when the file does not open; otherwise a prefix of the index file, then on to the vertices file |
| Creator.HexGridCreator.WriteTileIndices | Source/CreateGridData/HexGridCreator.cpp:672-696 | writes the rows from the saved tile on; on a yield it is saved at the next tile |
| Creator.HexGridCreator.WriteTileIndicesLine | Source/CreateGridData/HexGridCreator.cpp:698-719 | appends tile index's row: its coordinate, a pipe, its index |
| Rows.IndexRowRoundTrip | Source/CreateGridData/HexGridCreator.cpp:698-719 | an index row reads back as its coordinate and index |
| Rows.IndexFileRoundTrip | Source/CreateGridData/HexGridCreator.cpp:678-690 | the index file of the grid reads back as the map from each coordinate to its tile index |
| Creator.HexGridCreator.WriteVerticesToFile | Source/CreateGridData/HexGridCreator.cpp:721-745 | Error exactly when the file does not open; otherwise a prefix of the vertices file, one row per twelve vertices, then on to the triangles file |
| Creator.HexGridCreator.WriteVertices | Source/CreateGridData/HexGridCreator.cpp:747-771 | writes the rows from the saved vertex on, in steps of twelve; on a yield it is saved at the next group |
| Creator.HexGridCreator.WriteVerticesLine | Source/CreateGridData/HexGridCreator.cpp:773-782 | appends the row of the twelve vertices from the index, each followed by a pipe |
| Rows.VertexFileRow | Source/CreateGridData/HexGridCreator.cpp:754-765 | row u of the vertices file lists tile u's twelve vertices |
| Creator.HexGridCreator.WriteTrianglesToFile | Source/CreateGridData/HexGridCreator.cpp:797-821 | Error exactly when the file does not open; otherwise a prefix of the triangles file, one row per 36 indices, then on to the params file |
| Creator.HexGridCreator.WriteTriangles | Source/CreateGridData/HexGridCreator.cpp:823-847 | writes the rows from the saved index on, in steps of 36; on a yield it is saved at the next group |
| Creator.HexGridCreator.WriteTrianglesLine | Source/CreateGridData/HexGridCreator.cpp:849-863 | appends the row of the 36 indices from the index, each followed by a comma |
| Rows.TriangleRowRoundTrip | Source/CreateGridData/HexGridCreator.cpp:849-863 | a triangle row reads back as its indices |
| Rows.TriangleFileRow | Source/CreateGridData/HexGridCreator.cpp:830-841 | row u of the triangles file reads back as tile u's 36 indices, all within its twelve vertices |
| Creator.HexGridCreator.WriteParamsToFile | Source/CreateGridData/HexGridCreator.cpp:865-894 | the target is 1; Done with the params row written and the progress 1 if the file opens, Error with nothing written otherwise; either way the next call comes after DefaultTimerRate |
| Creator.HexGridCreator.WriteParamsContent | Source/CreateGridData/HexGridCreator.cpp:896-911 | appends the params row |
| Rows.ParamsRowRoundTrip | Source/CreateGridData/HexGridCreator.cpp:896-911 | the params row reads back as tile size, grid range, line ratio and neighbour range |
| Creator.HexGridCreator.CreateHexGridFlow | Source/CreateGridData/HexGridCreator.cpp:105-148 | one call keeps Valid(), moves the state only as Step allows, does nothing and schedules nothing in Done and Error, and otherwise schedules another call |
| Creator.HexGridCreator.OutputsReadBack | Source/CreateGridData/HexGridCreator.cpp:522-911 | when the workflow is Done, each file reads back as what was generated: tile u's coordinate, position and rings; the coordinate-to-index map; tile u's vertices; tile u's 36 indices; the four parameters |
| Workflow.StepForward | Source/CreateGridData/HexGridCreator.cpp:105-148 | a call never moves the state backwards and advances it by at most one; Error is reached only from a write stage |
| Workflow.NextIsSuccessor | Source/CreateGridData/HexGridCreator.h:13-28 | every finished stage hands off to the next enumerator; only WriteParams hands off to Done |
| Workflow.PipelineInOrder | Source/CreateGridData/HexGridCreator.h:13-28 | following the hand-offs visits the states in enum order |
| Workflow.FullPipeline | Source/CreateGridData/HexGridCreator.h:13-28 | from InitWorkflow the hand-offs visit all ten working stages, then Done |

## Left out

- BeginPlay, Tick and BindDelegate (HexGridCreator.cpp:18-46) are host wiring: binding the
  dispatcher to the timer and starting it. The model calls `CreateHexGridFlow` directly.
- InitDirection, InitTileParams and InitCreateVertices (HexGridCreator.cpp:61-89, 420-433) only
  compute floating-point directions, tile dimensions and corner offsets.
  - `Position2D` and `TmpPosition2D` are not modelled.
  - A vertex is the symbolic (tile, corner, inner or outer).
  - `OuterVectors` and `InnerVectors` are not modelled.
- Floating-point text is not modelled. The position text of a tile row (WritePosition2D), the
  text of a vertex (WriteVertex) and the tile size and line ratio of the params row come from
  formatter functions given to the constructor, in place of `Conv_FloatToText`. The
  round-trip lemmas require only that this text holds no pipe.
- CreateFilePath, opening, appending and closing the files, and logging are left out.
  - A file is the list of its rows.
  - Truncation on a stage's first call and appending on later calls are modelled by the rows
    accumulating across calls.
  - Whether the open succeeds is the dispatcher's `isOpen` parameter.
- FlowControlUtility is not part of this model. `SaveLoopData` and `InitLoopData` are given the
  contract described above, and the timer that SaveLoopData arms on a yield is the `Schedule`
  the handler returns.
- Creator.HexGridCreator.SetNeighborTarget: does not model the 32-bit overflow of the target at
  HexGridCreator.cpp:312. The product is formed in int32 before the halving. With
  NeighborRange 10 it first exceeds 2^31 - 1 at GridRange 1041 (3,254,167 tiles, product
  2,147,750,220). The model computes the exact value.
- GridSpec.RingHexTotalClosed: does not model the 32-bit overflow of the centre target at
  HexGridCreator.cpp:211. 6(1 + R)R first exceeds 2^31 - 1 at GridRange 18919.
- Creator.HexGridCreator.WalkNeighbors: `LoopData.Count` and `ProgressCurrent` are int32 in the
  source and unbounded here. Its progress facts hold only while the counts fit in 32 bits.
- Workflow.ProgressBounds: uses exact reals. The source divides in single precision
  (HexGridCreator.cpp:193). Above 2^24 that can report 1.0 before the target is reached: for
  current 16,777,216 and target 16,777,217 both convert to 16,777,216.0f.
- Workflow.GetProgress: the same single-precision rounding is not modelled. Neither is a target
  that has wrapped negative through the overflow above, for which the source reports a negative
  fraction.
- Creator.HexGridCreator.constructor: requires the parameters within the editor clamps
  (HexGridCreator.h:84-91, StructDefine.h:44-54).
  - A GridRange or NeighborRange below 1 can still be set from a Blueprint. The source then
    builds the origin tile alone, or tiles without neighbour records. That case is not
    modelled.
  - The centre record must save at least three indices and the neighbour record four. With
    fewer, the source indexes `IndexSaved` out of bounds (HexGridCreator.cpp:94-96, 233-236,
    339-342). That crash is not modelled. Deeper records are accepted.
- The Dafny fields `gridCoords`, `tilesFile`, `tileIndicesFile`, `verticesFile`, `trianglesFile`
  and `paramsFile` exist only in the model. They name the grid being built and the contents of
  the five files.
