/**
 * The hex grid creator actor: its long-lived mutable members and the stage handlers that
 * the workflow dispatcher runs one quantum at a time.
 *
 * Every chunked stage runs a loop nest whose start indices come from the stage's saved
 * checkpoint; after LoopCountLimit bodies it saves the indices it is about to execute and
 * returns, and the next call resumes there.  Valid() ties the members to the specification
 * functions of GridSpec, Mesh and Rows at every such boundary, whatever the quantum limit,
 * so a run that yields and resumes builds exactly what an uninterrupted run builds.
 *
 * The host's timer is modelled by the Schedule each handler returns; a file is the sequence
 * of its rows, and whether opening it succeeds is a parameter.
 */
module Creator {
  import opened HexAxial
  import opened HexRecords
  import opened GridSpec
  import opened Mesh
  import opened Rows
  import opened Workflow
  import opened StageState

  /** The editable parameters of the actor, with the loop records of the eight chunked
      stages in pipeline order: centre, neighbours, vertices, triangles, then the tile,
      tile-index, vertex and triangle writes. */
  datatype Settings = Settings(
    tileSize: real,
    gridRange: int,
    gridLineRatio: real,
    neighborRange: int,
    defaultTimerRate: real,
    loops: seq<LoopData>)

  /** The number of chunked stages, each with a loop record of its own. */
  const LoopStageCount := 8

  /** The editor clamps: the ranges at least 1, the tile size not negative, the grid-line
      ratio within [0, 1], and in every loop record a depth of at least 1 and a count not
      negative. */
  predicate Clamped(s: Settings) {
    && s.gridRange >= 1
    && s.neighborRange >= 1
    && s.tileSize >= 0.0
    && 0.0 <= s.gridLineRatio <= 1.0
    && |s.loops| == LoopStageCount
    && forall m :: 0 <= m < |s.loops| ==> s.loops[m].loopDepthLimit >= 1 && s.loops[m].count >= 0
  }

  /** Clamped settings whose centre record holds the three indices the centre walk saves and
      whose neighbour record holds the four the neighbour walk saves. */
  predicate ValidSettings(s: Settings) {
    Clamped(s) && s.loops[0].loopDepthLimit >= CenterDepth && s.loops[1].loopDepthLimit >= NeighborDepth
  }

  /** A loop record with its depth and count pulled into their clamps. */
  function ClampLoop(loop: LoopData): (r: LoopData)
    ensures r.loopDepthLimit >= 1 && r.count >= 0
    ensures loop.loopDepthLimit >= 1 && loop.count >= 0 ==> r == loop
    ensures r.loopCountLimit == loop.loopCountLimit && r.rate == loop.rate
  {
    loop.(loopDepthLimit := if loop.loopDepthLimit < 1 then 1 else loop.loopDepthLimit,
          count := if loop.count < 0 then 0 else loop.count)
  }

  /** What the editor makes of entered values: each clamped parameter pulled into range,
      everything else kept. */
  function ClampSettings(s: Settings): (r: Settings)
    requires |s.loops| == LoopStageCount
    ensures Clamped(r)
    ensures Clamped(s) ==> r == s
    ensures r.defaultTimerRate == s.defaultTimerRate
    ensures forall m :: 0 <= m < LoopStageCount ==>
      r.loops[m].loopCountLimit == s.loops[m].loopCountLimit && r.loops[m].rate == s.loops[m].rate
  {
    s.(gridRange := if s.gridRange < 1 then 1 else s.gridRange,
       neighborRange := if s.neighborRange < 1 then 1 else s.neighborRange,
       tileSize := if s.tileSize < 0.0 then 0.0 else s.tileSize,
       gridLineRatio := if s.gridLineRatio < 0.0 then 0.0
                        else if s.gridLineRatio > 1.0 then 1.0 else s.gridLineRatio,
       loops := seq(LoopStageCount, m requires 0 <= m < LoopStageCount => ClampLoop(s.loops[m])))
  }

  /** The declared defaults: every loop record as declared, four indices deep. */
  function DefaultSettings(): (s: Settings)
    ensures ValidSettings(s)
    ensures s.gridRange == 10 && s.neighborRange == 10
    ensures forall m :: 0 <= m < LoopStageCount ==>
      s.loops[m].loopCountLimit == 3000 && s.loops[m].loopDepthLimit == 4
  {
    Settings(500.0, 10, 0.1, 10, 0.01, seq(LoopStageCount, _ => DefaultLoopData()))
  }

  class HexGridCreator {
    // Parameters
    const gridRange: nat
    const neighborRange: nat
    const tileSize: real
    const gridLineRatio: real
    const defaultTimerRate: real
    /** The centre coordinates of the configured grid, GridCoords(gridRange) (see LaidOut):
        a name for the grid the stages walk, fixed at construction. */
    ghost const gridCoords: seq<Axial>

    // The engine's float-to-text conversion, which is not part of this model: the text of
    // tile u's position, of a vertex, of the tile size and of the grid-line ratio.
    const positionText: nat -> string
    const vertexText: Vertex -> string
    const tileSizeText: string
    const gridLineRatioText: string

    // Generated data
    var tiles: seq<HexTile>
    var tileIndices: map<Axial, int>
    var vertices: seq<Vertex>
    var triangles: seq<int>

    // Walk state kept across calls
    var ringInitFlag: bool
    var tmpHex: Axial
    var axialDirectionVectors: seq<Axial>
    var triArr0: seq<int>
    var triArr1: seq<int>
    var triArr2: seq<int>
    var triArr3: seq<int>

    // Checkpoints of the chunked stages
    var centerLoop: LoopData
    var neighborsLoop: LoopData
    var verticesLoop: LoopData
    var trianglesLoop: LoopData
    var writeTilesLoop: LoopData
    var writeTileIndicesLoop: LoopData
    var writeVerticesLoop: LoopData
    var writeTrianglesLoop: LoopData

    // Workflow
    var workflowState: WorkflowState
    var progressTarget: int
    var progressCurrent: int

    // Output files, one row per element
    var tilesFile: seq<string>
    var tileIndicesFile: seq<string>
    var verticesFile: seq<string>
    var trianglesFile: seq<string>
    var paramsFile: seq<string>

    // -------------------------------------------------------------------------------------
    // Invariants
    // -------------------------------------------------------------------------------------

    /** The parameters are within their clamps. */
    ghost predicate Configured() {
      gridRange >= 1 && neighborRange >= 1 && 0 < |gridCoords|
    }

    /** The grid the stages walk is the one of range GridRange. */
    ghost predicate LaidOut() {
      gridCoords == GridCoords(gridRange)
    }

    /** Every checkpoint is deep enough for the indices its stage saves. */
    ghost predicate LoopDepths()
      reads this`centerLoop, this`neighborsLoop, this`verticesLoop, this`trianglesLoop
      reads this`writeTilesLoop, this`writeTileIndicesLoop, this`writeVerticesLoop
      reads this`writeTrianglesLoop
    {
      && centerLoop.loopDepthLimit >= CenterDepth
      && neighborsLoop.loopDepthLimit >= NeighborDepth
      && verticesLoop.loopDepthLimit >= 1
      && trianglesLoop.loopDepthLimit >= 1
      && writeTilesLoop.loopDepthLimit >= 1
      && writeTileIndicesLoop.loopDepthLimit >= 1
      && writeVerticesLoop.loopDepthLimit >= 1
      && writeTrianglesLoop.loopDepthLimit >= 1
    }

    /** Before the workflow has started. */
    ghost predicate Initial()
      reads this`axialDirectionVectors, this`vertices, this`triangles, this`triArr0
      reads this`triArr1, this`triArr2, this`triArr3, this`progressTarget, this`progressCurrent
      reads this`centerLoop, this`neighborsLoop, this`verticesLoop, this`trianglesLoop
      reads this`writeTilesLoop, this`writeTileIndicesLoop, this`writeVerticesLoop
      reads this`writeTrianglesLoop
    {
      && LoopDepths() && axialDirectionVectors == []
      && vertices == [] && triangles == []
      && triArr0 == [] && triArr1 == [] && triArr2 == [] && triArr3 == []
      && progressTarget == 0 && progressCurrent == 0
    }

    /** The direction table is filled and the mesh stages have not started. */
    ghost predicate MeshStagesPending()
      reads this`axialDirectionVectors, this`vertices, this`triangles, this`triArr0
      reads this`triArr1, this`triArr2, this`triArr3, this`verticesLoop, this`trianglesLoop
      reads this`writeTilesLoop, this`writeTileIndicesLoop, this`writeVerticesLoop
      reads this`writeTrianglesLoop
    {
      && axialDirectionVectors == DirectionTable
      && MeshPending(vertices, triangles, triArr0, triArr1, triArr2, triArr3)
      && AllFresh([verticesLoop, trianglesLoop, writeTilesLoop, writeTileIndicesLoop,
                   writeVerticesLoop, writeTrianglesLoop])
    }

    /** Nothing after the centre walk has started, and the neighbour checkpoint is deep
        enough for its walk. */
    ghost predicate NeighborsPending()
      reads this`axialDirectionVectors, this`vertices, this`triangles, this`triArr0
      reads this`triArr1, this`triArr2, this`triArr3, this`neighborsLoop, this`verticesLoop
      reads this`trianglesLoop, this`writeTilesLoop, this`writeTileIndicesLoop
      reads this`writeVerticesLoop, this`writeTrianglesLoop
    {
      MeshStagesPending() && Fresh(neighborsLoop, [0, 1]) && neighborsLoop.loopDepthLimit >= NeighborDepth
    }

    /** Between calls of the centre stage. */
    ghost predicate CenterInv()
      reads this`axialDirectionVectors, this`vertices, this`triangles, this`triArr0
      reads this`triArr1, this`triArr2, this`triArr3, this`centerLoop, this`neighborsLoop
      reads this`verticesLoop, this`trianglesLoop, this`writeTilesLoop
      reads this`writeTileIndicesLoop, this`writeVerticesLoop, this`writeTrianglesLoop
      reads this`tiles, this`tileIndices, this`tmpHex, this`ringInitFlag, this`progressTarget
      reads this`progressCurrent
    {
      && NeighborsPending()
      && CenterCheckpoint(gridRange, centerLoop, ringInitFlag, tiles, tileIndices, tmpHex,
                          progressTarget, progressCurrent)
    }

    /** Between calls of the neighbour stage. */
    ghost predicate NeighborsInv()
      reads this`axialDirectionVectors, this`vertices, this`triangles, this`triArr0
      reads this`triArr1, this`triArr2, this`triArr3, this`centerLoop, this`neighborsLoop
      reads this`verticesLoop, this`trianglesLoop, this`writeTilesLoop
      reads this`writeTileIndicesLoop, this`writeVerticesLoop, this`writeTrianglesLoop
      reads this`tiles, this`tileIndices, this`tmpHex, this`ringInitFlag, this`progressTarget
      reads this`progressCurrent
    {
      && MeshStagesPending()
      && tileIndices == IndexMap(gridCoords)
      && NeighborCheckpoint(gridCoords, neighborRange, neighborsLoop, ringInitFlag, tiles, tmpHex,
                            progressTarget, progressCurrent)
    }

    /** The centre tiles with all their neighbour records, and the coordinate index. */
    ghost predicate GridDone()
      reads this`tiles, this`tileIndices
    {
      GridComplete(gridCoords, neighborRange, tiles, tileIndices)
    }

    /** Between calls of the vertex stage. */
    ghost predicate VerticesInv()
      reads this`tiles, this`tileIndices, this`vertices, this`triangles, this`triArr0
      reads this`triArr1, this`triArr2, this`triArr3, this`verticesLoop, this`trianglesLoop
      reads this`writeTilesLoop, this`writeTileIndicesLoop, this`writeVerticesLoop
      reads this`writeTrianglesLoop, this`progressTarget, this`progressCurrent
    {
      && GridComplete(gridCoords, neighborRange, tiles, tileIndices)
      && TrianglesPending(triangles, triArr0, triArr1, triArr2, triArr3)
      && AllFresh([trianglesLoop, writeTilesLoop, writeTileIndicesLoop, writeVerticesLoop,
                   writeTrianglesLoop])
      && VerticesCheckpoint(|tiles|, verticesLoop, vertices, progressTarget, progressCurrent)
    }

    /** The neighbour stage, its checkpoint initialised, ready to resume its walk. */
    ghost predicate NeighborsResumable()
      reads this`neighborsLoop, this`ringInitFlag, this`tiles, this`tmpHex
    {
      NeighborResume(gridCoords, neighborRange, neighborsLoop, ringInitFlag, tiles, tmpHex)
    }

    /** How the neighbour walk of this call ended. */
    ghost predicate NeighborsWalked(yielded: bool)
      reads this`neighborsLoop, this`ringInitFlag, this`tiles, this`tmpHex
    {
      NeighborOutcome(gridCoords, neighborRange, neighborsLoop, ringInitFlag, tiles, tmpHex, yielded)
    }

    /** The triangle stage's four tables of local vertex indices are in place. */
    ghost predicate TriTables()
      reads this`triArr0, this`triArr1, this`triArr2, this`triArr3
    {
      triArr0 == TriTable0() && triArr1 == TriTable1() && triArr2 == TriTable2() && triArr3 == TriTable3()
    }

    /** Between calls of the triangle stage. */
    ghost predicate TrianglesInv()
      reads this`tiles, this`tileIndices, this`vertices, this`triangles, this`triArr0
      reads this`triArr1, this`triArr2, this`triArr3, this`trianglesLoop, this`writeTilesLoop
      reads this`writeTileIndicesLoop, this`writeVerticesLoop, this`writeTrianglesLoop
      reads this`progressTarget, this`progressCurrent
    {
      && GridComplete(gridCoords, neighborRange, tiles, tileIndices) && vertices == MeshVertices(|tiles|)
      && AllFresh([writeTilesLoop, writeTileIndicesLoop, writeVerticesLoop, writeTrianglesLoop])
      && TrianglesCheckpoint(|tiles|, trianglesLoop, triangles, triArr0, triArr1, triArr2, triArr3,
                             progressTarget, progressCurrent)
    }

    /** All data is generated. */
    ghost predicate MeshDone()
      reads this`tiles, this`tileIndices, this`vertices, this`triangles
    {
      GridDone() && vertices == MeshVertices(|tiles|) && triangles == MeshTriangles(|tiles|)
    }

    /** The tiles file holds one row per tile. */
    ghost predicate TilesFileDone()
      reads this`tiles, this`tilesFile
    {
      tilesFile == TileFileOf(tiles, positionText)
    }

    /** The tile-index file holds one row per tile. */
    ghost predicate TileIndicesFileDone()
      reads this`tiles, this`tileIndicesFile
    {
      tileIndicesFile == IndexFileOf(TileCoords(tiles))
    }

    /** The vertices file holds one row of twelve vertices per tile. */
    ghost predicate VerticesFileDone()
      reads this`tiles, this`vertices, this`verticesFile
    {
      verticesFile == VertexFileOf(vertices, vertexText)
    }

    /** The triangles file holds one row of 36 indices per tile. */
    ghost predicate TrianglesFileDone()
      reads this`tiles, this`triangles, this`trianglesFile
    {
      trianglesFile == TriangleFileOf(triangles)
    }

    /** The one params row. */
    function ParamsContent(): string {
      ParamsRow(tileSizeText, gridRange, gridLineRatioText, neighborRange)
    }

    /** Everything generated, ready for the files: twelve vertices and 36 triangle indices
        per tile. */
    ghost predicate Generated()
      reads this`tiles, this`tileIndices, this`vertices, this`triangles, this`triArr0
      reads this`triArr1, this`triArr2, this`triArr3
    {
      MeshDone() && TriTables() && |vertices| == 12 * |tiles| && |triangles| == 36 * |tiles|
    }

    /** The tiles write stage's own state between calls: the later checkpoints are fresh and
        the file holds the rows before the checkpoint's count. */
    ghost predicate TilesStage()
      reads this`tiles, this`writeTilesLoop, this`writeTileIndicesLoop, this`writeVerticesLoop
      reads this`writeTrianglesLoop, this`progressTarget, this`progressCurrent, this`tilesFile
    {
      && AllFresh([writeTileIndicesLoop, writeVerticesLoop, writeTrianglesLoop])
      && WriteFileAt(TileFileOf(tiles, positionText), 1, writeTilesLoop, tilesFile, progressTarget, progressCurrent)
    }

    /** The tile-index write stage's own state between calls. */
    ghost predicate TileIndicesStage()
      reads this`tiles, this`writeTileIndicesLoop, this`writeVerticesLoop, this`writeTrianglesLoop
      reads this`progressTarget, this`progressCurrent, this`tileIndicesFile
    {
      && AllFresh([writeVerticesLoop, writeTrianglesLoop])
      && WriteFileAt(IndexFileOf(TileCoords(tiles)), 1, writeTileIndicesLoop, tileIndicesFile, progressTarget, progressCurrent)
    }

    /** The vertices write stage's own state between calls. */
    ghost predicate VerticesStage()
      reads this`vertices, this`writeVerticesLoop, this`writeTrianglesLoop, this`progressTarget
      reads this`progressCurrent, this`verticesFile
    {
      && AllFresh([writeTrianglesLoop])
      && WriteFileAt(VertexFileOf(vertices, vertexText), 12, writeVerticesLoop, verticesFile, progressTarget, progressCurrent)
    }

    /** The triangles write stage's own state between calls. */
    ghost predicate TrianglesStage()
      reads this`triangles, this`writeTrianglesLoop, this`progressTarget, this`progressCurrent
      reads this`trianglesFile
    {
      WriteFileAt(TriangleFileOf(triangles), 36, writeTrianglesLoop, trianglesFile, progressTarget, progressCurrent)
    }

    /** Between calls of the tiles write stage. */
    ghost predicate WriteTilesInv()
      reads this`tiles, this`tileIndices, this`vertices, this`triangles, this`triArr0, this`triArr1
      reads this`triArr2, this`triArr3, this`writeTilesLoop, this`writeTileIndicesLoop
      reads this`writeVerticesLoop, this`writeTrianglesLoop, this`progressTarget, this`progressCurrent
      reads this`tilesFile, this`tileIndicesFile, this`verticesFile, this`trianglesFile
    {
      Generated() && TilesStage()
    }

    /** Between calls of the tile-index write stage. */
    ghost predicate WriteTileIndicesInv()
      reads this`tiles, this`tileIndices, this`vertices, this`triangles, this`triArr0, this`triArr1
      reads this`triArr2, this`triArr3, this`writeTilesLoop, this`writeTileIndicesLoop
      reads this`writeVerticesLoop, this`writeTrianglesLoop, this`progressTarget, this`progressCurrent
      reads this`tilesFile, this`tileIndicesFile, this`verticesFile, this`trianglesFile
    {
      Generated() && TilesFileDone() && TileIndicesStage()
    }

    /** Between calls of the vertices write stage. */
    ghost predicate WriteVerticesInv()
      reads this`tiles, this`tileIndices, this`vertices, this`triangles, this`triArr0, this`triArr1
      reads this`triArr2, this`triArr3, this`writeTilesLoop, this`writeTileIndicesLoop
      reads this`writeVerticesLoop, this`writeTrianglesLoop, this`progressTarget, this`progressCurrent
      reads this`tilesFile, this`tileIndicesFile, this`verticesFile, this`trianglesFile
    {
      Generated() && TilesFileDone() && TileIndicesFileDone() && VerticesStage()
    }

    /** Between calls of the triangles write stage. */
    ghost predicate WriteTrianglesInv()
      reads this`tiles, this`tileIndices, this`vertices, this`triangles, this`triArr0, this`triArr1
      reads this`triArr2, this`triArr3, this`writeTilesLoop, this`writeTileIndicesLoop
      reads this`writeVerticesLoop, this`writeTrianglesLoop, this`progressTarget, this`progressCurrent
      reads this`tilesFile, this`tileIndicesFile, this`verticesFile, this`trianglesFile
    {
      Generated() && TilesFileDone() && TileIndicesFileDone() && VerticesFileDone() && TrianglesStage()
    }

    /** All four data files are written. */
    ghost predicate DataFilesDone()
      reads this`axialDirectionVectors, this`tiles, this`tileIndices, this`vertices
      reads this`triangles, this`triArr0, this`triArr1, this`triArr2, this`triArr3
      reads this`tilesFile, this`tileIndicesFile, this`verticesFile, this`trianglesFile
    {
      Generated() && TilesFileDone() && TileIndicesFileDone() && VerticesFileDone() && TrianglesFileDone()
    }

    /** The whole invariant: what holds between two calls of the dispatcher. */
    ghost predicate Valid()
      reads this
    {
      && Configured() && LaidOut()
      && match workflowState
         case InitWorkflow => Initial()
         case SpiralCreateCenter => CenterInv()
         case SpiralCreateNeighbors => NeighborsInv()
         case CreateVertices => VerticesInv()
         case CreateTriangles => TrianglesInv()
         case WriteTiles => WriteTilesInv()
         case WriteTileIndices => WriteTileIndicesInv()
         case WriteVertices => WriteVerticesInv()
         case WriteTriangles => WriteTrianglesInv()
         case WriteParams => DataFilesDone()
         case Done => DataFilesDone() && paramsFile == [ParamsContent()]
         case Error => true
    }

    // -------------------------------------------------------------------------------------
    // Construction
    // -------------------------------------------------------------------------------------

    constructor (settings: Settings, positionText: nat -> string, vertexText: Vertex -> string,
                 tileSizeText: string, gridLineRatioText: string)
      requires ValidSettings(settings)
      ensures Valid() && workflowState == WorkflowState.InitWorkflow && gridCoords == GridCoords(gridRange)
      ensures gridRange == settings.gridRange && neighborRange == settings.neighborRange
      ensures tileSize == settings.tileSize && gridLineRatio == settings.gridLineRatio
      ensures defaultTimerRate == settings.defaultTimerRate
      ensures this.positionText == positionText && this.vertexText == vertexText
      ensures this.tileSizeText == tileSizeText && this.gridLineRatioText == gridLineRatioText
      ensures centerLoop == settings.loops[0] && neighborsLoop == settings.loops[1]
      ensures verticesLoop == settings.loops[2] && trianglesLoop == settings.loops[3]
      ensures writeTilesLoop == settings.loops[4] && writeTileIndicesLoop == settings.loops[5]
      ensures writeVerticesLoop == settings.loops[6] && writeTrianglesLoop == settings.loops[7]
    {
      gridRange := settings.gridRange;
      neighborRange := settings.neighborRange;
      gridCoords := GridCoords(settings.gridRange);
      tileSize := settings.tileSize;
      gridLineRatio := settings.gridLineRatio;
      defaultTimerRate := settings.defaultTimerRate;
      this.positionText := positionText;
      this.vertexText := vertexText;
      this.tileSizeText := tileSizeText;
      this.gridLineRatioText := gridLineRatioText;
      tiles, tileIndices, vertices, triangles := [], map[], [], [];
      ringInitFlag, tmpHex, axialDirectionVectors := false, Origin, [];
      triArr0, triArr1, triArr2, triArr3 := [], [], [], [];
      var loops := settings.loops;
      centerLoop, neighborsLoop, verticesLoop, trianglesLoop := loops[0], loops[1], loops[2], loops[3];
      writeTilesLoop, writeTileIndicesLoop, writeVerticesLoop, writeTrianglesLoop := loops[4], loops[5], loops[6], loops[7];
      workflowState := WorkflowState.InitWorkflow;
      progressTarget, progressCurrent := 0, 0;
      tilesFile, tileIndicesFile, verticesFile, trianglesFile, paramsFile := [], [], [], [], [];
    }

    // -------------------------------------------------------------------------------------
    // Workflow set-up and the axial helpers
    // -------------------------------------------------------------------------------------

    /** The first stage: reset every checkpoint, fill the direction table, move on to the
        centre walk and schedule it after DefaultTimerRate.  (The float direction vectors
        and tile dimensions it also sets up are not modelled.) */
    method InitWorkflow() returns (sched: Schedule)
      requires Configured() && workflowState == WorkflowState.InitWorkflow && Initial()
      modifies this`centerLoop, this`neighborsLoop, this`verticesLoop, this`trianglesLoop
      modifies this`writeTilesLoop, this`writeTileIndicesLoop, this`writeVerticesLoop
      modifies this`writeTrianglesLoop, this`axialDirectionVectors, this`workflowState
      ensures Configured() && workflowState == WorkflowState.SpiralCreateCenter && CenterInv()
      ensures !centerLoop.isInitialized
      ensures sched == After(defaultTimerRate)
    {
      InitLoopData();
      InitAxialDirections();
      workflowState := WorkflowState.SpiralCreateCenter;
      sched := After(defaultTimerRate);
    }

    /** Resets the eight checkpoints; the centre walk resumes at ring 1 and the neighbour
        walk at radius 1.  Quanta, rates and depths are kept. */
    method InitLoopData()
      requires LoopDepths()
      modifies this`centerLoop, this`neighborsLoop, this`verticesLoop, this`trianglesLoop
      modifies this`writeTilesLoop, this`writeTileIndicesLoop, this`writeVerticesLoop
      modifies this`writeTrianglesLoop
      ensures Fresh(centerLoop, [1]) && Fresh(neighborsLoop, [0, 1])
        && AllFresh([verticesLoop, trianglesLoop, writeTilesLoop, writeTileIndicesLoop,
                     writeVerticesLoop, writeTrianglesLoop])
      ensures LoopDepths()
      ensures SameConfig(centerLoop, old(centerLoop)) && SameConfig(neighborsLoop, old(neighborsLoop))
      ensures SameConfig(verticesLoop, old(verticesLoop)) && SameConfig(trianglesLoop, old(trianglesLoop))
      ensures SameConfig(writeTilesLoop, old(writeTilesLoop))
      ensures SameConfig(writeTileIndicesLoop, old(writeTileIndicesLoop))
      ensures SameConfig(writeVerticesLoop, old(writeVerticesLoop))
      ensures SameConfig(writeTrianglesLoop, old(writeTrianglesLoop))
    {
      centerLoop := HexRecords.InitLoopData(centerLoop);
      centerLoop := centerLoop.(indexSaved := centerLoop.indexSaved[0 := 1]);
      neighborsLoop := HexRecords.InitLoopData(neighborsLoop);
      neighborsLoop := neighborsLoop.(indexSaved := neighborsLoop.indexSaved[1 := 1]);
      verticesLoop := HexRecords.InitLoopData(verticesLoop);
      trianglesLoop := HexRecords.InitLoopData(trianglesLoop);
      writeTilesLoop := HexRecords.InitLoopData(writeTilesLoop);
      writeTileIndicesLoop := HexRecords.InitLoopData(writeTileIndicesLoop);
      writeVerticesLoop := HexRecords.InitLoopData(writeVerticesLoop);
      writeTrianglesLoop := HexRecords.InitLoopData(writeTrianglesLoop);
    }

    /** Appends the six unit directions, in rotational order, to the direction table. */
    method InitAxialDirections()
      modifies this`axialDirectionVectors
      ensures axialDirectionVectors == old(axialDirectionVectors) + DirectionTable
      ensures old(axialDirectionVectors) == [] ==> forall d :: 0 <= d < DirectionCount ==>
        axialDirectionVectors[d] == Direction(d) && Distance(Origin, axialDirectionVectors[d]) == 1
    {
      axialDirectionVectors := axialDirectionVectors + [Axial(1, 0)];
      axialDirectionVectors := axialDirectionVectors + [Axial(1, -1)];
      axialDirectionVectors := axialDirectionVectors + [Axial(0, -1)];
      axialDirectionVectors := axialDirectionVectors + [Axial(-1, 0)];
      axialDirectionVectors := axialDirectionVectors + [Axial(-1, 1)];
      axialDirectionVectors := axialDirectionVectors + [Axial(0, 1)];
    }

    /** Entry `direction` of the direction table; once the table is filled, the unit
        direction of that index. */
    function AxialDirection(direction: int): (d: Axial)
      reads this
      requires 0 <= direction < |axialDirectionVectors|
      ensures axialDirectionVectors == DirectionTable ==> d == Direction(direction)
      ensures axialDirectionVectors == DirectionTable ==> Distance(Origin, d) == 1
    {
      axialDirectionVectors[direction]
    }

    /** The hex one step from `hex` in `direction`: adjacent to it, and the neighbour of the
        axial model. */
    function AxialNeighbor(hex: Axial, direction: int): (h: Axial)
      reads this
      requires 0 <= direction < |axialDirectionVectors|
      ensures axialDirectionVectors == DirectionTable ==> h == Neighbor(hex, direction)
      ensures axialDirectionVectors == DirectionTable ==> Distance(hex, h) == 1
    {
      Add(hex, AxialDirection(direction))
    }

    /** Clears both progress counters. */
    method ResetProgress()
      modifies this`progressTarget, this`progressCurrent
      ensures progressTarget == 0 && progressCurrent == 0
    {
      progressTarget := 0;
      progressCurrent := 0;
    }

    // -------------------------------------------------------------------------------------
    // Stage 1: the centre walk
    // -------------------------------------------------------------------------------------

    /** One quantum of the centre walk: resume at the saved ring, side and step, emit the
        hexes of rings 1 .. GridRange one by one, and either save the position and yield or,
        when the walk is complete, reset the progress and move on to the neighbour stage.
        Either way the next call is scheduled after the checkpoint's rate. */
    method SpiralCreateCenter() returns (sched: Schedule)
      requires Configured() && LaidOut() && workflowState == WorkflowState.SpiralCreateCenter && CenterInv()
      modifies this`centerLoop, this`ringInitFlag, this`tiles, this`tileIndices, this`tmpHex
      modifies this`progressTarget, this`progressCurrent, this`workflowState
      ensures Configured()
      ensures sched == After(centerLoop.rate)
      ensures centerLoop.loopCountLimit == old(centerLoop.loopCountLimit) && centerLoop.rate == old(centerLoop.rate)
      ensures workflowState == WorkflowState.SpiralCreateCenter || workflowState == WorkflowState.SpiralCreateNeighbors
      ensures workflowState == WorkflowState.SpiralCreateCenter ==>
        CenterInv() && centerLoop.count == old(centerLoop.count) + Quantum(centerLoop.loopCountLimit)
      ensures workflowState == WorkflowState.SpiralCreateNeighbors ==>
        && NeighborsInv() && tiles == MakeTiles(gridCoords) && tileIndices == IndexMap(gridCoords)
    {
      var yielded := WalkCenter();
      assert NeighborsPending();
      EndCenter(yielded);
      sched := After(centerLoop.rate);
    }

    /** How the centre walk of this call ended: yielded with the checkpoint naming where it
        stands, or with every ring emitted. */
    ghost predicate CenterWalked(yielded: bool)
      reads this`centerLoop, this`ringInitFlag, this`tiles, this`tileIndices, this`tmpHex
    {
      && centerLoop.isInitialized
      && (yielded ==> ringInitFlag && CenterSaved(gridRange, centerLoop, tiles, tileIndices, tmpHex))
      && (!yielded ==> CenterRingHead(tiles, tileIndices, gridRange + 1) && centerLoop.count + 1 == |tiles|)
    }

    /** The walk of one call of the centre stage: its head, then the loop over the rings. */
    method WalkCenter() returns (yielded: bool)
      requires Configured() && axialDirectionVectors == DirectionTable
      requires CenterCheckpoint(gridRange, centerLoop, ringInitFlag, tiles, tileIndices, tmpHex,
                                progressTarget, progressCurrent)
      modifies this`centerLoop, this`ringInitFlag, this`tiles, this`tileIndices, this`tmpHex
      modifies this`progressTarget, this`progressCurrent
      ensures CenterWalked(yielded)
      ensures progressCurrent == centerLoop.count && progressTarget == RingHexTotal(gridRange)
      ensures centerLoop.loopCountLimit == old(centerLoop.loopCountLimit) && centerLoop.rate == old(centerLoop.rate)
      ensures yielded ==> centerLoop.count == old(centerLoop.count) + Quantum(centerLoop.loopCountLimit)
      ensures yielded ==> progressCurrent < progressTarget
      ensures !yielded ==> progressCurrent == progressTarget
    {
      EnterCenter();
      var count;
      count, yielded := CenterRings();
      if yielded {
        CenterSavedBelowTarget(gridRange, centerLoop, tiles, tileIndices, tmpHex);
      } else {
        CenterDoneAtTarget(gridRange, centerLoop.count, tiles, tileIndices);
      }
    }

    /** The tail of every call of the centre stage: keep the invariant when the walk
        yielded, or finish the stage when it completed. */
    method EndCenter(yielded: bool)
      requires Configured() && LaidOut() && NeighborsPending() && CenterWalked(yielded)
      requires workflowState == WorkflowState.SpiralCreateCenter
      requires progressCurrent == centerLoop.count && progressTarget == RingHexTotal(gridRange)
      modifies this`progressTarget, this`progressCurrent, this`workflowState
      ensures workflowState == (if yielded then WorkflowState.SpiralCreateCenter else WorkflowState.SpiralCreateNeighbors)
      ensures workflowState == WorkflowState.SpiralCreateCenter ==> CenterInv()
      ensures workflowState == WorkflowState.SpiralCreateNeighbors ==>
        && NeighborsInv() && tiles == MakeTiles(gridCoords) && tileIndices == IndexMap(gridCoords)
    {
      if yielded {
        CenterYielded();
      } else {
        FinishCenter();
      }
    }

    /** The end of the centre walk: reset the progress and move on to the neighbour stage. */
    method FinishCenter()
      requires Configured() && LaidOut() && NeighborsPending()
      requires CenterRingHead(tiles, tileIndices, gridRange + 1)
      modifies this`progressTarget, this`progressCurrent, this`workflowState
      ensures workflowState == WorkflowState.SpiralCreateNeighbors && NeighborsInv()
      ensures tiles == MakeTiles(gridCoords) && tileIndices == IndexMap(gridCoords)
    {
      ResetProgress();
      workflowState := WorkflowState.SpiralCreateNeighbors;
      NeighborsReady();
    }

    /** The head of every call of the centre stage: on the first call, run StartCenter;
        either way the walk then stands where CenterRings resumes it. */
    method EnterCenter()
      requires Configured() && CenterCheckpoint(gridRange, centerLoop, ringInitFlag, tiles, tileIndices, tmpHex,
                                progressTarget, progressCurrent)
      modifies this`centerLoop, this`ringInitFlag, this`tiles, this`tileIndices, this`progressTarget
      ensures centerLoop == old(centerLoop).(isInitialized := true)
      ensures progressTarget == RingHexTotal(gridRange) && progressCurrent == centerLoop.count
      ensures centerLoop.count + 1 == |tiles|
      ensures ringInitFlag ==> CenterSaved(gridRange, centerLoop, tiles, tileIndices, tmpHex)
      ensures !ringInitFlag ==>
        && 1 <= centerLoop.indexSaved[0] <= gridRange && CenterRingHead(tiles, tileIndices, centerLoop.indexSaved[0])
        && centerLoop.indexSaved[1] == 0 && centerLoop.indexSaved[2] == 0
    {
      if !centerLoop.isInitialized {
        StartCenter();
      }
    }

    /** The first call of the centre stage: mark the checkpoint initialised, clear the ring
        flag, start the grid with the origin tile and set the progress target to the number
        of ring hexes. */
    method StartCenter()
      requires !centerLoop.isInitialized && CenterCheckpoint(gridRange, centerLoop, ringInitFlag, tiles, tileIndices, tmpHex,
                                progressTarget, progressCurrent)
      modifies this`centerLoop, this`ringInitFlag, this`tiles, this`tileIndices, this`progressTarget
      ensures centerLoop == old(centerLoop).(isInitialized := true)
      ensures !ringInitFlag && progressTarget == RingHexTotal(gridRange) && centerLoop.count + 1 == |tiles|
      ensures CenterRingHead(tiles, tileIndices, centerLoop.indexSaved[0]) && centerLoop.indexSaved[..3] == [1, 0, 0]
    {
      centerLoop := centerLoop.(isInitialized := true);
      ringInitFlag := false;
      InitGridCenter();
      CenterStart(centerLoop.indexSaved[0]);
      progressTarget := 6 * (1 + gridRange) * gridRange / 2;
      RingHexTotalClosed(gridRange);
    }

    /** The outer loop of the centre walk: rings i .. GridRange, the first resumed at the
        saved ring (its side and step as saved), every later one entered at its corner. */
    method CenterRings() returns (count: int, yielded: bool)
      requires axialDirectionVectors == DirectionTable && centerLoop.isInitialized
      requires |centerLoop.indexSaved| >= CenterDepth && progressCurrent == centerLoop.count
      requires centerLoop.count + 1 == |tiles|
      requires ringInitFlag ==> CenterSaved(gridRange, centerLoop, tiles, tileIndices, tmpHex)
      requires !ringInitFlag ==>
        && 1 <= centerLoop.indexSaved[0] <= gridRange && CenterRingHead(tiles, tileIndices, centerLoop.indexSaved[0])
        && centerLoop.indexSaved[1] == 0 && centerLoop.indexSaved[2] == 0
      modifies this`centerLoop, this`ringInitFlag, this`tiles, this`tileIndices, this`tmpHex, this`progressCurrent
      ensures Advanced(old(centerLoop), centerLoop, 0, count, yielded)
      ensures progressCurrent == centerLoop.count
      ensures yielded ==> ringInitFlag && CenterSaved(gridRange, centerLoop, tiles, tileIndices, tmpHex)
      ensures !yielded ==> CenterRingHead(tiles, tileIndices, gridRange + 1) && centerLoop.count + 1 == |tiles|
    {
      var onceLoop0 := true;
      count := 0;
      var i := centerLoop.indexSaved[0];
      i := if i < 1 then 1 else i;
      while i <= gridRange
        invariant 1 <= i <= gridRange + 1
        invariant Advanced(old(centerLoop), centerLoop, 0, count, false)
        invariant progressCurrent == centerLoop.count && centerLoop.count + 1 == |tiles|
        invariant onceLoop0 ==> i <= gridRange && i == centerLoop.indexSaved[0]
        invariant onceLoop0 && ringInitFlag ==> CenterSaved(gridRange, centerLoop, tiles, tileIndices, tmpHex)
        invariant onceLoop0 && !ringInitFlag ==>
          CenterRingHead(tiles, tileIndices, i) && centerLoop.indexSaved[1] == 0 && centerLoop.indexSaved[2] == 0
        invariant !onceLoop0 ==> !ringInitFlag && CenterRingHead(tiles, tileIndices, i)
        decreases gridRange + 1 - i
      {
        ghost var before, counted := centerLoop, count;
        count, yielded := CenterRingSides(i, onceLoop0, count);
        AdvancedChain(old(centerLoop), before, centerLoop, 0, counted, count, yielded);
        if yielded {
          return;
        }
        ringInitFlag := false;
        onceLoop0 := false;
        i := i + 1;
      }
      yielded := false;
    }

    /** The middle loop of the centre walk: sides j .. 5 of ring i, the first resumed at the
        saved side and step when `resume` holds, every later one from its corner. */
    method CenterRingSides(i: int, resume: bool, count: int) returns (newCount: int, yielded: bool)
      requires 1 <= i <= gridRange && axialDirectionVectors == DirectionTable
      requires |centerLoop.indexSaved| >= CenterDepth
      requires 0 <= count <= Quantum(centerLoop.loopCountLimit) && progressCurrent == centerLoop.count
      requires centerLoop.count + 1 == |tiles|
      requires resume && ringInitFlag ==> CenterSaved(gridRange, centerLoop, tiles, tileIndices, tmpHex) && centerLoop.indexSaved[0] == i
      requires resume && !ringInitFlag ==>
        && CenterRingHead(tiles, tileIndices, i) && centerLoop.indexSaved[0] == i
        && centerLoop.indexSaved[1] == 0 && centerLoop.indexSaved[2] == 0
      requires !resume ==> !ringInitFlag && CenterRingHead(tiles, tileIndices, i)
      modifies this`centerLoop, this`ringInitFlag, this`tiles, this`tileIndices, this`tmpHex, this`progressCurrent
      ensures ringInitFlag
      ensures Advanced(old(centerLoop), centerLoop, count, newCount, yielded)
      ensures progressCurrent == centerLoop.count
      ensures yielded ==> CenterSaved(gridRange, centerLoop, tiles, tileIndices, tmpHex)
      ensures !yielded ==> CenterRingHead(tiles, tileIndices, i + 1) && centerLoop.count + 1 == |tiles|
    {
      if !ringInitFlag {
        ringInitFlag := true;
        tmpHex := Add(Scale(AxialDirection(RingStartDirectionIndex), i), Origin);
        CenterRingEntered(i);
      }
      var onceLoop1 := resume;
      newCount := count;
      var j := if onceLoop1 then centerLoop.indexSaved[1] else 0;
      while j <= 5
        invariant 0 <= j <= DirectionCount && ringInitFlag
        invariant Advanced(old(centerLoop), centerLoop, count, newCount, false)
        invariant progressCurrent == centerLoop.count && centerLoop.count + 1 == |tiles|
        invariant onceLoop1 ==> CenterSaved(gridRange, centerLoop, tiles, tileIndices, tmpHex) && centerLoop.indexSaved[0] == i && j == centerLoop.indexSaved[1]
        invariant !onceLoop1 && j < DirectionCount ==> CenterWalk(tiles, tileIndices, tmpHex, i, j, 0)
        invariant !onceLoop1 && j == DirectionCount ==> CenterRingHead(tiles, tileIndices, i + 1)
        decreases DirectionCount - j
      {
        ghost var before, counted := centerLoop, newCount;
        newCount, yielded := CenterSide(i, j, onceLoop1, newCount);
        AdvancedChain(old(centerLoop), before, centerLoop, count, counted, newCount, yielded);
        if yielded {
          return;
        }
        onceLoop1 := false;
        j := j + 1;
      }
      yielded := false;
    }

    /** One side j of ring i, from the saved step when `resume` holds and from its corner
        otherwise; after its last step the walk stands at the next side's corner, or before
        ring i + 1 after side 5. */
    method CenterSide(i: int, j: int, resume: bool, count: int) returns (newCount: int, yielded: bool)
      requires 1 <= i <= gridRange && 0 <= j < DirectionCount && axialDirectionVectors == DirectionTable
      requires |centerLoop.indexSaved| >= CenterDepth
      requires 0 <= count <= Quantum(centerLoop.loopCountLimit) && progressCurrent == centerLoop.count
      requires centerLoop.count + 1 == |tiles|
      requires resume ==>
        && CenterSaved(gridRange, centerLoop, tiles, tileIndices, tmpHex)
        && centerLoop.indexSaved[0] == i && centerLoop.indexSaved[1] == j
      requires !resume ==> CenterWalk(tiles, tileIndices, tmpHex, i, j, 0)
      modifies this`centerLoop, this`tiles, this`tileIndices, this`tmpHex, this`progressCurrent
      ensures Advanced(old(centerLoop), centerLoop, count, newCount, yielded)
      ensures progressCurrent == centerLoop.count
      ensures yielded ==> CenterSaved(gridRange, centerLoop, tiles, tileIndices, tmpHex)
      ensures !yielded ==> centerLoop.count + 1 == |tiles|
      ensures !yielded && j + 1 < DirectionCount ==> CenterWalk(tiles, tileIndices, tmpHex, i, j + 1, 0)
      ensures !yielded && j + 1 == DirectionCount ==> CenterRingHead(tiles, tileIndices, i + 1)
    {
      var k := if resume then centerLoop.indexSaved[2] else 0;
      newCount, yielded := CenterSideSteps(i, j, k, count);
      if !yielded {
        CenterSideFinished(i, j);
      }
    }

    /** The innermost loop of the centre walk: steps k .. i-1 of side j of ring i, each one
        checkpointed, then adding the cursor's tile and moving the cursor along the side. */
    method CenterSideSteps(i: int, j: int, k: int, count: int) returns (newCount: int, yielded: bool)
      requires 1 <= i <= gridRange && 0 <= j < DirectionCount && 0 <= k <= i
      requires CenterWalk(tiles, tileIndices, tmpHex, i, j, k) && axialDirectionVectors == DirectionTable
      requires |centerLoop.indexSaved| >= CenterDepth
      requires 0 <= count <= Quantum(centerLoop.loopCountLimit) && progressCurrent == centerLoop.count
      requires centerLoop.count + 1 == |tiles|
      modifies this`centerLoop, this`tiles, this`tileIndices, this`tmpHex, this`progressCurrent
      ensures Advanced(old(centerLoop), centerLoop, count, newCount, yielded)
      ensures progressCurrent == centerLoop.count
      ensures yielded ==> CenterSaved(gridRange, centerLoop, tiles, tileIndices, tmpHex) && centerLoop.indexSaved[..2] == [i, j]
      ensures !yielded ==> CenterWalk(tiles, tileIndices, tmpHex, i, j, i) && centerLoop.count + 1 == |tiles|
    {
      var step := k;
      newCount := count;
      while step <= i - 1
        invariant k <= step <= i && CenterWalk(tiles, tileIndices, tmpHex, i, j, step)
        invariant Advanced(old(centerLoop), centerLoop, count, newCount, false)
        invariant progressCurrent == centerLoop.count && centerLoop.count + 1 == |tiles|
        decreases i - step
      {
        var saved := SaveLoopData(centerLoop, newCount, [i, j, step]);
        centerLoop := saved.0;
        if saved.1 {
          assert centerLoop.indexSaved[..3] == [i, j, step];
          return newCount, true;
        }
        AddRingTileAndIndex();
        FindNeighborTileOfRing(j);
        CenterAdvance(i, j, step);
        progressCurrent := centerLoop.count;
        newCount := newCount + 1;
        step := step + 1;
      }
      yielded := false;
    }

    /** The finished centre walk, with the progress reset, is where the neighbour stage
        starts. */
    lemma NeighborsReady()
      requires Configured() && LaidOut() && NeighborsPending()
      requires CenterRingHead(tiles, tileIndices, gridRange + 1)
      requires progressTarget == 0 && progressCurrent == 0
      ensures tiles == MakeTiles(gridCoords) && tileIndices == IndexMap(gridCoords)
      ensures NeighborsInv()
    {
      CenterComplete(gridRange);
      NeighborStageStart(gridCoords, neighborRange);
    }

    /** A centre call that yielded leaves the stage's invariant in place. */
    lemma CenterYielded()
      requires NeighborsPending()
      requires centerLoop.isInitialized && ringInitFlag && CenterSaved(gridRange, centerLoop, tiles, tileIndices, tmpHex)
      requires progressCurrent == centerLoop.count && progressTarget == RingHexTotal(gridRange)
      ensures CenterInv()
    {
    }

    /** Placing the cursor i steps from the origin in the ring-start direction enters ring i. */
    lemma CenterRingEntered(i: int)
      requires CenterRingHead(tiles, tileIndices, i)
      requires tmpHex == Add(Scale(Direction(RingStartDirectionIndex), i), Origin)
      ensures CenterWalk(tiles, tileIndices, tmpHex, i, 0, 0)
    {
      RingEntry(Origin, i);
    }

    /** After i steps along side j the walk stands at the start of side j + 1, or, after
        side 5, before ring i + 1. */
    lemma CenterSideFinished(i: int, j: int)
      requires CenterWalk(tiles, tileIndices, tmpHex, i, j, i)
      ensures j + 1 < DirectionCount ==> CenterWalk(tiles, tileIndices, tmpHex, i, j + 1, 0)
      ensures j + 1 == DirectionCount ==> CenterRingHead(tiles, tileIndices, i + 1)
    {
      CenterSideDone(i, j);
    }

    /** Starts the tile list and the index with the origin tile at index 0. */
    method InitGridCenter()
      modifies this`tiles, this`tileIndices
      ensures tiles == [HexTile(Origin, [])] && tileIndices == map[Origin := 0]
      ensures tiles == MakeTiles([Origin]) && tileIndices == IndexMap([Origin])
    {
      tiles := [HexTile(Origin, [])];
      tileIndices := map[Origin := 0];
    }

    /** Adds a tile at the cursor and records its index under the cursor's coordinate. */
    method AddRingTileAndIndex()
      modifies this`tiles, this`tileIndices
      ensures tiles == old(tiles) + [HexTile(tmpHex, [])]
      ensures tileIndices == old(tileIndices)[tmpHex := |old(tiles)|]
    {
      var index := |tiles|;
      tiles := tiles + [HexTile(tmpHex, [])];
      tileIndices := tileIndices[tmpHex := index];
    }

    /** Moves the cursor one step along side `dirIndex`. */
    method FindNeighborTileOfRing(dirIndex: int)
      requires 0 <= dirIndex < |axialDirectionVectors|
      modifies this`tmpHex
      ensures tmpHex == AxialNeighbor(old(tmpHex), dirIndex)
    {
      tmpHex := AxialNeighbor(tmpHex, dirIndex);
    }

    // -------------------------------------------------------------------------------------
    // Stage 2: the neighbour walk
    // -------------------------------------------------------------------------------------

    /** One quantum of the neighbour walk: resume at the saved tile, radius, side and step,
        record the rings of radius 1 .. NeighborRange around every tile hex by hex, and
        either save the position and yield or, when every tile is done, reset the progress
        and move on to the vertex stage.  Either way the next call is scheduled after the
        checkpoint's rate. */
    method SpiralCreateNeighbors() returns (sched: Schedule)
      requires Configured() && workflowState == WorkflowState.SpiralCreateNeighbors && NeighborsInv()
      modifies this`neighborsLoop, this`ringInitFlag, this`tiles, this`tmpHex
      modifies this`progressTarget, this`progressCurrent, this`workflowState
      ensures Configured()
      ensures sched == After(neighborsLoop.rate)
      ensures neighborsLoop.loopCountLimit == old(neighborsLoop.loopCountLimit)
      ensures neighborsLoop.rate == old(neighborsLoop.rate)
      ensures workflowState == WorkflowState.SpiralCreateNeighbors || workflowState == WorkflowState.CreateVertices
      ensures workflowState == WorkflowState.SpiralCreateNeighbors ==>
        NeighborsInv() && neighborsLoop.count == old(neighborsLoop.count) + Quantum(neighborsLoop.loopCountLimit)
      ensures workflowState == WorkflowState.CreateVertices ==>
        VerticesInv() && tiles == FinishedTiles(gridCoords, neighborRange)
    {
      var yielded := WalkNeighbors();
      assert MeshStagesPending() && tileIndices == IndexMap(gridCoords);
      EndNeighbors(yielded);
      sched := After(neighborsLoop.rate);
    }

    /** The walk of one call of the neighbour stage: its head, then the loop over the tiles. */
    method WalkNeighbors() returns (yielded: bool)
      requires Configured() && axialDirectionVectors == DirectionTable
      requires NeighborCheckpoint(gridCoords, neighborRange, neighborsLoop, ringInitFlag, tiles, tmpHex,
                                  progressTarget, progressCurrent)
      modifies this`neighborsLoop, this`ringInitFlag, this`tiles, this`tmpHex
      modifies this`progressTarget, this`progressCurrent
      ensures neighborsLoop.isInitialized && NeighborsWalked(yielded)
      ensures progressCurrent == neighborsLoop.count && progressTarget == NeighborHexTotal(|gridCoords|, neighborRange)
      ensures neighborsLoop.loopCountLimit == old(neighborsLoop.loopCountLimit)
      ensures neighborsLoop.rate == old(neighborsLoop.rate)
      ensures yielded ==> neighborsLoop.count == old(neighborsLoop.count) + Quantum(neighborsLoop.loopCountLimit)
      ensures yielded ==> progressCurrent < progressTarget
      ensures !yielded ==> progressCurrent == progressTarget
    {
      EnterNeighbors();
      var count;
      count, yielded := NeighborTiles();
      if yielded {
        NeighborSavedBelowTarget(gridCoords, neighborRange, neighborsLoop, tiles, tmpHex);
      }
    }

    /** The tail of every call of the neighbour stage: keep the invariant when the walk
        yielded, or finish the stage when it completed. */
    method EndNeighbors(yielded: bool)
      requires Configured() && MeshStagesPending() && tileIndices == IndexMap(gridCoords)
      requires workflowState == WorkflowState.SpiralCreateNeighbors && neighborsLoop.isInitialized
      requires progressCurrent == neighborsLoop.count && progressTarget == NeighborHexTotal(|gridCoords|, neighborRange)
      requires NeighborsWalked(yielded)
      modifies this`progressTarget, this`progressCurrent, this`workflowState
      ensures workflowState == (if yielded then WorkflowState.SpiralCreateNeighbors else WorkflowState.CreateVertices)
      ensures workflowState == WorkflowState.SpiralCreateNeighbors ==> NeighborsInv()
      ensures workflowState == WorkflowState.CreateVertices ==>
        VerticesInv() && tiles == FinishedTiles(gridCoords, neighborRange)
    {
      if yielded {
        NeighborsYielded();
      } else {
        FinishNeighbors();
      }
    }

    /** The head of every call of the neighbour stage: on the first call, mark the
        checkpoint initialised, clear the ring flag and set the progress target to the ring
        hexes of all tiles; either way the walk then stands where NeighborTiles resumes it. */
    method EnterNeighbors()
      requires Configured()
      requires NeighborCheckpoint(gridCoords, neighborRange, neighborsLoop, ringInitFlag, tiles, tmpHex,
                                  progressTarget, progressCurrent)
      modifies this`neighborsLoop, this`ringInitFlag, this`progressTarget
      ensures neighborsLoop == old(neighborsLoop).(isInitialized := true)
      ensures progressTarget == NeighborHexTotal(|gridCoords|, neighborRange)
      ensures progressCurrent == neighborsLoop.count
      ensures NeighborsResumable()
    {
      if !neighborsLoop.isInitialized {
        StartNeighbors();
      } else {
        NeighborStageResumed(gridCoords, neighborRange, neighborsLoop, ringInitFlag, tiles, tmpHex,
                             progressTarget, progressCurrent);
        neighborsLoop := neighborsLoop.(isInitialized := true);
      }
    }

    /** The first call of the neighbour stage: mark the checkpoint initialised, clear the
        ring flag and set the progress target; the walk then stands before ring 1 of tile 0. */
    method StartNeighbors()
      requires Configured() && !neighborsLoop.isInitialized
      requires NeighborCheckpoint(gridCoords, neighborRange, neighborsLoop, ringInitFlag, tiles, tmpHex,
                                  progressTarget, progressCurrent)
      modifies this`neighborsLoop, this`ringInitFlag, this`progressTarget
      ensures neighborsLoop == old(neighborsLoop).(isInitialized := true) && !ringInitFlag
      ensures progressTarget == NeighborHexTotal(|gridCoords|, neighborRange)
      ensures progressCurrent == neighborsLoop.count
      ensures NeighborsResumable()
    {
      neighborsLoop := neighborsLoop.(isInitialized := true);
      ringInitFlag := false;
      SetNeighborTarget();
      NeighborStageEntered(gridCoords, neighborRange, old(neighborsLoop), neighborsLoop, ringInitFlag,
                           tiles, tmpHex);
    }

    /** The neighbour stage's progress target: the six hexes per unit of radius of every ring
        of every tile, multiplied out as the source does before halving. */
    method SetNeighborTarget()
      requires |tiles| == |gridCoords|
      modifies this`progressTarget
      ensures progressTarget == NeighborHexTotal(|gridCoords|, neighborRange)
    {
      progressTarget := |tiles| * 6 * (1 + neighborRange) * neighborRange / 2;
      NeighborTarget(|tiles|, neighborRange);
    }

    /** The outer loop of the neighbour walk: tiles t .. |Tiles| - 1, the first resumed at
        the saved radius, side and step, every later one from radius 1. */
    method NeighborTiles() returns (count: int, yielded: bool)
      requires Configured() && axialDirectionVectors == DirectionTable && neighborsLoop.isInitialized
      requires progressCurrent == neighborsLoop.count && NeighborsResumable()
      modifies this`neighborsLoop, this`ringInitFlag, this`tiles, this`tmpHex, this`progressCurrent
      ensures Advanced(old(neighborsLoop), neighborsLoop, 0, count, yielded)
      ensures progressCurrent == neighborsLoop.count && |tiles| == |old(tiles)|
      ensures NeighborsWalked(yielded)
    {
      var onceLoop0 := true;
      count := 0;
      var t := neighborsLoop.indexSaved[0];
      NeighborTilesStart(gridCoords, neighborRange, neighborsLoop, ringInitFlag, tiles, tmpHex);
      while t < |tiles|
        invariant Advanced(old(neighborsLoop), neighborsLoop, 0, count, false)
        invariant progressCurrent == neighborsLoop.count
        invariant NeighborTileAt(gridCoords, neighborRange, neighborsLoop, ringInitFlag, tiles, tmpHex, t, onceLoop0)
        decreases |gridCoords| - t
      {
        ghost var before, counted := neighborsLoop, count;
        count, yielded := NeighborTileRings(t, onceLoop0, count);
        AdvancedChain(old(neighborsLoop), before, neighborsLoop, 0, counted, count, yielded);
        if yielded {
          NeighborSavedLength(gridCoords, neighborRange, neighborsLoop, tiles, tmpHex);
          return;
        }
        NeighborTileDone(gridCoords, neighborRange, neighborsLoop, ringInitFlag, tiles, tmpHex, t);
        onceLoop0 := false;
        t := t + 1;
      }
      NeighborTilesEnd(gridCoords, neighborRange, neighborsLoop, ringInitFlag, tiles, tmpHex, t, onceLoop0);
      yielded := false;
    }

    /** The loop over the radii of tile t: radii i .. NeighborRange, the first resumed at the
        saved radius (its side and step as saved) when `resume` holds, every later one
        entered at its corner. */
    method NeighborTileRings(t: int, resume: bool, count: int) returns (newCount: int, yielded: bool)
      requires Configured() && axialDirectionVectors == DirectionTable && 0 <= t < |gridCoords|
      requires 0 <= count <= Quantum(neighborsLoop.loopCountLimit) && progressCurrent == neighborsLoop.count
      requires NeighborTileAt(gridCoords, neighborRange, neighborsLoop, ringInitFlag, tiles, tmpHex, t, resume)
      modifies this`neighborsLoop, this`ringInitFlag, this`tiles, this`tmpHex, this`progressCurrent
      ensures Advanced(old(neighborsLoop), neighborsLoop, count, newCount, yielded)
      ensures progressCurrent == neighborsLoop.count
      ensures yielded ==> ringInitFlag && NeighborSaved(gridCoords, neighborRange, neighborsLoop, tiles, tmpHex)
      ensures !yielded ==> !ringInitFlag && NeighborRingsFinished(gridCoords, neighborRange, tiles, t, neighborRange)
                           && neighborsLoop.count == HexesBefore(neighborRange, t, neighborRange + 1, 0, 0)
    {
      var center := tiles[t].axialCoord;
      var onceLoop1 := resume;
      newCount := count;
      var i := if onceLoop1 then neighborsLoop.indexSaved[1] else 1;
      i := if i < 1 then 1 else i;
      NeighborTileStart(gridCoords, neighborRange, neighborsLoop, ringInitFlag, tiles, tmpHex, t, resume, i);
      while i <= neighborRange
        invariant center == gridCoords[t]
        invariant Advanced(old(neighborsLoop), neighborsLoop, count, newCount, false)
        invariant onceLoop1 ==> resume && neighborsLoop == old(neighborsLoop)
        invariant progressCurrent == neighborsLoop.count
        invariant NeighborRingsAt(gridCoords, neighborRange, neighborsLoop, ringInitFlag, tiles, tmpHex, t, i, onceLoop1)
        decreases neighborRange + 1 - i
      {
        ghost var before, counted := neighborsLoop, newCount;
        newCount, yielded := NeighborRingSides(t, center, i, onceLoop1, newCount);
        AdvancedChain(old(neighborsLoop), before, neighborsLoop, count, counted, newCount, yielded);
        if yielded {
          return;
        }
        onceLoop1 := false;
        i := i + 1;
      }
      yielded := false;
    }

    /** Ring i of tile t: on entering the ring, append an empty record of radius i and place
        the cursor at the ring's corner; then walk its sides, the first resumed at the saved
        side and step when `resume` holds; once the ring is finished, clear the ring flag. */
    method NeighborRingSides(t: int, center: Axial, i: int, resume: bool, count: int)
      returns (newCount: int, yielded: bool)
      requires NeighborRingAt(gridCoords, neighborRange, neighborsLoop, ringInitFlag, tiles, tmpHex, t, i, resume)
      requires center == gridCoords[t] && axialDirectionVectors == DirectionTable
      requires 0 <= count <= Quantum(neighborsLoop.loopCountLimit) && progressCurrent == neighborsLoop.count
      modifies this`neighborsLoop, this`ringInitFlag, this`tiles, this`tmpHex, this`progressCurrent
      ensures Advanced(old(neighborsLoop), neighborsLoop, count, newCount, yielded)
      ensures progressCurrent == neighborsLoop.count
      ensures yielded ==> ringInitFlag && NeighborSaved(gridCoords, neighborRange, neighborsLoop, tiles, tmpHex)
      ensures !yielded ==> !ringInitFlag && NeighborRingsFinished(gridCoords, neighborRange, tiles, t, i)
      ensures !yielded ==> NeighborRingsAt(gridCoords, neighborRange, neighborsLoop, ringInitFlag, tiles, tmpHex, t, i + 1, false)
    {
      OpenNeighborRing(t, center, i, resume);
      var j := if resume then neighborsLoop.indexSaved[2] else 0;
      newCount, yielded := NeighborSides(t, i, j, resume, count);
      if !yielded {
        ringInitFlag := false;
        NeighborRingDone(gridCoords, neighborRange, neighborsLoop, ringInitFlag, tiles, tmpHex, t, i);
      }
    }

    /** The loop over the sides of ring i of tile t: sides j .. 5, the first resumed at the
        saved step when `resume` holds, every later one from its corner. */
    method NeighborSides(t: int, i: int, j: int, resume: bool, count: int) returns (newCount: int, yielded: bool)
      requires 1 <= i <= neighborRange && 0 <= j <= DirectionCount
      requires NeighborSideAt(gridCoords, neighborRange, neighborsLoop, tiles, tmpHex, t, i, j, resume)
      requires axialDirectionVectors == DirectionTable && |neighborsLoop.indexSaved| >= NeighborDepth
      requires 0 <= count <= Quantum(neighborsLoop.loopCountLimit) && progressCurrent == neighborsLoop.count
      modifies this`neighborsLoop, this`tiles, this`tmpHex, this`progressCurrent
      ensures Advanced(old(neighborsLoop), neighborsLoop, count, newCount, yielded)
      ensures progressCurrent == neighborsLoop.count
      ensures yielded ==> NeighborSaved(gridCoords, neighborRange, neighborsLoop, tiles, tmpHex)
      ensures !yielded ==> NeighborRingsFinished(gridCoords, neighborRange, tiles, t, i)
                           && neighborsLoop.count == HexesBefore(neighborRange, t, i + 1, 0, 0)
    {
      var onceLoop2 := resume;
      newCount := count;
      var side := j;
      while side <= 5
        invariant 0 <= side <= DirectionCount
        invariant Advanced(old(neighborsLoop), neighborsLoop, count, newCount, false)
        invariant onceLoop2 ==> resume && side == j && neighborsLoop == old(neighborsLoop)
        invariant progressCurrent == neighborsLoop.count
        invariant NeighborSideAt(gridCoords, neighborRange, neighborsLoop, tiles, tmpHex, t, i, side, onceLoop2)
        decreases DirectionCount - side
      {
        ghost var before, counted := neighborsLoop, newCount;
        newCount, yielded := NeighborSide(t, i, side, onceLoop2, newCount);
        AdvancedChain(old(neighborsLoop), before, neighborsLoop, count, counted, newCount, yielded);
        if yielded {
          return;
        }
        assert NeighborSideAt(gridCoords, neighborRange, neighborsLoop, tiles, tmpHex, t, i, side + 1, false);
        onceLoop2 := false;
        side := side + 1;
      }
      NeighborRingWalked(gridCoords, neighborRange, neighborsLoop, tiles, tmpHex, t, i, onceLoop2);
      yielded := false;
    }

    /** The head of ring i of tile t: unless the ring was entered before the last yield,
        append an empty record of radius i to the tile and place the cursor i steps from the
        tile in the ring-start direction. */
    method OpenNeighborRing(t: int, center: Axial, i: int, resume: bool)
      requires NeighborRingAt(gridCoords, neighborRange, neighborsLoop, ringInitFlag, tiles, tmpHex, t, i, resume)
      requires center == gridCoords[t] && axialDirectionVectors == DirectionTable
      modifies this`ringInitFlag, this`tiles, this`tmpHex
      ensures ringInitFlag
      ensures NeighborSideAt(gridCoords, neighborRange, neighborsLoop, tiles, tmpHex, t, i,
                             if resume then neighborsLoop.indexSaved[2] else 0, resume)
    {
      if !ringInitFlag {
        NeighborRingOpened(gridCoords, neighborRange, neighborsLoop, tiles, tmpHex, t, i, resume);
        ringInitFlag := true;
        AddTileNeighbor(t, i);
        tmpHex := Add(Scale(AxialDirection(RingStartDirectionIndex), i), center);
      } else {
        NeighborRingResumed(gridCoords, neighborRange, neighborsLoop, tiles, tmpHex, t, i, resume);
      }
    }

    /** Side j of ring i of tile t, from the saved step when `resume` holds, else from its
        first step. */
    method NeighborSide(t: int, i: int, j: int, resume: bool, count: int) returns (newCount: int, yielded: bool)
      requires 1 <= i <= neighborRange && 0 <= j < DirectionCount
      requires NeighborSideAt(gridCoords, neighborRange, neighborsLoop, tiles, tmpHex, t, i, j, resume)
      requires axialDirectionVectors == DirectionTable
      requires |neighborsLoop.indexSaved| >= NeighborDepth
      requires 0 <= count <= Quantum(neighborsLoop.loopCountLimit) && progressCurrent == neighborsLoop.count
      modifies this`neighborsLoop, this`tiles, this`tmpHex, this`progressCurrent
      ensures Advanced(old(neighborsLoop), neighborsLoop, count, newCount, yielded)
      ensures progressCurrent == neighborsLoop.count
      ensures yielded ==> NeighborSaved(gridCoords, neighborRange, neighborsLoop, tiles, tmpHex)
      ensures !yielded ==> NeighborSideAt(gridCoords, neighborRange, neighborsLoop, tiles, tmpHex, t, i, j + 1, false)
    {
      NeighborSideStart(gridCoords, neighborRange, neighborsLoop, tiles, tmpHex, t, i, j, resume);
      var k := if resume then neighborsLoop.indexSaved[3] else 0;
      newCount, yielded := NeighborSideSteps(t, i, j, k, count);
      if !yielded {
        NeighborSideWalked(gridCoords, neighborRange, neighborsLoop, tiles, tmpHex, t, i, j);
      }
    }

    /** The innermost loop of the neighbour walk: steps k .. i-1 of side j of ring i of tile
        t, each one checkpointed, then recording the cursor in the tile's record of radius i
        and moving the cursor along the side. */
    method NeighborSideSteps(t: int, i: int, j: int, k: int, count: int) returns (newCount: int, yielded: bool)
      requires 1 <= i <= neighborRange && 0 <= j < DirectionCount && 0 <= k <= i
      requires NeighborWalk(gridCoords, neighborRange, tiles, tmpHex, t, i, j, k)
      requires neighborsLoop.count == HexesBefore(neighborRange, t, i, j, k)
      requires axialDirectionVectors == DirectionTable
      requires |neighborsLoop.indexSaved| >= NeighborDepth
      requires 0 <= count <= Quantum(neighborsLoop.loopCountLimit) && progressCurrent == neighborsLoop.count
      modifies this`neighborsLoop, this`tiles, this`tmpHex, this`progressCurrent
      ensures Advanced(old(neighborsLoop), neighborsLoop, count, newCount, yielded)
      ensures progressCurrent == neighborsLoop.count
      ensures yielded ==> NeighborSaved(gridCoords, neighborRange, neighborsLoop, tiles, tmpHex)
      ensures !yielded ==> NeighborWalk(gridCoords, neighborRange, tiles, tmpHex, t, i, j, i)
                           && neighborsLoop.count == HexesBefore(neighborRange, t, i, j, i)
    {
      var step := k;
      newCount := count;
      while step <= i - 1
        invariant k <= step <= i && NeighborWalk(gridCoords, neighborRange, tiles, tmpHex, t, i, j, step)
        invariant neighborsLoop.count == HexesBefore(neighborRange, t, i, j, step)
        invariant Advanced(old(neighborsLoop), neighborsLoop, count, newCount, false)
        invariant progressCurrent == neighborsLoop.count
        decreases i - step
      {
        var saved := SaveLoopData(neighborsLoop, newCount, [t, i, j, step]);
        neighborsLoop := saved.0;
        if saved.1 {
          NeighborStepSaved(gridCoords, neighborRange, neighborsLoop, tiles, tmpHex, t, i, j, step);
          return newCount, true;
        }
        NeighborStep(t, i, j, step);
        progressCurrent := neighborsLoop.count;
        newCount := newCount + 1;
        step := step + 1;
      }
      yielded := false;
    }

    /** One step along a side: record the cursor in the tile's record of radius i and move
        the cursor to its neighbour in direction j. */
    method NeighborStep(t: int, i: int, j: int, k: int)
      requires NeighborWalk(gridCoords, neighborRange, tiles, tmpHex, t, i, j, k)
      requires axialDirectionVectors == DirectionTable
      modifies this`tiles, this`tmpHex
      ensures NeighborWalk(gridCoords, neighborRange, tiles, tmpHex, t, i, j, k + 1)
    {
      NeighborStepped(gridCoords, neighborRange, tiles, tmpHex, t, i, j, k);
      SetTileNeighbor(t, i, j);
    }

    /** The end of the neighbour walk: reset the progress and move on to the vertex stage. */
    method FinishNeighbors()
      requires Configured() && MeshStagesPending() && tileIndices == IndexMap(gridCoords)
      requires tiles == FinishedTiles(gridCoords, neighborRange)
      modifies this`progressTarget, this`progressCurrent, this`workflowState
      ensures workflowState == WorkflowState.CreateVertices && VerticesInv()
    {
      ResetProgress();
      workflowState := WorkflowState.CreateVertices;
      VerticesReady();
    }

    /** The finished grid, with the progress reset, is where the vertex stage starts. */
    lemma VerticesReady()
      requires MeshStagesPending() && tileIndices == IndexMap(gridCoords)
      requires tiles == FinishedTiles(gridCoords, neighborRange)
      requires progressTarget == 0 && progressCurrent == 0
      ensures VerticesInv()
    {
      AllFreshTail([verticesLoop, trianglesLoop, writeTilesLoop, writeTileIndicesLoop,
                    writeVerticesLoop, writeTrianglesLoop]);
    }

    /** A neighbour call that yielded leaves the stage's invariant in place. */
    lemma NeighborsYielded()
      requires MeshStagesPending() && tileIndices == IndexMap(gridCoords)
      requires neighborsLoop.isInitialized && ringInitFlag
      requires NeighborSaved(gridCoords, neighborRange, neighborsLoop, tiles, tmpHex)
      requires progressCurrent == neighborsLoop.count
      requires progressTarget == NeighborHexTotal(|gridCoords|, neighborRange)
      ensures NeighborsInv()
    {
    }

    // -------------------------------------------------------------------------------------
    // Stage 3: the vertices
    // -------------------------------------------------------------------------------------

    /** One quantum of the vertex stage: resume at the saved tile, emit the twelve line
        vertices of each tile in turn, and either save the tile and yield or, when every
        tile is done, reset the progress and move on to the triangle stage.  Either way the
        next call is scheduled after the checkpoint's rate. */
    method CreateVertices() returns (sched: Schedule)
      requires workflowState == WorkflowState.CreateVertices && VerticesInv()
      modifies this`verticesLoop, this`vertices, this`progressTarget, this`progressCurrent
      modifies this`workflowState
      ensures sched == After(verticesLoop.rate)
      ensures verticesLoop.loopCountLimit == old(verticesLoop.loopCountLimit)
      ensures verticesLoop.rate == old(verticesLoop.rate)
      ensures workflowState == WorkflowState.CreateVertices || workflowState == WorkflowState.CreateTriangles
      ensures workflowState == WorkflowState.CreateVertices ==>
        VerticesInv() && verticesLoop.count == old(verticesLoop.count) + Quantum(verticesLoop.loopCountLimit)
      ensures workflowState == WorkflowState.CreateTriangles ==> TrianglesInv() && vertices == MeshVertices(|tiles|)
    {
      EnterVertices();
      var count, yielded := VertexTiles();
      EndVertices(yielded);
      sched := After(verticesLoop.rate);
    }

    /** The head of every call of the vertex stage: on the first call, mark the checkpoint
        initialised and set the progress target to the number of tiles.  (The float corner
        offsets it also computes are not modelled.) */
    method EnterVertices()
      requires VerticesInv()
      modifies this`verticesLoop, this`progressTarget
      ensures verticesLoop == old(verticesLoop).(isInitialized := true)
      ensures progressTarget == |tiles| && progressCurrent == verticesLoop.count
      ensures |verticesLoop.indexSaved| >= 1
      ensures 0 <= verticesLoop.indexSaved[0] <= |tiles| && vertices == MeshVertices(verticesLoop.indexSaved[0])
      ensures verticesLoop.count == verticesLoop.indexSaved[0]
    {
      if !verticesLoop.isInitialized {
        verticesLoop := verticesLoop.(isInitialized := true);
        progressTarget := |tiles|;
      }
    }

    /** The loop over the tiles, from the saved one. */
    method VertexTiles() returns (count: int, yielded: bool)
      requires verticesLoop.isInitialized && |verticesLoop.indexSaved| >= 1
      requires progressCurrent == verticesLoop.count
      requires 0 <= verticesLoop.indexSaved[0] <= |tiles| && vertices == MeshVertices(verticesLoop.indexSaved[0])
      requires verticesLoop.count == verticesLoop.indexSaved[0]
      modifies this`verticesLoop, this`vertices, this`progressCurrent
      ensures Advanced(old(verticesLoop), verticesLoop, 0, count, yielded)
      ensures progressCurrent == verticesLoop.count
      ensures yielded ==>
        0 <= verticesLoop.indexSaved[0] < |tiles| && vertices == MeshVertices(verticesLoop.indexSaved[0])
        && verticesLoop.count == verticesLoop.indexSaved[0]
      ensures !yielded ==> vertices == MeshVertices(|tiles|) && verticesLoop.count == |tiles|
    {
      count := 0;
      var i := verticesLoop.indexSaved[0];
      while i <= |tiles| - 1
        invariant 0 <= i <= |tiles| && vertices == MeshVertices(i)
        invariant verticesLoop.count == i
        invariant Advanced(old(verticesLoop), verticesLoop, 0, count, false)
        invariant progressCurrent == verticesLoop.count
        decreases |tiles| - i
      {
        var saved := SaveLoopData(verticesLoop, count, [i]);
        verticesLoop := saved.0;
        if saved.1 {
          assert verticesLoop.indexSaved[0] == verticesLoop.indexSaved[..1][0];
          return count, true;
        }
        CreateTileLineVertices(i);
        progressCurrent := verticesLoop.count;
        count := count + 1;
        i := i + 1;
      }
      yielded := false;
    }

    /** The line vertices of tile t: for each corner in turn, its outer and its inner point. */
    method CreateTileLineVertices(t: int)
      requires 0 <= t < |tiles|
      modifies this`vertices
      ensures vertices == old(vertices) + TileVertices(t)
    {
      ghost var vs := TileVertices(t);
      for c := 0 to CornerCount
        invariant vertices == old(vertices) + vs[..2 * c]
      {
        assert vs[..2 * c + 2] == vs[..2 * c] + [Vertex(t, c, false), Vertex(t, c, true)];
        vertices := vertices + [Vertex(t, c, false), Vertex(t, c, true)];
      }
      assert vs[..2 * CornerCount] == vs;
    }

    /** The tail of every call of the vertex stage: nothing when it yielded, else reset the
        progress and move on to the triangle stage. */
    method EndVertices(yielded: bool)
      requires GridComplete(gridCoords, neighborRange, tiles, tileIndices)
      requires TrianglesPending(triangles, triArr0, triArr1, triArr2, triArr3)
      requires AllFresh([trianglesLoop, writeTilesLoop, writeTileIndicesLoop, writeVerticesLoop,
                         writeTrianglesLoop])
      requires workflowState == WorkflowState.CreateVertices && verticesLoop.isInitialized
      requires |verticesLoop.indexSaved| >= 1
      requires progressCurrent == verticesLoop.count && progressTarget == |tiles|
      requires yielded ==>
        0 <= verticesLoop.indexSaved[0] < |tiles| && vertices == MeshVertices(verticesLoop.indexSaved[0])
        && verticesLoop.count == verticesLoop.indexSaved[0]
      requires !yielded ==> vertices == MeshVertices(|tiles|)
      modifies this`progressTarget, this`progressCurrent, this`workflowState
      ensures workflowState == (if yielded then WorkflowState.CreateVertices else WorkflowState.CreateTriangles)
      ensures workflowState == WorkflowState.CreateVertices ==> VerticesInv()
      ensures workflowState == WorkflowState.CreateTriangles ==> TrianglesInv() && vertices == MeshVertices(|tiles|)
    {
      if !yielded {
        ResetProgress();
        workflowState := WorkflowState.CreateTriangles;
        AllFreshTail([trianglesLoop, writeTilesLoop, writeTileIndicesLoop, writeVerticesLoop,
                      writeTrianglesLoop]);
      }
    }

    // -------------------------------------------------------------------------------------
    // Stage 4: the triangles
    // -------------------------------------------------------------------------------------

    /** One quantum of the triangle stage: on the first call fill the four index tables;
        resume at the saved tile, emit the 36 indices of each tile in turn, and either save
        the tile and yield or, when every tile is done, reset the progress and move on to
        writing the tiles file.  Either way the next call is scheduled after the
        checkpoint's rate. */
    method CreateTriangles() returns (sched: Schedule)
      requires workflowState == WorkflowState.CreateTriangles && TrianglesInv()
      modifies this`trianglesLoop, this`triangles, this`triArr0, this`triArr1, this`triArr2
      modifies this`triArr3, this`progressTarget, this`progressCurrent, this`workflowState
      ensures sched == After(trianglesLoop.rate)
      ensures trianglesLoop.loopCountLimit == old(trianglesLoop.loopCountLimit)
      ensures trianglesLoop.rate == old(trianglesLoop.rate)
      ensures workflowState == WorkflowState.CreateTriangles || workflowState == WorkflowState.WriteTiles
      ensures workflowState == WorkflowState.CreateTriangles ==>
        TrianglesInv() && trianglesLoop.count == old(trianglesLoop.count) + Quantum(trianglesLoop.loopCountLimit)
      ensures workflowState == WorkflowState.WriteTiles ==> WriteTilesInv() && triangles == MeshTriangles(|tiles|)
    {
      EnterTriangles();
      var count, yielded := TriangleTiles();
      EndTriangles(yielded);
      sched := After(trianglesLoop.rate);
    }

    /** The head of every call of the triangle stage: on the first call, mark the checkpoint
        initialised, fill the index tables and set the progress target to the number of
        tiles. */
    method EnterTriangles()
      requires TrianglesInv()
      modifies this`trianglesLoop, this`triArr0, this`triArr1, this`triArr2, this`triArr3
      modifies this`progressTarget
      ensures trianglesLoop == old(trianglesLoop).(isInitialized := true)
      ensures TriTables() && progressTarget == |tiles| && progressCurrent == trianglesLoop.count
      ensures |trianglesLoop.indexSaved| >= 1
      ensures 0 <= trianglesLoop.indexSaved[0] <= |tiles| && triangles == MeshTriangles(trianglesLoop.indexSaved[0])
      ensures trianglesLoop.count == trianglesLoop.indexSaved[0]
    {
      if !trianglesLoop.isInitialized {
        trianglesLoop := trianglesLoop.(isInitialized := true);
        InitCreateTriangles();
        progressTarget := |tiles|;
      }
    }

    /** Appends, for each side i, the local indices of the outer and inner vertex of corner i
        and of the next corner to the four tables. */
    method InitCreateTriangles()
      modifies this`triArr0, this`triArr1, this`triArr2, this`triArr3
      ensures triArr0 == old(triArr0) + TriTable0() && triArr1 == old(triArr1) + TriTable1()
      ensures triArr2 == old(triArr2) + TriTable2() && triArr3 == old(triArr3) + TriTable3()
    {
      for i := 0 to CornerCount
        invariant triArr0 == old(triArr0) + TriTable0()[..i] && triArr1 == old(triArr1) + TriTable1()[..i]
        invariant triArr2 == old(triArr2) + TriTable2()[..i] && triArr3 == old(triArr3) + TriTable3()[..i]
      {
        TriTablesAreCorners(i);
        assert TriTable0()[..i + 1] == TriTable0()[..i] + [i * 2];
        assert TriTable1()[..i + 1] == TriTable1()[..i] + [i * 2 + 1];
        var a := ((i + 1) % 6) * 2;
        assert TriTable2()[..i + 1] == TriTable2()[..i] + [a];
        assert TriTable3()[..i + 1] == TriTable3()[..i] + [a + 1];
        triArr0 := triArr0 + [i * 2];
        triArr1 := triArr1 + [i * 2 + 1];
        triArr2 := triArr2 + [a];
        triArr3 := triArr3 + [a + 1];
      }
      assert TriTable0()[..CornerCount] == TriTable0() && TriTable1()[..CornerCount] == TriTable1();
      assert TriTable2()[..CornerCount] == TriTable2() && TriTable3()[..CornerCount] == TriTable3();
    }

    /** The loop over the tiles, from the saved one; tile i's vertices start at 12 i. */
    method TriangleTiles() returns (count: int, yielded: bool)
      requires trianglesLoop.isInitialized && |trianglesLoop.indexSaved| >= 1
      requires TriTables() && progressCurrent == trianglesLoop.count
      requires 0 <= trianglesLoop.indexSaved[0] <= |tiles| && triangles == MeshTriangles(trianglesLoop.indexSaved[0])
      requires trianglesLoop.count == trianglesLoop.indexSaved[0]
      modifies this`trianglesLoop, this`triangles, this`progressCurrent
      ensures Advanced(old(trianglesLoop), trianglesLoop, 0, count, yielded)
      ensures progressCurrent == trianglesLoop.count
      ensures yielded ==>
        0 <= trianglesLoop.indexSaved[0] < |tiles| && triangles == MeshTriangles(trianglesLoop.indexSaved[0])
        && trianglesLoop.count == trianglesLoop.indexSaved[0]
      ensures !yielded ==> triangles == MeshTriangles(|tiles|) && trianglesLoop.count == |tiles|
    {
      count := 0;
      var i := trianglesLoop.indexSaved[0];
      while i <= |tiles| - 1
        invariant 0 <= i <= |tiles| && triangles == MeshTriangles(i)
        invariant trianglesLoop.count == i
        invariant Advanced(old(trianglesLoop), trianglesLoop, 0, count, false)
        invariant progressCurrent == trianglesLoop.count
        decreases |tiles| - i
      {
        var vIndexStart := i * VerticesPerTile;
        var saved := SaveLoopData(trianglesLoop, count, [i]);
        trianglesLoop := saved.0;
        if saved.1 {
          assert trianglesLoop.indexSaved[0] == trianglesLoop.indexSaved[..1][0];
          return count, true;
        }
        CreateTileTriangles(vIndexStart);
        progressCurrent := trianglesLoop.count;
        count := count + 1;
        i := i + 1;
      }
      yielded := false;
    }

    /** The 36 indices of the tile whose vertices start at `vIndexStart`: for each side i,
        triangles (outer i, inner i, inner i+1) and (outer i, inner i+1, outer i+1). */
    method CreateTileTriangles(vIndexStart: int)
      requires TriTables()
      modifies this`triangles
      ensures triangles == old(triangles) + TileTriangles(vIndexStart)
    {
      for i := 0 to CornerCount
        invariant triangles == old(triangles) + TileSides(i, vIndexStart)
      {
        TriTablesAreCorners(i);
        var indices := [triArr0[i] + vIndexStart, triArr1[i] + vIndexStart, triArr3[i] + vIndexStart,
                        triArr0[i] + vIndexStart, triArr3[i] + vIndexStart, triArr2[i] + vIndexStart];
        assert indices == SideIndices(i, vIndexStart);
        triangles := triangles + indices;
      }
      TileSidesComplete(CornerCount, vIndexStart);
    }

    /** The tail of every call of the triangle stage: nothing when it yielded, else reset
        the progress and move on to writing the tiles file. */
    method EndTriangles(yielded: bool)
      requires GridComplete(gridCoords, neighborRange, tiles, tileIndices) && vertices == MeshVertices(|tiles|)
      requires AllFresh([writeTilesLoop, writeTileIndicesLoop, writeVerticesLoop, writeTrianglesLoop])
      requires workflowState == WorkflowState.CreateTriangles && trianglesLoop.isInitialized
      requires |trianglesLoop.indexSaved| >= 1 && TriTables()
      requires progressCurrent == trianglesLoop.count && progressTarget == |tiles|
      requires yielded ==>
        0 <= trianglesLoop.indexSaved[0] < |tiles| && triangles == MeshTriangles(trianglesLoop.indexSaved[0])
        && trianglesLoop.count == trianglesLoop.indexSaved[0]
      requires !yielded ==> triangles == MeshTriangles(|tiles|)
      modifies this`progressTarget, this`progressCurrent, this`workflowState
      ensures workflowState == (if yielded then WorkflowState.CreateTriangles else WorkflowState.WriteTiles)
      ensures workflowState == WorkflowState.CreateTriangles ==> TrianglesInv()
      ensures workflowState == WorkflowState.WriteTiles ==> WriteTilesInv() && triangles == MeshTriangles(|tiles|)
    {
      if !yielded {
        ResetProgress();
        workflowState := WorkflowState.WriteTiles;
        AllFreshTail([writeTilesLoop, writeTileIndicesLoop, writeVerticesLoop, writeTrianglesLoop]);
        MeshVerticesShape(|tiles|);
        MeshTrianglesLength(|tiles|);
      }
    }

    // -------------------------------------------------------------------------------------
    // Stage 5: the tiles file
    // -------------------------------------------------------------------------------------

    /** One quantum of writing the tiles file.  The first call marks the checkpoint
        initialised, sets the progress target to the number of tiles and opens the file
        truncated; later calls open it for appending.  If the file does not open the
        workflow moves to Error.  Otherwise one row per tile is written from the saved tile
        on, and the call either saves the next tile and yields or, after the last tile,
        moves on to the tile-index file.  The next call is scheduled after the checkpoint's
        rate. */
    method WriteTilesToFile(isOpen: bool) returns (sched: Schedule)
      requires workflowState == WorkflowState.WriteTiles && TilesStage()
      modifies this`writeTilesLoop, this`tilesFile, this`progressTarget, this`progressCurrent
      modifies this`workflowState
      ensures sched == After(writeTilesLoop.rate)
      ensures writeTilesLoop.loopCountLimit == old(writeTilesLoop.loopCountLimit)
      ensures writeTilesLoop.rate == old(writeTilesLoop.rate)
      ensures workflowState == WorkflowState.Error <==> !isOpen
      ensures isOpen ==> workflowState == WorkflowState.WriteTiles || workflowState == WorkflowState.WriteTileIndices
      ensures workflowState == WorkflowState.WriteTiles ==>
        TilesStage() && writeTilesLoop.count == old(writeTilesLoop.count) + Quantum(writeTilesLoop.loopCountLimit)
      ensures workflowState == WorkflowState.WriteTileIndices ==> TilesFileDone() && TileIndicesStage()
    {
      OpenTilesFile(isOpen);
      if !isOpen {
        workflowState := WorkflowState.Error;
        return After(writeTilesLoop.rate);
      }
      WriteTiles();
      if workflowState == WorkflowState.WriteTileIndices {
        AllFreshTail([writeTileIndicesLoop, writeVerticesLoop, writeTrianglesLoop]);
      }
      sched := After(writeTilesLoop.rate);
    }

    /** The head of every call of the tiles stage: on the first call mark the checkpoint
        initialised and set the progress target to the number of tiles; open the file,
        truncating it on the first call. */
    method OpenTilesFile(isOpen: bool)
      requires WriteFileAt(TileFileOf(tiles, positionText), 1, writeTilesLoop, tilesFile, progressTarget, progressCurrent)
      modifies this`writeTilesLoop, this`tilesFile, this`progressTarget
      ensures writeTilesLoop == old(writeTilesLoop).(isInitialized := true) && progressTarget == |tiles|
      ensures tilesFile == if isOpen && !old(writeTilesLoop.isInitialized) then [] else old(tilesFile)
      ensures isOpen ==>
        && WriteRunning(writeTilesLoop, |tiles|, progressTarget, progressCurrent)
        && writeTilesLoop.indexSaved[0] == writeTilesLoop.count
        && tilesFile == TileFileOf(tiles, positionText)[..writeTilesLoop.count]
    {
      if !writeTilesLoop.isInitialized {
        writeTilesLoop := writeTilesLoop.(isInitialized := true);
        progressTarget := |tiles|;
        if isOpen {
          tilesFile := [];
        }
      }
    }

    /** The body of a call of the tiles stage once the file is open: write the rows from the
        saved tile on, then yield or, after the last tile, move on to the tile-index file. */
    method WriteTiles()
      requires workflowState == WorkflowState.WriteTiles
      requires WriteRunning(writeTilesLoop, |tiles|, progressTarget, progressCurrent)
      requires writeTilesLoop.indexSaved[0] == writeTilesLoop.count
      requires tilesFile == TileFileOf(tiles, positionText)[..writeTilesLoop.count]
      modifies this`writeTilesLoop, this`tilesFile, this`progressCurrent, this`workflowState
      ensures writeTilesLoop.loopCountLimit == old(writeTilesLoop.loopCountLimit)
      ensures writeTilesLoop.rate == old(writeTilesLoop.rate)
      ensures workflowState == WorkflowState.WriteTiles || workflowState == WorkflowState.WriteTileIndices
      ensures workflowState == WorkflowState.WriteTiles ==>
        && WriteFileAt(TileFileOf(tiles, positionText), 1, writeTilesLoop, tilesFile, progressTarget, progressCurrent)
        && writeTilesLoop.count == old(writeTilesLoop.count) + Quantum(writeTilesLoop.loopCountLimit)
      ensures workflowState == WorkflowState.WriteTileIndices ==> TilesFileDone()
    {
      ghost var rows := TileFileOf(tiles, positionText);
      var count, yielded := WriteTileRows(rows);
      assert rows[..|rows|] == rows;
      if !yielded {
        workflowState := WorkflowState.WriteTileIndices;
      }
    }

    /** The loop over the tiles, from the saved one: the file always holds the first rows
        of the whole file `rows`, as many as the checkpoint's count. */
    method WriteTileRows(ghost rows: seq<string>) returns (count: int, yielded: bool)
      requires TileFile(rows, tiles, positionText)
      requires WriteRunning(writeTilesLoop, |tiles|, progressTarget, progressCurrent)
      requires writeTilesLoop.indexSaved[0] == writeTilesLoop.count
      requires tilesFile == rows[..writeTilesLoop.count]
      modifies this`writeTilesLoop, this`tilesFile, this`progressCurrent
      ensures Advanced(old(writeTilesLoop), writeTilesLoop, 0, count, yielded)
      ensures WriteRunning(writeTilesLoop, |tiles|, progressTarget, progressCurrent)
      ensures tilesFile == rows[..writeTilesLoop.count]
      ensures yielded ==> writeTilesLoop.count < |tiles| && writeTilesLoop.indexSaved[0] == writeTilesLoop.count
      ensures !yielded ==> writeTilesLoop.count == |tiles|
    {
      count := 0;
      var i := writeTilesLoop.indexSaved[0];
      while i <= |tiles| - 1
        invariant i == writeTilesLoop.count
        invariant Advanced(old(writeTilesLoop), writeTilesLoop, 0, count, false)
        invariant WriteRunning(writeTilesLoop, |tiles|, progressTarget, progressCurrent)
        invariant tilesFile == rows[..i]
        decreases |tiles| - i
      {
        var saved := SaveLoopData(writeTilesLoop, count, [i]);
        writeTilesLoop := saved.0;
        if saved.1 {
          assert writeTilesLoop.indexSaved[0] == writeTilesLoop.indexSaved[..1][0];
          return count, true;
        }
        WriteTileLine(i, rows);
        assert rows[..i + 1] == rows[..i] + [rows[i]];
        progressCurrent := writeTilesLoop.count;
        count := count + 1;
        i := i + 1;
      }
      yielded := false;
    }

    /** Appends tile `index`'s row, row `index` of the whole file: its coordinate, its
        position and its rings. */
    method WriteTileLine(index: int, ghost rows: seq<string>)
      requires 0 <= index < |tiles| && TileFile(rows, tiles, positionText)
      modifies this`tilesFile
      ensures tilesFile == old(tilesFile) + [rows[index]]
    {
      var data := tiles[index];
      var neighbors := WriteNeighbors(data.neighbors);
      tilesFile := tilesFile + [AxialText(data.axialCoord) + (PipeDelim + (positionText(index)
        + (PipeDelim + (neighbors + LineEnd))))];
      assert tilesFile[|tilesFile| - 1] == TileRow(tiles[index], positionText(index));
    }

    /** The text of a tile's rings, a colon between two rings. */
    method WriteNeighbors(ns: seq<TileNeighbors>) returns (text: string)
      ensures text == NeighborsText(ns)
    {
      text := "";
      for i := 0 to |ns|
        invariant text + NeighborsText(ns[i..]) == NeighborsText(ns)
      {
        var ring := WriteNeighborsInfo(ns[i].tiles);
        assert ns[i..][0] == ns[i] && ns[i..][1..] == ns[i + 1..];
        if i != |ns| - 1 {
          Assoc(text, ring, ColonDelim + NeighborsText(ns[i + 1..]));
          Assoc(text + ring, ColonDelim, NeighborsText(ns[i + 1..]));
          text := text + ring + ColonDelim;
        } else {
          text := text + ring;
        }
      }
    }

    /** The text of one ring, a space between two hexes. */
    method WriteNeighborsInfo(hs: seq<Axial>) returns (text: string)
      ensures text == RingText(hs)
    {
      text := "";
      for i := 0 to |hs|
        invariant text + RingText(hs[i..]) == RingText(hs)
      {
        var hex := AxialText(hs[i]);
        assert hs[i..][0] == hs[i] && hs[i..][1..] == hs[i + 1..];
        if i != |hs| - 1 {
          Assoc(text, hex, SpaceDelim + RingText(hs[i + 1..]));
          Assoc(text + hex, SpaceDelim, RingText(hs[i + 1..]));
          text := text + hex + SpaceDelim;
        } else {
          text := text + hex;
        }
      }
    }

    // -------------------------------------------------------------------------------------
    // Stage 6: the tile-index file
    // -------------------------------------------------------------------------------------

    /** One quantum of writing the tile-index file, as for the tiles file: one row per tile,
        its coordinate and its index, then on to the vertices file. */
    method WriteTileIndicesToFile(isOpen: bool) returns (sched: Schedule)
      requires workflowState == WorkflowState.WriteTileIndices && TileIndicesStage()
      modifies this`writeTileIndicesLoop, this`tileIndicesFile, this`progressTarget
      modifies this`progressCurrent, this`workflowState
      ensures sched == After(writeTileIndicesLoop.rate)
      ensures writeTileIndicesLoop.loopCountLimit == old(writeTileIndicesLoop.loopCountLimit)
      ensures writeTileIndicesLoop.rate == old(writeTileIndicesLoop.rate)
      ensures workflowState == WorkflowState.Error <==> !isOpen
      ensures isOpen ==>
        workflowState == WorkflowState.WriteTileIndices || workflowState == WorkflowState.WriteVertices
      ensures workflowState == WorkflowState.WriteTileIndices ==>
        && TileIndicesStage()
        && writeTileIndicesLoop.count == old(writeTileIndicesLoop.count) + Quantum(writeTileIndicesLoop.loopCountLimit)
      ensures workflowState == WorkflowState.WriteVertices ==> TileIndicesFileDone() && VerticesStage()
    {
      OpenTileIndicesFile(isOpen);
      if !isOpen {
        workflowState := WorkflowState.Error;
        return After(writeTileIndicesLoop.rate);
      }
      WriteTileIndices();
      if workflowState == WorkflowState.WriteVertices {
        AllFreshTail([writeVerticesLoop, writeTrianglesLoop]);
      }
      sched := After(writeTileIndicesLoop.rate);
    }

    /** The head of every call of the tile-index stage. */
    method OpenTileIndicesFile(isOpen: bool)
      requires WriteFileAt(IndexFileOf(TileCoords(tiles)), 1, writeTileIndicesLoop, tileIndicesFile, progressTarget, progressCurrent)
      modifies this`writeTileIndicesLoop, this`tileIndicesFile, this`progressTarget
      ensures writeTileIndicesLoop == old(writeTileIndicesLoop).(isInitialized := true)
      ensures progressTarget == |tiles|
      ensures tileIndicesFile == if isOpen && !old(writeTileIndicesLoop.isInitialized) then [] else old(tileIndicesFile)
      ensures isOpen ==>
        && WriteRunning(writeTileIndicesLoop, |tiles|, progressTarget, progressCurrent)
        && writeTileIndicesLoop.indexSaved[0] == writeTileIndicesLoop.count
        && tileIndicesFile == IndexFileOf(TileCoords(tiles))[..writeTileIndicesLoop.count]
    {
      if !writeTileIndicesLoop.isInitialized {
        writeTileIndicesLoop := writeTileIndicesLoop.(isInitialized := true);
        progressTarget := |tiles|;
        if isOpen {
          tileIndicesFile := [];
        }
      }
    }

    /** The body of a call of the tile-index stage once the file is open. */
    method WriteTileIndices()
      requires workflowState == WorkflowState.WriteTileIndices
      requires WriteRunning(writeTileIndicesLoop, |tiles|, progressTarget, progressCurrent)
      requires writeTileIndicesLoop.indexSaved[0] == writeTileIndicesLoop.count
      requires tileIndicesFile == IndexFileOf(TileCoords(tiles))[..writeTileIndicesLoop.count]
      modifies this`writeTileIndicesLoop, this`tileIndicesFile, this`progressCurrent, this`workflowState
      ensures writeTileIndicesLoop.loopCountLimit == old(writeTileIndicesLoop.loopCountLimit)
      ensures writeTileIndicesLoop.rate == old(writeTileIndicesLoop.rate)
      ensures workflowState == WorkflowState.WriteTileIndices || workflowState == WorkflowState.WriteVertices
      ensures workflowState == WorkflowState.WriteTileIndices ==>
        && WriteFileAt(IndexFileOf(TileCoords(tiles)), 1, writeTileIndicesLoop, tileIndicesFile, progressTarget, progressCurrent)
        && writeTileIndicesLoop.count == old(writeTileIndicesLoop.count) + Quantum(writeTileIndicesLoop.loopCountLimit)
      ensures workflowState == WorkflowState.WriteVertices ==> TileIndicesFileDone()
    {
      ghost var rows := IndexFileOf(TileCoords(tiles));
      var count, yielded := WriteTileIndexRows(rows);
      assert rows[..|rows|] == rows;
      if !yielded {
        workflowState := WorkflowState.WriteVertices;
      }
    }

    /** The loop over the tiles, from the saved one: the file always holds the first rows
        of the whole file `rows`, as many as the checkpoint's count. */
    method WriteTileIndexRows(ghost rows: seq<string>) returns (count: int, yielded: bool)
      requires IndexFile(rows, TileCoords(tiles))
      requires WriteRunning(writeTileIndicesLoop, |tiles|, progressTarget, progressCurrent)
      requires writeTileIndicesLoop.indexSaved[0] == writeTileIndicesLoop.count
      requires tileIndicesFile == rows[..writeTileIndicesLoop.count]
      modifies this`writeTileIndicesLoop, this`tileIndicesFile, this`progressCurrent
      ensures Advanced(old(writeTileIndicesLoop), writeTileIndicesLoop, 0, count, yielded)
      ensures WriteRunning(writeTileIndicesLoop, |tiles|, progressTarget, progressCurrent)
      ensures tileIndicesFile == rows[..writeTileIndicesLoop.count]
      ensures yielded ==>
        writeTileIndicesLoop.count < |tiles| && writeTileIndicesLoop.indexSaved[0] == writeTileIndicesLoop.count
      ensures !yielded ==> writeTileIndicesLoop.count == |tiles|
    {
      count := 0;
      var i := writeTileIndicesLoop.indexSaved[0];
      while i <= |tiles| - 1
        invariant i == writeTileIndicesLoop.count
        invariant Advanced(old(writeTileIndicesLoop), writeTileIndicesLoop, 0, count, false)
        invariant WriteRunning(writeTileIndicesLoop, |tiles|, progressTarget, progressCurrent)
        invariant tileIndicesFile == rows[..i]
        decreases |tiles| - i
      {
        var saved := SaveLoopData(writeTileIndicesLoop, count, [i]);
        writeTileIndicesLoop := saved.0;
        if saved.1 {
          assert writeTileIndicesLoop.indexSaved[0] == writeTileIndicesLoop.indexSaved[..1][0];
          return count, true;
        }
        WriteTileIndicesLine(i, rows);
        assert rows[..i + 1] == rows[..i] + [rows[i]];
        progressCurrent := writeTileIndicesLoop.count;
        count := count + 1;
        i := i + 1;
      }
      yielded := false;
    }

    /** Appends tile `index`'s index row, row `index` of the whole file: its coordinate,
        then the index. */
    method WriteTileIndicesLine(index: int, ghost rows: seq<string>)
      requires 0 <= index < |tiles|
      requires IndexFile(rows, TileCoords(tiles))
      modifies this`tileIndicesFile
      ensures tileIndicesFile == old(tileIndicesFile) + [rows[index]]
    {
      var key := tiles[index].axialCoord;
      tileIndicesFile := tileIndicesFile + [AxialText(key) + (PipeDelim + (IntToString(index) + LineEnd))];
      assert tileIndicesFile[|tileIndicesFile| - 1] == IndexRow(TileCoords(tiles)[index], index);
    }

    // -------------------------------------------------------------------------------------
    // Stage 7: the vertices file
    // -------------------------------------------------------------------------------------

    /** One quantum of writing the vertices file, as for the tiles file but stepping through
        the vertices twelve at a time, one row per tile; the target is a twelfth of the
        vertex count.  Afterwards, on to the triangles file. */
    method WriteVerticesToFile(isOpen: bool) returns (sched: Schedule)
      requires workflowState == WorkflowState.WriteVertices && VerticesStage() && |vertices| % 12 == 0
      modifies this`writeVerticesLoop, this`verticesFile, this`progressTarget, this`progressCurrent
      modifies this`workflowState
      ensures sched == After(writeVerticesLoop.rate)
      ensures writeVerticesLoop.loopCountLimit == old(writeVerticesLoop.loopCountLimit)
      ensures writeVerticesLoop.rate == old(writeVerticesLoop.rate)
      ensures workflowState == WorkflowState.Error <==> !isOpen
      ensures isOpen ==> workflowState == WorkflowState.WriteVertices || workflowState == WorkflowState.WriteTriangles
      ensures workflowState == WorkflowState.WriteVertices ==>
        && VerticesStage()
        && writeVerticesLoop.count == old(writeVerticesLoop.count) + Quantum(writeVerticesLoop.loopCountLimit)
      ensures workflowState == WorkflowState.WriteTriangles ==> VerticesFileDone() && TrianglesStage()
    {
      OpenVerticesFile(isOpen);
      if !isOpen {
        workflowState := WorkflowState.Error;
        return After(writeVerticesLoop.rate);
      }
      WriteVertices();
      if workflowState == WorkflowState.WriteTriangles {
        AllFreshTail([writeTrianglesLoop]);
      }
      sched := After(writeVerticesLoop.rate);
    }

    /** The head of every call of the vertices stage. */
    method OpenVerticesFile(isOpen: bool)
      requires WriteFileAt(VertexFileOf(vertices, vertexText), 12, writeVerticesLoop, verticesFile, progressTarget, progressCurrent)
      modifies this`writeVerticesLoop, this`verticesFile, this`progressTarget
      ensures writeVerticesLoop == old(writeVerticesLoop).(isInitialized := true)
      ensures progressTarget == |vertices| / 12
      ensures verticesFile == if isOpen && !old(writeVerticesLoop.isInitialized) then [] else old(verticesFile)
      ensures isOpen ==>
        && WriteRunning(writeVerticesLoop, |vertices| / 12, progressTarget, progressCurrent)
        && writeVerticesLoop.indexSaved[0] == 12 * writeVerticesLoop.count
        && verticesFile == VertexFileOf(vertices, vertexText)[..writeVerticesLoop.count]
    {
      if !writeVerticesLoop.isInitialized {
        writeVerticesLoop := writeVerticesLoop.(isInitialized := true);
        progressTarget := |vertices| / 12;
        if isOpen {
          verticesFile := [];
        }
      }
    }

    /** The body of a call of the vertices stage once the file is open. */
    method WriteVertices()
      requires workflowState == WorkflowState.WriteVertices && |vertices| % 12 == 0
      requires WriteRunning(writeVerticesLoop, |vertices| / 12, progressTarget, progressCurrent)
      requires writeVerticesLoop.indexSaved[0] == 12 * writeVerticesLoop.count
      requires verticesFile == VertexFileOf(vertices, vertexText)[..writeVerticesLoop.count]
      modifies this`writeVerticesLoop, this`verticesFile, this`progressCurrent, this`workflowState
      ensures writeVerticesLoop.loopCountLimit == old(writeVerticesLoop.loopCountLimit)
      ensures writeVerticesLoop.rate == old(writeVerticesLoop.rate)
      ensures workflowState == WorkflowState.WriteVertices || workflowState == WorkflowState.WriteTriangles
      ensures workflowState == WorkflowState.WriteVertices ==>
        && WriteFileAt(VertexFileOf(vertices, vertexText), 12, writeVerticesLoop, verticesFile, progressTarget, progressCurrent)
        && writeVerticesLoop.count == old(writeVerticesLoop.count) + Quantum(writeVerticesLoop.loopCountLimit)
      ensures workflowState == WorkflowState.WriteTriangles ==>
        VerticesFileDone()
    {
      ghost var rows := VertexFileOf(vertices, vertexText);
      var count, yielded := WriteVertexRows(rows);
      assert rows[..|rows|] == rows;
      if !yielded {
        workflowState := WorkflowState.WriteTriangles;
      }
    }

    /** The loop over the vertices, twelve at a time from the saved one: the file always
        holds the first rows of the whole file `rows`, as many as the checkpoint's count. */
    method WriteVertexRows(ghost rows: seq<string>) returns (count: int, yielded: bool)
      requires |vertices| % 12 == 0 && VertexFile(rows, vertices, vertexText)
      requires WriteRunning(writeVerticesLoop, |vertices| / 12, progressTarget, progressCurrent)
      requires writeVerticesLoop.indexSaved[0] == 12 * writeVerticesLoop.count
      requires verticesFile == rows[..writeVerticesLoop.count]
      modifies this`writeVerticesLoop, this`verticesFile, this`progressCurrent
      ensures Advanced(old(writeVerticesLoop), writeVerticesLoop, 0, count, yielded)
      ensures WriteRunning(writeVerticesLoop, |vertices| / 12, progressTarget, progressCurrent)
      ensures verticesFile == rows[..writeVerticesLoop.count]
      ensures yielded ==>
        writeVerticesLoop.count < |vertices| / 12 && writeVerticesLoop.indexSaved[0] == 12 * writeVerticesLoop.count
      ensures !yielded ==> writeVerticesLoop.count == |vertices| / 12
    {
      count := 0;
      var i := writeVerticesLoop.indexSaved[0];
      while i <= |vertices| - 1
        invariant i == 12 * writeVerticesLoop.count
        invariant Advanced(old(writeVerticesLoop), writeVerticesLoop, 0, count, false)
        invariant WriteRunning(writeVerticesLoop, |vertices| / 12, progressTarget, progressCurrent)
        invariant verticesFile == rows[..writeVerticesLoop.count]
        decreases |vertices| - i
      {
        var saved := SaveLoopData(writeVerticesLoop, count, [i]);
        writeVerticesLoop := saved.0;
        if saved.1 {
          assert writeVerticesLoop.indexSaved[0] == writeVerticesLoop.indexSaved[..1][0];
          return count, true;
        }
        ghost var u := writeVerticesLoop.count - 1;
        WriteVerticesLine(i, rows, u);
        assert rows[..u + 1] == rows[..u] + [rows[u]];
        progressCurrent := writeVerticesLoop.count;
        count := count + 1;
        i := i + 12;
      }
      yielded := false;
    }

    /** Appends the row of the twelve vertices from `index`, each followed by a pipe: row
        `u` of the whole file. */
    method WriteVerticesLine(index: int, ghost rows: seq<string>, ghost u: nat)
      requires index == 12 * u && VertexFile(rows, vertices, vertexText) && u < |rows|
      modifies this`verticesFile
      ensures verticesFile == old(verticesFile) + [rows[u]]
    {
      var vs := vertices[index..index + 12];
      var line := "";
      for i := 0 to |vs|
        invariant line == VerticesText(vs[..i], vertexText) && verticesFile == old(verticesFile)
      {
        VerticesTextPrefix(vs, i, vertexText);
        line := line + vertexText(vs[i]) + PipeDelim;
      }
      assert vs[..|vs|] == vs;
      verticesFile := verticesFile + [line + LineEnd];
      assert verticesFile[|verticesFile| - 1] == VertexRowOf(vertices, vertexText, u);
    }

    // -------------------------------------------------------------------------------------
    // Stage 8: the triangles file
    // -------------------------------------------------------------------------------------

    /** One quantum of writing the triangles file, stepping through the indices 36 at a time,
        one row per tile; the target is the index count over 6 * 2 * 3.  Afterwards, on to
        the params file. */
    method WriteTrianglesToFile(isOpen: bool) returns (sched: Schedule)
      requires workflowState == WorkflowState.WriteTriangles && TrianglesStage() && |triangles| % 36 == 0
      modifies this`writeTrianglesLoop, this`trianglesFile, this`progressTarget, this`progressCurrent
      modifies this`workflowState
      ensures sched == After(writeTrianglesLoop.rate)
      ensures writeTrianglesLoop.loopCountLimit == old(writeTrianglesLoop.loopCountLimit)
      ensures writeTrianglesLoop.rate == old(writeTrianglesLoop.rate)
      ensures workflowState == WorkflowState.Error <==> !isOpen
      ensures isOpen ==> workflowState == WorkflowState.WriteTriangles || workflowState == WorkflowState.WriteParams
      ensures workflowState == WorkflowState.WriteTriangles ==>
        && TrianglesStage()
        && writeTrianglesLoop.count == old(writeTrianglesLoop.count) + Quantum(writeTrianglesLoop.loopCountLimit)
      ensures workflowState == WorkflowState.WriteParams ==> TrianglesFileDone()
    {
      OpenTrianglesFile(isOpen);
      if !isOpen {
        workflowState := WorkflowState.Error;
        return After(writeTrianglesLoop.rate);
      }
      WriteTriangles();
      sched := After(writeTrianglesLoop.rate);
    }

    /** The head of every call of the triangles stage. */
    method OpenTrianglesFile(isOpen: bool)
      requires WriteFileAt(TriangleFileOf(triangles), 36, writeTrianglesLoop, trianglesFile, progressTarget, progressCurrent)
      modifies this`writeTrianglesLoop, this`trianglesFile, this`progressTarget
      ensures writeTrianglesLoop == old(writeTrianglesLoop).(isInitialized := true)
      ensures progressTarget == |triangles| / 36
      ensures trianglesFile == if isOpen && !old(writeTrianglesLoop.isInitialized) then [] else old(trianglesFile)
      ensures isOpen ==>
        && WriteRunning(writeTrianglesLoop, |triangles| / 36, progressTarget, progressCurrent)
        && writeTrianglesLoop.indexSaved[0] == 36 * writeTrianglesLoop.count
        && trianglesFile == TriangleFileOf(triangles)[..writeTrianglesLoop.count]
    {
      if !writeTrianglesLoop.isInitialized {
        writeTrianglesLoop := writeTrianglesLoop.(isInitialized := true);
        progressTarget := |triangles| / (6 * 2 * 3);
        if isOpen {
          trianglesFile := [];
        }
      }
    }

    /** The body of a call of the triangles stage once the file is open. */
    method WriteTriangles()
      requires workflowState == WorkflowState.WriteTriangles && |triangles| % 36 == 0
      requires WriteRunning(writeTrianglesLoop, |triangles| / 36, progressTarget, progressCurrent)
      requires writeTrianglesLoop.indexSaved[0] == 36 * writeTrianglesLoop.count
      requires trianglesFile == TriangleFileOf(triangles)[..writeTrianglesLoop.count]
      modifies this`writeTrianglesLoop, this`trianglesFile, this`progressCurrent, this`workflowState
      ensures writeTrianglesLoop.loopCountLimit == old(writeTrianglesLoop.loopCountLimit)
      ensures writeTrianglesLoop.rate == old(writeTrianglesLoop.rate)
      ensures workflowState == WorkflowState.WriteTriangles || workflowState == WorkflowState.WriteParams
      ensures workflowState == WorkflowState.WriteTriangles ==>
        && WriteFileAt(TriangleFileOf(triangles), 36, writeTrianglesLoop, trianglesFile, progressTarget, progressCurrent)
        && writeTrianglesLoop.count == old(writeTrianglesLoop.count) + Quantum(writeTrianglesLoop.loopCountLimit)
      ensures workflowState == WorkflowState.WriteParams ==> TrianglesFileDone()
    {
      ghost var rows := TriangleFileOf(triangles);
      var count, yielded := WriteTriangleRows(rows);
      assert rows[..|rows|] == rows;
      if !yielded {
        workflowState := WorkflowState.WriteParams;
      }
    }

    /** The loop over the triangle indices, 36 at a time from the saved one: the file
        always holds the first rows of the whole file `rows`, as many as the checkpoint's
        count. */
    method WriteTriangleRows(ghost rows: seq<string>) returns (count: int, yielded: bool)
      requires |triangles| % 36 == 0 && TriangleFile(rows, triangles)
      requires WriteRunning(writeTrianglesLoop, |triangles| / 36, progressTarget, progressCurrent)
      requires writeTrianglesLoop.indexSaved[0] == 36 * writeTrianglesLoop.count
      requires trianglesFile == rows[..writeTrianglesLoop.count]
      modifies this`writeTrianglesLoop, this`trianglesFile, this`progressCurrent
      ensures Advanced(old(writeTrianglesLoop), writeTrianglesLoop, 0, count, yielded)
      ensures WriteRunning(writeTrianglesLoop, |triangles| / 36, progressTarget, progressCurrent)
      ensures trianglesFile == rows[..writeTrianglesLoop.count]
      ensures yielded ==>
        writeTrianglesLoop.count < |triangles| / 36 && writeTrianglesLoop.indexSaved[0] == 36 * writeTrianglesLoop.count
      ensures !yielded ==> writeTrianglesLoop.count == |triangles| / 36
    {
      count := 0;
      var i := writeTrianglesLoop.indexSaved[0];
      while i <= |triangles| - 1
        invariant i == 36 * writeTrianglesLoop.count
        invariant Advanced(old(writeTrianglesLoop), writeTrianglesLoop, 0, count, false)
        invariant WriteRunning(writeTrianglesLoop, |triangles| / 36, progressTarget, progressCurrent)
        invariant trianglesFile == rows[..writeTrianglesLoop.count]
        decreases |triangles| - i
      {
        var saved := SaveLoopData(writeTrianglesLoop, count, [i]);
        writeTrianglesLoop := saved.0;
        if saved.1 {
          assert writeTrianglesLoop.indexSaved[0] == writeTrianglesLoop.indexSaved[..1][0];
          return count, true;
        }
        ghost var u := writeTrianglesLoop.count - 1;
        WriteTrianglesLine(i, rows, u);
        assert rows[..u + 1] == rows[..u] + [rows[u]];
        progressCurrent := writeTrianglesLoop.count;
        count := count + 1;
        i := i + 36;
      }
      yielded := false;
    }

    /** Appends the row of the 36 indices from `index`, each followed by a comma: row `u` of
        the whole file. */
    method WriteTrianglesLine(index: int, ghost rows: seq<string>, ghost u: nat)
      requires index == 36 * u && TriangleFile(rows, triangles) && u < |rows|
      modifies this`trianglesFile
      ensures trianglesFile == old(trianglesFile) + [rows[u]]
    {
      var xs := triangles[index..index + 36];
      var line := "";
      for i := 0 to |xs|
        invariant line == TokensText(xs[..i]) && trianglesFile == old(trianglesFile)
      {
        TokensTextPrefix(xs, i);
        line := line + IntToString(xs[i]) + CommaDelim;
      }
      assert xs[..|xs|] == xs;
      trianglesFile := trianglesFile + [line + LineEnd];
      assert trianglesFile[|trianglesFile| - 1] == TriangleRowOf(triangles, u);
    }

    // -------------------------------------------------------------------------------------
    // Stage 9: the params file, and the dispatcher
    // -------------------------------------------------------------------------------------

    /** Writes the params file in one go: the target is one row; if the file does not open
        the workflow moves to Error, otherwise the file holds the params row, the progress is
        complete and the workflow is Done.  Either way the next call is scheduled after the
        default rate. */
    method WriteParamsToFile(isOpen: bool) returns (sched: Schedule)
      requires workflowState == WorkflowState.WriteParams
      modifies this`paramsFile, this`progressTarget, this`progressCurrent, this`workflowState
      ensures sched == After(defaultTimerRate) && progressTarget == 1
      ensures workflowState == (if isOpen then WorkflowState.Done else WorkflowState.Error)
      ensures isOpen ==> paramsFile == [ParamsContent()] && progressCurrent == 1
      ensures !isOpen ==> paramsFile == old(paramsFile) && progressCurrent == old(progressCurrent)
    {
      progressTarget := 1;
      if !isOpen {
        workflowState := WorkflowState.Error;
        return After(defaultTimerRate);
      }
      paramsFile := [];
      WriteParamsContent();
      progressCurrent := 1;
      workflowState := WorkflowState.Done;
      sched := After(defaultTimerRate);
    }

    /** Appends the params row: tile size, grid range, grid-line ratio, neighbour range. */
    method WriteParamsContent()
      modifies this`paramsFile
      ensures paramsFile == old(paramsFile) + [ParamsContent()]
    {
      paramsFile := paramsFile + [tileSizeText + (PipeDelim + (IntToString(gridRange) + (PipeDelim
        + (gridLineRatioText + (PipeDelim + (IntToString(neighborRange) + LineEnd))))))];
    }

    /** One call of the workflow: run a quantum of the current stage's work and say when the
        next call is due.  The state moves as `Step` allows; Done and Error change nothing
        and schedule nothing.  `isOpen` is whether the file a write stage opens this call
        opens. */
    method CreateHexGridFlow(isOpen: bool) returns (sched: Schedule)
      requires Valid()
      modifies this
      ensures Valid() && Step(old(workflowState), workflowState, isOpen)
      ensures IsTerminal(old(workflowState)) ==> unchanged(this) && sched == Idle
      ensures !IsTerminal(old(workflowState)) ==> sched.After?
    {
      if IsTerminal(workflowState) {
        sched := Idle;
      } else if IsWriteStage(workflowState) {
        sched := WriteFlow(isOpen);
      } else {
        sched := CreateFlow();
      }
    }

    /** The dispatcher's cases of the five stages that build the data. */
    method CreateFlow() returns (sched: Schedule)
      requires Valid() && !IsTerminal(workflowState) && !IsWriteStage(workflowState)
      modifies this
      ensures Valid() && sched.After?
      ensures workflowState == old(workflowState) || workflowState == Next(old(workflowState))
    {
      match workflowState
      case InitWorkflow => sched := FlowInitWorkflow();
      case SpiralCreateCenter => sched := FlowSpiralCreateCenter();
      case SpiralCreateNeighbors => sched := FlowSpiralCreateNeighbors();
      case CreateVertices => sched := FlowCreateVertices();
      case CreateTriangles => sched := FlowCreateTriangles();
    }

    /** The dispatcher's cases of the five stages that write the files. */
    method WriteFlow(isOpen: bool) returns (sched: Schedule)
      requires Valid() && IsWriteStage(workflowState)
      modifies this
      ensures Valid() && Step(old(workflowState), workflowState, isOpen) && sched.After?
    {
      match workflowState
      case WriteTiles => sched := FlowWriteTiles(isOpen);
      case WriteTileIndices => sched := FlowWriteTileIndices(isOpen);
      case WriteVertices => sched := FlowWriteVertices(isOpen);
      case WriteTriangles => sched := FlowWriteTriangles(isOpen);
      case WriteParams => sched := FlowWriteParams(isOpen);
    }

    /** The dispatcher's InitWorkflow case. */
    method FlowInitWorkflow() returns (sched: Schedule)
      requires Configured() && LaidOut() && workflowState == WorkflowState.InitWorkflow && Initial()
      modifies this
      ensures Valid() && Step(old(workflowState), workflowState, true) && sched.After?
    {
      sched := InitWorkflow();
    }

    /** After a call of the centre stage the invariant holds for the stage it leaves. */
    lemma CenterHandOff()
      requires Configured() && LaidOut()
      requires workflowState == WorkflowState.SpiralCreateCenter || workflowState == WorkflowState.SpiralCreateNeighbors
      requires workflowState == WorkflowState.SpiralCreateCenter ==> CenterInv()
      requires workflowState == WorkflowState.SpiralCreateNeighbors ==> NeighborsInv()
      ensures Valid()
    {
    }

    /** The dispatcher's SpiralCreateCenter case. */
    method FlowSpiralCreateCenter() returns (sched: Schedule)
      requires Configured() && LaidOut() && workflowState == WorkflowState.SpiralCreateCenter && CenterInv()
      modifies this
      ensures Valid() && Step(old(workflowState), workflowState, true) && sched.After?
    {
      sched := SpiralCreateCenter();
      CenterHandOff();
    }

    /** The dispatcher's SpiralCreateNeighbors case. */
    method FlowSpiralCreateNeighbors() returns (sched: Schedule)
      requires Configured() && LaidOut() && workflowState == WorkflowState.SpiralCreateNeighbors && NeighborsInv()
      modifies this
      ensures Valid() && Step(old(workflowState), workflowState, true) && sched.After?
    {
      sched := SpiralCreateNeighbors();
      if workflowState == WorkflowState.SpiralCreateNeighbors {
        assert NeighborsInv();
      } else if workflowState == WorkflowState.CreateVertices {
        assert VerticesInv();
      }
    }

    /** The dispatcher's CreateVertices case. */
    method FlowCreateVertices() returns (sched: Schedule)
      requires Configured() && LaidOut() && workflowState == WorkflowState.CreateVertices && VerticesInv()
      modifies this
      ensures Valid() && Step(old(workflowState), workflowState, true) && sched.After?
    {
      sched := CreateVertices();
      if workflowState == WorkflowState.CreateVertices {
        assert VerticesInv();
      } else if workflowState == WorkflowState.CreateTriangles {
        assert TrianglesInv();
      }
    }

    /** The dispatcher's CreateTriangles case. */
    method FlowCreateTriangles() returns (sched: Schedule)
      requires Configured() && LaidOut() && workflowState == WorkflowState.CreateTriangles && TrianglesInv()
      modifies this
      ensures Valid() && Step(old(workflowState), workflowState, true) && sched.After?
    {
      sched := CreateTriangles();
      if workflowState == WorkflowState.CreateTriangles {
        assert TrianglesInv();
      } else if workflowState == WorkflowState.WriteTiles {
        assert WriteTilesInv();
      }
    }

    /** The dispatcher's WriteTiles case. */
    method FlowWriteTiles(isOpen: bool) returns (sched: Schedule)
      requires Configured() && LaidOut() && workflowState == WorkflowState.WriteTiles && WriteTilesInv()
      modifies this
      ensures Valid() && Step(old(workflowState), workflowState, isOpen) && sched.After?
    {
      sched := WriteTilesToFile(isOpen);
      assert Generated();
      if workflowState == WorkflowState.WriteTiles {
        assert WriteTilesInv();
      } else if workflowState == WorkflowState.WriteTileIndices {
        assert WriteTileIndicesInv();
      }
    }

    /** The dispatcher's WriteTileIndices case. */
    method FlowWriteTileIndices(isOpen: bool) returns (sched: Schedule)
      requires Configured() && LaidOut() && workflowState == WorkflowState.WriteTileIndices && WriteTileIndicesInv()
      modifies this
      ensures Valid() && Step(old(workflowState), workflowState, isOpen) && sched.After?
    {
      sched := WriteTileIndicesToFile(isOpen);
      assert Generated() && TilesFileDone();
      if workflowState == WorkflowState.WriteTileIndices {
        assert WriteTileIndicesInv();
      } else if workflowState == WorkflowState.WriteVertices {
        assert WriteVerticesInv();
      }
    }

    /** The dispatcher's WriteVertices case. */
    method FlowWriteVertices(isOpen: bool) returns (sched: Schedule)
      requires Configured() && LaidOut() && workflowState == WorkflowState.WriteVertices && WriteVerticesInv()
      modifies this
      ensures Valid() && Step(old(workflowState), workflowState, isOpen) && sched.After?
    {
      sched := WriteVerticesToFile(isOpen);
      assert Generated() && TilesFileDone() && TileIndicesFileDone();
      if workflowState == WorkflowState.WriteVertices {
        assert WriteVerticesInv();
        assert Valid();
      } else if workflowState == WorkflowState.WriteTriangles {
        assert WriteTrianglesInv();
        assert Valid();
      }
    }

    /** The dispatcher's WriteTriangles case. */
    method FlowWriteTriangles(isOpen: bool) returns (sched: Schedule)
      requires Configured() && LaidOut() && workflowState == WorkflowState.WriteTriangles && WriteTrianglesInv()
      modifies this
      ensures Valid() && Step(old(workflowState), workflowState, isOpen) && sched.After?
    {
      sched := WriteTrianglesToFile(isOpen);
      assert Generated() && TilesFileDone() && TileIndicesFileDone() && VerticesFileDone();
      TrianglesHandOff();
    }

    /** After a call of the triangles write stage the invariant holds for the stage it
        leaves. */
    lemma TrianglesHandOff()
      requires Configured() && LaidOut()
      requires workflowState in {WorkflowState.WriteTriangles, WorkflowState.WriteParams, WorkflowState.Error}
      requires workflowState == WorkflowState.WriteTriangles ==> WriteTrianglesInv()
      requires workflowState == WorkflowState.WriteParams ==> DataFilesDone()
      ensures Valid()
    {
    }

    /** The dispatcher's WriteParams case. */
    method FlowWriteParams(isOpen: bool) returns (sched: Schedule)
      requires Configured() && LaidOut() && workflowState == WorkflowState.WriteParams && DataFilesDone()
      modifies this
      ensures Valid() && Step(old(workflowState), workflowState, isOpen) && sched.After?
    {
      sched := WriteParamsToFile(isOpen);
      assert DataFilesDone();
    }

    /** Once the workflow is Done, every file reads back as what was generated: row u of
        the tiles file gives hex u of the spiral, its position text and its rings; the
        tile-index file rebuilds the map from coordinate to index; row u of the vertices
        file lists tile u's twelve vertices; row u of the triangles file gives tile u's 36
        indices; the params file gives the four parameters.  The texts the host formats
        must not contain the field separator. */
    lemma OutputsReadBack()
      requires Valid() && workflowState == WorkflowState.Done
      requires '|' !in tileSizeText && '|' !in gridLineRatioText
      requires forall u :: '|' !in positionText(u)
      ensures |tiles| == |gridCoords| && |tilesFile| == |tiles|
      ensures forall u :: 0 <= u < |tiles| ==>
        ParseTileRow(tilesFile[u]) == Some((gridCoords[u], positionText(u), RingsUpTo(gridCoords[u], neighborRange)))
      ensures ReadIndexFile(tileIndicesFile) == tileIndices == IndexMap(gridCoords)
      ensures |verticesFile| == |tiles| && forall u :: 0 <= u < |tiles| ==>
        verticesFile[u] == VertexRow(TileVertices(u), vertexText)
      ensures |trianglesFile| == |tiles| && forall u :: 0 <= u < |tiles| ==>
        ParseTokens(trianglesFile[u]) == Some(TileTriangles(12 * u))
      ensures |paramsFile| == 1
      ensures ParseParamsRow(paramsFile[0]) == Some((tileSizeText, gridRange, gridLineRatioText, neighborRange))
    {
      var coords, n := gridCoords, |tiles|;
      FinishedTilesCoords(coords, neighborRange);
      assert TileCoords(tiles) == coords;
      forall u | 0 <= u < n
        ensures ParseTileRow(tilesFile[u]) == Some((coords[u], positionText(u), RingsUpTo(coords[u], neighborRange)))
      {
        TileFileRow(coords, neighborRange, positionText, u);
      }
      IndexFileRoundTrip(gridRange);
      forall u | 0 <= u < n ensures verticesFile[u] == VertexRow(TileVertices(u), vertexText) {
        VertexFileRow(n, vertexText, u);
      }
      forall u | 0 <= u < n ensures ParseTokens(trianglesFile[u]) == Some(TileTriangles(12 * u)) {
        TriangleFileRow(n, u);
      }
      MeshTrianglesLength(n);
      ParamsRowRoundTrip(tileSizeText, gridRange, gridLineRatioText, neighborRange);
    }

    /** Starts tile t's record of the given radius, with no hexes yet. */
    method AddTileNeighbor(t: int, radius: int)
      requires 0 <= t < |tiles|
      modifies this`tiles
      ensures tiles == OpenRecord(old(tiles), t, radius)
    {
      var tile := tiles[t];
      tiles := tiles[t := tile.(neighbors := tile.neighbors + [TileNeighbors(radius, [])])];
    }

    /** Appends the cursor to tile t's record of the given radius and moves the cursor one
        step in direction `dirIndex`. */
    method SetTileNeighbor(t: int, radius: int, dirIndex: int)
      requires 0 <= t < |tiles| && 1 <= radius <= |tiles[t].neighbors|
      requires 0 <= dirIndex < |axialDirectionVectors|
      modifies this`tiles, this`tmpHex
      ensures tiles == GrowRecord(old(tiles), t, radius, old(tmpHex))
      ensures tmpHex == AxialNeighbor(old(tmpHex), dirIndex)
    {
      var tile := tiles[t];
      var rec := tile.neighbors[radius - 1];
      tiles := tiles[t := tile.(neighbors := tile.neighbors[radius - 1 := rec.(tiles := rec.tiles + [tmpHex])])];
      tmpHex := AxialNeighbor(tmpHex, dirIndex);
    }
  }
}
