/**
 * The between-calls state of the creator's chunked stages, stated over values: what a stage's
 * checkpoint, walk cursor, generated data and progress counters hold each time the stage
 * returns to the dispatcher.  The actor's invariant applies these to its members.
 */
module StageState {
  import opened HexAxial
  import opened HexRecords
  import opened GridSpec
  import opened Mesh

  /** How many indices each stage saves: ring, side and step for the centre walk; tile,
      radius, side and step for the neighbour walk; the mesh and write loops save one. */
  const CenterDepth := 3
  const NeighborDepth := 4

  /** A checkpoint as InitLoopData leaves it, at least one index deep, with `start` saved in
      front. */
  ghost predicate Fresh(loop: LoopData, start: seq<int>) {
    FreshLoop(loop, start) && 1 <= loop.loopDepthLimit
  }

  /** Checkpoints of stages that have not started: as InitLoopData left them, nothing saved. */
  ghost predicate AllFresh(loops: seq<LoopData>) {
    forall m :: 0 <= m < |loops| ==> Fresh(loops[m], [])
  }

  /** The first of several fresh checkpoints is fresh, and so are the rest. */
  lemma AllFreshTail(loops: seq<LoopData>)
    requires |loops| > 0 && AllFresh(loops)
    ensures Fresh(loops[0], []) && AllFresh(loops[1..])
  {
    forall m | 0 <= m < |loops| - 1 ensures Fresh(loops[1..][m], []) {
      assert loops[1..][m] == loops[m + 1];
    }
  }

  /** The mesh stages have not run yet: no vertices, no triangles, no triangle tables. */
  ghost predicate MeshPending(vertices: seq<Vertex>, triangles: seq<int>,
                              tri0: seq<int>, tri1: seq<int>, tri2: seq<int>, tri3: seq<int>) {
    && vertices == [] && triangles == []
    && tri0 == [] && tri1 == [] && tri2 == [] && tri3 == []
  }

  // ---------------------------------------------------------------------------------------
  // The centre walk
  // ---------------------------------------------------------------------------------------

  /** The centre walk stands before step k of side j of ring i: the tiles and the index hold
      every hex emitted so far and the cursor is on the next one. */
  ghost predicate CenterWalk(tiles: seq<HexTile>, index: map<Axial, int>, cursor: Axial,
                             i: int, j: int, k: int) {
    && 1 <= i && 0 <= j < DirectionCount && 0 <= k <= i
    && tiles == MakeTiles(CenterCoords(i, j, k))
    && index == IndexMap(CenterCoords(i, j, k))
    && cursor == Cursor(Origin, i, j, k)
  }

  /** The centre walk before ring i is started (the cursor is not yet placed). */
  ghost predicate CenterRingHead(tiles: seq<HexTile>, index: map<Axial, int>, i: int) {
    && 1 <= i
    && tiles == MakeTiles(CenterCoords(i, 0, 0))
    && index == IndexMap(CenterCoords(i, 0, 0))
  }

  /** The centre checkpoint names a step of a grid of radius `gridRange` that has not run
      yet, the walk stands exactly before it, and the count is the number of hexes the walk
      has added after the origin. */
  ghost predicate CenterSaved(gridRange: int, loop: LoopData, tiles: seq<HexTile>,
                              index: map<Axial, int>, cursor: Axial) {
    var s := loop.indexSaved;
    && |s| >= CenterDepth
    && 1 <= s[0] <= gridRange && 0 <= s[1] < DirectionCount && 0 <= s[2] < s[0]
    && CenterWalk(tiles, index, cursor, s[0], s[1], s[2])
    && loop.count + 1 == |tiles|
  }

  /** While the centre walk is saved part way, its count is below the number of ring
      hexes: the stage's progress stays short of its target until the walk ends. */
  lemma CenterSavedBelowTarget(gridRange: int, loop: LoopData, tiles: seq<HexTile>,
                               index: map<Axial, int>, cursor: Axial)
    requires CenterSaved(gridRange, loop, tiles, index, cursor)
    ensures gridRange >= 1 && 0 <= loop.count < RingHexTotal(gridRange)
  {
    var s := loop.indexSaved;
    CenterCoordsLength(s[0], s[1], s[2]);
    RingPositionBelow(gridRange, s[0], s[1], s[2]);
  }

  /** When the centre walk has passed the last ring, the count of hexes it added is the
      number of ring hexes: the stage's progress meets its target. */
  lemma CenterDoneAtTarget(gridRange: nat, count: int, tiles: seq<HexTile>, index: map<Axial, int>)
    requires CenterRingHead(tiles, index, gridRange + 1) && count + 1 == |tiles|
    ensures count == RingHexTotal(gridRange)
  {
    CenterComplete(gridRange);
    GridSize(gridRange);
  }

  /** The centre stage between calls: before the first call the checkpoint is fresh with
      ring 1 saved; after it, the checkpoint names where the walk stands, the ring is
      entered, and the progress counts emitted hexes against the ring total. */
  ghost predicate CenterCheckpoint(gridRange: int, loop: LoopData, ringEntered: bool,
                                   tiles: seq<HexTile>, index: map<Axial, int>, cursor: Axial,
                                   target: int, current: int) {
    && |loop.indexSaved| >= CenterDepth
    && if !loop.isInitialized then
         FreshLoop(loop, [1]) && target == 0 && current == 0
       else
         && CenterSaved(gridRange, loop, tiles, index, cursor) && ringEntered
         && current == loop.count && target == RingHexTotal(gridRange)
  }

  // ---------------------------------------------------------------------------------------
  // The neighbour walk
  // ---------------------------------------------------------------------------------------

  /** The neighbour walk of tile t stands before step k of side j of ring i: tiles before t
      are finished, tile t holds its finished records 1 .. i-1 and the hexes of ring i walked
      so far, and the cursor is on the next one. */
  ghost predicate NeighborWalk(coords: seq<Axial>, range: nat, tiles: seq<HexTile>, cursor: Axial,
                               t: int, i: int, j: int, k: int) {
    && 0 <= t < |coords| && 1 <= i && 0 <= j < DirectionCount && 0 <= k
    && tiles == NeighborStage(coords, range, t, RecordsWalking(coords[t], i, RingPrefix(coords[t], i, j, k)))
    && cursor == Cursor(coords[t], i, j, k)
  }

  /** The neighbour walk of tile t with its rings 1 .. done finished and the next one not
      started. */
  ghost predicate NeighborRingsFinished(coords: seq<Axial>, range: nat, tiles: seq<HexTile>, t: int, done: int) {
    && 0 <= t < |coords| && 0 <= done
    && tiles == NeighborStage(coords, range, t, NeighborRecords(coords[t], done))
  }

  /** The neighbour walk before tile t is started: tiles before t are finished, the rest
      have no records yet (t = |coords|: the stage is complete). */
  ghost predicate NeighborTileHead(coords: seq<Axial>, range: nat, tiles: seq<HexTile>, t: int) {
    0 <= t <= |coords| && tiles == NeighborStage(coords, range, t, [])
  }

  /** The tiles with an empty record of radius i appended to tile t's records. */
  function OpenRecord(tiles: seq<HexTile>, t: int, i: int): (r: seq<HexTile>)
    requires 0 <= t < |tiles|
    ensures |r| == |tiles| && r[t].neighbors == tiles[t].neighbors + [TileNeighbors(i, [])]
  {
    tiles[t := tiles[t].(neighbors := tiles[t].neighbors + [TileNeighbors(i, [])])]
  }

  /** The tiles with hex h appended to tile t's record of radius i. */
  function GrowRecord(tiles: seq<HexTile>, t: int, i: int, h: Axial): (r: seq<HexTile>)
    requires 0 <= t < |tiles| && 1 <= i <= |tiles[t].neighbors|
    ensures |r| == |tiles| && |r[t].neighbors| == |tiles[t].neighbors|
    ensures r[t].neighbors[i - 1].tiles == tiles[t].neighbors[i - 1].tiles + [h]
  {
    var tile := tiles[t];
    var rec := tile.neighbors[i - 1];
    tiles[t := tile.(neighbors := tile.neighbors[i - 1 := rec.(tiles := rec.tiles + [h])])]
  }

  /** One step of the walk: the cursor's hex joins the record of radius i and the cursor
      moves one hex along side j. */
  lemma NeighborStepped(coords: seq<Axial>, range: nat, tiles: seq<HexTile>, cursor: Axial,
                        t: int, i: int, j: int, k: int)
    requires NeighborWalk(coords, range, tiles, cursor, t, i, j, k)
    ensures 1 <= i <= |tiles[t].neighbors|
    ensures NeighborWalk(coords, range, GrowRecord(tiles, t, i, cursor), Neighbor(cursor, j), t, i, j, k + 1)
  {
    NeighborAdvance(coords, range, t, i, j, k);
  }

  /** After i steps along side j the walk stands at the start of side j + 1, or, after
      side 5, before ring i + 1. */
  lemma NeighborSideWalked(coords: seq<Axial>, range: nat, loop: LoopData, tiles: seq<HexTile>,
                           cursor: Axial, t: int, i: int, j: int)
    requires NeighborWalk(coords, range, tiles, cursor, t, i, j, i)
    requires loop.count == HexesBefore(range, t, i, j, i)
    ensures j + 1 < DirectionCount ==> NeighborWalk(coords, range, tiles, cursor, t, i, j + 1, 0)
    ensures j + 1 == DirectionCount ==> NeighborRingsFinished(coords, range, tiles, t, i)
    ensures NeighborSideAt(coords, range, loop, tiles, cursor, t, i, j + 1, false)
  {
    NeighborSideDone(coords[t], i, j);
    assert i * j + i == i * (j + 1);
  }

  /** The neighbour walk of ring i of tile t before side j: resumed at the saved step of that
      side, or at the side's first step, or (j = 6) with the ring finished. */
  ghost predicate NeighborSideAt(coords: seq<Axial>, range: nat, loop: LoopData, tiles: seq<HexTile>,
                                 cursor: Axial, t: int, i: int, j: int, resume: bool) {
    if resume then
      NeighborSaved(coords, range, loop, tiles, cursor)
      && loop.indexSaved[0] == t && loop.indexSaved[1] == i && loop.indexSaved[2] == j
    else if j < DirectionCount then
      NeighborWalk(coords, range, tiles, cursor, t, i, j, 0) && loop.count == HexesBefore(range, t, i, j, 0)
    else
      j == DirectionCount && NeighborRingsFinished(coords, range, tiles, t, i)
      && loop.count == HexesBefore(range, t, i + 1, 0, 0)
  }

  /** Side j of the walk starts at the saved step when resumed, else at its first step. */
  lemma NeighborSideStart(coords: seq<Axial>, range: nat, loop: LoopData, tiles: seq<HexTile>,
                          cursor: Axial, t: int, i: int, j: int, resume: bool)
    requires NeighborSideAt(coords, range, loop, tiles, cursor, t, i, j, resume) && j < DirectionCount
    ensures var k := if resume then loop.indexSaved[3] else 0;
      0 <= k < i && NeighborWalk(coords, range, tiles, cursor, t, i, j, k)
      && loop.count == HexesBefore(range, t, i, j, k)
  {
  }

  /** The neighbour checkpoint names a step of the walk that has not run yet (a tile, a
      radius up to `range`, a side and a step short of the radius), the walk stands exactly
      before it, and the count is the number of hexes walked before it. */
  ghost predicate NeighborSaved(coords: seq<Axial>, range: nat, loop: LoopData, tiles: seq<HexTile>,
                                cursor: Axial) {
    var s := loop.indexSaved;
    && |s| >= NeighborDepth
    && 1 <= s[1] <= range && 0 <= s[3] < s[1]
    && NeighborWalk(coords, range, tiles, cursor, s[0], s[1], s[2], s[3])
    && loop.count == HexesBefore(range, s[0], s[1], s[2], s[3])
  }

  /** The count of a saved neighbour walk is the number of hexes its records hold. */
  lemma NeighborSavedHexes(coords: seq<Axial>, range: nat, loop: LoopData, tiles: seq<HexTile>, cursor: Axial)
    requires NeighborSaved(coords, range, loop, tiles, cursor)
    ensures loop.count == WalkedHexes(tiles)
  {
    var s := loop.indexSaved;
    WalkPositionHexes(coords, range, s[0], s[1], s[2], s[3]);
  }

  /** While the neighbour walk is saved part way, its count is below the number of ring
      hexes of all tiles. */
  lemma NeighborSavedBelowTarget(coords: seq<Axial>, range: nat, loop: LoopData, tiles: seq<HexTile>,
                                 cursor: Axial)
    requires NeighborSaved(coords, range, loop, tiles, cursor)
    ensures 0 <= loop.count < NeighborHexTotal(|coords|, range)
  {
    var s := loop.indexSaved;
    WalkPositionBelow(|coords|, range, s[0], s[1], s[2], s[3]);
  }

  /** The neighbour stage between calls: before the first call the checkpoint is fresh with
      radius 1 saved and the tiles have no records; after it, the checkpoint names where the
      walk stands, the ring is entered, and the progress counts walked hexes against all
      rings of all tiles. */
  ghost predicate NeighborCheckpoint(coords: seq<Axial>, range: nat, loop: LoopData, ringEntered: bool,
                                     tiles: seq<HexTile>, cursor: Axial, target: int, current: int) {
    && |loop.indexSaved| >= NeighborDepth
    && if !loop.isInitialized then
         && FreshLoop(loop, [0, 1]) && tiles == MakeTiles(coords)
         && target == 0 && current == 0
       else
         && NeighborSaved(coords, range, loop, tiles, cursor) && ringEntered
         && current == loop.count && target == NeighborHexTotal(|coords|, range)
  }

  /** The walk of tile t is next: resumed where the checkpoint says, or (not resumed) with
      the tile not yet started. */
  ghost predicate NeighborTileAt(coords: seq<Axial>, range: nat, loop: LoopData, ringEntered: bool,
                                 tiles: seq<HexTile>, cursor: Axial, t: int, resume: bool) {
    && |tiles| == |coords| && |loop.indexSaved| >= NeighborDepth
    && (resume ==> 0 <= t < |coords| && NeighborResume(coords, range, loop, ringEntered, tiles, cursor)
                   && loop.indexSaved[0] == t)
    && (!resume ==> !ringEntered && NeighborTileHead(coords, range, tiles, t)
                    && loop.count == HexesBefore(range, t, 1, 0, 0))
  }

  /** The loop over the radii of tile t stands before radius i: ring i is next, or (i past
      the range) every ring of the tile is finished. */
  ghost predicate NeighborRingsAt(coords: seq<Axial>, range: nat, loop: LoopData, ringEntered: bool,
                                  tiles: seq<HexTile>, cursor: Axial, t: int, i: int, resume: bool) {
    && 1 <= i <= range + 1
    && (i <= range ==> NeighborRingAt(coords, range, loop, ringEntered, tiles, cursor, t, i, resume))
    && (range < i ==> !ringEntered && NeighborRingsFinished(coords, range, tiles, t, range)
                      && loop.count == HexesBefore(range, t, range + 1, 0, 0))
  }

  /** A call of the stage resumes at the saved tile. */
  lemma NeighborTilesStart(coords: seq<Axial>, range: nat, loop: LoopData, ringEntered: bool,
                           tiles: seq<HexTile>, cursor: Axial)
    requires NeighborResume(coords, range, loop, ringEntered, tiles, cursor)
    ensures NeighborTileAt(coords, range, loop, ringEntered, tiles, cursor, loop.indexSaved[0], true)
  {
  }

  /** When the loop over the tiles runs out, every tile's records are complete. */
  lemma NeighborTilesEnd(coords: seq<Axial>, range: nat, loop: LoopData, ringEntered: bool,
                         tiles: seq<HexTile>, cursor: Axial, t: int, resume: bool)
    requires NeighborTileAt(coords, range, loop, ringEntered, tiles, cursor, t, resume) && |coords| <= t
    ensures NeighborOutcome(coords, range, loop, ringEntered, tiles, cursor, false)
  {
    NeighborHexTotalProduct(|coords|, range);
  }

  /** A walk standing inside a ring holds one tile per coordinate. */
  lemma NeighborSavedLength(coords: seq<Axial>, range: nat, loop: LoopData, tiles: seq<HexTile>, cursor: Axial)
    requires NeighborSaved(coords, range, loop, tiles, cursor)
    ensures |tiles| == |coords|
  {
  }

  /** Ring i of tile t is next: resumed inside the ring, resumed before it, or (not resumed)
      reached with the ring not yet entered. */
  ghost predicate NeighborRingAt(coords: seq<Axial>, range: nat, loop: LoopData, ringEntered: bool,
                                 tiles: seq<HexTile>, cursor: Axial, t: int, i: int, resume: bool) {
    var s := loop.indexSaved;
    && |s| >= NeighborDepth && 0 <= t < |coords| && 1 <= i <= range
    && (resume ==> s[0] == t && s[1] == i)
    && (resume && ringEntered ==> NeighborSaved(coords, range, loop, tiles, cursor))
    && (resume && !ringEntered ==> NeighborRingsFinished(coords, range, tiles, t, i - 1) && s[2] == 0 && s[3] == 0)
    && (!resume ==> !ringEntered && NeighborRingsFinished(coords, range, tiles, t, i - 1))
    && (!ringEntered ==> loop.count == HexesBefore(range, t, i, 0, 0))
  }

  /** Opening ring i of tile t (appending an empty record of radius i and placing the cursor
      i steps from the tile in the ring-start direction) puts the walk before the ring's
      first side. */
  lemma NeighborRingOpened(coords: seq<Axial>, range: nat, loop: LoopData, tiles: seq<HexTile>,
                           cursor: Axial, t: int, i: int, resume: bool)
    requires NeighborRingAt(coords, range, loop, false, tiles, cursor, t, i, resume)
    ensures NeighborSideAt(coords, range, loop, OpenRecord(tiles, t, i),
                           Add(Scale(Direction(RingStartDirectionIndex), i), coords[t]), t, i,
                           if resume then loop.indexSaved[2] else 0, resume)
  {
    var c := coords[t];
    assert tiles[t] == HexTile(c, NeighborRecords(c, i - 1));
    NeighborRingEntered(coords, range, t, i);
    RingEntry(c, i);
  }

  /** A ring entered before the last yield is resumed at the saved side. */
  lemma NeighborRingResumed(coords: seq<Axial>, range: nat, loop: LoopData, tiles: seq<HexTile>,
                            cursor: Axial, t: int, i: int, resume: bool)
    requires NeighborRingAt(coords, range, loop, true, tiles, cursor, t, i, resume)
    ensures resume && NeighborSideAt(coords, range, loop, tiles, cursor, t, i, loop.indexSaved[2], true)
  {
  }

  /** The walk of tile t starts at the saved radius (at least 1) when resumed, else at
      radius 1. */
  lemma NeighborTileStart(coords: seq<Axial>, range: nat, loop: LoopData, ringEntered: bool,
                          tiles: seq<HexTile>, cursor: Axial, t: int, resume: bool, i: int)
    requires NeighborTileAt(coords, range, loop, ringEntered, tiles, cursor, t, resume) && t < |coords|
    requires 1 <= range && i == if resume && loop.indexSaved[1] >= 1 then loop.indexSaved[1] else 1
    ensures NeighborRingsAt(coords, range, loop, ringEntered, tiles, cursor, t, i, resume)
  {
    if !resume {
      assert NeighborRecords(coords[t], 0) == [];
    }
  }

  /** Once its last ring is finished, tile t is done and tile t + 1 is next. */
  lemma NeighborTileDone(coords: seq<Axial>, range: nat, loop: LoopData, ringEntered: bool,
                         tiles: seq<HexTile>, cursor: Axial, t: int)
    requires NeighborRingsFinished(coords, range, tiles, t, range) && !ringEntered
    requires |loop.indexSaved| >= NeighborDepth && loop.count == HexesBefore(range, t, range + 1, 0, 0)
    ensures NeighborTileAt(coords, range, loop, ringEntered, tiles, cursor, t + 1, false)
  {
    NeighborStageNext(coords, range, t);
    assert t * RingHexTotal(range) + RingHexTotal(range) == (t + 1) * RingHexTotal(range);
  }

  /** Once ring i is finished, ring i + 1 is next (or the tile's rings are all done). */
  lemma NeighborRingDone(coords: seq<Axial>, range: nat, loop: LoopData, ringEntered: bool,
                         tiles: seq<HexTile>, cursor: Axial, t: int, i: int)
    requires NeighborRingsFinished(coords, range, tiles, t, i) && 1 <= i <= range && !ringEntered
    requires |loop.indexSaved| >= NeighborDepth && loop.count == HexesBefore(range, t, i + 1, 0, 0)
    ensures NeighborRingsAt(coords, range, loop, ringEntered, tiles, cursor, t, i + 1, false)
  {
  }

  /** After side 5 the ring is finished and ring i + 1 is next. */
  lemma NeighborRingWalked(coords: seq<Axial>, range: nat, loop: LoopData, tiles: seq<HexTile>,
                           cursor: Axial, t: int, i: int, resume: bool)
    requires NeighborSideAt(coords, range, loop, tiles, cursor, t, i, DirectionCount, resume)
    ensures NeighborRingsFinished(coords, range, tiles, t, i) && loop.count == HexesBefore(range, t, i + 1, 0, 0)
  {
  }


  /** Where a call of the neighbour stage resumes once its checkpoint is initialised: inside
      a ring (the checkpoint names the next step) or before the saved ring of the saved tile. */
  ghost predicate NeighborResume(coords: seq<Axial>, range: nat, loop: LoopData, ringEntered: bool,
                                 tiles: seq<HexTile>, cursor: Axial) {
    var s := loop.indexSaved;
    && |s| >= NeighborDepth
    && (ringEntered ==> NeighborSaved(coords, range, loop, tiles, cursor))
    && (!ringEntered ==> NeighborRingsFinished(coords, range, tiles, s[0], s[1] - 1) && 1 <= s[1] <= range && s[2] == 0 && s[3] == 0
                         && loop.count == HexesBefore(range, s[0], s[1], 0, 0))
  }

  /** The first call of the neighbour stage resumes before ring 1 of tile 0, no tile having
      any records yet. */
  lemma NeighborStageEntered(coords: seq<Axial>, range: nat, start: LoopData, loop: LoopData,
                             ringEntered: bool, tiles: seq<HexTile>, cursor: Axial)
    requires FreshLoop(start, [0, 1]) && |start.indexSaved| >= NeighborDepth
    requires loop == start.(isInitialized := true) && !ringEntered
    requires tiles == MakeTiles(coords) && 1 <= range && 0 < |coords|
    ensures |tiles| == |coords|
    ensures NeighborResume(coords, range, loop, ringEntered, tiles, cursor)
  {
    var s := loop.indexSaved;
    assert s[0] == s[..2][0] == 0 && s[1] == s[..2][1] == 1;
    NeighborStageStart(coords, range);
    assert NeighborRecords(coords[0], 0) == [];
  }

  /** Every later call resumes where the checkpoint says. */
  lemma NeighborStageResumed(coords: seq<Axial>, range: nat, loop: LoopData, ringEntered: bool,
                             tiles: seq<HexTile>, cursor: Axial, target: int, current: int)
    requires NeighborCheckpoint(coords, range, loop, ringEntered, tiles, cursor, target, current)
    requires loop.isInitialized
    ensures NeighborResume(coords, range, loop.(isInitialized := true), ringEntered, tiles, cursor)
    ensures current == loop.count && target == NeighborHexTotal(|coords|, range)
  {
    assert loop.(isInitialized := true) == loop;
  }

  /** How a call of the neighbour walk ends: yielded inside a ring, the checkpoint naming the
      next step, or with every tile's records complete and counted. */
  ghost predicate NeighborOutcome(coords: seq<Axial>, range: nat, loop: LoopData, ringEntered: bool,
                                  tiles: seq<HexTile>, cursor: Axial, yielded: bool) {
    && (yielded ==> ringEntered && NeighborSaved(coords, range, loop, tiles, cursor))
    && (!yielded ==> tiles == FinishedTiles(coords, range) && loop.count == NeighborHexTotal(|coords|, range))
  }

  // ---------------------------------------------------------------------------------------
  // The mesh stages
  // ---------------------------------------------------------------------------------------

  /** The grid is complete: every tile holds its neighbour records and the index maps every
      coordinate to its tile. */
  ghost predicate GridComplete(coords: seq<Axial>, range: nat, tiles: seq<HexTile>, index: map<Axial, int>) {
    tiles == FinishedTiles(coords, range) && index == IndexMap(coords)
  }

  /** The triangle stage has not run yet: no triangles and no tables. */
  ghost predicate TrianglesPending(triangles: seq<int>, tri0: seq<int>, tri1: seq<int>, tri2: seq<int>,
                                   tri3: seq<int>) {
    triangles == [] && tri0 == [] && tri1 == [] && tri2 == [] && tri3 == []
  }

  /** The triangle stage between calls over `tileCount` tiles: before the first call the
      checkpoint is fresh and neither the index tables nor any triangle exist; after it, the
      tables hold the corner indices, the checkpoint names the next tile, the triangles of
      every earlier tile are emitted and the count is the number of those tiles. */
  ghost predicate TrianglesCheckpoint(tileCount: nat, loop: LoopData, triangles: seq<int>,
                                      tri0: seq<int>, tri1: seq<int>, tri2: seq<int>, tri3: seq<int>,
                                      target: int, current: int) {
    && |loop.indexSaved| >= 1
    && if !loop.isInitialized then
         FreshLoop(loop, []) && TrianglesPending(triangles, tri0, tri1, tri2, tri3) && target == 0 && current == 0
       else
         var s := loop.indexSaved;
         && tri0 == TriTable0() && tri1 == TriTable1() && tri2 == TriTable2() && tri3 == TriTable3()
         && 0 <= s[0] < tileCount && loop.count == s[0] && triangles == MeshTriangles(s[0])
         && current == loop.count && target == tileCount
  }

  /** The vertex stage between calls over `tileCount` tiles: before the first call the
      checkpoint is fresh and nothing is emitted; after it, the checkpoint names the next tile,
      the vertices of every earlier tile are emitted and the count is the number of those
      tiles. */
  ghost predicate VerticesCheckpoint(tileCount: nat, loop: LoopData, vertices: seq<Vertex>,
                                     target: int, current: int) {
    && |loop.indexSaved| >= 1
    && if !loop.isInitialized then
         FreshLoop(loop, []) && vertices == [] && target == 0 && current == 0
       else
         var s := loop.indexSaved;
         && 0 <= s[0] < tileCount && loop.count == s[0] && vertices == MeshVertices(s[0])
         && current == loop.count && target == tileCount
  }

  /** A write stage inside a call, over `rows` rows: the checkpoint is initialised, its
      cumulative count is the number of rows written, the target is the number of rows and
      the current progress has followed the count once a row was written. */
  ghost predicate WriteRunning(loop: LoopData, rows: nat, target: int, current: int) {
    && |loop.indexSaved| >= 1 && loop.isInitialized
    && 0 <= loop.count <= rows && target == rows && (loop.count > 0 ==> current == loop.count)
  }

  /** A write stage between calls, over `rows` rows of `stride` elements: fresh before the
      first call; after it, short of the last row, with the next row's first element saved. */
  ghost predicate WriteCheckpoint(loop: LoopData, stride: nat, rows: nat, target: int, current: int) {
    if !loop.isInitialized then Fresh(loop, [])
    else WriteRunning(loop, rows, target, current) && loop.count < rows && loop.indexSaved[0] == stride * loop.count
  }

  /** A data file between calls, `whole` being the file once complete: before the first
      call nothing is known of it; after, it holds the whole file's rows before the
      checkpoint's count. */
  ghost predicate WriteFileAt(whole: seq<string>, stride: nat, loop: LoopData, file: seq<string>,
                              target: int, current: int) {
    && WriteCheckpoint(loop, stride, |whole|, target, current)
    && (loop.isInitialized ==> file == whole[..loop.count])
  }

  /** A checkpoint saved with the indices of a step the walk stands before names it. */
  lemma NeighborStepSaved(coords: seq<Axial>, range: nat, loop: LoopData, tiles: seq<HexTile>,
                          cursor: Axial, t: int, i: int, j: int, k: int)
    requires NeighborWalk(coords, range, tiles, cursor, t, i, j, k) && k < i <= range
    requires loop.count == HexesBefore(range, t, i, j, k)
    requires |loop.indexSaved| >= NeighborDepth && loop.indexSaved[..4] == [t, i, j, k]
    ensures NeighborSaved(coords, range, loop, tiles, cursor)
  {
    assert loop.indexSaved[0] == t && loop.indexSaved[1] == i;
    assert loop.indexSaved[2] == j && loop.indexSaved[3] == k;
  }
}
