/**
 * The value records of the hex grid creator: a tile, its per-radius neighbour records,
 * and the checkpoint record that every chunked loop keeps between calls.
 *
 * The checkpoint routines themselves (SaveLoopData, InitLoopData) belong to a utility whose
 * source is not part of this model; they are given here by the contract the stages rely on.
 */
module HexRecords {
  import opened HexAxial

  /** The hexes of the ring of one radius around a tile, in walk order. */
  datatype TileNeighbors = TileNeighbors(radius: int, tiles: seq<Axial>)

  /** A generated tile: its axial coordinate and its neighbour records, one per radius.
      (The tile's 2D position is floating-point geometry and is not modelled.) */
  datatype HexTile = HexTile(axialCoord: Axial, neighbors: seq<TileNeighbors>)

  /** The checkpoint of one chunked loop nest. */
  datatype LoopData = LoopData(
    loopCountLimit: int,    // loop bodies run per call before yielding
    rate: real,             // delay before the next call is scheduled
    loopDepthLimit: int,     // number of saved indices
    indexSaved: seq<int>,    // where the next call resumes, one index per depth
    isInitialized: bool,     // the stage's one-time setup has run
    count: int)              // loop bodies run so far in this stage, over all calls

  const DefaultLoopCountLimit: int := 3000
  const DefaultRate: real := 0.01
  const DefaultLoopDepthLimit: int := 4

  /** A loop record as declared: default limits, nothing saved, not initialised. */
  function DefaultLoopData(): (d: LoopData)
    ensures d.loopCountLimit == 3000 && d.rate == 0.01 && d.loopDepthLimit == 4
    ensures d.indexSaved == [] && !d.isInitialized && d.count == 0
  {
    LoopData(DefaultLoopCountLimit, DefaultRate, DefaultLoopDepthLimit, [], false, 0)
  }

  /** True of a record that was reset and has not been used since: its saved indices are
      `start`, padded with zeros to the record's depth. */
  ghost predicate FreshLoop(loop: LoopData, start: seq<int>) {
    && |start| <= loop.loopDepthLimit
    && |loop.indexSaved| == loop.loopDepthLimit
    && loop.indexSaved[..|start|] == start
    && (forall d :: |start| <= d < |loop.indexSaved| ==> loop.indexSaved[d] == 0)
    && !loop.isInitialized
    && loop.count == 0
  }

  /** Assumed contract of InitLoopData: size the saved indices to the depth limit with zeros,
      clear the initialised flag and the cumulative count, keep the configuration. */
  function InitLoopData(loop: LoopData): (r: LoopData)
    requires loop.loopDepthLimit >= 0
    ensures FreshLoop(r, [])
    ensures r.loopCountLimit == loop.loopCountLimit && r.rate == loop.rate
    ensures r.loopDepthLimit == loop.loopDepthLimit
  {
    loop.(indexSaved := seq(loop.loopDepthLimit, _ => 0), isInitialized := false, count := 0)
  }

  /** Assumed contract of SaveLoopData, called before every innermost loop body with the
      per-call body count: once `count` reaches the record's limit it saves the current
      indices over the front of IndexSaved and asks the caller to yield; otherwise it counts
      one more body in the cumulative count. */
  function SaveLoopData(loop: LoopData, count: int, indices: seq<int>): (r: (LoopData, bool))
    requires |indices| <= |loop.indexSaved|
    ensures r.1 <==> count >= loop.loopCountLimit
    ensures |r.0.indexSaved| == |loop.indexSaved|
    ensures r.1 ==> (r.0.indexSaved[..|indices|] == indices
                     && r.0.indexSaved[|indices|..] == loop.indexSaved[|indices|..]
                     && r.0.count == loop.count)
    ensures !r.1 ==> r.0.indexSaved == loop.indexSaved && r.0.count == loop.count + 1
    ensures r.0.loopCountLimit == loop.loopCountLimit && r.0.rate == loop.rate
    ensures r.0.loopDepthLimit == loop.loopDepthLimit && r.0.isInitialized == loop.isInitialized
  {
    if count >= loop.loopCountLimit then
      (loop.(indexSaved := indices + loop.indexSaved[|indices|..]), true)
    else
      (loop.(count := loop.count + 1), false)
  }

  /** The number of loop bodies one call runs before SaveLoopData asks it to yield. */
  function Quantum(loopCountLimit: int): nat {
    if loopCountLimit > 0 then loopCountLimit else 0
  }

  /** Two records with the same configuration: quantum, resume delay and depth. */
  predicate SameConfig(a: LoopData, b: LoopData) {
    a.loopCountLimit == b.loopCountLimit && a.rate == b.rate && a.loopDepthLimit == b.loopDepthLimit
  }

  /** How a checkpoint evolves while a stage runs loop bodies: the per-call count went from
      `count0` to `count` (never past the quantum), the cumulative count by as much, the
      configuration and flags stayed, and the saved indices changed only if it yielded,
      which happens once the quantum is used up. */
  ghost predicate Advanced(before: LoopData, after: LoopData, count0: int, count: int, yielded: bool) {
    && after.loopCountLimit == before.loopCountLimit && after.rate == before.rate
    && after.loopDepthLimit == before.loopDepthLimit && after.isInitialized == before.isInitialized
    && |after.indexSaved| == |before.indexSaved|
    && 0 <= count0 <= count <= Quantum(before.loopCountLimit)
    && after.count == before.count + (count - count0)
    && (yielded ==> count == Quantum(before.loopCountLimit))
    && (!yielded ==> after.indexSaved == before.indexSaved)
  }

  /** Two runs of loop bodies, the first of which did not yield, make one run. */
  lemma AdvancedChain(l0: LoopData, l1: LoopData, l2: LoopData, c0: int, c1: int, c2: int, yielded: bool)
    requires Advanced(l0, l1, c0, c1, false) && Advanced(l1, l2, c1, c2, yielded)
    ensures Advanced(l0, l2, c0, c2, yielded)
  {
  }
}
