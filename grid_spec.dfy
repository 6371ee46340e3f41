/**
 * What the two generation stages produce, as functions of the configuration: the centre
 * tiles in spiral order, the inverse map from coordinate to tile index, and the ordered
 * neighbour rings of every tile.  The imperative stages are proved to reach exactly these.
 */
module GridSpec {
  import opened HexAxial
  import opened HexRecords

  /** The rings of radius 1 .. n around c, one after the other. */
  function Rings(c: Axial, n: nat): seq<Axial>
    decreases n
  {
    if n == 0 then [] else Rings(c, n - 1) + Ring(c, n)
  }

  /** The number of hexes in rings 1 .. n (ring k has 6k), the centre stage's progress
      target. */
  function RingHexTotal(n: nat): nat {
    if n == 0 then 0 else RingHexTotal(n - 1) + 6 * n
  }

  /** The ring hexes of `tileCount` tiles, rings 1 .. n around each: the neighbour stage's
      progress target. */
  function NeighborHexTotal(tileCount: nat, n: nat): nat {
    if tileCount == 0 then 0 else NeighborHexTotal(tileCount - 1, n) + RingHexTotal(n)
  }

  /** The centre coordinates of a grid of range R: the origin, then its rings 1 .. R. */
  function GridCoords(gridRange: nat): seq<Axial> {
    [Origin] + Rings(Origin, gridRange)
  }

  /** The coordinates created before the centre walk reaches step k of side j of ring i,
      one walk step at a time: step k adds the cursor of step k - 1, the start of a side
      continues from the end of the previous side, and the start of ring i from the end of
      ring i - 1; the walk begins with the origin alone. */
  function CenterCoords(i: nat, j: nat, k: nat): seq<Axial>
    requires 1 <= i && j < DirectionCount && k <= i
    decreases i, j, k
  {
    if k > 0 then CenterCoords(i, j, k - 1) + [Cursor(Origin, i, j, k - 1)]
    else if j > 0 then CenterCoords(i, j - 1, i)
    else if i > 1 then CenterCoords(i - 1, DirectionCount - 1, i - 1)
    else [Origin]
  }

  /** Fresh tiles (no neighbour records yet) for a sequence of coordinates. */
  function MakeTiles(coords: seq<Axial>): (tiles: seq<HexTile>)
    ensures |tiles| == |coords|
  {
    seq(|coords|, u requires 0 <= u < |coords| => HexTile(coords[u], []))
  }

  /** The coordinate-to-index map built by adding the coordinates one by one, each mapped to
      the index it was added at (a later duplicate would overwrite an earlier one). */
  function IndexMap(coords: seq<Axial>): map<Axial, int>
    decreases |coords|
  {
    if coords == [] then map[]
    else IndexMap(coords[..|coords| - 1])[coords[|coords| - 1] := |coords| - 1]
  }

  /** The neighbour records of radius 1 .. n of a tile at c. */
  function NeighborRecords(c: Axial, n: nat): seq<TileNeighbors>
    decreases n
  {
    if n == 0 then [] else NeighborRecords(c, n - 1) + [TileNeighbors(n, Ring(c, n))]
  }

  /** Appending one coordinate extends the tiles and the map by one entry. */
  lemma AppendCoord(coords: seq<Axial>, h: Axial)
    ensures MakeTiles(coords + [h]) == MakeTiles(coords) + [HexTile(h, [])]
    ensures IndexMap(coords + [h]) == IndexMap(coords)[h := |coords|]
  {
    var cs := coords + [h];
    assert cs[..|cs| - 1] == coords && cs[|cs| - 1] == h;
    var a, b := MakeTiles(cs), MakeTiles(coords) + [HexTile(h, [])];
    assert forall u :: 0 <= u < |a| ==> a[u] == b[u];
  }

  /** Rings 1 .. n hold RingHexTotal(n) hexes. */
  lemma {:induction false} RingsLength(c: Axial, n: nat)
    ensures |Rings(c, n)| == RingHexTotal(n)
    decreases n
  {
    if n > 0 {
      RingsLength(c, n - 1);
      RingLength(c, n);
    }
  }

  /** A grid of range R has one tile more than its rings have hexes. */
  lemma GridSize(gridRange: nat)
    ensures |GridCoords(gridRange)| == 1 + RingHexTotal(gridRange)
  {
    RingsLength(Origin, gridRange);
  }

  /** The ring total in the closed form the source computes, 6(1 + n)n / 2. */
  lemma {:induction false} RingHexTotalClosed(n: nat)
    ensures 6 * (1 + n) * n == 2 * RingHexTotal(n)
    ensures RingHexTotal(n) == 6 * (1 + n) * n / 2
  {
    if n > 0 {
      RingHexTotalClosed(n - 1);
      assert 6 * (1 + n) * n == 6 * n * (n - 1) + 12 * n;
      assert 6 * n * (n - 1) == 6 * (1 + (n - 1)) * (n - 1);
    }
  }

  /** The neighbour total is the ring total once per tile. */
  lemma {:induction false} NeighborHexTotalProduct(tileCount: nat, n: nat)
    ensures NeighborHexTotal(tileCount, n) == tileCount * RingHexTotal(n)
  {
    if tileCount > 0 {
      NeighborHexTotalProduct(tileCount - 1, n);
      assert tileCount * RingHexTotal(n) == (tileCount - 1) * RingHexTotal(n) + RingHexTotal(n);
    }
  }

  /** The neighbour stage's progress target, multiplied out left to right before the
      halving as the source does, is the ring total of every tile. */
  lemma NeighborTarget(tileCount: nat, n: nat)
    ensures tileCount * 6 * (1 + n) * n / 2 == NeighborHexTotal(tileCount, n)
  {
    RingHexTotalClosed(n);
    NeighborHexTotalProduct(tileCount, n);
    HalvedProduct(tileCount, 6, 1 + n, n, RingHexTotal(n));
  }

  /** a·b·c·d / 2, multiplied left to right, is a·m when b·c·d is twice m. */
  lemma HalvedProduct(a: int, b: int, c: int, d: int, m: int)
    requires b * c * d == 2 * m
    ensures a * b * c * d / 2 == a * m
  {
    var p := b * c * d;
    assert a * b * c * d == a * p;
    assert a * p == 2 * (a * m);
  }

  /** Two distinct sequences with no common element concatenate to a distinct sequence. */
  lemma DistinctConcat(a: seq<Axial>, b: seq<Axial>)
    requires Distinct(a) && Distinct(b)
    requires forall x :: x in a ==> x !in b
    ensures Distinct(a + b)
  {
    forall m, m' | 0 <= m < m' < |a + b| ensures (a + b)[m] != (a + b)[m'] {
      if m' >= |a| {
        assert (a + b)[m'] == b[m' - |a|];
        if m >= |a| {
          assert (a + b)[m] == b[m - |a|];
        } else {
          assert (a + b)[m] == a[m] && a[m] in a;
          assert b[m' - |a|] in b;
        }
      }
    }
  }

  /** The rings of radius 1 .. n around c hold exactly the hexes at distance 1 .. n from c,
      each once. */
  lemma {:induction false} RingsAreAnnulus(c: Axial, n: nat)
    ensures forall h :: h in Rings(c, n) <==> 1 <= Distance(c, h) <= n
    ensures Distinct(Rings(c, n))
    decreases n
  {
    if n > 0 {
      RingsAreAnnulus(c, n - 1);
      RingDistinctAtRadius(c, n);
      var a, b := Rings(c, n - 1), Ring(c, n);
      forall h ensures h in b <==> Distance(c, h) == n {
        RingIsCircle(c, n, h);
      }
      DistinctConcat(a, b);
    }
  }

  /** The centre coordinates are pairwise distinct, and they are exactly the hexes within
      distance R of the origin. */
  lemma GridIsDisk(gridRange: nat)
    ensures Distinct(GridCoords(gridRange))
    ensures forall h :: h in GridCoords(gridRange) <==> Distance(Origin, h) <= gridRange
  {
    RingsAreAnnulus(Origin, gridRange);
    DistinctConcat([Origin], Rings(Origin, gridRange));
  }

  /** For distinct coordinates the map sends each coordinate back to its index, and has no
      other keys. */
  lemma {:induction false} IndexMapInverts(coords: seq<Axial>)
    requires Distinct(coords)
    ensures IndexMap(coords).Keys == set h | h in coords
    ensures forall m :: 0 <= m < |coords| ==> IndexMap(coords)[coords[m]] == m
    ensures |IndexMap(coords)| == |coords|
    decreases |coords|
  {
    if coords != [] {
      var init, last := coords[..|coords| - 1], coords[|coords| - 1];
      assert coords == init + [last];
      IndexMapInverts(init);
      forall m | 0 <= m < |init| ensures init[m] != last {
        assert init[m] == coords[m];
      }
      forall m | 0 <= m < |coords| ensures IndexMap(coords)[coords[m]] == m {
        if m < |init| {
          assert coords[m] == init[m];
        }
      }
    }
  }

  /** The tile index of the centre stage: every tile's coordinate maps to its index, and the
      map has exactly one key per tile. */
  lemma TileIndicesInvert(gridRange: nat)
    ensures forall h :: h in IndexMap(GridCoords(gridRange)) <==> Distance(Origin, h) <= gridRange
    ensures |IndexMap(GridCoords(gridRange))| == |GridCoords(gridRange)|
    ensures forall m :: 0 <= m < |GridCoords(gridRange)| ==>
      GridCoords(gridRange)[m] in IndexMap(GridCoords(gridRange))
      && IndexMap(GridCoords(gridRange))[GridCoords(gridRange)[m]] == m
  {
    GridIsDisk(gridRange);
    IndexMapInverts(GridCoords(gridRange));
  }

  /** The centre tiles start with the origin, then the six hexes of ring 1 in walk order
      (-1,1), (0,1), (1,0), (1,-1), (0,-1), (-1,0), and each larger grid extends the smaller
      one by its outermost ring. */
  lemma GridOrder(gridRange: nat)
    ensures GridCoords(gridRange)[0] == Origin
    ensures gridRange >= 1 ==>
      |GridCoords(gridRange)| >= 7 &&
      GridCoords(gridRange)[1..7] == [Axial(-1, 1), Axial(0, 1), Axial(1, 0),
                                      Axial(1, -1), Axial(0, -1), Axial(-1, 0)]
    ensures gridRange >= 1 ==>
      GridCoords(gridRange) == GridCoords(gridRange - 1) + Ring(Origin, gridRange)
  {
    if gridRange >= 1 {
      var a, b := Rings(Origin, gridRange - 1), Ring(Origin, gridRange);
      assert [Origin] + (a + b) == ([Origin] + a) + b;
      RingsStartWithUnitRing(Origin, gridRange);
      assert GridCoords(gridRange)[1..7] == Rings(Origin, gridRange)[..6];
      assert Add(Origin, Axial(-1, 1)) == Axial(-1, 1) && Add(Origin, Axial(0, 1)) == Axial(0, 1);
      assert Add(Origin, Axial(1, 0)) == Axial(1, 0) && Add(Origin, Axial(1, -1)) == Axial(1, -1);
      assert Add(Origin, Axial(0, -1)) == Axial(0, -1) && Add(Origin, Axial(-1, 0)) == Axial(-1, 0);
    }
  }

  /** The rings of radius 1 .. n >= 1 begin with the six hexes of the unit ring. */
  lemma RingsStartWithUnitRing(c: Axial, n: nat)
    requires n >= 1
    ensures |Rings(c, n)| >= 6
    ensures Rings(c, n)[..6] == [Add(c, Axial(-1, 1)), Add(c, Axial(0, 1)), Add(c, Axial(1, 0)),
                                 Add(c, Axial(1, -1)), Add(c, Axial(0, -1)), Add(c, Axial(-1, 0))]
  {
    RadiusOneRing(c);
    RingLength(c, 1);
    PrefixRings(c, 1, n);
    assert Rings(c, 1) == [] + Ring(c, 1);
  }

  lemma {:induction false} PrefixRings(c: Axial, n: nat, m: nat)
    requires n <= m
    ensures Rings(c, n) <= Rings(c, m)
    decreases m - n
  {
    if n < m {
      PrefixRings(c, n, m - 1);
      var a, b, r := Rings(c, m - 1), Ring(c, m), Rings(c, n);
      assert Rings(c, m) == a + b;
      assert (a + b)[..|a|] == a;
      assert (a + b)[..|r|] == a[..|r|] == r;
    }
  }

  /** Record k - 1 of a finished tile's records up to radius n (k <= n) has radius k and holds
      the 6k hexes of the radius-k ring around the tile. */
  lemma {:induction false} NeighborRecordAt(c: Axial, n: nat, k: nat)
    requires 1 <= k <= n
    ensures |NeighborRecords(c, n)| == n
    ensures NeighborRecords(c, n)[k - 1] == TileNeighbors(k, Ring(c, k))
    ensures |NeighborRecords(c, n)[k - 1].tiles| == 6 * k
    decreases n
  {
    NeighborRecordsLength(c, n);
    if k < n {
      NeighborRecordAt(c, n - 1, k);
    } else {
      NeighborRecordsLength(c, n - 1);
    }
    RingLength(c, k);
  }

  lemma {:induction false} NeighborRecordsLength(c: Axial, n: nat)
    ensures |NeighborRecords(c, n)| == n
    decreases n
  {
    if n > 0 {
      NeighborRecordsLength(c, n - 1);
    }
  }

  /** A finished tile has one record per radius 1 .. n; record k - 1 has radius k and holds
      the 6k hexes of the radius-k ring around the tile, in walk order, whether or not they
      belong to the grid. */
  lemma NeighborRecordsShape(c: Axial, n: nat)
    ensures |NeighborRecords(c, n)| == n
    ensures forall k :: 1 <= k <= n ==>
      NeighborRecords(c, n)[k - 1] == TileNeighbors(k, Ring(c, k))
      && |NeighborRecords(c, n)[k - 1].tiles| == 6 * k
  {
    NeighborRecordsLength(c, n);
    forall k | 1 <= k <= n
      ensures NeighborRecords(c, n)[k - 1] == TileNeighbors(k, Ring(c, k))
      && |NeighborRecords(c, n)[k - 1].tiles| == 6 * k
    {
      NeighborRecordAt(c, n, k);
    }
  }

  // ---------------------------------------------------------------------------------------
  // The tiles while the neighbour stage runs
  // ---------------------------------------------------------------------------------------

  /** The tiles at `coords` part-way through the neighbour stage: tiles before t are
      finished (records 1 .. n), tile t holds `recs`, later tiles have no records yet. */
  function NeighborStage(coords: seq<Axial>, n: nat, t: nat, recs: seq<TileNeighbors>): (tiles: seq<HexTile>)
    ensures |tiles| == |coords|
  {
    seq(|coords|, u requires 0 <= u < |coords| =>
      HexTile(coords[u], if u < t then NeighborRecords(coords[u], n) else if u == t then recs else []))
  }

  /** The tiles at `coords` once the neighbour stage has finished. */
  function FinishedTiles(coords: seq<Axial>, n: nat): (tiles: seq<HexTile>)
    ensures |tiles| == |coords|
  {
    NeighborStage(coords, n, |coords|, [])
  }

  /** The neighbour stage starts from the tiles of the centre stage. */
  lemma NeighborStageStart(coords: seq<Axial>, n: nat)
    ensures NeighborStage(coords, n, 0, []) == MakeTiles(coords)
  {
  }

  /** Changing tile t's records changes nothing else. */
  lemma NeighborStageSet(coords: seq<Axial>, n: nat, t: nat, recs: seq<TileNeighbors>,
                         recs': seq<TileNeighbors>)
    requires t < |coords|
    ensures NeighborStage(coords, n, t, recs)[t := HexTile(coords[t], recs')]
         == NeighborStage(coords, n, t, recs')
  {
  }

  /** Once tile t holds all n records the stage moves on to tile t + 1. */
  lemma NeighborStageNext(coords: seq<Axial>, n: nat, t: nat)
    requires t < |coords|
    ensures NeighborStage(coords, n, t, NeighborRecords(coords[t], n))
         == NeighborStage(coords, n, t + 1, [])
  {
  }

  /** Every finished tile keeps its coordinate and holds one record per radius 1 .. n; record
      k - 1 is the radius-k ring around the tile, 6k hexes in walk order. */
  lemma FinishedTilesShape(coords: seq<Axial>, n: nat, u: nat, k: nat)
    requires u < |coords| && 1 <= k <= n
    ensures FinishedTiles(coords, n)[u].axialCoord == coords[u]
    ensures |FinishedTiles(coords, n)[u].neighbors| == n
    ensures FinishedTiles(coords, n)[u].neighbors[k - 1] == TileNeighbors(k, Ring(coords[u], k))
    ensures |FinishedTiles(coords, n)[u].neighbors[k - 1].tiles| == 6 * k
  {
    NeighborRecordAt(coords[u], n, k);
  }

  // ---------------------------------------------------------------------------------------
  // Counting the walked hexes
  // ---------------------------------------------------------------------------------------

  /** The hexes held by a tile's neighbour records. */
  function RecordHexes(recs: seq<TileNeighbors>): nat
    decreases |recs|
  {
    if recs == [] then 0 else RecordHexes(recs[..|recs| - 1]) + |recs[|recs| - 1].tiles|
  }

  /** The hexes held by the neighbour records of all tiles: what the neighbour walk has
      emitted so far. */
  function WalkedHexes(tiles: seq<HexTile>): nat
    decreases |tiles|
  {
    if tiles == [] then 0 else RecordHexes(tiles[0].neighbors) + WalkedHexes(tiles[1..])
  }

  /** Tiles without records hold no walked hex. */
  lemma {:induction false} NoHexesWalked(tiles: seq<HexTile>)
    requires forall u :: 0 <= u < |tiles| ==> tiles[u].neighbors == []
    ensures WalkedHexes(tiles) == 0
    decreases |tiles|
  {
    if tiles != [] {
      NoHexesWalked(tiles[1..]);
    }
  }

  /** The finished records of a tile hold the hexes of its rings 1 .. n. */
  lemma {:induction false} NeighborRecordsHexes(c: Axial, n: nat)
    ensures RecordHexes(NeighborRecords(c, n)) == RingHexTotal(n)
    decreases n
  {
    if n > 0 {
      var rs := NeighborRecords(c, n);
      assert rs[..|rs| - 1] == NeighborRecords(c, n - 1);
      NeighborRecordsHexes(c, n - 1);
      RingLength(c, n);
    }
  }

  /** Finished tiles hold all the ring hexes of every tile: the neighbour stage's target. */
  lemma {:induction false} FinishedHexes(tiles: seq<HexTile>, n: nat)
    requires forall u :: 0 <= u < |tiles| ==> tiles[u].neighbors == NeighborRecords(tiles[u].axialCoord, n)
    ensures WalkedHexes(tiles) == NeighborHexTotal(|tiles|, n)
    decreases |tiles|
  {
    if tiles != [] {
      var rest := tiles[1..];
      assert forall u :: 0 <= u < |rest| ==> rest[u] == tiles[u + 1];
      FinishedHexes(rest, n);
      NeighborRecordsHexes(tiles[0].axialCoord, n);
      assert WalkedHexes(tiles) == RecordHexes(tiles[0].neighbors) + WalkedHexes(rest);
    }
  }

  /** The neighbour stage starts with no hex walked and ends with every ring hex walked. */
  lemma WalkedHexesBounds(coords: seq<Axial>, n: nat)
    ensures WalkedHexes(MakeTiles(coords)) == 0
    ensures WalkedHexes(FinishedTiles(coords, n)) == NeighborHexTotal(|coords|, n)
  {
    NoHexesWalked(MakeTiles(coords));
    FinishedHexes(FinishedTiles(coords, n), n);
  }

  /** Part way through the neighbour stage, before tile t: the t finished tiles hold their
      ring hexes and tile t holds the hexes of its records so far. */
  lemma {:induction false} StageHexes(coords: seq<Axial>, n: nat, t: nat, recs: seq<TileNeighbors>)
    requires t < |coords|
    ensures WalkedHexes(NeighborStage(coords, n, t, recs)) == t * RingHexTotal(n) + RecordHexes(recs)
    decreases t
  {
    var tiles := NeighborStage(coords, n, t, recs);
    if t == 0 {
      assert forall u :: 0 <= u < |tiles[1..]| ==> tiles[1..][u] == tiles[u + 1];
      NoHexesWalked(tiles[1..]);
    } else {
      assert tiles[1..] == NeighborStage(coords[1..], n, t - 1, recs);
      StageHexes(coords[1..], n, t - 1, recs);
      NeighborRecordsHexes(coords[0], n);
      assert t * RingHexTotal(n) == RingHexTotal(n) + (t - 1) * RingHexTotal(n);
    }
  }

  /** The records of a tile walking ring i hold the hexes of rings 1 .. i-1 and the hexes of
      ring i walked so far. */
  lemma RecordsWalkingHexes(c: Axial, i: nat, hs: seq<Axial>)
    requires 1 <= i
    ensures RecordHexes(RecordsWalking(c, i, hs)) == RingHexTotal(i - 1) + |hs|
  {
    var rs := RecordsWalking(c, i, hs);
    assert rs[..|rs| - 1] == NeighborRecords(c, i - 1);
    NeighborRecordsHexes(c, i - 1);
  }

  /** Before step k of side j of ring i the walk has emitted j full sides and k steps. */
  lemma RingPrefixLength(c: Axial, r: nat, j: nat, k: nat)
    requires j < DirectionCount
    ensures |RingPrefix(c, r, j, k)| == r * j + k
  {
    SidesLength(c, r, j);
  }

  /** The hexes the neighbour walk emits before step k of side j of ring i of tile t: every
      ring of the t earlier tiles, the rings of tile t below i, j sides of ring i and k
      steps. */
  function HexesBefore(n: nat, t: nat, i: nat, j: nat, k: nat): nat
    requires 1 <= i
  {
    t * RingHexTotal(n) + RingHexTotal(i - 1) + i * j + k
  }

  /** Before step k of side j of ring i of tile t the records of the tiles hold exactly the
      hexes the walk has emitted. */
  lemma WalkPositionHexes(coords: seq<Axial>, n: nat, t: nat, i: nat, j: nat, k: nat)
    requires t < |coords| && 1 <= i && j < DirectionCount
    ensures WalkedHexes(NeighborStage(coords, n, t, RecordsWalking(coords[t], i, RingPrefix(coords[t], i, j, k))))
         == HexesBefore(n, t, i, j, k)
  {
    var recs := RecordsWalking(coords[t], i, RingPrefix(coords[t], i, j, k));
    StageHexes(coords, n, t, recs);
    RecordsWalkingHexes(coords[t], i, RingPrefix(coords[t], i, j, k));
    RingPrefixLength(coords[t], i, j, k);
  }

  /** A step short of the end of ring i <= n of tile t comes before the last ring hex of the
      neighbour stage. */
  lemma WalkPositionBelow(tileCount: nat, n: nat, t: nat, i: nat, j: nat, k: nat)
    requires t < tileCount && 1 <= i <= n && j < DirectionCount && k < i
    ensures HexesBefore(n, t, i, j, k) < NeighborHexTotal(tileCount, n)
  {
    RingPositionBelow(n, i, j, k);
    NeighborHexTotalProduct(tileCount, n);
    MulMonotone(t + 1, tileCount, RingHexTotal(n));
    assert t * RingHexTotal(n) + RingHexTotal(n) == (t + 1) * RingHexTotal(n);
  }

  /** Scaling keeps the order of two counts. */
  lemma MulMonotone(a: nat, b: nat, m: nat)
    requires a <= b
    ensures a * m <= b * m
  {
    assert b * m == a * m + (b - a) * m;
  }

  // ---------------------------------------------------------------------------------------
  // The position of the centre walk
  // ---------------------------------------------------------------------------------------

  /** The hexes emitted before step k of side j of ring i: the origin, the earlier rings, j
      full sides of ring i and k steps. */
  lemma CenterCoordsLength(i: nat, j: nat, k: nat)
    requires 1 <= i && j < DirectionCount && k <= i
    ensures |CenterCoords(i, j, k)| == 1 + RingHexTotal(i - 1) + i * j + k
  {
    CenterCoordsClosed(i, j, k);
    RingsLength(Origin, i - 1);
    SidesLength(Origin, i, j);
  }

  /** A step short of the end of ring i comes before all the ring hexes up to ring m >= i. */
  lemma {:induction false} RingPositionBelow(m: nat, i: nat, j: nat, k: nat)
    requires 1 <= i <= m && j < DirectionCount && k < i
    ensures RingHexTotal(i - 1) + i * j + k < RingHexTotal(m)
    decreases m
  {
    if m > i {
      RingPositionBelow(m - 1, i, j, k);
    } else {
      assert i * j + k < i * j + i == i * (j + 1) <= i * DirectionCount;
    }
  }

  // ---------------------------------------------------------------------------------------
  // Steps of the centre walk and of the neighbour walk
  // ---------------------------------------------------------------------------------------

  /** The coordinates created before ring i is started: the origin and rings 1 .. i-1. */
  function RingsBefore(i: nat): seq<Axial>
    requires 1 <= i
  {
    [Origin] + Rings(Origin, i - 1)
  }

  /** The step-by-step walk agrees with the closed form: the earlier rings, then the sides
      0 .. j-1 of ring i, then the first k hexes of side j. */
  lemma {:induction false} CenterCoordsClosed(i: nat, j: nat, k: nat)
    requires 1 <= i && j < DirectionCount && k <= i
    ensures CenterCoords(i, j, k) == RingsBefore(i) + RingPrefix(Origin, i, j, k)
    decreases i, j, k
  {
    if k > 0 {
      CenterCoordsClosed(i, j, k - 1);
      ClosedAfterStep(i, j, k);
    } else if j > 0 {
      CenterCoordsClosed(i, j - 1, i);
      ClosedAfterSide(i, j);
    } else if i > 1 {
      CenterCoordsClosed(i - 1, DirectionCount - 1, i - 1);
      ClosedAfterRing(i);
    } else {
      CursorAtSideStart(Origin, 1, 0);
    }
  }

  /** One step along a side keeps the walk in closed form. */
  lemma ClosedAfterStep(i: nat, j: nat, k: nat)
    requires 1 <= i && j < DirectionCount && 0 < k <= i
    requires CenterCoords(i, j, k - 1) == RingsBefore(i) + RingPrefix(Origin, i, j, k - 1)
    ensures CenterCoords(i, j, k) == RingsBefore(i) + RingPrefix(Origin, i, j, k)
  {
    RingPrefixStep(Origin, i, j, k - 1);
    var b, p, h := RingsBefore(i), RingPrefix(Origin, i, j, k - 1), Cursor(Origin, i, j, k - 1);
    assert b + (p + [h]) == (b + p) + [h];
  }

  /** Finishing a side inside a ring keeps the walk in closed form. */
  lemma ClosedAfterSide(i: nat, j: nat)
    requires 1 <= i && 0 < j < DirectionCount
    requires CenterCoords(i, j - 1, i) == RingsBefore(i) + RingPrefix(Origin, i, j - 1, i)
    ensures CenterCoords(i, j, 0) == RingsBefore(i) + RingPrefix(Origin, i, j, 0)
  {
    SideDone(Origin, i, j - 1);
  }

  /** Finishing ring i - 1 puts the walk in closed form before ring i. */
  lemma ClosedAfterRing(i: nat)
    requires 1 < i
    requires CenterCoords(i - 1, DirectionCount - 1, i - 1)
          == RingsBefore(i - 1) + RingPrefix(Origin, i - 1, DirectionCount - 1, i - 1)
    ensures CenterCoords(i, 0, 0) == RingsBefore(i) + RingPrefix(Origin, i, 0, 0)
  {
    SideDone(Origin, i - 1, DirectionCount - 1);
    CursorAtSideStart(Origin, i, 0);
    var a, b := Rings(Origin, i - 2), Ring(Origin, i - 1);
    assert Rings(Origin, i - 1) == a + b;
    assert [Origin] + a + b + [] == [Origin] + (a + b);
  }

  /** The centre walk starts with the origin alone (ring 1, side 0, step 0). */
  lemma CenterStart(i: nat)
    requires i == 1
    ensures CenterCoords(i, 0, 0) == [Origin]
  {
  }

  /** Ring i around c is entered at i steps from c in the ring-start direction, on side 0
      with no step taken. */
  lemma RingEntry(c: Axial, i: nat)
    requires 1 <= i
    ensures Cursor(c, i, 0, 0) == Add(Scale(Direction(RingStartDirectionIndex), i), c)
  {
  }

  /** After i steps along side j the walk continues at step 0 of side j + 1, or, after
      side 5, at step 0 of ring i + 1 (where the cursor is placed afresh). */
  lemma CenterSideDone(i: nat, j: nat)
    requires 1 <= i && j < DirectionCount
    ensures j + 1 < DirectionCount ==>
      CenterCoords(i, j + 1, 0) == CenterCoords(i, j, i) && Cursor(Origin, i, j + 1, 0) == Cursor(Origin, i, j, i)
    ensures j + 1 == DirectionCount ==> CenterCoords(i + 1, 0, 0) == CenterCoords(i, j, i)
  {
    SideDone(Origin, i, j);
    if j + 1 < DirectionCount {
      CursorAtSideStart(Origin, i, j + 1);
    }
  }

  /** Past the last ring the walk has emitted the whole grid. */
  lemma CenterComplete(gridRange: nat)
    ensures CenterCoords(gridRange + 1, 0, 0) == GridCoords(gridRange)
  {
    CenterCoordsClosed(gridRange + 1, 0, 0);
    CursorAtSideStart(Origin, gridRange + 1, 0);
  }

  /** The records of a tile while ring i is being walked: the finished records 1 .. i-1 and
      the record of radius i holding the hexes walked so far. */
  function RecordsWalking(c: Axial, i: nat, hs: seq<Axial>): seq<TileNeighbors>
    requires 1 <= i
  {
    NeighborRecords(c, i - 1) + [TileNeighbors(i, hs)]
  }

  /** The record of radius i sits at position i - 1, so appending a hex there extends the
      last record only. */
  lemma RecordsWalkingAppend(c: Axial, i: nat, hs: seq<Axial>, h: Axial)
    requires 1 <= i
    ensures |RecordsWalking(c, i, hs)| == i
    ensures RecordsWalking(c, i, hs)[i - 1] == TileNeighbors(i, hs)
    ensures RecordsWalking(c, i, hs)[i - 1 := TileNeighbors(i, hs + [h])] == RecordsWalking(c, i, hs + [h])
  {
    NeighborRecordsLength(c, i - 1);
  }

  /** Starting ring i appends an empty record of radius i. */
  lemma RecordsWalkingStart(c: Axial, i: nat)
    requires 1 <= i
    ensures NeighborRecords(c, i - 1) + [TileNeighbors(i, [])] == RecordsWalking(c, i, RingPrefix(c, i, 0, 0))
  {
    CursorAtSideStart(c, i, 0);
  }

  /** Finishing ring i completes the record of radius i. */
  lemma RecordsWalkingDone(c: Axial, i: nat)
    requires 1 <= i
    ensures RecordsWalking(c, i, Sides(c, i, DirectionCount)) == NeighborRecords(c, i)
  {
  }

  /** One body of the centre walk: the tile list and the index grow by the cursor's hex at
      the next index, and the cursor steps along the side. */
  lemma CenterAdvance(i: nat, j: nat, k: nat)
    requires 1 <= i && j < DirectionCount && k < i
    ensures MakeTiles(CenterCoords(i, j, k + 1))
         == MakeTiles(CenterCoords(i, j, k)) + [HexTile(Cursor(Origin, i, j, k), [])]
    ensures IndexMap(CenterCoords(i, j, k + 1))
         == IndexMap(CenterCoords(i, j, k))[Cursor(Origin, i, j, k) := |CenterCoords(i, j, k)|]
    ensures Cursor(Origin, i, j, k + 1) == Neighbor(Cursor(Origin, i, j, k), j)
  {
    AppendCoord(CenterCoords(i, j, k), Cursor(Origin, i, j, k));
    RingPrefixStep(Origin, i, j, k);
  }

  /** Entering ring i of tile t appends an empty record of radius i to the tile's finished
      records 1 .. i-1, which is the walk of ring i before its first step. */
  lemma NeighborRingEntered(coords: seq<Axial>, n: nat, t: nat, i: nat)
    requires t < |coords| && 1 <= i
    ensures var c := coords[t];
      NeighborStage(coords, n, t, NeighborRecords(c, i - 1))[t := HexTile(c, NeighborRecords(c, i - 1) + [TileNeighbors(i, [])])]
      == NeighborStage(coords, n, t, RecordsWalking(c, i, RingPrefix(c, i, 0, 0)))
  {
    var c := coords[t];
    RecordsWalkingStart(c, i);
    NeighborStageSet(coords, n, t, NeighborRecords(c, i - 1), NeighborRecords(c, i - 1) + [TileNeighbors(i, [])]);
  }

  /** One body of the neighbour walk: the record of radius i of tile t (its last record)
      grows by the cursor's hex, nothing else changes, and the cursor steps along side j. */
  lemma NeighborAdvance(coords: seq<Axial>, n: nat, t: nat, i: nat, j: nat, k: nat)
    requires t < |coords| && 1 <= i && j < DirectionCount
    ensures var c, hs := coords[t], RingPrefix(coords[t], i, j, k);
      var recs := RecordsWalking(c, i, hs);
      && |recs| == i && recs[i - 1] == TileNeighbors(i, hs)
      && NeighborStage(coords, n, t, recs)[t := HexTile(c, recs[i - 1 := TileNeighbors(i, hs + [Cursor(c, i, j, k)])])]
         == NeighborStage(coords, n, t, RecordsWalking(c, i, RingPrefix(c, i, j, k + 1)))
    ensures Cursor(coords[t], i, j, k + 1) == Neighbor(Cursor(coords[t], i, j, k), j)
  {
    var c, hs := coords[t], RingPrefix(coords[t], i, j, k);
    RecordsWalkingAppend(c, i, hs, Cursor(c, i, j, k));
    RingPrefixStep(c, i, j, k);
    NeighborStageSet(coords, n, t, RecordsWalking(c, i, hs), RecordsWalking(c, i, hs + [Cursor(c, i, j, k)]));
  }

  /** After i steps along side j the neighbour walk continues at step 0 of side j + 1, or,
      after side 5, the record of radius i is finished. */
  lemma NeighborSideDone(c: Axial, i: nat, j: nat)
    requires 1 <= i && j < DirectionCount
    ensures j + 1 < DirectionCount ==>
      && RecordsWalking(c, i, RingPrefix(c, i, j, i)) == RecordsWalking(c, i, RingPrefix(c, i, j + 1, 0))
      && Cursor(c, i, j, i) == Cursor(c, i, j + 1, 0)
    ensures j + 1 == DirectionCount ==> RecordsWalking(c, i, RingPrefix(c, i, j, i)) == NeighborRecords(c, i)
  {
    SideDone(c, i, j);
    if j + 1 < DirectionCount {
      CursorAtSideStart(c, i, j + 1);
    } else {
      RecordsWalkingDone(c, i);
    }
  }
}
