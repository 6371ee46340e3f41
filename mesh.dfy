/**
 * The render mesh of the grid lines: twelve vertices per tile (an outer and an inner point
 * at each of the six corners) and, for each of the six sides, two triangles filling the band
 * between the outer and the inner hexagon.
 *
 * Vertex coordinates are floating-point geometry; a vertex is identified here by the tile,
 * the corner and whether it is the inner or the outer point.
 */
module Mesh {

  const CornerCount: nat := 6
  const VerticesPerTile: nat := 12
  /** 6 sides, 2 triangles per side, 3 vertex indices per triangle. */
  const IndicesPerTile: nat := 36

  datatype Vertex = Vertex(tile: nat, corner: nat, inner: bool)

  /** The vertices one tile adds: outer corner c at 2c, inner corner c at 2c + 1. */
  function TileVertices(t: nat): (vs: seq<Vertex>)
    ensures |vs| == VerticesPerTile
    ensures forall c :: 0 <= c < CornerCount ==>
      vs[2 * c] == Vertex(t, c, false) && vs[2 * c + 1] == Vertex(t, c, true)
  {
    seq(12, m requires 0 <= m < 12 => Vertex(t, m / 2, m % 2 == 1))
  }

  /** The vertex buffer after tiles 0 .. n-1. */
  function MeshVertices(n: nat): (vs: seq<Vertex>)
    decreases n
  {
    if n == 0 then [] else MeshVertices(n - 1) + TileVertices(n - 1)
  }

  lemma {:induction false} MeshVerticesShape(n: nat)
    ensures |MeshVertices(n)| == 12 * n
    ensures forall t, c :: 0 <= t < n && 0 <= c < CornerCount ==>
      MeshVertices(n)[12 * t + 2 * c] == Vertex(t, c, false)
      && MeshVertices(n)[12 * t + 2 * c + 1] == Vertex(t, c, true)
    decreases n
  {
    if n > 0 {
      MeshVerticesShape(n - 1);
      var a, b := MeshVertices(n - 1), TileVertices(n - 1);
      forall t, c | 0 <= t < n && 0 <= c < CornerCount
        ensures (a + b)[12 * t + 2 * c] == Vertex(t, c, false)
        ensures (a + b)[12 * t + 2 * c + 1] == Vertex(t, c, true)
      {
        if t == n - 1 {
          assert (a + b)[12 * t + 2 * c] == b[2 * c];
          assert (a + b)[12 * t + 2 * c + 1] == b[2 * c + 1];
        } else {
          assert 12 * t + 2 * c + 1 < |a|;
        }
      }
    }
  }

  /** Tile t's twelve vertices sit at 12t .. 12t + 11 of the buffer, in order. */
  lemma MeshTileVertices(n: nat, t: nat)
    requires t < n
    ensures |MeshVertices(n)| == 12 * n
    ensures MeshVertices(n)[12 * t..12 * t + 12] == TileVertices(t)
  {
    var vs := MeshVertices(n);
    MeshVerticesShape(n);
    forall m | 0 <= m < 12 ensures vs[12 * t..12 * t + 12][m] == TileVertices(t)[m] {
      if m % 2 == 0 {
        assert m == 2 * (m / 2);
      } else {
        assert m == 2 * (m / 2) + 1;
      }
    }
  }

  /** The four index tables of the triangle stage: for side i, the outer and inner vertex of
      corner i (2i, 2i + 1) and of the next corner (a, a + 1 with a = ((i + 1) % 6) * 2). */
  function TriTable0(): seq<int> { [0, 2, 4, 6, 8, 10] }
  function TriTable1(): seq<int> { [1, 3, 5, 7, 9, 11] }
  function TriTable2(): seq<int> { [2, 4, 6, 8, 10, 0] }
  function TriTable3(): seq<int> { [3, 5, 7, 9, 11, 1] }

  /** The corner that follows corner i around the hexagon. */
  function NextCorner(i: nat): nat {
    (i + 1) % 6
  }

  /** The tables hold, for every side, the local indices of its two corners. */
  lemma TriTablesAreCorners(i: nat)
    requires i < CornerCount
    ensures TriTable0()[i] == 2 * i && TriTable1()[i] == 2 * i + 1
    ensures TriTable2()[i] == NextCorner(i) * 2 && TriTable3()[i] == NextCorner(i) * 2 + 1
  {
    if i < 5 {
      assert NextCorner(i) == i + 1;
    } else {
      assert NextCorner(i) == 0;
    }
  }

  /** The six indices of side f of the tile whose first vertex is `base`: triangles
      (outer f, inner f, inner f+1) and (outer f, inner f+1, outer f+1). */
  function SideIndices(f: nat, base: int): (s: seq<int>)
    requires f < CornerCount
    ensures |s| == 6
  {
    var a := NextCorner(f) * 2;
    [2 * f + base, 2 * f + 1 + base, a + 1 + base, 2 * f + base, a + 1 + base, a + base]
  }

  /** The indices of sides 0 .. n-1 of one tile, as the triangle stage appends them. */
  function TileSides(n: nat, base: int): (s: seq<int>)
    requires n <= CornerCount
    ensures |s| == 6 * n
    decreases n
  {
    if n == 0 then [] else TileSides(n - 1, base) + SideIndices(n - 1, base)
  }

  /** The 36 indices one tile adds: entry 6f + m is entry m of side f. */
  function TileTriangles(base: int): (s: seq<int>)
    ensures |s| == IndicesPerTile
  {
    seq(IndicesPerTile, x requires 0 <= x < IndicesPerTile => SideIndices(x / 6, base)[x % 6])
  }

  /** The index buffer after tiles 0 .. n-1; tile t's vertices start at 12t. */
  function MeshTriangles(n: nat): seq<int>
    decreases n
  {
    if n == 0 then [] else MeshTriangles(n - 1) + TileTriangles(12 * (n - 1))
  }

  /** Entries 6f .. 6f + 5 of a tile's indices are those of side f. */
  lemma TileTrianglesSide(base: int, f: nat)
    requires f < CornerCount
    ensures TileTriangles(base)[6 * f .. 6 * f + 6] == SideIndices(f, base)
  {
    var s := TileTriangles(base);
    forall m | 0 <= m < 6 ensures s[6 * f .. 6 * f + 6][m] == SideIndices(f, base)[m] {
      assert (6 * f + m) / 6 == f && (6 * f + m) % 6 == m;
    }
  }

  /** Every index of a tile points into the tile's own twelve vertices. */
  lemma TileTrianglesBounds(base: int)
    ensures forall x :: 0 <= x < IndicesPerTile ==> base <= TileTriangles(base)[x] < base + 12
  {
    forall x | 0 <= x < IndicesPerTile ensures base <= TileTriangles(base)[x] < base + 12 {
      var f := x / 6;
      assert NextCorner(f) < 6;
    }
  }

  lemma {:induction false} TileSidesAt(n: nat, base: int, f: nat, m: nat)
    requires n <= CornerCount && f < n && m < 6
    ensures TileSides(n, base)[6 * f + m] == SideIndices(f, base)[m]
    decreases n
  {
    if f < n - 1 {
      TileSidesAt(n - 1, base, f, m);
    }
  }

  /** Once all six sides are appended, the tile holds its 36 indices. */
  lemma TileSidesComplete(n: nat, base: int)
    requires n == CornerCount
    ensures TileSides(n, base) == TileTriangles(base)
  {
    forall x | 0 <= x < IndicesPerTile ensures TileSides(n, base)[x] == TileTriangles(base)[x] {
      var f, m := x / 6, x % 6;
      TileSidesAt(n, base, f, m);
    }
  }

  lemma {:induction false} MeshTrianglesLength(n: nat)
    ensures |MeshTriangles(n)| == 36 * n
    decreases n
  {
    if n > 0 {
      MeshTrianglesLength(n - 1);
    }
  }

  /** Entries 36t .. 36t + 35 of the index buffer are the triangles of tile t. */
  lemma {:induction false} MeshTileSlice(n: nat, t: nat)
    requires t < n
    ensures |MeshTriangles(n)| == 36 * n
    ensures MeshTriangles(n)[36 * t .. 36 * t + 36] == TileTriangles(12 * t)
    decreases n
  {
    MeshTrianglesLength(n);
    MeshTrianglesLength(n - 1);
    var a, b := MeshTriangles(n - 1), TileTriangles(12 * (n - 1));
    var lo := 36 * t;
    if t < n - 1 {
      MeshTileSlice(n - 1, t);
      calc {
        MeshTriangles(n)[lo .. lo + 36];
        (a + b)[lo .. lo + 36];
        { assert lo + 36 <= |a|; }
        a[lo .. lo + 36];
      }
    } else {
      calc {
        MeshTriangles(n)[lo .. lo + 36];
        (a + b)[lo .. lo + 36];
        { assert lo == |a|; }
        b;
      }
    }
  }

  lemma {:induction false} MeshTrianglesAt(n: nat, t: nat, x: nat)
    requires t < n && x < IndicesPerTile
    ensures |MeshTriangles(n)| == 36 * n
    ensures MeshTriangles(n)[36 * t + x] == TileTriangles(12 * t)[x]
  {
    MeshTileSlice(n, t);
    assert MeshTriangles(n)[36 * t + x] == MeshTriangles(n)[36 * t .. 36 * t + 36][x];
  }

  /** The index buffer of n tiles has 36n entries, and the 36 entries of tile t point into
      its own vertices 12t .. 12t + 11. */
  lemma MeshIndexBounds(n: nat, t: nat)
    requires t < n
    ensures |MeshTriangles(n)| == 36 * n && |MeshVertices(n)| == 12 * n
    ensures forall x :: 36 * t <= x < 36 * t + 36 ==> 12 * t <= MeshTriangles(n)[x] < 12 * t + 12
  {
    MeshVerticesShape(n);
    MeshTrianglesLength(n);
    TileTrianglesBounds(12 * t);
    forall x | 36 * t <= x < 36 * t + 36 ensures 12 * t <= MeshTriangles(n)[x] < 12 * t + 12 {
      MeshTrianglesAt(n, t, x - 36 * t);
    }
  }

  /** The six entries of side f of tile t are the outer and inner points of corner f
      (12t + 2f, 12t + 2f + 1), the inner point of the next corner g, the outer point of f
      again, and the inner and outer points of g: triangles (outer f, inner f, inner g) and
      (outer f, inner g, outer g), which cover the band along that side. */
  lemma MeshSideIndices(n: nat, t: nat, f: nat)
    requires t < n && f < CornerCount
    ensures |MeshTriangles(n)| == 36 * n
    ensures var g, base := NextCorner(f), 12 * t;
      MeshTriangles(n)[36 * t + 6 * f .. 36 * t + 6 * f + 6] ==
        [base + 2 * f, base + 2 * f + 1, base + 2 * g + 1, base + 2 * f, base + 2 * g + 1, base + 2 * g]
  {
    var lo, c := 36 * t, 6 * f;
    MeshTileSlice(n, t);
    assert lo + 36 <= 36 * n;
    SliceOfSlice(MeshTriangles(n), lo, lo + 36, c, c + 6);
    TileTrianglesSide(12 * t, f);
    SideIndicesCorners(f, 12 * t);
  }

  /** A slice of a slice is a slice of the whole. */
  lemma SliceOfSlice(s: seq<int>, lo: int, hi: int, a: int, b: int)
    requires 0 <= lo <= hi <= |s| && 0 <= a <= b <= hi - lo
    ensures s[lo .. hi][a .. b] == s[lo + a .. lo + b]
  {
    forall k | 0 <= k < b - a
      ensures s[lo .. hi][a .. b][k] == s[lo + a .. lo + b][k]
    {
      assert s[lo .. hi][a .. b][k] == s[lo .. hi][a + k] == s[lo + a + k];
    }
  }

  /** The six indices of side f, written out with the next corner g. */
  lemma SideIndicesCorners(f: nat, base: int)
    requires f < CornerCount
    ensures var g := NextCorner(f);
      SideIndices(f, base) ==
        [base + 2 * f, base + 2 * f + 1, base + 2 * g + 1, base + 2 * f, base + 2 * g + 1, base + 2 * g]
  {
  }

  /** Vertex 12t + 2c is the outer and 12t + 2c + 1 the inner point of corner c of tile t. */
  lemma MeshCornerVertices(n: nat, t: nat, c: nat)
    requires t < n && c < CornerCount
    ensures |MeshVertices(n)| == 12 * n
    ensures MeshVertices(n)[12 * t + 2 * c] == Vertex(t, c, false)
    ensures MeshVertices(n)[12 * t + 2 * c + 1] == Vertex(t, c, true)
  {
    MeshVerticesShape(n);
  }
}
