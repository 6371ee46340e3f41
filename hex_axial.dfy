/**
 * Axial hex-grid arithmetic and the spiral ring walk of the hex grid creator.
 *
 * A ring of radius r around a centre c starts at c + r * Direction(RingStartDirectionIndex)
 * and then takes r steps in each of the six directions 0, 1, ..., 5 in turn, emitting the
 * current hex before every step.  The walk is described here by closed forms (the start of
 * side j, the cursor after k steps on side j) that the imperative stages are proved against.
 */
module HexAxial {

  /** An axial hex coordinate (FIntPoint in the source: X is q, Y is r). */
  datatype Axial = Axial(q: int, r: int)

  const Origin: Axial := Axial(0, 0)

  /** The number of hex directions. */
  const DirectionCount: nat := 6

  /** The direction whose r-fold multiple is the first hex of every ring. */
  const RingStartDirectionIndex: nat := 4

  /** The six axial unit directions in their fixed rotational order. */
  const DirectionTable: seq<Axial> :=
    [Axial(1, 0), Axial(1, -1), Axial(0, -1), Axial(-1, 0), Axial(-1, 1), Axial(0, 1)]

  function Add(a: Axial, b: Axial): Axial {
    Axial(a.q + b.q, a.r + b.r)
  }

  function Scale(a: Axial, factor: int): Axial {
    Axial(a.q * factor, a.r * factor)
  }

  function Direction(d: int): Axial
    requires 0 <= d < DirectionCount
  {
    if d == 0 then Axial(1, 0)
    else if d == 1 then Axial(1, -1)
    else if d == 2 then Axial(0, -1)
    else if d == 3 then Axial(-1, 0)
    else if d == 4 then Axial(-1, 1)
    else Axial(0, 1)
  }

  function Neighbor(h: Axial, d: int): Axial
    requires 0 <= d < DirectionCount
  {
    Add(h, Direction(d))
  }

  function Abs(x: int): nat {
    if x < 0 then -x else x
  }

  /** The hex (axial) distance between two hexes. */
  function Distance(a: Axial, b: Axial): nat {
    (Abs(b.q - a.q) + Abs(b.r - a.r) + Abs(b.q - a.q + b.r - a.r)) / 2
  }

  /** Each direction is one step away from the origin. */
  lemma DirectionIsUnit(d: int)
    requires 0 <= d < DirectionCount
    ensures Distance(Origin, Direction(d)) == 1
  {
  }

  // ---------------------------------------------------------------------------------------
  // The ring walk
  // ---------------------------------------------------------------------------------------

  /** The first hex of side j of the ring of radius r around c (side 6 is where the walk ends). */
  function SideStart(c: Axial, r: nat, j: nat): Axial
    requires j <= DirectionCount
    decreases j, r
  {
    if j == 0 then Add(c, Scale(Direction(RingStartDirectionIndex), r))
    else Add(SideStart(c, r, j - 1), Scale(Direction(j - 1), r))
  }

  /** Where the walk stands after k steps along side j. */
  function Cursor(c: Axial, r: nat, j: nat, k: int): Axial
    requires j < DirectionCount
  {
    Add(SideStart(c, r, j), Scale(Direction(j), k))
  }

  /** The n hexes h, h + dir(d), ..., h + (n - 1) * dir(d). */
  function Walk(h: Axial, d: nat, n: nat): (s: seq<Axial>)
    requires d < DirectionCount
    ensures |s| == n
    decreases n
  {
    if n == 0 then [] else Walk(h, d, n - 1) + [Add(h, Scale(Direction(d), n - 1))]
  }

  /** The hexes emitted on sides 0 .. j-1. */
  function Sides(c: Axial, r: nat, j: nat): seq<Axial>
    requires j <= DirectionCount
    decreases j, r
  {
    if j == 0 then [] else Sides(c, r, j - 1) + Walk(SideStart(c, r, j - 1), j - 1, r)
  }

  /** The hexes emitted before the cursor reaches step k of side j. */
  function RingPrefix(c: Axial, r: nat, j: nat, k: nat): seq<Axial>
    requires j < DirectionCount
  {
    Sides(c, r, j) + Walk(SideStart(c, r, j), j, k)
  }

  /** The whole ring of radius r around c, in walk order. */
  function Ring(c: Axial, r: nat): seq<Axial> {
    Sides(c, r, DirectionCount)
  }

  /** The offset of corner j (the start of side j) from the centre. */
  function CornerOffset(r: int, j: nat): Axial
    requires j <= DirectionCount
  {
    if j == 0 then Axial(-r, r)
    else if j == 1 then Axial(0, r)
    else if j == 2 then Axial(r, 0)
    else if j == 3 then Axial(r, -r)
    else if j == 4 then Axial(0, -r)
    else if j == 5 then Axial(-r, 0)
    else Axial(-r, r)
  }

  lemma {:induction false} SideStartIsCorner(c: Axial, r: nat, j: nat)
    requires j <= DirectionCount
    ensures SideStart(c, r, j) == Add(c, CornerOffset(r, j))
    decreases j
  {
    if j > 0 {
      SideStartIsCorner(c, r, j - 1);
    }
  }

  lemma {:induction false} WalkAt(h: Axial, d: nat, n: nat, m: nat)
    requires d < DirectionCount && m < n
    ensures Walk(h, d, n)[m] == Add(h, Scale(Direction(d), m))
    decreases n
  {
    if m < n - 1 {
      WalkAt(h, d, n - 1, m);
    }
  }

  lemma {:induction false} SidesLength(c: Axial, r: nat, j: nat)
    requires j <= DirectionCount
    ensures |Sides(c, r, j)| == j * r
    decreases j
  {
    if j > 0 {
      SidesLength(c, r, j - 1);
      assert j * r == (j - 1) * r + r;
    }
  }

  /** A ring of radius r has exactly 6r hexes. */
  lemma RingLength(c: Axial, r: nat)
    ensures |Ring(c, r)| == 6 * r
  {
    SidesLength(c, r, 6);
  }

  /** One step of the walk: the prefix grows by the cursor, and the cursor moves to its
      neighbour in the side's direction. */
  lemma RingPrefixStep(c: Axial, r: nat, j: nat, k: nat)
    requires j < DirectionCount
    ensures RingPrefix(c, r, j, k + 1) == RingPrefix(c, r, j, k) + [Cursor(c, r, j, k)]
    ensures Cursor(c, r, j, k + 1) == Neighbor(Cursor(c, r, j, k), j)
  {
    var s, w := Sides(c, r, j), Walk(SideStart(c, r, j), j, k);
    assert s + (w + [Cursor(c, r, j, k)]) == (s + w) + [Cursor(c, r, j, k)];
    ScaleSucc(Direction(j), k);
  }

  lemma ScaleSucc(a: Axial, k: int)
    ensures Scale(a, k + 1) == Add(Scale(a, k), a)
  {
    assert a.q * (k + 1) == a.q * k + a.q;
    assert a.r * (k + 1) == a.r * k + a.r;
  }

  /** At the start of a side the cursor is the side's first hex. */
  lemma CursorAtSideStart(c: Axial, r: nat, j: nat)
    requires j < DirectionCount
    ensures Cursor(c, r, j, 0) == SideStart(c, r, j)
    ensures RingPrefix(c, r, j, 0) == Sides(c, r, j)
  {
  }

  /** Finishing side j (r steps) is starting side j + 1; finishing side 5 is the whole ring. */
  lemma SideDone(c: Axial, r: nat, j: nat)
    requires j < DirectionCount
    ensures Cursor(c, r, j, r) == SideStart(c, r, j + 1)
    ensures RingPrefix(c, r, j, r) == Sides(c, r, j + 1)
    ensures j + 1 < DirectionCount ==> RingPrefix(c, r, j, r) == RingPrefix(c, r, j + 1, 0)
    ensures j + 1 == DirectionCount ==> RingPrefix(c, r, j, r) == Ring(c, r)
  {
  }

  /** The first hex of a ring of radius r >= 1 is c + r * (-1, 1). */
  lemma RingStartsAt(c: Axial, r: nat)
    requires r >= 1
    ensures |Ring(c, r)| == 6 * r
    ensures Ring(c, r)[0] == Add(c, Scale(Axial(-1, 1), r))
    ensures Ring(c, r)[0] == Add(c, Scale(Direction(RingStartDirectionIndex), r))
  {
    RingLength(c, r);
    SidesLength(c, r, 0);
    assert Sides(c, r, 1) == Walk(SideStart(c, r, 0), 0, r);
    WalkAt(SideStart(c, r, 0), 0, r, 0);
    PrefixOfSides(c, r, 1, 6);
    SidesLength(c, r, 1);
  }

  lemma {:induction false} PrefixOfSides(c: Axial, r: nat, j: nat, m: nat)
    requires j <= m <= DirectionCount
    ensures Sides(c, r, j) <= Sides(c, r, m)
    decreases m - j
  {
    if j < m {
      PrefixOfSides(c, r, j, m - 1);
    }
  }

  /** The ring of radius 1 around c, in walk order; around the origin it is
      (-1,1), (0,1), (1,0), (1,-1), (0,-1), (-1,0). */
  lemma RadiusOneRing(c: Axial)
    ensures Ring(c, 1) == [Add(c, Axial(-1, 1)), Add(c, Axial(0, 1)), Add(c, Axial(1, 0)),
                           Add(c, Axial(1, -1)), Add(c, Axial(0, -1)), Add(c, Axial(-1, 0))]
  {
    UnitSides(c, 6);
  }

  /** On a ring of radius 1 every side is a single hex: the corner. */
  lemma {:induction false} UnitSides(c: Axial, j: nat)
    requires j <= DirectionCount
    ensures |Sides(c, 1, j)| == j
    ensures forall m :: 0 <= m < j ==> Sides(c, 1, j)[m] == Add(c, CornerOffset(1, m))
    decreases j
  {
    if j > 0 {
      UnitSides(c, j - 1);
      SideStartIsCorner(c, 1, j - 1);
    }
  }

  // ---------------------------------------------------------------------------------------
  // Distances, distinctness and completeness of a ring
  // ---------------------------------------------------------------------------------------

  /** The position along the walk of a hex at distance r from c (0 .. 6r - 1). */
  function RingPosition(c: Axial, r: int, h: Axial): int {
    var dq, dr := h.q - c.q, h.r - c.r;
    if dr == r && dq < 0 then dq + r
    else if dq >= 0 && dr > 0 then r + dq
    else if dq == r && dr <= 0 then 2 * r - dr
    else if dr == -r && dq > 0 then 4 * r - dq
    else if dq <= 0 && dr < 0 then 4 * r - dq
    else 5 * r + dr
  }

  ghost predicate PositionedFrom(s: seq<Axial>, c: Axial, r: nat, base: int) {
    forall m :: 0 <= m < |s| ==> RingPosition(c, r, s[m]) == base + m && Distance(c, s[m]) == r
  }

  lemma SideHexPositioned(c: Axial, r: nat, j: nat, k: nat)
    requires 1 <= r && j < DirectionCount && k < r
    ensures RingPosition(c, r, Cursor(c, r, j, k)) == j * r + k
    ensures Distance(c, Cursor(c, r, j, k)) == r
  {
    SideStartIsCorner(c, r, j);
    if j == 0 {
    } else if j == 1 {
    } else if j == 2 {
    } else if j == 3 {
    } else if j == 4 {
    } else {
    }
  }

  lemma WalkPositioned(c: Axial, r: nat, j: nat)
    requires 1 <= r && j < DirectionCount
    ensures PositionedFrom(Walk(SideStart(c, r, j), j, r), c, r, j * r)
  {
    var w := Walk(SideStart(c, r, j), j, r);
    forall m | 0 <= m < |w| ensures RingPosition(c, r, w[m]) == j * r + m && Distance(c, w[m]) == r {
      WalkAt(SideStart(c, r, j), j, r, m);
      SideHexPositioned(c, r, j, m);
    }
  }

  lemma PositionedConcat(a: seq<Axial>, b: seq<Axial>, c: Axial, r: nat, base: int)
    requires PositionedFrom(a, c, r, base) && PositionedFrom(b, c, r, base + |a|)
    ensures PositionedFrom(a + b, c, r, base)
  {
    forall m | 0 <= m < |a + b|
      ensures RingPosition(c, r, (a + b)[m]) == base + m && Distance(c, (a + b)[m]) == r
    {
      if m >= |a| {
        assert (a + b)[m] == b[m - |a|];
      }
    }
  }

  lemma {:induction false} SidesPositioned(c: Axial, r: nat, j: nat)
    requires 1 <= r && j <= DirectionCount
    ensures PositionedFrom(Sides(c, r, j), c, r, 0)
    decreases j
  {
    if j > 0 {
      SidesPositioned(c, r, j - 1);
      SidesLength(c, r, j - 1);
      WalkPositioned(c, r, j - 1);
      PositionedConcat(Sides(c, r, j - 1), Walk(SideStart(c, r, j - 1), j - 1, r), c, r, 0);
    }
  }

  ghost predicate Distinct(s: seq<Axial>) {
    forall m, n :: 0 <= m < n < |s| ==> s[m] != s[n]
  }

  /** Every hex of a ring of radius r >= 1 is at distance r from its centre, and no hex
      is emitted twice. */
  lemma RingDistinctAtRadius(c: Axial, r: nat)
    requires r >= 1
    ensures |Ring(c, r)| == 6 * r
    ensures forall m :: 0 <= m < |Ring(c, r)| ==> Distance(c, Ring(c, r)[m]) == r
    ensures Distinct(Ring(c, r))
  {
    RingLength(c, r);
    SidesPositioned(c, r, 6);
  }

  /** The three coordinate differences of two hexes add up to twice their distance. */
  lemma DistanceSum(a: Axial, b: Axial)
    ensures Abs(b.q - a.q) + Abs(b.r - a.r) + Abs(b.q - a.q + b.r - a.r) == 2 * Distance(a, b)
  {
    var x, y := b.q - a.q, b.r - a.r;
    var half := if x >= 0 && y >= 0 then x + y
                else if x < 0 && y < 0 then -(x + y)
                else if x >= 0 then (if x + y >= 0 then x else -y)
                else (if x + y >= 0 then y else -x);
    assert Abs(x) + Abs(y) + Abs(x + y) == 2 * half;
  }

  lemma CursorInRing(c: Axial, r: nat, j: nat, k: nat)
    requires j < DirectionCount && k < r
    ensures Cursor(c, r, j, k) in Ring(c, r)
  {
    WalkAt(SideStart(c, r, j), j, r, k);
    assert Cursor(c, r, j, k) in Sides(c, r, j + 1);
    PrefixOfSides(c, r, j + 1, 6);
  }

  /** The ring of radius r >= 1 holds exactly the hexes at distance r from its centre. */
  lemma RingIsCircle(c: Axial, r: nat, h: Axial)
    requires r >= 1
    ensures h in Ring(c, r) <==> Distance(c, h) == r
  {
    RingDistinctAtRadius(c, r);
    if Distance(c, h) == r {
      var dq, dr, ri := h.q - c.q, h.r - c.r, r as int;
      var j: nat, k: int;
      DistanceSum(c, h);
      if dr == r && dq < 0 {
        j, k := 0, dq + r;
      } else if dq >= 0 && dr > 0 {
        j, k := 1, dq;
      } else if dq == r && -ri < dr <= 0 {
        j, k := 2, -dr;
      } else if dr == -ri && dq > 0 {
        j, k := 3, r - dq;
      } else if dq <= 0 && dr < 0 {
        j, k := 4, -dq;
      } else {
        j, k := 5, dr;
      }
      SideStartIsCorner(c, r, j);
      assert h == Cursor(c, r, j, k);
      CursorInRing(c, r, j, k);
    }
  }
}
