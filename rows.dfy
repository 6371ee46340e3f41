/**
 * The text rows the write stages emit, and readers that take them apart again.
 *
 * Integers are written as FString::FromInt writes them (decimal, a leading '-' when
 * negative).  A row includes its line end.  Floating-point fields (tile positions, vertex
 * coordinates, the tile size and line ratio) are written by an engine text conversion that is
 * not part of this model; they enter a row as text supplied from outside.
 */
module Rows {
  import opened HexAxial
  import opened HexRecords
  import opened GridSpec
  import opened Mesh

  datatype Option<T> = None | Some(value: T)

  const PipeDelim: string := "|"
  const CommaDelim: string := ","
  const SpaceDelim: string := " "
  const ColonDelim: string := ":"
  const LineEnd: string := "\n"

  // ---------------------------------------------------------------------------------------
  // Integers
  // ---------------------------------------------------------------------------------------

  predicate IsDigit(ch: char) {
    '0' <= ch <= '9'
  }

  predicate AllDigits(s: string) {
    forall k :: 0 <= k < |s| ==> IsDigit(s[k])
  }

  /** True when s does not continue a number written just before it. */
  predicate EndsNumber(s: string) {
    s == [] || !IsDigit(s[0])
  }

  function DigitChar(d: int): (ch: char)
    requires 0 <= d < 10
    ensures IsDigit(ch)
  {
    (48 + d) as char
  }

  function DigitValue(ch: char): (d: int)
    requires IsDigit(ch)
    ensures 0 <= d < 10
  {
    ch as int - 48
  }

  /** The decimal digits of n, most significant first, without leading zeros. */
  function NatToString(n: nat): (s: string)
    ensures |s| >= 1 && AllDigits(s)
    decreases n
  {
    if n < 10 then [DigitChar(n)] else NatToString(n / 10) + [DigitChar(n % 10)]
  }

  /** FString::FromInt. */
  function IntToString(i: int): (s: string)
    ensures |s| >= 1 && s[0] != ',' && s[0] != '|' && s[0] != ' ' && s[0] != ':'
    ensures s[0] != '\n'
  {
    if i < 0 then "-" + NatToString(-i) else NatToString(i)
  }

  /** The value of a run of decimal digits. */
  function DigitsValue(s: string): nat
    requires AllDigits(s)
    decreases |s|
  {
    if s == [] then 0 else 10 * DigitsValue(s[..|s| - 1]) + DigitValue(s[|s| - 1])
  }

  /** The length of the run of digits at the front of s. */
  function DigitRun(s: string): (k: nat)
    ensures k <= |s|
    decreases |s|
  {
    if s == [] || !IsDigit(s[0]) then 0 else 1 + DigitRun(s[1..])
  }

  lemma {:induction false} DigitRunDigits(s: string)
    ensures AllDigits(s[..DigitRun(s)])
    decreases |s|
  {
    if s != [] && IsDigit(s[0]) {
      DigitRunDigits(s[1..]);
      assert s[..DigitRun(s)] == [s[0]] + s[1..][..DigitRun(s[1..])];
    }
  }

  /** Reads an unsigned decimal number off the front of s. */
  function ReadNat(s: string): (r: Option<(nat, string)>)
    ensures r.Some? ==> |r.value.1| < |s|
  {
    var k := DigitRun(s);
    if k == 0 then None
    else
      DigitRunDigits(s);
      Some((DigitsValue(s[..k]), s[k..]))
  }

  /** Reads a decimal number, with an optional leading '-', off the front of s. */
  function ReadInt(s: string): (r: Option<(int, string)>)
    ensures r.Some? ==> |r.value.1| < |s|
  {
    if |s| > 0 && s[0] == '-' then
      match ReadNat(s[1..])
      case None => None
      case Some((n, rest)) => Some((-(n as int), rest))
    else
      match ReadNat(s)
      case None => None
      case Some((n, rest)) => Some((n as int, rest))
  }

  lemma {:induction false} DigitsValueSnoc(s: string, ch: char)
    requires AllDigits(s) && IsDigit(ch)
    ensures AllDigits(s + [ch]) && DigitsValue(s + [ch]) == 10 * DigitsValue(s) + DigitValue(ch)
  {
    assert (s + [ch])[..|s|] == s;
  }

  /** The digits of n read back as n. */
  lemma {:induction false} NatToStringInverse(n: nat)
    ensures DigitsValue(NatToString(n)) == n
    decreases n
  {
    if n >= 10 {
      NatToStringInverse(n / 10);
      DigitsValueSnoc(NatToString(n / 10), DigitChar(n % 10));
    }
  }

  lemma {:induction false} DigitRunOf(d: string, rest: string)
    requires AllDigits(d) && EndsNumber(rest)
    ensures DigitRun(d + rest) == |d|
    decreases |d|
  {
    if d != [] {
      assert (d + rest)[1..] == d[1..] + rest;
      DigitRunOf(d[1..], rest);
    }
  }

  /** A written integer is read back, and the reader stops exactly where it ends. */
  lemma ReadIntWritten(i: int, rest: string)
    requires EndsNumber(rest)
    ensures ReadInt(IntToString(i) + rest) == Some((i, rest))
  {
    var n: nat := if i < 0 then -i else i;
    var d := NatToString(n);
    DigitRunOf(d, rest);
    NatToStringInverse(n);
    assert (d + rest)[..|d|] == d && (d + rest)[|d|..] == rest;
    if i < 0 {
      assert (IntToString(i) + rest)[1..] == d + rest;
    }
  }

  // ---------------------------------------------------------------------------------------
  // Small readers
  // ---------------------------------------------------------------------------------------

  /** Consumes one expected character. */
  function Expect(s: string, ch: char): (r: Option<string>)
    ensures r.Some? ==> |r.value| < |s|
  {
    if |s| > 0 && s[0] == ch then Some(s[1..]) else None
  }

  /** Splits s at the first occurrence of ch. */
  function SplitAt(s: string, ch: char): (r: Option<(string, string)>)
    ensures r.Some? ==> |r.value.1| < |s|
    decreases |s|
  {
    if s == [] then None
    else if s[0] == ch then Some(([], s[1..]))
    else
      match SplitAt(s[1..], ch)
      case None => None
      case Some((a, b)) => Some(([s[0]] + a, b))
  }

  lemma {:induction false} SplitAtWritten(a: string, ch: char, b: string)
    requires ch !in a
    ensures SplitAt(a + [ch] + b, ch) == Some((a, b))
    decreases |a|
  {
    if a != [] {
      assert (a + [ch] + b)[1..] == a[1..] + [ch] + b;
      SplitAtWritten(a[1..], ch, b);
      assert [a[0]] + a[1..] == a;
    }
  }

  // ---------------------------------------------------------------------------------------
  // Coordinates and tile-index rows
  // ---------------------------------------------------------------------------------------

  /** An axial coordinate as written: q "," r. */
  function AxialText(c: Axial): (s: string)
    ensures |s| >= 1 && s[0] != ',' && s[0] != '|' && s[0] != ' ' && s[0] != ':'
    ensures s[0] != '\n'
  {
    IntToString(c.q) + (CommaDelim + IntToString(c.r))
  }

  function ReadAxial(s: string): (r: Option<(Axial, string)>)
    ensures r.Some? ==> |r.value.1| < |s|
  {
    match ReadInt(s)
    case None => None
    case Some((q, s1)) =>
      match Expect(s1, ',')
      case None => None
      case Some(s2) =>
        match ReadInt(s2)
        case None => None
        case Some((r, s3)) => Some((Axial(q, r), s3))
  }

  lemma ReadAxialWritten(c: Axial, rest: string)
    requires EndsNumber(rest)
    ensures ReadAxial(AxialText(c) + rest) == Some((c, rest))
  {
    var a, b := IntToString(c.q), IntToString(c.r);
    assert AxialText(c) + rest == a + ("," + (b + rest));
    ReadIntWritten(c.q, "," + (b + rest));
    ReadIntWritten(c.r, rest);
  }

  /** Row i of the tile-index file: the coordinate of tile i, a pipe, and i. */
  function IndexRow(c: Axial, i: int): string {
    AxialText(c) + (PipeDelim + (IntToString(i) + LineEnd))
  }

  function ParseIndexRow(row: string): Option<(Axial, int)> {
    match ReadAxial(row)
    case None => None
    case Some((c, s1)) =>
      match Expect(s1, '|')
      case None => None
      case Some(s2) =>
        match ReadInt(s2)
        case None => None
        case Some((i, s3)) => if s3 == LineEnd then Some((c, i)) else None
  }

  /** An index row reads back as the coordinate and index it was written from. */
  lemma IndexRowRoundTrip(c: Axial, i: int)
    ensures ParseIndexRow(IndexRow(c, i)) == Some((c, i))
  {
    var a, b := AxialText(c), IntToString(i);
    assert IndexRow(c, i) == a + ("|" + (b + "\n"));
    ReadAxialWritten(c, "|" + (b + "\n"));
    ReadIntWritten(i, "\n");
  }

  /** The coordinates of a sequence of tiles. */
  function TileCoords(tiles: seq<HexTile>): (cs: seq<Axial>)
    ensures |cs| == |tiles|
    ensures forall u :: 0 <= u < |tiles| ==> cs[u] == tiles[u].axialCoord
  {
    seq(|tiles|, u requires 0 <= u < |tiles| => tiles[u].axialCoord)
  }

  /** `rows` is the whole tile-index file for tiles at `coords`. */
  ghost predicate IndexFile(rows: seq<string>, coords: seq<Axial>) {
    && |rows| == |coords|
    && forall u {:trigger IndexRow(coords[u], u)} :: 0 <= u < |coords| ==> rows[u] == IndexRow(coords[u], u)
  }
  /** The whole tile-index file. */
  ghost function IndexFileOf(coords: seq<Axial>): (rows: seq<string>)
    ensures IndexFile(rows, coords)
  {
    seq(|coords|, u requires 0 <= u < |coords| => IndexRow(coords[u], u))
  }


  /** What a reader of the tile-index file rebuilds: each well-formed row adds its
      coordinate with its index, later rows overriding earlier ones. */
  function ReadIndexFile(rows: seq<string>): map<Axial, int>
    decreases |rows|
  {
    if rows == [] then map[]
    else
      var m := ReadIndexFile(rows[..|rows| - 1]);
      match ParseIndexRow(rows[|rows| - 1])
      case None => m
      case Some((c, i)) => m[c := i]
  }

  /** Reading the tile-index file written for tiles 0 .. n-1 rebuilds the map from their
      coordinates to their indexes. */
  lemma {:induction false} ReadIndexRows(coords: seq<Axial>, n: nat)
    requires n <= |coords|
    ensures ReadIndexFile(IndexFileOf(coords)[..n]) == IndexMap(coords[..n])
    decreases n
  {
    if n > 0 {
      ReadIndexRows(coords, n - 1);
      ReadIndexRowsStep(coords, n);
      IndexMapPrefixStep(coords, n);
    }
  }

  lemma ReadIndexRowsStep(coords: seq<Axial>, n: nat)
    requires 0 < n <= |coords|
    ensures ReadIndexFile(IndexFileOf(coords)[..n])
         == ReadIndexFile(IndexFileOf(coords)[..n - 1])[coords[n - 1] := n - 1]
  {
    var rows := IndexFileOf(coords);
    IndexRowRoundTrip(coords[n - 1], n - 1);
    assert rows[n - 1] == IndexRow(coords[n - 1], n - 1);
    ReadIndexFileStep(rows, n, coords[n - 1], n - 1);
  }

  lemma IndexMapPrefixStep(coords: seq<Axial>, n: nat)
    requires 0 < n <= |coords|
    ensures IndexMap(coords[..n]) == IndexMap(coords[..n - 1])[coords[n - 1] := n - 1]
  {
    assert coords[..n] == coords[..n - 1] + [coords[n - 1]];
    AppendCoord(coords[..n - 1], coords[n - 1]);
  }

  /** Reading the first n rows adds the n-th row's entry to what the first n - 1 give. */
  lemma ReadIndexFileStep(rows: seq<string>, n: nat, c: Axial, i: int)
    requires 0 < n <= |rows| && ParseIndexRow(rows[n - 1]) == Some((c, i))
    ensures ReadIndexFile(rows[..n]) == ReadIndexFile(rows[..n - 1])[c := i]
  {
    assert rows[..n][..n - 1] == rows[..n - 1];
  }

  // ---------------------------------------------------------------------------------------
  // Triangle rows
  // ---------------------------------------------------------------------------------------

  /** Integers each followed by a comma. */
  function TokensText(xs: seq<int>): string
    decreases |xs|
  {
    if xs == [] then "" else IntToString(xs[0]) + (CommaDelim + TokensText(xs[1..]))
  }

  /** A triangle row: its indices each followed by a comma, then the line end. */
  function TriangleRow(xs: seq<int>): string {
    TokensText(xs) + LineEnd
  }

  function ParseTokens(s: string): Option<seq<int>>
    decreases |s|
  {
    if s == LineEnd then Some([])
    else
      match ReadInt(s)
      case None => None
      case Some((x, s1)) =>
        match Expect(s1, ',')
        case None => None
        case Some(s2) =>
          match ParseTokens(s2)
          case None => None
          case Some(xs) => Some([x] + xs)
  }

  lemma {:induction false} ParseTokensWritten(xs: seq<int>)
    ensures ParseTokens(TokensText(xs) + LineEnd) == Some(xs)
    decreases |xs|
  {
    if xs != [] {
      var a, t := IntToString(xs[0]), TokensText(xs[1..]);
      assert TokensText(xs) + LineEnd == a + ("," + (t + LineEnd));
      ReadIntWritten(xs[0], "," + (t + LineEnd));
      ParseTokensWritten(xs[1..]);
      assert [xs[0]] + xs[1..] == xs;
    }
  }

  /** A triangle row reads back as the indices it was written from. */
  lemma TriangleRowRoundTrip(xs: seq<int>)
    ensures ParseTokens(TriangleRow(xs)) == Some(xs)
  {
    ParseTokensWritten(xs);
  }

  /** Appending one token to the written text. */
  lemma {:induction false} TokensTextSnoc(xs: seq<int>, x: int)
    ensures TokensText(xs + [x]) == TokensText(xs) + IntToString(x) + CommaDelim
    decreases |xs|
  {
    if xs != [] {
      var h, rest, tl := IntToString(xs[0]), TokensText(xs[1..]), IntToString(x) + CommaDelim;
      assert (xs + [x])[0] == xs[0];
      assert (xs + [x])[1..] == xs[1..] + [x];
      TokensTextSnoc(xs[1..], x);
      Assoc(rest, IntToString(x), CommaDelim);
      assert TokensText(xs + [x]) == h + (CommaDelim + (rest + tl));
      Assoc(CommaDelim, rest, tl);
      Assoc(h, CommaDelim + rest, tl);
      Assoc(h + (CommaDelim + rest), IntToString(x), CommaDelim);
    }
  }

  /** The text of the first i + 1 tokens extends the text of the first i by token i. */
  lemma TokensTextPrefix(xs: seq<int>, i: nat)
    requires i < |xs|
    ensures TokensText(xs[..i + 1]) == TokensText(xs[..i]) + IntToString(xs[i]) + CommaDelim
  {
    assert xs[..i + 1] == xs[..i] + [xs[i]];
    TokensTextSnoc(xs[..i], xs[i]);
  }

  // ---------------------------------------------------------------------------------------
  // Neighbour fields of tile rows
  // ---------------------------------------------------------------------------------------

  /** The hexes of one ring, joined by a space. */
  function RingText(hs: seq<Axial>): (s: string)
    ensures hs != [] ==> |s| >= 1 && s[0] != '\n'
    decreases |hs|
  {
    if hs == [] then ""
    else if |hs| == 1 then AxialText(hs[0])
    else AxialText(hs[0]) + (SpaceDelim + RingText(hs[1..]))
  }

  /** The rings of a tile, joined by a colon. */
  function NeighborsText(ns: seq<TileNeighbors>): string
    decreases |ns|
  {
    if ns == [] then ""
    else if |ns| == 1 then RingText(ns[0].tiles)
    else RingText(ns[0].tiles) + (ColonDelim + NeighborsText(ns[1..]))
  }

  /** The hex lists of a tile's neighbour records, in record order. */
  function RingsOf(ns: seq<TileNeighbors>): (rs: seq<seq<Axial>>)
    ensures |rs| == |ns|
    ensures forall k :: 0 <= k < |ns| ==> rs[k] == ns[k].tiles
  {
    seq(|ns|, k requires 0 <= k < |ns| => ns[k].tiles)
  }

  function ParseRing(s: string): (r: Option<(seq<Axial>, string)>)
    ensures r.Some? ==> |r.value.1| < |s|
    decreases |s|
  {
    match ReadAxial(s)
    case None => None
    case Some((h, s1)) =>
      if |s1| > 0 && s1[0] == ' ' then
        match ParseRing(s1[1..])
        case None => None
        case Some((hs, s2)) => Some(([h] + hs, s2))
      else Some(([h], s1))
  }

  function ParseNeighbors(s: string): Option<seq<seq<Axial>>>
    decreases |s|
  {
    if s == LineEnd then Some([])
    else
      match ParseRing(s)
      case None => None
      case Some((hs, s1)) =>
        if |s1| > 0 && s1[0] == ':' then
          match ParseNeighbors(s1[1..])
          case None => None
          case Some(rs) => Some([hs] + rs)
        else if s1 == LineEnd then Some([hs])
        else None
  }

  /** The text after a ring: nothing that continues a coordinate or the ring. */
  predicate EndsRing(rest: string) {
    EndsNumber(rest) && (|rest| > 0 ==> rest[0] != ' ')
  }

  lemma {:induction false} ParseRingWritten(hs: seq<Axial>, rest: string)
    requires hs != [] && EndsRing(rest)
    ensures ParseRing(RingText(hs) + rest) == Some((hs, rest))
    decreases |hs|
  {
    if |hs| == 1 {
      ReadAxialWritten(hs[0], rest);
      assert [hs[0]] == hs;
    } else {
      ParseRingWritten(hs[1..], rest);
      RingTextCons(hs, rest);
      ParseRingStep(hs[0], RingText(hs[1..]), hs[1..], rest);
      assert [hs[0]] + hs[1..] == hs;
    }
  }

  /** One step of reading a ring of two or more hexes: the first hex, a space, the rest. */
  lemma ParseRingStep(h: Axial, t: string, hs: seq<Axial>, rest: string)
    requires ParseRing(t + rest) == Some((hs, rest))
    ensures ParseRing(AxialText(h) + (" " + (t + rest))) == Some(([h] + hs, rest))
  {
    var s1 := " " + (t + rest);
    ReadAxialWritten(h, s1);
    assert s1[1..] == t + rest;
    ParseRingUnfold(AxialText(h) + s1, h, s1, hs, rest);
  }

  lemma RingTextCons(hs: seq<Axial>, rest: string)
    requires |hs| >= 2
    ensures RingText(hs) + rest == AxialText(hs[0]) + (" " + (RingText(hs[1..]) + rest))
  {
    var a, t := AxialText(hs[0]), RingText(hs[1..]);
    Assoc(a, " " + t, rest);
    Assoc(" ", t, rest);
  }

  /** Concatenation is associative. */
  lemma Assoc(a: string, b: string, c: string)
    ensures (a + b) + c == a + (b + c)
  {
  }

  lemma ParseRingUnfold(s: string, h: Axial, s1: string, hs: seq<Axial>, rest: string)
    requires ReadAxial(s) == Some((h, s1)) && |s1| > 0 && s1[0] == ' '
    requires ParseRing(s1[1..]) == Some((hs, rest))
    ensures ParseRing(s) == Some(([h] + hs, rest))
  {
  }

  lemma {:induction false} ParseNeighborsWritten(ns: seq<TileNeighbors>)
    requires ns != []
    requires forall k :: 0 <= k < |ns| ==> ns[k].tiles != []
    ensures ParseNeighbors(NeighborsText(ns) + LineEnd) == Some(RingsOf(ns))
    decreases |ns|
  {
    if |ns| == 1 {
      ParseRingWritten(ns[0].tiles, LineEnd);
      assert (RingText(ns[0].tiles) + LineEnd)[0] != '\n';
      assert RingsOf(ns) == [ns[0].tiles];
    } else {
      ParseNeighborsWritten(ns[1..]);
      NeighborsTextCons(ns);
      var t := NeighborsText(ns[1..]);
      ParseRingWritten(ns[0].tiles, ":" + (t + LineEnd));
      ParseNeighborsStep(RingText(ns[0].tiles), ns[0].tiles, t, RingsOf(ns[1..]));
      RingsOfCons(ns);
    }
  }

  /** The rings of a tile's records are its first ring followed by the rings of the rest. */
  lemma RingsOfCons(ns: seq<TileNeighbors>)
    requires ns != []
    ensures [ns[0].tiles] + RingsOf(ns[1..]) == RingsOf(ns)
  {
    var a, b := [ns[0].tiles] + RingsOf(ns[1..]), RingsOf(ns);
    forall k | 0 <= k < |b|
      ensures a[k] == b[k]
    {
      if k > 0 {
        assert a[k] == RingsOf(ns[1..])[k - 1];
      }
    }
  }

  lemma NeighborsTextCons(ns: seq<TileNeighbors>)
    requires |ns| >= 2
    ensures NeighborsText(ns) + LineEnd ==
      RingText(ns[0].tiles) + (":" + (NeighborsText(ns[1..]) + LineEnd))
  {
    var a, t := RingText(ns[0].tiles), NeighborsText(ns[1..]);
    Assoc(a, ":" + t, LineEnd);
    Assoc(":", t, LineEnd);
  }

  /** One step of reading two or more rings: the first ring, a colon, the rest. */
  lemma ParseNeighborsStep(a: string, hs: seq<Axial>, t: string, rs: seq<seq<Axial>>)
    requires |a| > 0 && a[0] != '\n'
    requires ParseRing(a + (":" + (t + LineEnd))) == Some((hs, ":" + (t + LineEnd)))
    requires ParseNeighbors(t + LineEnd) == Some(rs)
    ensures ParseNeighbors(a + (":" + (t + LineEnd))) == Some([hs] + rs)
  {
    var s1 := ":" + (t + LineEnd);
    assert (a + s1)[0] != '\n';
    assert s1[1..] == t + LineEnd;
  }

  // ---------------------------------------------------------------------------------------
  // Tile rows
  // ---------------------------------------------------------------------------------------

  /** A tile row: the coordinate, a pipe, the position text, a pipe, the neighbour rings,
      the line end. */
  function TileRow(tile: HexTile, position: string): string {
    AxialText(tile.axialCoord) + (PipeDelim + (position + (PipeDelim + (NeighborsText(tile.neighbors) + LineEnd))))
  }

  /** Reads a tile row back into its coordinate, position text and rings. */
  function ParseTileRow(row: string): Option<(Axial, string, seq<seq<Axial>>)> {
    match ReadAxial(row)
    case None => None
    case Some((c, s1)) =>
      match Expect(s1, '|')
      case None => None
      case Some(s2) =>
        match SplitAt(s2, '|')
        case None => None
        case Some((position, s3)) =>
          match ParseNeighbors(s3)
          case None => None
          case Some(rs) => Some((c, position, rs))
  }

  /** A tile row whose position text holds no pipe reads back as the tile's coordinate, that
      text and the hex lists of its (non-empty) neighbour records. */
  lemma TileRowRoundTrip(tile: HexTile, position: string)
    requires '|' !in position
    requires forall k :: 0 <= k < |tile.neighbors| ==> tile.neighbors[k].tiles != []
    ensures ParseTileRow(TileRow(tile, position)) == Some((tile.axialCoord, position, RingsOf(tile.neighbors)))
  {
    var rest := NeighborsText(tile.neighbors) + LineEnd;
    var tail := "|" + (position + ("|" + rest));
    ReadAxialWritten(tile.axialCoord, tail);
    assert tail[1..] == position + ['|'] + rest;
    SplitAtWritten(position, '|', rest);
    if tile.neighbors == [] {
      assert rest == LineEnd;
    } else {
      ParseNeighborsWritten(tile.neighbors);
    }
  }

  /** `rows` is the whole tiles file: one row per tile, row u that of tile u. */
  ghost predicate TileFile(rows: seq<string>, tiles: seq<HexTile>, position: nat -> string) {
    && |rows| == |tiles|
    && forall u {:trigger TileRow(tiles[u], position(u))} :: 0 <= u < |tiles| ==> rows[u] == TileRow(tiles[u], position(u))
  }
  /** The whole tiles file. */
  ghost function TileFileOf(tiles: seq<HexTile>, position: nat -> string): (rows: seq<string>)
    ensures TileFile(rows, tiles, position)
  {
    seq(|tiles|, u requires 0 <= u < |tiles| => TileRow(tiles[u], position(u)))
  }


  /** The rings of radius 1 .. n around c, as a sequence. */
  function RingsUpTo(c: Axial, n: nat): (rs: seq<seq<Axial>>)
    ensures |rs| == n
  {
    seq(n, k requires 0 <= k < n => Ring(c, k + 1))
  }

  /** The records of a finished tile are non-empty and hold its rings 1 .. n in order. */
  lemma FinishedTileRings(coords: seq<Axial>, neighborRange: nat, u: nat)
    requires u < |coords|
    ensures FinishedTiles(coords, neighborRange)[u].axialCoord == coords[u]
    ensures forall k :: 0 <= k < |FinishedTiles(coords, neighborRange)[u].neighbors| ==>
      FinishedTiles(coords, neighborRange)[u].neighbors[k].tiles != []
    ensures RingsOf(FinishedTiles(coords, neighborRange)[u].neighbors) == RingsUpTo(coords[u], neighborRange)
  {
    var ns := FinishedTiles(coords, neighborRange)[u].neighbors;
    NeighborRecordsLength(coords[u], neighborRange);
    forall k | 0 <= k < |ns|
      ensures ns[k].tiles == Ring(coords[u], k + 1) && ns[k].tiles != []
    {
      FinishedTilesShape(coords, neighborRange, u, k + 1);
    }
  }

  /** Row u of the tiles file of a finished grid reads back as tile u's coordinate, its
      position text and its rings of radius 1 .. N in walk order. */
  lemma TileFileRow(coords: seq<Axial>, neighborRange: nat, position: nat -> string, u: nat)
    requires u < |coords| && '|' !in position(u)
    ensures ParseTileRow(TileFileOf(FinishedTiles(coords, neighborRange), position)[u])
         == Some((coords[u], position(u), RingsUpTo(coords[u], neighborRange)))
  {
    var tiles := FinishedTiles(coords, neighborRange);
    FinishedTileRings(coords, neighborRange, u);
    TileRowRoundTrip(tiles[u], position(u));
  }

  // ---------------------------------------------------------------------------------------
  // Tile-index, vertex and triangle files
  // ---------------------------------------------------------------------------------------

  /** Each vertex's text followed by a pipe. */
  function VerticesText(vs: seq<Vertex>, vertexText: Vertex -> string): string
    decreases |vs|
  {
    if vs == [] then "" else vertexText(vs[0]) + (PipeDelim + VerticesText(vs[1..], vertexText))
  }

  /** Appending a vertex appends its text and a pipe. */
  lemma {:induction false} VerticesTextSnoc(vs: seq<Vertex>, v: Vertex, vertexText: Vertex -> string)
    ensures VerticesText(vs + [v], vertexText) == VerticesText(vs, vertexText) + vertexText(v) + PipeDelim
    decreases |vs|
  {
    if vs != [] {
      assert (vs + [v])[1..] == vs[1..] + [v];
      VerticesTextSnoc(vs[1..], v, vertexText);
    }
  }

  /** The text of the first i + 1 vertices extends the text of the first i by vertex i. */
  lemma VerticesTextPrefix(vs: seq<Vertex>, i: nat, vertexText: Vertex -> string)
    requires i < |vs|
    ensures VerticesText(vs[..i + 1], vertexText) == VerticesText(vs[..i], vertexText) + vertexText(vs[i]) + PipeDelim
  {
    assert vs[..i + 1] == vs[..i] + [vs[i]];
    VerticesTextSnoc(vs[..i], vs[i], vertexText);
  }

  /** Tile u of a finished grid sits at coordinate u. */
  lemma FinishedTilesCoords(coords: seq<Axial>, neighborRange: nat)
    ensures forall u :: 0 <= u < |coords| ==> FinishedTiles(coords, neighborRange)[u].axialCoord == coords[u]
  {
    forall u | 0 <= u < |coords|
      ensures FinishedTiles(coords, neighborRange)[u].axialCoord == coords[u]
    {
      FinishedTileRings(coords, neighborRange, u);
    }
  }

  /** A vertex row: the twelve vertices of one tile, each followed by a pipe, then the line
      end; `vertexText` is the text of a vertex's three coordinates. */
  function VertexRow(vs: seq<Vertex>, vertexText: Vertex -> string): string {
    VerticesText(vs, vertexText) + LineEnd
  }

  /** Row u of the vertices file: vertices 12u .. 12u+11. */
  function VertexRowOf(vs: seq<Vertex>, vertexText: Vertex -> string, u: nat): string
    requires 12 * u + 12 <= |vs|
  {
    VertexRow(vs[12 * u..12 * u + 12], vertexText)
  }

  /** Row u of the triangles file: indices 36u .. 36u+35. */
  function TriangleRowOf(xs: seq<int>, u: nat): string
    requires 36 * u + 36 <= |xs|
  {
    TriangleRow(xs[36 * u..36 * u + 36])
  }

  /** `rows` is the whole vertices file: one row per twelve vertices. */
  ghost predicate VertexFile(rows: seq<string>, vs: seq<Vertex>, vertexText: Vertex -> string) {
    && |rows| == |vs| / 12
    && forall u {:trigger VertexRowOf(vs, vertexText, u)} :: 0 <= u < |rows| ==> rows[u] == VertexRowOf(vs, vertexText, u)
  }
  /** The whole vertices file. */
  ghost function VertexFileOf(vs: seq<Vertex>, vertexText: Vertex -> string): (rows: seq<string>)
    ensures VertexFile(rows, vs, vertexText)
  {
    seq(|vs| / 12, u requires 0 <= u < |vs| / 12 => VertexRowOf(vs, vertexText, u))
  }


  /** `rows` is the whole triangles file: one row per 36 indices. */
  ghost predicate TriangleFile(rows: seq<string>, xs: seq<int>) {
    && |rows| == |xs| / 36
    && forall u {:trigger TriangleRowOf(xs, u)} :: 0 <= u < |rows| ==> rows[u] == TriangleRowOf(xs, u)
  }
  /** The whole triangles file. */
  ghost function TriangleFileOf(xs: seq<int>): (rows: seq<string>)
    ensures TriangleFile(rows, xs)
  {
    seq(|xs| / 36, u requires 0 <= u < |xs| / 36 => TriangleRowOf(xs, u))
  }


  /** Row u of the vertices file of an n-tile mesh lists tile u's twelve vertices. */
  lemma VertexFileRow(n: nat, vertexText: Vertex -> string, u: nat)
    requires u < n
    ensures |VertexFileOf(MeshVertices(n), vertexText)| == n
    ensures VertexFileOf(MeshVertices(n), vertexText)[u] == VertexRow(TileVertices(u), vertexText)
  {
    var vs := MeshVertices(n);
    MeshTileVertices(n, u);
    assert VertexFileOf(vs, vertexText)[u] == VertexRowOf(vs, vertexText, u);
  }

  /** Row u of the triangles file of an n-tile mesh reads back as the 36 indices of tile u,
      all of them among that tile's vertices 12u .. 12u + 11. */
  lemma TriangleFileRow(n: nat, u: nat)
    requires u < n
    ensures |MeshTriangles(n)| == 36 * n
    ensures ParseTokens(TriangleFileOf(MeshTriangles(n))[u]) == Some(TileTriangles(12 * u))
    ensures |TileTriangles(12 * u)| == 36
    ensures forall x :: 0 <= x < 36 ==> 12 * u <= TileTriangles(12 * u)[x] < 12 * u + 12
  {
    var xs := MeshTriangles(n);
    MeshTrianglesLength(n);
    assert TriangleFileOf(xs)[u] == TriangleRowOf(xs, u);
    TileTrianglesBounds(12 * u);
    forall x | 0 <= x < 36 ensures xs[36 * u..36 * u + 36][x] == TileTriangles(12 * u)[x] {
      MeshTrianglesAt(n, u, x);
    }
    assert xs[36 * u..36 * u + 36] == TileTriangles(12 * u);
    TriangleRowRoundTrip(TileTriangles(12 * u));
  }

  /** The tile-index file of a grid reads back as the map from each coordinate to its tile
      index. */
  lemma IndexFileRoundTrip(gridRange: nat)
    ensures ReadIndexFile(IndexFileOf(GridCoords(gridRange)))
         == IndexMap(GridCoords(gridRange))
    ensures forall u :: 0 <= u < |GridCoords(gridRange)| ==>
      GridCoords(gridRange)[u] in ReadIndexFile(IndexFileOf(GridCoords(gridRange)))
      && ReadIndexFile(IndexFileOf(GridCoords(gridRange)))[GridCoords(gridRange)[u]] == u
  {
    var coords := GridCoords(gridRange);
    ReadIndexRows(coords, |coords|);
    assert coords[..|coords|] == coords && IndexFileOf(coords)[..|coords|] == IndexFileOf(coords);
    TileIndicesInvert(gridRange);
  }

  // ---------------------------------------------------------------------------------------
  // The params row
  // ---------------------------------------------------------------------------------------

  /** The params row: tile size, grid range, grid-line ratio, neighbour range, pipe-separated;
      the two real-valued fields arrive as text. */
  function ParamsRow(tileSizeText: string, gridRange: int, lineRatioText: string, neighborRange: int): string {
    tileSizeText + (PipeDelim + (IntToString(gridRange) + (PipeDelim + (lineRatioText
      + (PipeDelim + (IntToString(neighborRange) + LineEnd))))))
  }

  function ParseParamsRow(row: string): Option<(string, int, string, int)> {
    match SplitAt(row, '|')
    case None => None
    case Some((sizeText, s1)) =>
      match ReadInt(s1)
      case None => None
      case Some((gridRange, s2)) =>
        match Expect(s2, '|')
        case None => None
        case Some(s3) =>
          match SplitAt(s3, '|')
          case None => None
          case Some((ratioText, s4)) =>
            match ReadInt(s4)
            case None => None
            case Some((neighborRange, s5)) =>
              if s5 == LineEnd then Some((sizeText, gridRange, ratioText, neighborRange)) else None
  }

  /** The params row reads back as its four fields when the real-valued texts hold no pipe. */
  lemma ParamsRowRoundTrip(tileSizeText: string, gridRange: int, lineRatioText: string, neighborRange: int)
    requires '|' !in tileSizeText && '|' !in lineRatioText
    ensures ParseParamsRow(ParamsRow(tileSizeText, gridRange, lineRatioText, neighborRange))
         == Some((tileSizeText, gridRange, lineRatioText, neighborRange))
  {
    var n := IntToString(neighborRange) + LineEnd;
    var t2 := lineRatioText + ("|" + n);
    var g := IntToString(gridRange) + ("|" + t2);
    SplitAtWritten(tileSizeText, '|', g);
    assert tileSizeText + ("|" + g) == tileSizeText + ['|'] + g;
    ReadIntWritten(gridRange, "|" + t2);
    SplitAtWritten(lineRatioText, '|', n);
    assert t2 == lineRatioText + ['|'] + n;
    ReadIntWritten(neighborRange, LineEnd);
  }
}
