/**
 * The fixed 9x9 grid of the scoring board: which positions exist and which
 * positions touch or are near one another.
 *
 * The Python generator of the adjacency lists cannot run as written (it
 * calls `list.append` with two arguments); the model appends the position
 * the two arguments form. Its third branch adds `(x, y - 1)` where
 * `(x, y + 1)` is meant: `TouchingAsWritten` keeps that text and
 * `TouchingTypoShown` exhibits it, while `Touching` is the intended list that
 * the rest of the model uses.
 */
module Board9Grid {
  import opened Base

  /** The largest column and row index; the source hard-codes it. */
  const MaxIndex: int := 8

  predicate OnBoard(p: Position)
  {
    0 <= p.col <= MaxIndex && 0 <= p.row <= MaxIndex
  }

  /** The positions of the board. */
  function BoardPositions(): (s: set<Position>)
    ensures forall p :: p in s <==> OnBoard(p)
  {
    set c: int, r: int | 0 <= c <= MaxIndex && 0 <= r <= MaxIndex :: Position(c, r)
  }

  /** The positions in the order the constructor creates them: row by row,
      and within a row column by column. */
  function GridOrder(): (s: seq<Position>)
    ensures |s| == 81
    ensures forall i :: 0 <= i < 81 ==> s[i] == Position(i % 9, i / 9)
    ensures forall q :: q in s ==> OnBoard(q)
  {
    seq(81, i requires 0 <= i < 81 => Position(i % 9, i / 9))
  }

  /** The board holds exactly 81 positions, each created once. */
  lemma BoardHas81Positions()
    ensures Distinct(GridOrder())
    ensures Elements(GridOrder()) == BoardPositions()
    ensures |BoardPositions()| == 81
  {
    var g := GridOrder();
    forall i, j | 0 <= i < j < 81 ensures g[i] != g[j] {
      assert i == 9 * (i / 9) + i % 9 && j == 9 * (j / 9) + j % 9;
    }
    forall p | OnBoard(p) ensures p in Elements(g) {
      var i := 9 * p.row + p.col;
      assert i % 9 == p.col && i / 9 == p.row;
      assert g[i] == p;
    }
    DistinctCardinality(g);
  }

  /** Orthogonal neighbours, in the order the source lists them. */
  function Touching(p: Position): (r: seq<Position>)
    ensures |r| <= 4
    ensures OnBoard(p) ==> forall q :: q in r ==> OnBoard(q)
  {
    (if p.col < MaxIndex then [Position(p.col + 1, p.row)] else []) +
    (if p.col > 0 then [Position(p.col - 1, p.row)] else []) +
    (if p.row < MaxIndex then [Position(p.col, p.row + 1)] else []) +
    (if p.row > 0 then [Position(p.col, p.row - 1)] else [])
  }

  /** Diagonal ("corner") neighbours, in the order the source lists them. */
  function Corners(p: Position): (r: seq<Position>)
    ensures |r| <= 4
    ensures OnBoard(p) ==> forall q :: q in r ==> OnBoard(q)
  {
    (if p.col < MaxIndex && p.row < MaxIndex then [Position(p.col + 1, p.row + 1)] else []) +
    (if p.col < MaxIndex && p.row > 0 then [Position(p.col + 1, p.row - 1)] else []) +
    (if p.col > 0 && p.row < MaxIndex then [Position(p.col - 1, p.row + 1)] else []) +
    (if p.col > 0 && p.row > 0 then [Position(p.col - 1, p.row - 1)] else [])
  }

  /** Touching followed by corners: the tile's `get_nearby`. */
  function Nearby(p: Position): (r: seq<Position>)
    ensures |r| <= 8
    ensures OnBoard(p) ==> forall q :: q in r ==> OnBoard(q)
  {
    Touching(p) + Corners(p)
  }

  /** The touching list holds exactly the on-board positions at distance 1,
      each once. */
  lemma TouchingIsOrthogonalRing(p: Position, q: Position)
    requires OnBoard(p)
    ensures q in Touching(p) <==> OnBoard(q) && Manhattan(p, q) == 1
    ensures Distinct(Touching(p))
  {
  }

  /** The corner list holds exactly the on-board diagonal neighbours, each
      once. */
  lemma CornersAreDiagonalRing(p: Position, q: Position)
    requires OnBoard(p)
    ensures q in Corners(p) <==> OnBoard(q) && Abs(p.col - q.col) == 1 && Abs(p.row - q.row) == 1
    ensures Distinct(Corners(p))
  {
  }

  /** `q` is on the board, in the 3x3 block around `p`, and is not `p`. */
  predicate InRing(p: Position, q: Position)
  {
    OnBoard(q) && q != p && Abs(p.col - q.col) <= 1 && Abs(p.row - q.row) <= 1
  }

  /** The nearby list is the 3x3 block around `p`, cut to the board, without
      `p` itself; no position appears twice. */
  lemma NearbyIsBlock(p: Position, q: Position)
    requires OnBoard(p)
    ensures q in Nearby(p) <==> InRing(p, q)
    ensures Distinct(Nearby(p))
  {
    TouchingIsOrthogonalRing(p, q);
    CornersAreDiagonalRing(p, q);
    var t, c := Touching(p), Corners(p);
    forall i, j | 0 <= i < j < |t + c| ensures (t + c)[i] != (t + c)[j] {
      TouchingIsOrthogonalRing(p, (t + c)[i]);
      CornersAreDiagonalRing(p, (t + c)[j]);
    }
  }

  /** Touching is symmetric. */
  lemma TouchingSymmetric(p: Position, q: Position)
    requires OnBoard(p) && OnBoard(q)
    ensures q in Touching(p) <==> p in Touching(q)
  {
    TouchingIsOrthogonalRing(p, q);
    TouchingIsOrthogonalRing(q, p);
  }

  /** Every step along a touching edge changes the distance to a fixed
      position by exactly one. */
  lemma TouchingStep(pos: Position, x: Position, z: Position)
    requires OnBoard(x) && z in Touching(x)
    ensures Manhattan(pos, z) == Manhattan(pos, x) + 1 || Manhattan(pos, z) + 1 == Manhattan(pos, x)
  {
  }

  /** A touching neighbour of `y` one step closer to `pos`: the grid is
      connected, and its graph distance is the Manhattan distance. */
  function Toward(pos: Position, y: Position): (z: Position)
    requires OnBoard(pos) && OnBoard(y) && y != pos
    ensures OnBoard(z) && z in Touching(y) && y in Touching(z)
    ensures Manhattan(pos, z) + 1 == Manhattan(pos, y)
  {
    if y.col < pos.col then Position(y.col + 1, y.row)
    else if y.col > pos.col then Position(y.col - 1, y.row)
    else if y.row < pos.row then Position(y.col, y.row + 1)
    else Position(y.col, y.row - 1)
  }

  /** A set of positions that contains `pos` and every touching neighbour of
      its members contains the whole board. */
  lemma {:induction false} ClosedSetCoversBoard(pos: Position, s: set<Position>, y: Position)
    requires OnBoard(pos) && pos in s
    requires forall q, z :: q in s && OnBoard(q) && z in Touching(q) ==> z in s
    requires OnBoard(y)
    ensures y in s
    decreases Manhattan(pos, y)
  {
    if y != pos {
      var z := Toward(pos, y);
      ClosedSetCoversBoard(pos, s, z);
    }
  }

  // ----- the generator as written -----

  /** The touching list as the source writes it: the `y < 8` branch repeats
      the offset `y - 1` of the `y > 0` branch. */
  function TouchingAsWritten(p: Position): (r: seq<Position>)
    ensures |r| <= 4
  {
    (if p.col < MaxIndex then [Position(p.col + 1, p.row)] else []) +
    (if p.col > 0 then [Position(p.col - 1, p.row)] else []) +
    (if p.row < MaxIndex then [Position(p.col, p.row - 1)] else []) +
    (if p.row > 0 then [Position(p.col, p.row - 1)] else [])
  }

  /** As written, the corner tile (0, 0) lists the off-board position (0, -1),
      whose lookup raises, and misses its neighbour (0, 1); an inner tile lists
      its upper neighbour twice. */
  lemma TouchingTypoShown()
    ensures TouchingAsWritten(Position(0, 0)) == [Position(1, 0), Position(0, -1)]
    ensures !OnBoard(Position(0, -1)) && Position(0, 1) !in TouchingAsWritten(Position(0, 0))
    ensures Position(0, 1) in Touching(Position(0, 0))
    ensures !Distinct(TouchingAsWritten(Position(4, 4)))
  {
    var t := TouchingAsWritten(Position(4, 4));
    assert t[2] == t[3];
  }
}
