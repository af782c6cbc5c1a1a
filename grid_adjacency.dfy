/**
 * Adjacency information of the parametric boards of the two later drafts:
 * the rule-driven board and the tile-type board. For a position it lists the
 * orthogonal neighbours ("adjacent"), the diagonal neighbours ("near"), the
 * other positions of its column and the other positions of its row, each cut
 * to a board of `colNum` columns and `rowNum` rows.
 *
 * `Adjacency` is the table both drafts evidently intend, and their boards
 * use it. Each draft gets it wrong in its own way; `MiniAdjacencyAsWritten`
 * and `TinyAdjacencyAsWritten` keep the two texts, and the lemmas after them
 * exhibit the differences.
 */
module GridAdjacency {
  import opened Base
  import Board9Grid

  datatype AdjacencyInfo = AdjacencyInfo(adj: seq<Position>, near: seq<Position>, col: seq<Position>, row: seq<Position>)

  predicate InBounds(colNum: int, rowNum: int, p: Position)
  {
    0 <= p.col < colNum && 0 <= p.row < rowNum
  }

  /** A map with an entry for every in-bounds position. */
  ghost predicate Covers<V>(colNum: int, rowNum: int, m: map<Position, V>)
  {
    forall q :: InBounds(colNum, rowNum, q) ==> q in m
  }

  /** Orthogonal neighbours: right, left, down, up. */
  function AdjacentOf(colNum: int, rowNum: int, p: Position): seq<Position>
  {
    (if p.col < colNum - 1 then [Position(p.col + 1, p.row)] else []) +
    (if p.col > 0 then [Position(p.col - 1, p.row)] else []) +
    (if p.row < rowNum - 1 then [Position(p.col, p.row + 1)] else []) +
    (if p.row > 0 then [Position(p.col, p.row - 1)] else [])
  }

  /** Diagonal neighbours. */
  function NearOf(colNum: int, rowNum: int, p: Position): seq<Position>
  {
    (if p.col < colNum - 1 && p.row < rowNum - 1 then [Position(p.col + 1, p.row + 1)] else []) +
    (if p.col < colNum - 1 && p.row > 0 then [Position(p.col + 1, p.row - 1)] else []) +
    (if p.col > 0 && p.row < rowNum - 1 then [Position(p.col - 1, p.row + 1)] else []) +
    (if p.col > 0 && p.row > 0 then [Position(p.col - 1, p.row - 1)] else [])
  }

  /** The positions `(p.col, r)` with `0 <= r < n` and `r != p.row`, by
      increasing `r`. */
  function ColumnUpTo(p: Position, n: int): seq<Position>
    decreases n
  {
    if n <= 0 then [] else ColumnUpTo(p, n - 1) + (if n - 1 != p.row then [Position(p.col, n - 1)] else [])
  }

  /** The positions `(c, p.row)` with `0 <= c < n` and `c != p.col`, by
      increasing `c`. */
  function RowUpTo(p: Position, n: int): seq<Position>
    decreases n
  {
    if n <= 0 then [] else RowUpTo(p, n - 1) + (if n - 1 != p.col then [Position(n - 1, p.row)] else [])
  }

  /** The intended table of a position. */
  function Adjacency(colNum: int, rowNum: int, p: Position): AdjacencyInfo
  {
    AdjacencyInfo(AdjacentOf(colNum, rowNum, p), NearOf(colNum, rowNum, p), ColumnUpTo(p, rowNum), RowUpTo(p, colNum))
  }

  /** The adjacent list holds exactly the in-bounds positions at distance 1,
      each once. */
  lemma AdjacentIsOrthogonalRing(colNum: int, rowNum: int, p: Position, q: Position)
    requires InBounds(colNum, rowNum, p)
    ensures q in AdjacentOf(colNum, rowNum, p) <==> InBounds(colNum, rowNum, q) && Manhattan(p, q) == 1
    ensures |AdjacentOf(colNum, rowNum, p)| <= 4 && Distinct(AdjacentOf(colNum, rowNum, p))
  {
  }

  /** The near list holds exactly the in-bounds diagonal neighbours, each
      once. */
  lemma NearIsDiagonalRing(colNum: int, rowNum: int, p: Position, q: Position)
    requires InBounds(colNum, rowNum, p)
    ensures q in NearOf(colNum, rowNum, p) <==>
              InBounds(colNum, rowNum, q) && Abs(p.col - q.col) == 1 && Abs(p.row - q.row) == 1
    ensures |NearOf(colNum, rowNum, p)| <= 4 && Distinct(NearOf(colNum, rowNum, p))
  {
  }

  /** The column list holds the other positions of the column below row `n`,
      each once, and there are `n - 1` of them when `p` lies below `n`. */
  lemma {:induction false} ColumnUpToIsColumn(p: Position, n: int, q: Position)
    ensures q in ColumnUpTo(p, n) <==> q.col == p.col && 0 <= q.row < n && q.row != p.row
    ensures Distinct(ColumnUpTo(p, n))
    ensures |ColumnUpTo(p, n)| == if n <= 0 then 0 else if 0 <= p.row < n then n - 1 else n
    decreases n
  {
    if n > 0 {
      ColumnUpToIsColumn(p, n - 1, q);
      ColumnUpToIsColumn(p, n - 1, Position(p.col, n - 1));
    }
  }

  /** The row list holds the other positions of the row left of column `n`,
      each once, and there are `n - 1` of them when `p` lies left of `n`. */
  lemma {:induction false} RowUpToIsRow(p: Position, n: int, q: Position)
    ensures q in RowUpTo(p, n) <==> q.row == p.row && 0 <= q.col < n && q.col != p.col
    ensures Distinct(RowUpTo(p, n))
    ensures |RowUpTo(p, n)| == if n <= 0 then 0 else if 0 <= p.col < n then n - 1 else n
    decreases n
  {
    if n > 0 {
      RowUpToIsRow(p, n - 1, q);
      RowUpToIsRow(p, n - 1, Position(n - 1, p.row));
    }
  }

  /** Every position the intended table of an in-bounds position lists is in
      bounds, so looking it up never raises. */
  lemma AdjacencyInBounds(colNum: int, rowNum: int, p: Position)
    requires InBounds(colNum, rowNum, p)
    ensures var info := Adjacency(colNum, rowNum, p);
      forall q :: q in info.adj + info.near + info.col + info.row ==> InBounds(colNum, rowNum, q)
  {
    var info := Adjacency(colNum, rowNum, p);
    forall q | q in info.adj + info.near + info.col + info.row ensures InBounds(colNum, rowNum, q) {
      AdjacentIsOrthogonalRing(colNum, rowNum, p, q);
      NearIsDiagonalRing(colNum, rowNum, p, q);
      ColumnUpToIsColumn(p, rowNum, q);
      RowUpToIsRow(p, colNum, q);
    }
  }

  /** On a 9x9 board the intended table agrees with the fixed scoring
      board's touching and corner lists. */
  lemma NineByNineAgrees(p: Position)
    requires Board9Grid.OnBoard(p)
    ensures AdjacentOf(9, 9, p) == Board9Grid.Touching(p)
    ensures NearOf(9, 9, p) == Board9Grid.Corners(p)
  {
  }

  /** `_generate_adjacency_info`: the neighbour tests, then a loop over the
      rows for the column list and a loop over the columns for the row
      list. */
  method GenerateAdjacencyInfo(colNum: int, rowNum: int, p: Position) returns (info: AdjacencyInfo)
    ensures info == Adjacency(colNum, rowNum, p)
  {
    var adj := AdjacentList(colNum, rowNum, p);
    var near := NearList(colNum, rowNum, p);
    var col := ColumnList(rowNum, p);
    var row := RowList(colNum, p);
    info := AdjacencyInfo(adj, near, col, row);
  }

  method AdjacentList(colNum: int, rowNum: int, p: Position) returns (adj: seq<Position>)
    ensures adj == AdjacentOf(colNum, rowNum, p)
  {
    adj := [];
    if p.col < colNum - 1 { adj := adj + [Position(p.col + 1, p.row)]; }
    if p.col > 0 { adj := adj + [Position(p.col - 1, p.row)]; }
    if p.row < rowNum - 1 { adj := adj + [Position(p.col, p.row + 1)]; }
    if p.row > 0 { adj := adj + [Position(p.col, p.row - 1)]; }
  }

  method NearList(colNum: int, rowNum: int, p: Position) returns (near: seq<Position>)
    ensures near == NearOf(colNum, rowNum, p)
  {
    near := [];
    if p.col < colNum - 1 && p.row < rowNum - 1 { near := near + [Position(p.col + 1, p.row + 1)]; }
    if p.col < colNum - 1 && p.row > 0 { near := near + [Position(p.col + 1, p.row - 1)]; }
    if p.col > 0 && p.row < rowNum - 1 { near := near + [Position(p.col - 1, p.row + 1)]; }
    if p.col > 0 && p.row > 0 { near := near + [Position(p.col - 1, p.row - 1)]; }
  }

  method ColumnList(rowNum: int, p: Position) returns (col: seq<Position>)
    ensures col == ColumnUpTo(p, rowNum)
  {
    col := [];
    var r := 0;
    while r < rowNum
      invariant 0 <= r && (r <= rowNum || r == 0)
      invariant col == ColumnUpTo(p, r)
    {
      if r != p.row {
        col := col + [Position(p.col, r)];
      }
      r := r + 1;
    }
  }

  method RowList(colNum: int, p: Position) returns (row: seq<Position>)
    ensures row == RowUpTo(p, colNum)
  {
    row := [];
    var c := 0;
    while c < colNum
      invariant 0 <= c && (c <= colNum || c == 0)
      invariant row == RowUpTo(p, c)
    {
      if c != p.col {
        row := row + [Position(c, p.row)];
      }
      c := c + 1;
    }
  }

  // ----- the order of the board positions -----

  /** The positions `(0, r)` to `(n - 1, r)`, left to right. */
  function CellsOfRow(r: int, n: int): seq<Position>
    decreases n
  {
    if n <= 0 then [] else CellsOfRow(r, n - 1) + [Position(n - 1, r)]
  }

  /** The positions of rows `0` to `m - 1`, row by row: the order in which
      both parametric boards insert their tiles, and so the order of the keys. */
  function RowMajor(colNum: int, m: int): seq<Position>
    decreases m
  {
    if m <= 0 then [] else RowMajor(colNum, m - 1) + CellsOfRow(m - 1, colNum)
  }

  lemma {:induction false} CellsOfRowMembers(r: int, n: int)
    ensures forall q :: q in CellsOfRow(r, n) <==> q.row == r && 0 <= q.col < n
    ensures Distinct(CellsOfRow(r, n))
    ensures |CellsOfRow(r, n)| == if n <= 0 then 0 else n
    decreases n
  {
    if n > 0 {
      CellsOfRowMembers(r, n - 1);
      DistinctConcat(CellsOfRow(r, n - 1), [Position(n - 1, r)]);
    }
  }

  /** The keys are exactly the in-bounds positions, each once: `colNum *
      rowNum` of them. */
  lemma {:induction false} RowMajorMembers(colNum: int, m: int)
    ensures forall q :: q in RowMajor(colNum, m) <==> InBounds(colNum, m, q)
    ensures Distinct(RowMajor(colNum, m))
    ensures |RowMajor(colNum, m)| == if colNum <= 0 || m <= 0 then 0 else colNum * m
    decreases m
  {
    if m > 0 {
      RowMajorMembers(colNum, m - 1);
      CellsOfRowMembers(m - 1, colNum);
      DistinctConcat(RowMajor(colNum, m - 1), CellsOfRow(m - 1, colNum));
      if colNum > 0 {
        assert colNum * m == colNum * (m - 1) + colNum;
      }
    }
  }

  // ----- the two drafts as written -----

  /** The positions `(p.row, c)` with `0 <= c < n` and `c != p.col`: the row
      list with its coordinates swapped, as both drafts build it. */
  function RowSwappedUpTo(p: Position, n: int): seq<Position>
    decreases n
  {
    if n <= 0 then [] else RowSwappedUpTo(p, n - 1) + (if n - 1 != p.col then [Position(p.row, n - 1)] else [])
  }

  /** The rule-driven draft's table: its bounds are the constant 8 instead of
      the board's size, its up and down offsets are exchanged, and its row
      list swaps the coordinates. */
  function MiniAdjacencyAsWritten(colNum: int, rowNum: int, p: Position): AdjacencyInfo
  {
    AdjacencyInfo(
      (if p.col < 8 then [Position(p.col + 1, p.row)] else []) +
      (if p.col > 0 then [Position(p.col - 1, p.row)] else []) +
      (if p.row < 8 then [Position(p.col, p.row - 1)] else []) +
      (if p.row > 0 then [Position(p.col, p.row + 1)] else []),
      NearOf(9, 9, p),
      ColumnUpTo(p, rowNum),
      RowSwappedUpTo(p, colNum))
  }

  /** The tile-type draft's table: its neighbour lists are right, but its
      column and row loops stop one short, and its row list swaps the
      coordinates. */
  function TinyAdjacencyAsWritten(colNum: int, rowNum: int, p: Position): AdjacencyInfo
  {
    AdjacencyInfo(AdjacentOf(colNum, rowNum, p), NearOf(colNum, rowNum, p),
                  ColumnUpTo(p, rowNum - 1), RowSwappedUpTo(p, colNum - 1))
  }

  /** On a 5x5 board the rule-driven draft gives the corner (0, 0) the
      neighbour (0, -1), whose lookup raises, instead of (0, 1). */
  lemma MiniCornerShown()
    ensures MiniAdjacencyAsWritten(5, 5, Position(0, 0)).adj == [Position(1, 0), Position(0, -1)]
    ensures !InBounds(5, 5, Position(0, -1))
    ensures Adjacency(5, 5, Position(0, 0)).adj == [Position(1, 0), Position(0, 1)]
  {
  }

  /** On a 5x5 board the rule-driven draft gives the right edge (4, 2) the
      neighbour (5, 2), off the board. */
  lemma MiniEdgeShown()
    ensures Position(5, 2) in MiniAdjacencyAsWritten(5, 5, Position(4, 2)).adj
    ensures !InBounds(5, 5, Position(5, 2))
  {
    assert MiniAdjacencyAsWritten(5, 5, Position(4, 2)).adj[0] == Position(5, 2);
  }

  /** On a 5x5 board the rule-driven draft's row list of (0, 2) names
      positions of column 2 instead of row 2. */
  lemma MiniRowShown()
    ensures MiniAdjacencyAsWritten(5, 5, Position(0, 2)).row == [Position(2, 1), Position(2, 2), Position(2, 3), Position(2, 4)]
    ensures Adjacency(5, 5, Position(0, 2)).row == [Position(1, 2), Position(2, 2), Position(3, 2), Position(4, 2)]
  {
    var p := Position(0, 2);
    assert RowSwappedUpTo(p, 1) == [];
    assert RowSwappedUpTo(p, 2) == [Position(2, 1)];
    assert RowSwappedUpTo(p, 3) == [Position(2, 1), Position(2, 2)];
    assert RowSwappedUpTo(p, 4) == [Position(2, 1), Position(2, 2), Position(2, 3)];
    assert RowUpTo(p, 1) == [];
    assert RowUpTo(p, 2) == [Position(1, 2)];
    assert RowUpTo(p, 3) == [Position(1, 2), Position(2, 2)];
    assert RowUpTo(p, 4) == [Position(1, 2), Position(2, 2), Position(3, 2)];
  }

  /** On a 3x3 board the tile-type draft leaves (0, 2) out of the column of
      (0, 0), and its row list for (0, 0) is the column neighbour (0, 1)
      instead of (1, 0) and (2, 0). */
  lemma TinyAdjacencyShown()
    ensures TinyAdjacencyAsWritten(3, 3, Position(0, 0)).col == [Position(0, 1)]
    ensures Adjacency(3, 3, Position(0, 0)).col == [Position(0, 1), Position(0, 2)]
    ensures TinyAdjacencyAsWritten(3, 3, Position(0, 0)).row == [Position(0, 1)]
    ensures Adjacency(3, 3, Position(0, 0)).row == [Position(1, 0), Position(2, 0)]
  {
    assert ColumnUpTo(Position(0, 0), 1) == [];
    assert RowUpTo(Position(0, 0), 1) == [];
    assert RowSwappedUpTo(Position(0, 0), 1) == [];
  }
}
