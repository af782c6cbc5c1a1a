/**
 * The board of the tile-type draft: `colNum` columns by `rowNum` rows of
 * tiles, built once by the constructor, with a bounds-checked lookup, the
 * Houses score and the placement of a type on a vacant tile.
 *
 * The draft's `Position` has no equality or hash, so its dictionary could
 * only be read back with the very objects the constructor made; the model
 * compares positions by value, as the lookup's comment intends. Its
 * adjacency loops stop one row and one column short and swap the row
 * coordinates (`GridAdjacency.TinyAdjacencyAsWritten`); the board uses the
 * intended table.
 */
module TinyBoard {
  import opened Base
  import opened GridAdjacency
  import opened TinyTile

  const HousesRewardPerUniqueTypeNearby := 2

  /** The observable state of one tile. */
  datatype Cell = Cell(kind: TileType, occupied: bool, onIsland: bool, valid: bool)

  /** The types at the positions `ps`, in order. */
  function KindsAt(cells: map<Position, Cell>, ps: seq<Position>): seq<TileType>
    requires forall p :: p in ps ==> p in cells
  {
    seq(|ps|, i requires 0 <= i < |ps| => cells[ps[i]].kind)
  }

  /** The different types other than EMPTY among `kinds`. */
  function TypesAround(kinds: seq<TileType>): set<TileType>
  {
    set t | t in kinds && t != EmptyType
  }

  /** Houses: 2 for every different non-empty type among the neighbours. */
  function HousesScoreOf(kinds: seq<TileType>): int
  {
    HousesRewardPerUniqueTypeNearby * |TypesAround(kinds)|
  }

  /** The Houses score of the tile at `p`, from the types of its adjacent
      and near tiles. */
  function HousesScoreAt(colNum: int, rowNum: int, cells: map<Position, Cell>, p: Position): (r: int)
    requires Covers(colNum, rowNum, cells) && InBounds(colNum, rowNum, p)
    ensures r % 2 == 0 && 0 <= r <= 14
  {
    AdjacencyInBounds(colNum, rowNum, p);
    var info := Adjacency(colNum, rowNum, p);
    HousesScoreBounds(KindsAt(cells, info.adj + info.near));
    HousesScoreOf(KindsAt(cells, info.adj + info.near))
  }

  /** The Houses score is even, at most 14 (there are seven placeable
      types) and at most twice the number of neighbours. */
  lemma HousesScoreBounds(kinds: seq<TileType>)
    ensures HousesScoreOf(kinds) % 2 == 0
    ensures 0 <= HousesScoreOf(kinds) <= 14
    ensures HousesScoreOf(kinds) <= 2 * |kinds|
  {
    PlacedTypesCount();
    assert TypesAround(kinds) <= PlacedTypes;
    SubsetCardinality(TypesAround(kinds), PlacedTypes);
    assert TypesAround(kinds) <= Elements(kinds);
    SubsetCardinality(TypesAround(kinds), Elements(kinds));
    ElementsCardinality(kinds);
  }

  /** The Houses score only depends on which types are around, not on how
      often or in which order they appear. */
  lemma HousesScoreBySet(a: seq<TileType>, b: seq<TileType>)
    requires forall t :: t in a <==> t in b
    ensures HousesScoreOf(a) == HousesScoreOf(b)
  {
    assert TypesAround(a) == TypesAround(b);
  }

  /** `unique` lists each non-empty type of `kinds` once: the invariant of
      the Houses loop. */
  ghost predicate UniqueTypes(unique: seq<TileType>, kinds: seq<TileType>)
  {
    Distinct(unique) && forall t :: t in unique <==> t in kinds && t != EmptyType
  }

  /** Recording the type of the next neighbour, when it is new and not
      empty, keeps the list complete and free of repetitions. */
  lemma UniqueTypesStep(unique: seq<TileType>, kinds: seq<TileType>, i: nat)
    requires i < |kinds| && UniqueTypes(unique, kinds[..i])
    ensures UniqueTypes(if kinds[i] !in unique && kinds[i] != EmptyType then unique + [kinds[i]] else unique, kinds[..i + 1])
  {
    assert kinds[..i + 1] == kinds[..i] + [kinds[i]];
  }

  /** The list is as long as the set of types around is large. */
  lemma UniqueTypesCount(unique: seq<TileType>, kinds: seq<TileType>)
    requires UniqueTypes(unique, kinds)
    ensures |unique| == |TypesAround(kinds)|
  {
    DistinctCardinality(unique);
    assert Elements(unique) == TypesAround(kinds);
  }

  /** The state of the tiles the constructor has made for rows `0` to
      `r - 1` and the first `c` columns of row `r`: one default tile per
      such position, keyed by its position and carrying its adjacency
      table. */
  ghost predicate Filled(colNum: int, rowNum: int, r: int, c: int, m: map<Position, TileData>, ks: seq<Position>)
    reads m.Values
  {
    && ks == RowMajor(colNum, r) + CellsOfRow(r, c)
    && (forall p {:trigger p in m} :: p in m <==> InBounds(colNum, r, p) || (p.row == r && 0 <= p.col < c))
    && (forall p :: p in m ==> m[p].pos == p && m[p].adjInfo == Adjacency(colNum, rowNum, p))
    && (forall p :: p in m ==> !m[p].isOccupied && !m[p].onIsland && m[p].kind == EmptyType && m[p].isValid)
  }

  /** Adding the tile of `(c, r)` extends what has been filled by one. */
  lemma FillStep(colNum: int, rowNum: int, r: int, c: int, m: map<Position, TileData>, ks: seq<Position>, tile: TileData)
    requires 0 <= r && 0 <= c
    requires Filled(colNum, rowNum, r, c, m, ks)
    requires tile.pos == Position(c, r) && tile.adjInfo == Adjacency(colNum, rowNum, Position(c, r))
    requires !tile.isOccupied && !tile.onIsland && tile.kind == EmptyType && tile.isValid
    ensures Filled(colNum, rowNum, r, c + 1, m[Position(c, r) := tile], ks + [Position(c, r)])
  {
    assert RowMajor(colNum, r) + CellsOfRow(r, c) + [Position(c, r)] == RowMajor(colNum, r) + CellsOfRow(r, c + 1);
  }

  /** A finished row is the start of the next one. */
  lemma FillRowDone(colNum: int, rowNum: int, r: int, m: map<Position, TileData>, ks: seq<Position>)
    requires 0 <= r
    requires Filled(colNum, rowNum, r, colNum, m, ks)
    ensures Filled(colNum, rowNum, r + 1, 0, m, ks)
  {
    assert RowMajor(colNum, r + 1) == RowMajor(colNum, r) + CellsOfRow(r, colNum);
  }

  /** One pass of the constructor's inner loop: the tiles of row `r`, left
      to right. */
  method FillRow(colNum: int, rowNum: int, r: int, m: map<Position, TileData>, ks: seq<Position>)
    returns (m': map<Position, TileData>, ks': seq<Position>)
    requires 0 <= r
    requires Filled(colNum, rowNum, r, 0, m, ks)
    ensures Filled(colNum, rowNum, r + 1, 0, m', ks')
  {
    m', ks' := m, ks;
    var c := 0;
    while c < colNum
      invariant 0 <= c && (c <= colNum || c == 0)
      invariant Filled(colNum, rowNum, r, c, m', ks')
    {
      var pos := Position(c, r);
      var info := GenerateAdjacencyInfo(colNum, rowNum, pos);
      var tile := new TileData.Default(pos, info);
      FillStep(colNum, rowNum, r, c, m', ks', tile);
      m' := m'[pos := tile];
      ks' := ks' + [pos];
      c := c + 1;
    }
    if colNum <= 0 {
      assert forall p :: p in m' <==> InBounds(colNum, r + 1, p);
    }
    FillRowDone(colNum, rowNum, r, m', ks');
  }

  class Board {
    const colNum: int
    const rowNum: int
    const tileMap: map<Position, TileData>
    /** The dictionary's keys in insertion order. */
    const keys: seq<Position>

    /** One tile per in-bounds position, keyed by its own position and
        carrying the adjacency table of that position; the keys list each
        position once, row by row. */
    ghost predicate Valid()
    {
      && keys == RowMajor(colNum, rowNum)
      && (forall p {:trigger p in tileMap} :: p in tileMap <==> InBounds(colNum, rowNum, p))
      && (forall p :: p in tileMap ==> tileMap[p].pos == p && tileMap[p].adjInfo == Adjacency(colNum, rowNum, p))
      && (forall p :: p in keys <==> p in tileMap) && Distinct(keys)
    }

    /** Every tile's type and flags. */
    function Cells(): map<Position, Cell>
      reads tileMap.Values
    {
      map p | p in tileMap :: Cell(tileMap[p].kind, tileMap[p].isOccupied, tileMap[p].onIsland, tileMap[p].isValid)
    }

    /** A new board has one default tile for every `(c, r)` with
        `0 <= c < colNum` and `0 <= r < rowNum`, and no other. */
    constructor(colNum: int, rowNum: int)
      ensures this.colNum == colNum && this.rowNum == rowNum
      ensures Valid()
      ensures |keys| == if colNum <= 0 || rowNum <= 0 then 0 else colNum * rowNum
      ensures forall p :: p in Cells() ==> Cells()[p] == Cell(EmptyType, false, false, true)
    {
      var m: map<Position, TileData> := map[];
      var ks: seq<Position> := [];
      var r := 0;
      while r < rowNum
        invariant 0 <= r && (r <= rowNum || r == 0)
        invariant Filled(colNum, rowNum, r, 0, m, ks)
      {
        m, ks := FillRow(colNum, rowNum, r, m, ks);
        r := r + 1;
      }
      RowMajorMembers(colNum, rowNum);
      this.colNum := colNum;
      this.rowNum := rowNum;
      tileMap := m;
      keys := ks;
    }

    /** `_get_tile_at_position`: the tile at an in-bounds position, and an
        error for any other. */
    function TileAt(pos: Position): (r: Result<TileData>)
      requires Valid()
      ensures r.Ok? <==> InBounds(colNum, rowNum, pos)
      ensures r.Ok? ==> r.value.pos == pos && r.value in tileMap.Values
      ensures r.Err? ==> r.error == PositionOutsideBoard
    {
      if pos.col < 0 || pos.row < 0 || pos.col >= colNum || pos.row >= rowNum then Err(PositionOutsideBoard)
      else Ok(tileMap[pos])
    }

    /** The type of the tile at an in-bounds position. */
    method KindAt(p: Position) returns (t: TileType)
      requires Valid() && InBounds(colNum, rowNum, p)
      ensures p in Cells() && t == Cells()[p].kind
    {
      t := TileAt(p).value.kind;
    }

    /** `_get_score_helper_houses`: 2 for every different non-empty type
        among the tile's adjacent and near tiles. */
    method HousesScore(tile: TileData) returns (s: int)
      requires Valid()
      requires tile.pos in tileMap && tileMap[tile.pos] == tile
      ensures s == HousesScoreAt(colNum, rowNum, Cells(), tile.pos)
    {
      AdjacencyInBounds(colNum, rowNum, tile.pos);
      var around := tile.adjInfo.adj + tile.adjInfo.near;
      ghost var kinds := KindsAt(Cells(), around);
      var matches := 0;
      var unique: seq<TileType> := [];
      var i := 0;
      while i < |around|
        invariant 0 <= i <= |around|
        invariant UniqueTypes(unique, kinds[..i]) && matches == |unique|
      {
        var tarType := KindAt(around[i]);
        assert tarType == kinds[i];
        UniqueTypesStep(unique, kinds, i);
        if tarType !in unique && tarType != EmptyType {
          matches := matches + 1;
          unique := unique + [tarType];
        }
        i := i + 1;
      }
      assert kinds[..i] == kinds;
      UniqueTypesCount(unique, kinds);
      s := HousesRewardPerUniqueTypeNearby * matches;
    }

    /** `add_tile_type`: outside the board, on an occupied tile or with the
        empty type, the error is reported and nothing changes; otherwise the
        tile at `pos` takes the type and becomes occupied, and nothing else
        changes. */
    method AddTileType(tileType: TileType, pos: Position) returns (r: Outcome)
      requires Valid()
      modifies tileMap.Values
      ensures !InBounds(colNum, rowNum, pos) ==> r == Fail(PositionOutsideBoard) && Cells() == old(Cells())
      ensures InBounds(colNum, rowNum, pos) && old(Cells())[pos].occupied ==>
                r == Fail(TileOccupied) && Cells() == old(Cells())
      ensures InBounds(colNum, rowNum, pos) && !old(Cells())[pos].occupied && tileType == EmptyType ==>
                r == Fail(PlacingEmptyType) && Cells() == old(Cells())
      ensures InBounds(colNum, rowNum, pos) && !old(Cells())[pos].occupied && tileType != EmptyType ==>
                r == Pass && Cells() == old(Cells())[pos := old(Cells())[pos].(kind := tileType, occupied := true)]
    {
      var found := TileAt(pos);
      if found.Err? {
        return Fail(found.error);
      }
      var tile := found.value;
      assert tile == tileMap[pos];
      if tile.isOccupied {
        return Fail(TileOccupied);
      }
      ghost var before := Cells();
      r := tile.AddType(tileType);
      assert forall q :: q in tileMap && q != pos ==> tileMap[q] != tile;
      PlacedCells(this, tile, before);
      if tileType == EmptyType {
        assert before[pos] == Cell(tile.kind, tile.isOccupied, tile.onIsland, tile.isValid);
        UpdateSameValue(before, pos);
      }
    }
  }

  /** When every tile but the one at `tile.pos` still has the cell it had
      in `before`, the cells are `before` with that position's cell
      replaced. */
  lemma PlacedCells(b: Board, tile: TileData, before: map<Position, Cell>)
    requires b.Valid() && tile.pos in b.tileMap && b.tileMap[tile.pos] == tile
    requires forall q :: q in before <==> q in b.tileMap
    requires forall q :: q in b.tileMap && q != tile.pos ==>
               before[q] == Cell(b.tileMap[q].kind, b.tileMap[q].isOccupied, b.tileMap[q].onIsland, b.tileMap[q].isValid)
    ensures b.Cells() == before[tile.pos := Cell(tile.kind, tile.isOccupied, tile.onIsland, tile.isValid)]
  {
  }

  /** On a new board every tile is vacant, so a first placement of a
      non-empty type at an in-bounds position succeeds and a second one at
      the same position is refused. */
  method PlaceTwice(b: Board, pos: Position, first: TileType, second: TileType) returns (r1: Outcome, r2: Outcome)
    requires b.Valid() && InBounds(b.colNum, b.rowNum, pos)
    requires forall p :: p in b.Cells() ==> !b.Cells()[p].occupied
    requires first != EmptyType
    modifies b.tileMap.Values
    ensures r1 == Pass && r2 == Fail(TileOccupied)
    ensures b.Cells()[pos].kind == first
  {
    r1 := b.AddTileType(first, pos);
    r2 := b.AddTileType(second, pos);
  }
}
