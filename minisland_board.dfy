/**
 * The parametric board of the rule-driven draft: `colNum` columns by
 * `rowNum` rows of tiles, each holding a known tile type and an occupancy
 * flag. The dictionary of tiles is built once by the constructor and never
 * changes shape; placing a type mutates the tile object in it. `Slots()` is
 * the snapshot of every tile's type and flag, and the board's loops are
 * proved against functions of that snapshot.
 */
module MiniBoard {
  import opened Base
  import opened GridAdjacency
  import opened MiniRules

  /** A tile: its type, its position, whether a type has been placed on it,
      and its adjacency table. */
  class TileData {
    var kind: KnownType
    const pos: Position
    var isOccupied: bool
    const adjInfo: AdjacencyInfo

    /** A new tile is empty and vacant. */
    constructor(pos: Position, adjInfo: AdjacencyInfo)
      ensures this.pos == pos && this.adjInfo == adjInfo
      ensures kind == EmptyType && !isOccupied
    {
      this.pos := pos;
      this.adjInfo := adjInfo;
      kind := EmptyType;
      isOccupied := false;
    }

    /** Placing the empty type is refused and changes nothing; any other type
        is stored and the tile becomes occupied, whether or not it was. */
    method AddType(tar: KnownType) returns (r: Outcome)
      modifies this
      ensures tar == EmptyType ==> r == Fail(PlacingEmptyType) && kind == old(kind) && isOccupied == old(isOccupied)
      ensures tar != EmptyType ==> r == Pass && kind == tar && isOccupied
    {
      if tar == EmptyType {
        return Fail(PlacingEmptyType);
      }
      kind := tar;
      isOccupied := true;
      r := Pass;
    }
  }

  /** The observable state of one tile. */
  datatype Slot = Slot(kind: KnownType, occupied: bool)

  /** Every tile is occupied exactly when it holds a non-empty type. */
  ghost predicate Consistent(slots: map<Position, Slot>)
  {
    forall p :: p in slots ==> (slots[p].occupied <==> slots[p].kind != EmptyType)
  }

  /** The vacant positions among `ks`, in the order of `ks`. */
  function VacantAmong(ks: seq<Position>, slots: map<Position, Slot>): seq<Position>
    requires forall p :: p in ks ==> p in slots
  {
    if ks == [] then []
    else VacantAmong(ks[..|ks| - 1], slots) + (if !slots[ks[|ks| - 1]].occupied then [ks[|ks| - 1]] else [])
  }

  /** The vacant positions among the first `i + 1` keys are those among the
      first `i`, then the `i`-th key if it is vacant. */
  lemma VacantAmongStep(ks: seq<Position>, slots: map<Position, Slot>, i: nat)
    requires forall p :: p in ks ==> p in slots
    requires i < |ks|
    ensures VacantAmong(ks[..i + 1], slots) == VacantAmong(ks[..i], slots) + (if !slots[ks[i]].occupied then [ks[i]] else [])
  {
    assert ks[..i + 1][..i] == ks[..i];
  }

  /** A position is listed exactly when it is one of `ks` and vacant, and
      no position is listed twice. */
  lemma {:induction false} VacantAmongMembers(ks: seq<Position>, slots: map<Position, Slot>)
    requires forall p :: p in ks ==> p in slots
    ensures forall q :: q in VacantAmong(ks, slots) <==> q in ks && !slots[q].occupied
    ensures Distinct(ks) ==> Distinct(VacantAmong(ks, slots))
  {
    if ks != [] {
      var init := ks[..|ks| - 1];
      var last := ks[|ks| - 1];
      assert ks == init + [last];
      VacantAmongMembers(init, slots);
      if Distinct(ks) {
        assert Distinct(init);
        assert last !in init;
        DistinctConcat(VacantAmong(init, slots), if !slots[last].occupied then [last] else []);
      }
    }
  }

  /** Placing a type at `pos` makes it the one position that stops being
      vacant. */
  lemma PlacingFillsOnePosition(ks: seq<Position>, slots: map<Position, Slot>, pos: Position, t: KnownType)
    requires forall p :: p in ks ==> p in slots
    requires pos in slots
    ensures forall q :: q in VacantAmong(ks, slots[pos := Slot(t, true)]) <==>
                          q in VacantAmong(ks, slots) && q != pos
  {
    VacantAmongMembers(ks, slots);
    VacantAmongMembers(ks, slots[pos := Slot(t, true)]);
  }

  /** The type names at the positions `ps`, in order. */
  function NamesOf(slots: map<Position, Slot>, ps: seq<Position>): seq<string>
    requires forall p :: p in ps ==> p in slots
  {
    seq(|ps|, i requires 0 <= i < |ps| => Name(slots[ps[i]].kind))
  }

  /** `TileData.get_score`: the score of the type at `p` against the names
      of its adjacent, near, column and row tiles. */
  function TileScoreAt(colNum: int, rowNum: int, slots: map<Position, Slot>, p: Position): int
    requires Covers(colNum, rowNum, slots) && InBounds(colNum, rowNum, p)
  {
    AdjacencyInBounds(colNum, rowNum, p);
    var info := Adjacency(colNum, rowNum, p);
    TypeScore(slots[p].kind, NamesOf(slots, info.adj), NamesOf(slots, info.near),
              NamesOf(slots, info.col), NamesOf(slots, info.row))
  }

  /** `Board.get_score`: the scores of the occupied tiles among `ks`, added
      up in the order of `ks`. */
  function BoardScore(colNum: int, rowNum: int, slots: map<Position, Slot>, ks: seq<Position>): int
    requires Covers(colNum, rowNum, slots)
    requires forall p :: p in ks ==> InBounds(colNum, rowNum, p)
  {
    if ks == [] then 0
    else
      var p := ks[|ks| - 1];
      BoardScore(colNum, rowNum, slots, ks[..|ks| - 1]) + (if slots[p].occupied then TileScoreAt(colNum, rowNum, slots, p) else 0)
  }

  /** The score of the first `i + 1` keys adds the `i`-th key's share to
      the score of the first `i`. */
  lemma BoardScoreStep(colNum: int, rowNum: int, slots: map<Position, Slot>, ks: seq<Position>, i: nat)
    requires Covers(colNum, rowNum, slots)
    requires forall p :: p in ks ==> InBounds(colNum, rowNum, p)
    requires i < |ks|
    ensures BoardScore(colNum, rowNum, slots, ks[..i + 1])
            == BoardScore(colNum, rowNum, slots, ks[..i]) + (if slots[ks[i]].occupied then TileScoreAt(colNum, rowNum, slots, ks[i]) else 0)
  {
    assert ks[..i + 1][..i] == ks[..i];
  }

  /** A board with no occupied tile scores 0, whatever the tiles' types. */
  lemma {:induction false} VacantBoardScoresZero(colNum: int, rowNum: int, slots: map<Position, Slot>, ks: seq<Position>)
    requires Covers(colNum, rowNum, slots)
    requires forall p :: p in ks ==> InBounds(colNum, rowNum, p)
    requires forall p :: p in ks ==> !slots[p].occupied
    ensures BoardScore(colNum, rowNum, slots, ks) == 0
  {
    if ks != [] {
      VacantBoardScoresZero(colNum, rowNum, slots, ks[..|ks| - 1]);
    }
  }

  /** The state of the tiles the constructor has made for rows `0` to
      `r - 1` and the first `c` columns of row `r`: one tile per such
      position, keyed by its position, carrying its adjacency table, empty
      and vacant. */
  ghost predicate Filled(colNum: int, rowNum: int, r: int, c: int, m: map<Position, TileData>, ks: seq<Position>)
    reads m.Values
  {
    && ks == RowMajor(colNum, r) + CellsOfRow(r, c)
    && (forall p {:trigger p in m} :: p in m <==> InBounds(colNum, r, p) || (p.row == r && 0 <= p.col < c))
    && (forall p :: p in m ==> m[p].pos == p && m[p].adjInfo == Adjacency(colNum, rowNum, p))
    && (forall p :: p in m ==> m[p].kind == EmptyType && !m[p].isOccupied)
  }

  /** Adding the tile of `(c, r)` extends what has been filled by one. */
  lemma FillStep(colNum: int, rowNum: int, r: int, c: int, m: map<Position, TileData>, ks: seq<Position>, tile: TileData)
    requires 0 <= r && 0 <= c
    requires Filled(colNum, rowNum, r, c, m, ks)
    requires tile.pos == Position(c, r) && tile.adjInfo == Adjacency(colNum, rowNum, Position(c, r))
    requires tile.kind == EmptyType && !tile.isOccupied
    ensures Filled(colNum, rowNum, r, c + 1, m[Position(c, r) := tile], ks + [Position(c, r)])
  {
    assert RowMajor(colNum, r) + CellsOfRow(r, c) + [Position(c, r)] == RowMajor(colNum, r) + CellsOfRow(r, c + 1);
  }

  /** A finished row is the start of the next one. */
  lemma FillRowDone(colNum: int, rowNum: int, r: int, m: map<Position, TileData>, ks: seq<Position>)
    requires 0 <= r
    requires Filled(colNum, rowNum, r, colNum, m, ks)
    ensures Filled(colNum, rowNum, r + 1, 0, m, ks)
  {
    assert RowMajor(colNum, r + 1) == RowMajor(colNum, r) + CellsOfRow(r, colNum);
  }

  /** One pass of the constructor's inner loop: the tiles of row `r`, left
      to right. */
  method FillRow(colNum: int, rowNum: int, r: int, m: map<Position, TileData>, ks: seq<Position>)
    returns (m': map<Position, TileData>, ks': seq<Position>)
    requires 0 <= r
    requires Filled(colNum, rowNum, r, 0, m, ks)
    ensures Filled(colNum, rowNum, r + 1, 0, m', ks')
  {
    m', ks' := m, ks;
    var c := 0;
    while c < colNum
      invariant 0 <= c && (c <= colNum || c == 0)
      invariant Filled(colNum, rowNum, r, c, m', ks')
    {
      var pos := Position(c, r);
      var info := GenerateAdjacencyInfo(colNum, rowNum, pos);
      var tile := new TileData(pos, info);
      FillStep(colNum, rowNum, r, c, m', ks', tile);
      m' := m'[pos := tile];
      ks' := ks' + [pos];
      c := c + 1;
    }
    if colNum <= 0 {
      assert forall p :: p in m' <==> InBounds(colNum, r + 1, p);
    }
    FillRowDone(colNum, rowNum, r, m', ks');
  }

  class Board {
    const colNum: int
    const rowNum: int
    const tileMap: map<Position, TileData>
    /** The dictionary's keys in insertion order. */
    const keys: seq<Position>

    /** One tile per in-bounds position, keyed by its own position and
        carrying the adjacency table of that position; the keys list each
        position once, row by row. */
    ghost predicate Valid()
    {
      && keys == RowMajor(colNum, rowNum)
      && (forall p {:trigger p in tileMap} :: p in tileMap <==> InBounds(colNum, rowNum, p))
      && (forall p :: p in tileMap ==> tileMap[p].pos == p && tileMap[p].adjInfo == Adjacency(colNum, rowNum, p))
      && (forall p :: p in keys <==> p in tileMap) && Distinct(keys)
    }

    /** The type and occupancy of every tile. */
    function Slots(): map<Position, Slot>
      reads tileMap.Values
    {
      map p | p in tileMap :: Slot(tileMap[p].kind, tileMap[p].isOccupied)
    }

    /** A new board has `colNum * rowNum` tiles, all empty and vacant. */
    constructor(colNum: int, rowNum: int)
      ensures this.colNum == colNum && this.rowNum == rowNum
      ensures Valid()
      ensures |keys| == if colNum <= 0 || rowNum <= 0 then 0 else colNum * rowNum
      ensures forall p :: p in Slots() ==> Slots()[p] == Slot(EmptyType, false)
    {
      var m: map<Position, TileData> := map[];
      var ks: seq<Position> := [];
      var r := 0;
      while r < rowNum
        invariant 0 <= r && (r <= rowNum || r == 0)
        invariant Filled(colNum, rowNum, r, 0, m, ks)
      {
        m, ks := FillRow(colNum, rowNum, r, m, ks);
        r := r + 1;
      }
      RowMajorMembers(colNum, rowNum);
      this.colNum := colNum;
      this.rowNum := rowNum;
      tileMap := m;
      keys := ks;
    }

    /** `_get_tile_at_position`: the tile at an in-bounds position, and an
        error for any other. */
    function TileAt(pos: Position): (r: Result<TileData>)
      requires Valid()
      ensures r.Ok? <==> InBounds(colNum, rowNum, pos)
      ensures r.Ok? ==> r.value.pos == pos && r.value in tileMap.Values
      ensures r.Err? ==> r.error == PositionOutsideBoard
    {
      if pos.col < 0 || pos.row < 0 || pos.col >= colNum || pos.row >= rowNum then Err(PositionOutsideBoard)
      else Ok(tileMap[pos])
    }

    /** `get_vacant_tile_positions`: exactly the vacant positions, each once,
        in key order. */
    method GetVacantTilePositions() returns (vacant: seq<Position>)
      requires Valid()
      ensures vacant == VacantAmong(keys, Slots())
      ensures forall p :: p in vacant <==> InBounds(colNum, rowNum, p) && !Slots()[p].occupied
      ensures Distinct(vacant)
    {
      ghost var slots := Slots();
      vacant := [];
      var i := 0;
      while i < |keys|
        invariant 0 <= i <= |keys|
        invariant vacant == VacantAmong(keys[..i], slots)
      {
        assert keys[i] in tileMap;
        var tile := TileAt(keys[i]).value;
        assert tile.isOccupied == slots[keys[i]].occupied;
        VacantAmongStep(keys, slots, i);
        if !tile.isOccupied {
          vacant := vacant + [keys[i]];
        }
        i := i + 1;
      }
      assert keys[..i] == keys;
      VacantAmongMembers(keys, slots);
    }

    /** `add_tile_type`: outside the board or with the empty type nothing
        changes and the error is reported; otherwise the tile at `pos` takes
        the type and is occupied, and no other tile changes. */
    method AddTileType(pos: Position, tileType: KnownType) returns (r: Outcome)
      requires Valid()
      modifies tileMap.Values
      ensures !InBounds(colNum, rowNum, pos) ==> r == Fail(PositionOutsideBoard) && Slots() == old(Slots())
      ensures InBounds(colNum, rowNum, pos) && tileType == EmptyType ==>
                r == Fail(PlacingEmptyType) && Slots() == old(Slots())
      ensures InBounds(colNum, rowNum, pos) && tileType != EmptyType ==>
                r == Pass && Slots() == old(Slots())[pos := Slot(tileType, true)]
      ensures Consistent(old(Slots())) ==> Consistent(Slots())
    {
      var found := TileAt(pos);
      if found.Err? {
        return Fail(found.error);
      }
      var tile := found.value;
      assert tile == tileMap[pos];
      ghost var before := Slots();
      r := tile.AddType(tileType);
      assert forall q :: q in tileMap && q != pos ==> tileMap[q] != tile;
      PlacedSlots(this, tile, before);
      if tileType == EmptyType {
        assert before[pos] == Slot(tile.kind, tile.isOccupied);
        UpdateSameValue(before, pos);
      } else {
        PlacingKeepsConsistent(before, pos, tileType);
      }
    }

    /** The names of the types at `ps`, in order. */
    method TypeNames(ps: seq<Position>) returns (names: seq<string>)
      requires Valid()
      requires forall p :: p in ps ==> InBounds(colNum, rowNum, p)
      ensures names == NamesOf(Slots(), ps)
    {
      names := [];
      var i := 0;
      while i < |ps|
        invariant 0 <= i <= |ps|
        invariant names == NamesOf(Slots(), ps[..i])
      {
        var tile := TileAt(ps[i]).value;
        names := names + [Name(tile.kind)];
        i := i + 1;
      }
      assert ps[..i] == ps;
    }

    /** `TileData.get_score` with `_get_type_names_for_adjacency_info` as its
        callback. */
    method TileScore(tile: TileData) returns (s: int)
      requires Valid()
      requires tile.pos in tileMap && tileMap[tile.pos] == tile
      ensures s == TileScoreAt(colNum, rowNum, Slots(), tile.pos)
    {
      AdjacencyInBounds(colNum, rowNum, tile.pos);
      var adj := TypeNames(tile.adjInfo.adj);
      var near := TypeNames(tile.adjInfo.near);
      var col := TypeNames(tile.adjInfo.col);
      var row := TypeNames(tile.adjInfo.row);
      s := TypeScore(tile.kind, adj, near, col, row);
    }

    /** `get_score`: the occupied tiles' scores added up in key order. */
    method GetScore() returns (score: int)
      requires Valid()
      ensures score == BoardScore(colNum, rowNum, Slots(), keys)
    {
      ghost var slots := Slots();
      assert forall p :: p in keys ==> InBounds(colNum, rowNum, p);
      score := 0;
      var i := 0;
      while i < |keys|
        invariant 0 <= i <= |keys|
        invariant score == BoardScore(colNum, rowNum, slots, keys[..i])
      {
        assert keys[i] in tileMap;
        var tile := TileAt(keys[i]).value;
        assert tile.isOccupied == slots[keys[i]].occupied;
        BoardScoreStep(colNum, rowNum, slots, keys, i);
        if tile.isOccupied {
          var s := TileScore(tile);
          score := score + s;
        }
        i := i + 1;
      }
      assert keys[..i] == keys;
    }
  }

  /** When every tile but the one at `tile.pos` still has the slot it had
      in `before`, the slots are `before` with that position's slot
      replaced. */
  lemma PlacedSlots(b: Board, tile: TileData, before: map<Position, Slot>)
    requires b.Valid() && tile.pos in b.tileMap && b.tileMap[tile.pos] == tile
    requires forall q :: q in before <==> q in b.tileMap
    requires forall q :: q in b.tileMap && q != tile.pos ==> before[q] == Slot(b.tileMap[q].kind, b.tileMap[q].isOccupied)
    ensures b.Slots() == before[tile.pos := Slot(tile.kind, tile.isOccupied)]
  {
  }

  /** Placing a non-empty type on a board whose tiles are consistent keeps
      them consistent. */
  lemma PlacingKeepsConsistent(slots: map<Position, Slot>, pos: Position, t: KnownType)
    requires t != EmptyType
    ensures Consistent(slots) ==> Consistent(slots[pos := Slot(t, true)])
  {
  }

  /** A board on which nothing has been placed scores 0. */
  lemma NewBoardScoresZero(b: Board)
    requires b.Valid()
    requires forall p :: p in b.Slots() ==> b.Slots()[p] == Slot(EmptyType, false)
    ensures BoardScore(b.colNum, b.rowNum, b.Slots(), b.keys) == 0
  {
    VacantBoardScoresZero(b.colNum, b.rowNum, b.Slots(), b.keys);
  }
}
