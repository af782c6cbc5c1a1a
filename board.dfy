/**
 * The 9x9 scoring board: 81 tile objects keyed by position, and three island
 * slots. The board's helpers that loop (the counting helpers, the row and
 * column Waves check, the breadth-first island-distance search, the Church
 * island scan) are methods proved against the snapshot functions of
 * `Board9Scoring`; `GetScoreAt` dispatches over them.
 *
 * Python defects that only make the code raise are repaired silently here,
 * each noted where it occurs: the constructor is spelt `__int__` and builds
 * `tuple([], [], [])`; the island-plus-shore helper calls `set.add` with a
 * list. The island registration lacks a `break`: `AddIslandAsWritten` keeps
 * that text and `RegisterIsland` is the intended behaviour.
 */
module Board9 {
  import opened Base
  import opened Terrains
  import opened TerrainTile
  import opened Board9Grid
  import opened Board9Scoring
  import opened Board9Search

  /** Island slots are filled in order: no filled slot follows an empty one. */
  predicate Packed(islands: seq<seq<Position>>)
  {
    forall i, j :: 0 <= i < j < |islands| && islands[i] == [] ==> islands[j] == []
  }

  /** The source's `_are_islands_full`. */
  predicate AllIslandsDrawn(islands: seq<seq<Position>>)
  {
    forall i :: 0 <= i < |islands| ==> islands[i] != []
  }

  /** The first empty slot. */
  function FirstEmpty(islands: seq<seq<Position>>): (k: nat)
    requires !AllIslandsDrawn(islands)
    ensures k < |islands| && islands[k] == []
    ensures forall j :: 0 <= j < k ==> islands[j] != []
  {
    if islands[0] == [] then 0 else 1 + FirstEmpty(islands[1..])
  }

  /** An island's positions together with every position near one of them
      (`_get_island_with_shore_positions`). */
  function ShoreZone(island: seq<Position>): set<Position>
  {
    Elements(island) + (set p, q | p in island && q in Nearby(p) :: q)
  }

  /** Some new position lies on the island or beside it. */
  predicate Conflicts(island: seq<Position>, lop: seq<Position>)
  {
    exists q :: q in lop && q in ShoreZone(island)
  }

  predicate AllOnBoard(lop: seq<Position>)
  {
    forall q :: q in lop ==> OnBoard(q)
  }

  predicate Odd(n: nat) { n % 2 == 1 }

  /** Each listed tile has its island flag toggled once per occurrence in
      the list; terrains stay. */
  function ToggledCells(cells: map<Position, Cell>, lop: seq<Position>): map<Position, Cell>
  {
    map p | p in cells :: Cell(cells[p].terrain, cells[p].onIsland != Odd(Occurrences(lop, p)))
  }

  /** Island registration on a snapshot (`add_island` with the `break` the
      loop evidently needs): raises when every slot is filled, when a new
      position meets an existing island or its ring of nearby tiles, or when
      a new position is off the board; otherwise the first empty slot receives
      the list and every listed tile has its island flag toggled once per
      occurrence in the list. */
  function RegisterIsland(v: BoardView, lop: seq<Position>): (r: Result<BoardView>)
    requires WellFormed(v)
  {
    if AllIslandsDrawn(v.islands) then Err(IslandsFull)
    else
      var k := FirstEmpty(v.islands);
      if exists j :: 0 <= j < k && Conflicts(v.islands[j], lop) then Err(IslandConflict)
      else if !AllOnBoard(lop) then Err(PositionNotOnBoard)
      else Ok(BoardView(ToggledCells(v.cells, lop), v.islands[k := v.islands[k] + lop]))
  }

  /** Which of its outcomes the registration takes, once the first empty
      slot `k` and whether an earlier island conflicts are known. */
  lemma RegisterCases(v: BoardView, lop: seq<Position>, k: nat)
    requires WellFormed(v) && !AllIslandsDrawn(v.islands) && k == FirstEmpty(v.islands)
    ensures (exists j :: 0 <= j < k && Conflicts(v.islands[j], lop)) ==> RegisterIsland(v, lop) == Err(IslandConflict)
    ensures (forall j :: 0 <= j < k ==> !Conflicts(v.islands[j], lop)) && !AllOnBoard(lop)
            ==> RegisterIsland(v, lop) == Err(PositionNotOnBoard)
    ensures (forall j :: 0 <= j < k ==> !Conflicts(v.islands[j], lop)) && AllOnBoard(lop)
            ==> RegisterIsland(v, lop) == Ok(BoardView(ToggledCells(v.cells, lop), v.islands[k := v.islands[k] + lop]))
  {
  }

  /** With the slots packed, registration succeeds exactly when a slot is
      free, every new position is on the board and no island already drawn
      conflicts with the new positions; a conflict with any drawn island is
      reported before a position off the board. */
  lemma RegisterSucceedsExactly(v: BoardView, lop: seq<Position>)
    requires WellFormed(v) && Packed(v.islands)
    ensures RegisterIsland(v, lop).Ok? <==>
              && !AllIslandsDrawn(v.islands)
              && AllOnBoard(lop)
              && forall j :: 0 <= j < |v.islands| ==> !Conflicts(v.islands[j], lop)
    ensures !AllIslandsDrawn(v.islands) && (exists j :: 0 <= j < |v.islands| && Conflicts(v.islands[j], lop))
            ==> RegisterIsland(v, lop) == Err(IslandConflict)
  {
    if !AllIslandsDrawn(v.islands) {
      var k := FirstEmpty(v.islands);
      forall j | 0 <= j < |v.islands| && Conflicts(v.islands[j], lop) ensures j < k {
      }
    }
  }

  /** A successful registration fills exactly the first empty slot with the
      new list, leaves every other slot alone, keeps the slots packed and the
      snapshot well formed, and changes no terrain. */
  lemma RegisterFillsOneSlot(v: BoardView, lop: seq<Position>)
    requires WellFormed(v) && Packed(v.islands)
    requires RegisterIsland(v, lop).Ok?
    ensures var k := FirstEmpty(v.islands);
      var w := RegisterIsland(v, lop).value;
      && w.islands == v.islands[k := lop]
      && |w.islands| == |v.islands|
      && Packed(w.islands)
      && WellFormed(w)
      && forall p :: p in v.cells ==> w.cells[p].terrain == v.cells[p].terrain
  {
    var k := FirstEmpty(v.islands);
    var w := RegisterIsland(v, lop).value;
    assert v.islands[k] + lop == lop;
    forall i, j | 0 <= i < j < |w.islands| && w.islands[i] == [] ensures w.islands[j] == [] {
      if lop == [] {
        assert w.islands == v.islands;
      } else {
        assert i != k && !(i < k);
      }
    }
    forall i, m | 0 <= i < |w.islands| && 0 <= m < |w.islands[i]| ensures OnBoard(w.islands[i][m]) {
      if i == k {
        assert w.islands[i][m] in lop;
      }
    }
  }

  /** A successful registration puts no new position on or beside an island
      already registered. */
  lemma RegisterKeepsIslandsApart(v: BoardView, lop: seq<Position>, j: nat, q: Position)
    requires WellFormed(v) && Packed(v.islands)
    requires RegisterIsland(v, lop).Ok?
    requires j < |v.islands| && v.islands[j] != [] && q in lop
    ensures q !in v.islands[j] && forall p :: p in v.islands[j] ==> q !in Nearby(p)
  {
    var k := FirstEmpty(v.islands);
    assert j < k;
    assert !Conflicts(v.islands[j], lop);
    assert q !in ShoreZone(v.islands[j]);
  }

  /** Registering a list of distinct positions, none of them on an island
      yet, puts exactly those tiles on an island. */
  lemma RegisterMarksIsland(v: BoardView, lop: seq<Position>, p: Position)
    requires WellFormed(v) && RegisterIsland(v, lop).Ok?
    requires Distinct(lop) && forall q :: q in lop ==> !v.cells[q].onIsland
    requires OnBoard(p)
    ensures RegisterIsland(v, lop).value.cells[p].onIsland == (p in lop || v.cells[p].onIsland)
  {
    if p in lop {
      DistinctOccursOnce(lop, p);
    }
  }

  lemma {:induction false} DistinctOccursOnce(s: seq<Position>, x: Position)
    requires Distinct(s) && x in s
    ensures Occurrences(s, x) == 1
  {
    if s[0] != x {
      DistinctOccursOnce(s[1..], x);
    } else {
      assert x !in s[1..];
    }
  }

  // ----- registration as written -----

  /** The registration loop as the source writes it: without a `break`, every
      empty slot from the first one on receives the list, and the listed
      tiles are toggled once per filled slot. Returns the new slots and the
      number of toggles. */
  function AddIslandAsWritten(islands: seq<seq<Position>>, lop: seq<Position>): Result<(seq<seq<Position>>, nat)>
  {
    if AllIslandsDrawn(islands) then Err(IslandsFull) else NoBreakScan(islands, lop, 0, 0)
  }

  function NoBreakScan(islands: seq<seq<Position>>, lop: seq<Position>, i: nat, toggles: nat): Result<(seq<seq<Position>>, nat)>
    requires i <= |islands|
    decreases |islands| - i
  {
    if i == |islands| then Ok((islands, toggles))
    else if islands[i] != [] then
      if Conflicts(islands[i], lop) then Err(IslandConflict) else NoBreakScan(islands, lop, i + 1, toggles)
    else if !AllOnBoard(lop) then Err(PositionNotOnBoard)
    else NoBreakScan(islands[i := islands[i] + lop], lop, i + 1, toggles + 1)
  }

  /** As written, the first island fills all three slots and its tile is
      toggled three times, so no second island can ever be drawn. */
  lemma FirstIslandFillsEverySlot()
    ensures AddIslandAsWritten([[], [], []], [Position(0, 0)])
         == Ok(([[Position(0, 0)], [Position(0, 0)], [Position(0, 0)]], 3))
  {
    var a := [Position(0, 0)];
    var e: seq<seq<Position>> := [[], [], []];
    assert e[0] == [] && !AllIslandsDrawn(e);
    assert AllOnBoard(a);
    var none: seq<Position> := [];
    assert none + a == a;
    assert e[0 := e[0] + a] == [a, [], []];
    assert [a, [], []][1 := [a, [], []][1] + a] == [a, a, []];
    assert [a, a, []][2 := [a, a, []][2] + a] == [a, a, a];
    assert NoBreakScan(e, a, 0, 0) == NoBreakScan([a, [], []], a, 1, 1);
    assert NoBreakScan([a, [], []], a, 1, 1) == NoBreakScan([a, a, []], a, 2, 2);
    assert NoBreakScan([a, a, []], a, 2, 2) == NoBreakScan([a, a, a], a, 3, 3);
  }

  /** As written, from one filled slot a new island fills the two others and
      its tile is toggled twice, which leaves it off the island; the intended
      registration fills one slot and puts the tile on the island. */
  lemma SecondIslandToggledTwice()
    ensures AddIslandAsWritten([[Position(0, 0)], [], []], [Position(5, 5)])
         == Ok(([[Position(0, 0)], [Position(5, 5)], [Position(5, 5)]], 2))
    ensures var v := BoardView(EmptyCells(), [[Position(0, 0)], [], []]);
      && RegisterIsland(v, [Position(5, 5)]).Ok?
      && RegisterIsland(v, [Position(5, 5)]).value.islands == [[Position(0, 0)], [Position(5, 5)], []]
      && RegisterIsland(v, [Position(5, 5)]).value.cells[Position(5, 5)].onIsland
  {
    var home, far := Position(0, 0), Position(5, 5);
    var a, b := [home], [far];
    var f: seq<seq<Position>> := [a, [], []];
    assert f[1] == [] && !AllIslandsDrawn(f);
    NearbyIsBlock(home, far);
    assert far !in ShoreZone(a);
    assert !Conflicts(a, b);
    assert AllOnBoard(b);
    var none: seq<Position> := [];
    assert none + b == b;
    assert NoBreakScan(f, b, 0, 0) == NoBreakScan(f, b, 1, 0);
    assert f[1 := f[1] + b] == [a, b, []];
    assert [a, b, []][2 := [a, b, []][2] + b] == [a, b, b];
    assert NoBreakScan(f, b, 1, 0) == NoBreakScan([a, b, []], b, 2, 1);
    assert NoBreakScan([a, b, []], b, 2, 1) == NoBreakScan([a, b, b], b, 3, 2);

    var v := BoardView(EmptyCells(), f);
    assert f[1..][0] == [];
    assert FirstEmpty(f) == 1;
    assert !(exists j :: 0 <= j < 1 && Conflicts(v.islands[j], b));
    assert Occurrences(b, far) == 1;
  }

  /** Every tile of `m` carries the adjacency lists of its position, and no
      tile serves two positions. */
  ghost predicate Wired(m: map<Position, Tile>)
  {
    && (forall p {:trigger m[p].adj} :: p in m ==> m[p].adj == Touching(p))
    && (forall p {:trigger m[p].cor} :: p in m ==> m[p].cor == Corners(p))
    && (forall p, q :: p in m && q in m && p != q ==> m[p] != m[q])
  }

  /** No tile of `m` has a terrain or is on an island. */
  ghost predicate Blank(m: map<Position, Tile>)
    reads m.Values
  {
    forall p :: p in m ==> m[p].terrainType == Empty && !m[p].onIsland
  }

  /** What the constructor's inner loop has built after `x` columns of row
      `y`: the tiles of `m`, unchanged, and one blank tile with the right
      adjacency lists for each of the first `x` positions of the row. */
  ghost predicate RowSoFar(m: map<Position, Tile>, r: map<Position, Tile>, y: int, x: int)
    reads r.Values
  {
    && (forall p {:trigger p in r} :: p in r <==> p in m || (p.row == y && 0 <= p.col < x))
    && (forall p :: p in m ==> p in r && r[p] == m[p])
    && Wired(r) && Blank(r)
  }

  /** Adding a blank tile for `(x, y)` that no position uses yet extends the
      row by one. */
  lemma AddRowStep(m: map<Position, Tile>, r: map<Position, Tile>, y: int, x: int, tile: Tile)
    requires RowSoFar(m, r, y, x) && 0 <= x
    requires forall p {:trigger p in m} :: p in m ==> p.row < y
    requires tile.adj == Touching(Position(x, y)) && tile.cor == Corners(Position(x, y))
    requires tile.terrainType == Empty && !tile.onIsland
    requires forall p :: p in r ==> r[p] != tile
    ensures RowSoFar(m, r[Position(x, y) := tile], y, x + 1)
  {
  }

  /** The constructor's inner loop: one new tile per column of row `y`. */
  method AddRow(m: map<Position, Tile>, y: int) returns (r: map<Position, Tile>)
    requires 0 <= y <= MaxIndex && Wired(m) && Blank(m)
    requires forall p {:trigger p in m} :: p in m <==> OnBoard(p) && p.row < y
    ensures forall p {:trigger p in r} :: p in r <==> OnBoard(p) && p.row <= y
    ensures forall p :: p in m ==> r[p] == m[p]
    ensures forall p :: p in r && p !in m ==> fresh(r[p])
    ensures Wired(r) && Blank(r)
  {
    r := m;
    var x := 0;
    while x < 9
      invariant 0 <= x <= 9
      invariant RowSoFar(m, r, y, x)
      invariant forall p :: p in r && p !in m ==> fresh(r[p])
    {
      var pos := Position(x, y);
      var tile := new Tile(Touching(pos), Corners(pos));
      AddRowStep(m, r, y, x, tile);
      r := r[pos := tile];
      x := x + 1;
    }
  }

  class Board {
    const grid: map<Position, Tile>
    var islands: seq<seq<Position>>

    ghost predicate Valid()
      reads this
    {
      && (forall p :: p in grid <==> OnBoard(p))
      && Wired(grid)
      && |islands| == 3 && Packed(islands)
      && (forall i, k :: 0 <= i < |islands| && 0 <= k < |islands[i]| ==> OnBoard(islands[i][k]))
    }

    /** The terrain and island flag of every tile. */
    function Cells(): map<Position, Cell>
      reads grid.Values
    {
      map p | p in grid :: Cell(grid[p].terrainType, grid[p].onIsland)
    }

    /** The snapshot the scoring rules read. */
    function View(): (v: BoardView)
      reads this, grid.Values
      ensures Valid() ==> WellFormed(v)
      ensures v.islands == islands
    {
      BoardView(Cells(), islands)
    }

    /** 81 new tiles with their adjacency lists, no terrain, off every island,
        and three empty island slots. */
    constructor ()
      ensures Valid() && fresh(grid.Values)
      ensures View() == BoardView(EmptyCells(), [[], [], []])
    {
      var m: map<Position, Tile> := map[];
      var y := 0;
      while y < 9
        invariant 0 <= y <= 9
        invariant forall p {:trigger p in m} :: p in m <==> OnBoard(p) && p.row < y
        invariant forall p :: p in m ==> fresh(m[p])
        invariant Wired(m) && Blank(m)
      {
        m := AddRow(m, y);
        y := y + 1;
      }
      grid := m;
      islands := [[], [], []];
      new;
      assert Packed(islands) && forall p {:trigger p in grid} :: p in grid <==> OnBoard(p);
      assert View().cells == EmptyCells();
    }

    /** `_get_tile_at`: raises for a position that is not on the board. */
    method GetTileAt(pos: Position) returns (r: Result<Tile>)
      requires Valid()
      ensures r.Ok? <==> OnBoard(pos)
      ensures r.Ok? ==> r.value == grid[pos]
      ensures r.Err? ==> r.error == PositionNotOnBoard
    {
      if pos !in grid {
        return Err(PositionNotOnBoard);
      }
      r := Ok(grid[pos]);
    }

    /** `_get_tiles_at`: the tiles of a list of positions, in order; raises
        when any of them is off the board. */
    method GetTilesAt(lop: seq<Position>) returns (r: Result<seq<Tile>>)
      requires Valid()
      ensures r.Ok? <==> forall q :: q in lop ==> OnBoard(q)
      ensures r.Ok? ==> |r.value| == |lop| && forall i :: 0 <= i < |lop| ==> r.value[i] == grid[lop[i]]
      ensures r.Err? ==> r.error == PositionNotOnBoard
    {
      var tiles: seq<Tile> := [];
      var i := 0;
      while i < |lop|
        invariant 0 <= i <= |lop|
        invariant forall j :: 0 <= j < i ==> OnBoard(lop[j])
        invariant |tiles| == i && forall j :: 0 <= j < i ==> tiles[j] == grid[lop[j]]
      {
        var found := GetTileAt(lop[i]);
        if found.Err? {
          return Err(found.error);
        }
        tiles := tiles + [found.value];
        i := i + 1;
      }
      r := Ok(tiles);
    }

    /** Counts the listed tiles that satisfy `f`. */
    method CountFilterUpon(ps: seq<Position>, f: Cell -> bool) returns (count: nat)
      requires Valid() && forall q :: q in ps ==> OnBoard(q)
      ensures count == CountWhere(View().cells, ps, f)
    {
      count := 0;
      var i := 0;
      while i < |ps|
        invariant 0 <= i <= |ps|
        invariant count == CountWhere(View().cells, ps[..i], f)
      {
        var tile := grid[ps[i]];
        assert ps[..i + 1][..i] == ps[..i];
        if f(Cell(tile.terrainType, tile.onIsland)) {
          count := count + 1;
        }
        i := i + 1;
      }
      assert ps[..i] == ps;
    }

    /** `_count_filter_upon_nearby_tiles`. */
    method CountFilterUponNearby(pos: Position, f: Cell -> bool) returns (count: nat)
      requires Valid() && OnBoard(pos)
      ensures count == CountWhere(View().cells, Nearby(pos), f)
    {
      count := CountFilterUpon(grid[pos].GetNearby(), f);
    }

    /** `_count_filter_upon_touching_tiles`, walking the touching tiles its
        name and comment promise (the source walks the nearby ones). */
    method CountFilterUponTouching(pos: Position, f: Cell -> bool) returns (count: nat)
      requires Valid() && OnBoard(pos)
      ensures count == CountWhere(View().cells, Touching(pos), f)
    {
      count := CountFilterUpon(grid[pos].GetTouching(), f);
    }

    /** `_check_sec_wave_in_rc`: whether another Waves tile shares the row or
        the column of `pos`. */
    method CheckSecWaveInRc(pos: Position) returns (found: bool)
      requires Valid() && OnBoard(pos)
      ensures found == AnotherWaveInLine(View(), pos)
    {
      var c := 0;
      while c < 9
        invariant 0 <= c <= 9
        invariant forall c' :: 0 <= c' < c && c' != pos.col ==> View().cells[Position(c', pos.row)].terrain != Waves
      {
        if c != pos.col {
          var tile := grid[Position(c, pos.row)];
          if tile.GetTerrain() == Waves {
            assert View().cells[Position(c, pos.row)].terrain == Waves;
            return true;
          }
        }
        c := c + 1;
      }
      var r := 0;
      while r < 9
        invariant 0 <= r <= 9
        invariant forall r' :: 0 <= r' < r && r' != pos.row ==> View().cells[Position(pos.col, r')].terrain != Waves
      {
        if r != pos.row {
          var tile := grid[Position(pos.col, r)];
          if tile.GetTerrain() == Waves {
            assert View().cells[Position(pos.col, r)].terrain == Waves;
            return true;
          }
        }
        r := r + 1;
      }
      found := false;
    }

    /** `_get_distance_to_island`: a breadth-first search over touching tiles
        from `pos` that stops at the first target it dequeues and returns that
        target's Manhattan distance, or 0 when the queue runs dry. On the open
        grid the first target dequeued is a nearest one, so the result is the
        distance to the nearest target (0 if `pos` is one, or if there is
        none). `order` lists the positions put in `visited`, each once. */
    method GetDistanceToIsland(pos: Position, temp: bool) returns (d: nat, ghost order: seq<Position>)
      requires Valid() && OnBoard(pos)
      ensures d == NearestTargetDistance(View(), pos, temp)
      ensures Distinct(order) && |order| <= 81 && forall q :: q in order ==> OnBoard(q)
    {
      ghost var v := View();
      var visited := [pos];
      var queue := [pos];
      ghost var done: seq<Position> := [];
      SearchStart(v, pos, temp);
      while queue != []
        invariant SearchInv(v, pos, temp, visited, queue, done)
        decreases 81 - |done|
      {
        SearchBound(v, pos, temp, visited, queue, done);
        var found;
        ghost var done';
        found, visited, queue, done' := SearchStep(v, pos, temp, visited, queue, done);
        if found {
          d := Manhattan(pos, queue[0]);
          order := visited;
          return;
        }
        done := done';
      }
      SearchExhausted(v, pos, temp, visited, done);
      SearchBound(v, pos, temp, visited, [], done);
      d := 0;
      order := visited;
    }

    /** One round of the search: the head of the queue is dequeued; a target
        ends the search at its distance, anything else has its unvisited
        touching neighbours enqueued. */
    method SearchStep(ghost v: BoardView, pos: Position, temp: bool,
                      visited: seq<Position>, queue: seq<Position>, ghost done: seq<Position>)
      returns (found: bool, visited': seq<Position>, queue': seq<Position>, ghost done': seq<Position>)
      requires Valid() && v == View() && queue != []
      requires SearchInv(v, pos, temp, visited, queue, done)
      ensures found ==> visited' == visited && queue' == queue
      ensures found ==> Manhattan(pos, queue[0]) == NearestTargetDistance(v, pos, temp)
      ensures !found ==> SearchInv(v, pos, temp, visited', queue', done') && |done'| == |done| + 1
    {
      var next := queue[0];
      var tile := grid[next];
      assert v.cells[next] == Cell(tile.terrainType, tile.onIsland);
      if (temp && IsLand(tile.GetTerrain())) || (!temp && tile.IsOnIsland()) {
        SearchFound(v, pos, temp, visited, queue, done);
        return true, visited, queue, done;
      }
      ExpandStart(v, pos, temp, visited, queue, done);
      var neighbours := tile.GetTouching();
      visited', queue' := EnqueueNeighbours(v, pos, temp, visited, queue[1..], done, next, neighbours);
      ExpandFinish(v, pos, temp, visited', queue', done, next);
      found, done' := false, done + [next];
    }

    /** The Church rule's scan of its island: the island's tiles outside the
        nearby ring, the Church's own tile left out, adding 1 per Houses tile
        and stopping at the first Churches tile. */
    method ScanIsland(pos: Position, island: seq<Position>) returns (houses: nat, church: bool)
      requires Valid() && OnBoard(pos) && forall q :: q in island ==> OnBoard(q)
      ensures church == AnyChurch(View().cells, IslandOutsideRing(island, pos, true))
      ensures !church ==> houses == CountWhere(View().cells, IslandOutsideRing(island, pos, true), IsHousesCell)
    {
      var nearby := grid[pos].GetNearby();
      houses := 0;
      ScanStart(View().cells, island, pos);
      var i := 0;
      while i < |island|
        invariant ScanInv(View().cells, island, pos, i, houses)
      {
        houses, church := ScanPosition(pos, island, nearby, i, houses);
        if church {
          return;
        }
        i := i + 1;
      }
      ScanEnd(View().cells, island, pos, houses);
      church := false;
    }

    /** One pass of the island scan's loop, at `island[i]`: a Houses tile
        outside the ring adds 1, a Churches tile outside the ring ends the
        scan, anything else is passed over. */
    method ScanPosition(pos: Position, island: seq<Position>, nearby: seq<Position>, i: nat, houses: nat)
      returns (houses': nat, church: bool)
      requires Valid() && OnBoard(pos) && nearby == grid[pos].GetNearby()
      requires ScanInv(View().cells, island, pos, i, houses) && i < |island|
      ensures church ==> AnyChurch(View().cells, IslandOutsideRing(island, pos, true))
      ensures !church ==> ScanInv(View().cells, island, pos, i + 1, houses')
    {
      ghost var cells := View().cells;
      var q := island[i];
      NearbyIsBlock(pos, q);
      houses', church := houses, false;
      if q !in nearby && q != pos {
        var tile := grid[q];
        assert cells[q] == Cell(tile.terrainType, tile.onIsland);
        if tile.terrainType == Houses {
          ScanKeep(cells, island, pos, i, houses);
          houses' := houses + 1;
        } else if tile.terrainType == Churches {
          ScanChurch(cells, island, pos, i, houses);
          church := true;
        } else {
          ScanKeep(cells, island, pos, i, houses);
        }
      } else {
        ScanSkip(cells, island, pos, i, houses);
      }
    }

    /** The Church rule: 2 per nearby Houses and, in strict mode, the island
        scan, which adds its Houses count or, on finding another Church,
        makes the score 0. */
    method GetChurchScore(pos: Position, temp: bool) returns (score: int)
      requires Valid() && OnBoard(pos)
      ensures score == ChurchScore(View(), pos, temp)
    {
      var ring := CountFilterUponNearby(pos, IsHousesCell);
      var island := IslandOf(islands, pos);
      IslandPositionsOnBoard(View(), pos);
      if temp {
        return 2 * ring;
      }
      var houses, church := ScanIsland(pos, island);
      if church {
        score := 0;
      } else {
        score := 2 * ring + houses;
      }
    }

    /** `get_score_at`: the score of one tile; raises off the board. */
    method GetScoreAt(pos: Position, temp: bool) returns (r: Result<int>)
      requires Valid()
      ensures !OnBoard(pos) ==> r == Err(PositionNotOnBoard)
      ensures OnBoard(pos) ==> r == Ok(ScoreAt(View(), pos, temp))
    {
      var found := GetTileAt(pos);
      if found.Err? {
        return Err(found.error);
      }
      var tile := found.value;
      if !temp && !IsTileValid(View(), pos, false) {
        return Ok(InvalidPenalty);
      }
      match tile.GetTerrain()
      case Empty =>
        r := Ok(0);
      case Boats =>
        var dist;
        ghost var order;
        dist, order := GetDistanceToIsland(pos, false);
        r := Ok(dist);
      case Waves =>
        var another := CheckSecWaveInRc(pos);
        r := Ok(if another then 0 else 2);
      case Beach =>
        var n := CountFilterUponTouching(pos, IsIslandCell);
        r := Ok(n);
      case Houses =>
        r := Ok(|HousesTerrains(View(), pos)|);
      case Churches =>
        var s := GetChurchScore(pos, temp);
        r := Ok(s);
      case Forest =>
        var n := CountFilterUponTouching(pos, IsForestCell);
        r := Ok(if n > 0 then 2 else 0);
      case Mountain =>
        var n := CountFilterUponNearby(pos, IsForestCell);
        r := Ok(2 * n);
    }

    /** `add_terrain`: raises off the board or on a tile whose terrain is
        already set; otherwise stores the terrain and changes nothing else. */
    method AddTerrain(pos: Position, t: Terrain) returns (r: Outcome)
      requires Valid()
      modifies grid.Values
      ensures Valid()
      ensures !OnBoard(pos) ==> r == Fail(PositionNotOnBoard)
      ensures OnBoard(pos) ==> (r.Pass? <==> old(View()).cells[pos].terrain == Empty)
      ensures r.Fail? && OnBoard(pos) ==> r.error == TerrainAlreadyAssigned
      ensures View() == if r.Pass? then old(View()).(cells := old(View()).cells[pos := Cell(t, old(View()).cells[pos].onIsland)])
                        else old(View())
    {
      var found := GetTileAt(pos);
      if found.Err? {
        return Fail(found.error);
      }
      r := found.value.SetTerrain(t);
      assert View().cells == if r.Pass? then old(View()).cells[pos := Cell(t, old(View()).cells[pos].onIsland)]
                             else old(View()).cells;
    }

    /** `add_island`, with the `break` that stops after the first empty slot:
        the registration the snapshot function `RegisterIsland` describes,
        and nothing changes when it raises. */
    method AddIsland(lop: seq<Position>) returns (r: Outcome)
      requires Valid()
      modifies this, grid.Values
      ensures Valid()
      ensures RegisterIsland(old(View()), lop).Ok? ==> r == Pass && View() == RegisterIsland(old(View()), lop).value
      ensures RegisterIsland(old(View()), lop).Err? ==> r == Fail(RegisterIsland(old(View()), lop).error) && View() == old(View())
    {
      ghost var v := View();
      if AllIslandsDrawn(islands) {
        return Fail(IslandsFull);
      }
      var slot := FirstFreeSlot(islands, lop);
      if slot.Err? {
        assert RegisterIsland(v, lop) == Err(IslandConflict) by { RegisterCases(v, lop, FirstEmpty(v.islands)); }
        return Fail(IslandConflict);
      }
      var k := slot.value;
      var found := GetTilesAt(lop);
      if found.Err? {
        assert RegisterIsland(v, lop) == Err(PositionNotOnBoard) by { RegisterCases(v, lop, k); }
        return Fail(found.error);
      }
      assert RegisterIsland(v, lop) == Ok(BoardView(ToggledCells(v.cells, lop), v.islands[k := v.islands[k] + lop])) by {
        RegisterCases(v, lop, k);
      }
      FillSlot(lop, found.value, k);
      r := Pass;
    }

    /** The successful end of `add_island`: the listed tiles are toggled and
        the list is stored in the first empty slot. */
    method FillSlot(lop: seq<Position>, tiles: seq<Tile>, k: nat)
      requires Valid() && !AllIslandsDrawn(islands) && k == FirstEmpty(islands)
      requires |tiles| == |lop| && forall i :: 0 <= i < |lop| ==> OnBoard(lop[i]) && tiles[i] == grid[lop[i]]
      modifies this, grid.Values
      ensures Valid()
      ensures View() == BoardView(ToggledCells(old(Cells()), lop), old(islands)[k := old(islands)[k] + lop])
    {
      ghost var before := Cells();
      ToggleTiles(lop, tiles);
      assert Cells() == ToggledCells(before, lop);
      islands := islands[k := lop];
      assert Cells() == ToggledCells(before, lop);
      assert Packed(islands) by {
        forall i, j | 0 <= i < j < |islands| && islands[i] == [] ensures islands[j] == [] {
          assert lop == [] || i != k;
        }
      }
      assert forall i, m :: 0 <= i < |islands| && 0 <= m < |islands[i]| ==> OnBoard(islands[i][m]) by {
        forall i, m | 0 <= i < |islands| && 0 <= m < |islands[i]| ensures OnBoard(islands[i][m]) {
          if i == k {
            assert islands[i][m] == lop[m];
          }
        }
      }
      assert old(islands)[k] + lop == lop;
    }

    /** The toggling loop of `add_island`: every tile of the list has its
        island flag flipped, once per occurrence of its position. */
    method ToggleTiles(lop: seq<Position>, tiles: seq<Tile>)
      requires Valid() && |tiles| == |lop|
      requires forall i :: 0 <= i < |lop| ==> OnBoard(lop[i]) && tiles[i] == grid[lop[i]]
      modifies grid.Values
      ensures Cells() == ToggledCells(old(Cells()), lop)
    {
      var i := 0;
      while i < |lop|
        invariant 0 <= i <= |lop|
        invariant forall p {:trigger grid[p].onIsland} :: p in grid ==> grid[p].onIsland == (old(grid[p].onIsland) != Odd(Occurrences(lop[..i], p)))
        invariant forall p {:trigger grid[p].terrainType} :: p in grid ==> grid[p].terrainType == old(grid[p].terrainType)
      {
        label Before:
        tiles[i].ToggleOnIsland();
        forall p | p in grid
          ensures grid[p].onIsland == (old(grid[p].onIsland) != Odd(Occurrences(lop[..i + 1], p)))
        {
          assert old@Before(grid[p].onIsland) == (old(grid[p].onIsland) != Odd(Occurrences(lop[..i], p)));
          ParityStep(lop, i, p);
          if p != lop[i] {
            assert grid[p] != tiles[i];
          }
        }
        i := i + 1;
      }
      assert lop[..i] == lop;
    }
  }

  /** The scan of `add_island` over the island slots: every filled slot
      before the first empty one is checked against the new positions, and
      the first conflict raises. */
  method FirstFreeSlot(islands: seq<seq<Position>>, lop: seq<Position>) returns (r: Result<nat>)
    requires !AllIslandsDrawn(islands)
    ensures r.Ok? ==> r.value == FirstEmpty(islands) && forall j {:trigger Conflicts(islands[j], lop)} :: 0 <= j < r.value ==> !Conflicts(islands[j], lop)
    ensures r.Err? ==> r.error == IslandConflict && exists j {:trigger Conflicts(islands[j], lop)} :: 0 <= j < FirstEmpty(islands) && Conflicts(islands[j], lop)
  {
    ghost var first := FirstEmpty(islands);
    var k := 0;
    while islands[k] != []
      invariant 0 <= k <= first
      invariant forall j {:trigger Conflicts(islands[j], lop)} :: 0 <= j < k ==> !Conflicts(islands[j], lop)
      decreases first - k
    {
      if Conflicts(islands[k], lop) {
        assert k < first;
        return Err(IslandConflict);
      }
      k := k + 1;
    }
    r := Ok(k);
  }

  /** One more element flips the parity of the count of that element, and
      only of it. */
  lemma ParityStep(lop: seq<Position>, i: nat, p: Position)
    requires i < |lop|
    ensures Odd(Occurrences(lop[..i + 1], p)) == (Odd(Occurrences(lop[..i], p)) != (lop[i] == p))
  {
    assert lop[..i + 1] == lop[..i] + [lop[i]];
    OccurrencesAppend(lop[..i], lop[i], p);
    OddSucc(Occurrences(lop[..i], p));
  }

  /** The successor of a number has the other parity. */
  lemma OddSucc(n: nat)
    ensures Odd(n + 1) == !Odd(n)
  {
  }

  /** The invariant of the island scan after `i` island positions: `houses`
      counts the Houses among the positions kept so far, and none of them is
      a Church. */
  ghost predicate ScanInv(cells: map<Position, Cell>, island: seq<Position>, pos: Position, i: nat, houses: nat)
  {
    && i <= |island| && (forall p :: p in island ==> p in cells)
    && houses == CountWhere(cells, IslandOutsideRing(island[..i], pos, true), IsHousesCell)
    && !AnyChurch(cells, IslandOutsideRing(island[..i], pos, true))
  }

  lemma ScanStart(cells: map<Position, Cell>, island: seq<Position>, pos: Position)
    requires forall p :: p in island ==> p in cells
    ensures ScanInv(cells, island, pos, 0, 0)
  {
    assert island[..0] == [];
  }

  /** A position in the nearby ring, or the Church's own, is skipped. */
  lemma ScanSkip(cells: map<Position, Cell>, island: seq<Position>, pos: Position, i: nat, houses: nat)
    requires ScanInv(cells, island, pos, i, houses) && i < |island|
    requires InRing(pos, island[i]) || island[i] == pos
    ensures ScanInv(cells, island, pos, i + 1, houses)
  {
    assert island[..i + 1] == island[..i] + [island[i]];
    IslandOutsideRingSnoc(island[..i], island[i], pos, true);
  }

  /** A kept position that is not a Church adds 1 when it is Houses. */
  lemma ScanKeep(cells: map<Position, Cell>, island: seq<Position>, pos: Position, i: nat, houses: nat)
    requires ScanInv(cells, island, pos, i, houses) && i < |island|
    requires !InRing(pos, island[i]) && island[i] != pos && cells[island[i]].terrain != Churches
    ensures ScanInv(cells, island, pos, i + 1, houses + if cells[island[i]].terrain == Houses then 1 else 0)
  {
    var q := island[i];
    var seen := IslandOutsideRing(island[..i], pos, true);
    assert island[..i + 1] == island[..i] + [q];
    IslandOutsideRingSnoc(island[..i], q, pos, true);
    CountWhereSnoc(cells, seen, q, IsHousesCell);
  }

  /** A kept Church is a Church the whole scan sees. */
  lemma ScanChurch(cells: map<Position, Cell>, island: seq<Position>, pos: Position, i: nat, houses: nat)
    requires ScanInv(cells, island, pos, i, houses) && i < |island|
    requires !InRing(pos, island[i]) && island[i] != pos && cells[island[i]].terrain == Churches
    ensures AnyChurch(cells, IslandOutsideRing(island, pos, true))
  {
    assert island[i] in island;
  }

  /** After the last position, the scan's count is the rule's count. */
  lemma ScanEnd(cells: map<Position, Cell>, island: seq<Position>, pos: Position, houses: nat)
    requires ScanInv(cells, island, pos, |island|, houses)
    ensures !AnyChurch(cells, IslandOutsideRing(island, pos, true))
    ensures houses == CountWhere(cells, IslandOutsideRing(island, pos, true), IsHousesCell)
  {
    assert island[..|island|] == island;
  }
}
