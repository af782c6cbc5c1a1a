/**
 * The scoring rules of the 9x9 board, as functions over a snapshot of the
 * board: each tile's terrain and island flag, and the three island slots.
 *
 * `temp` is the source's lenient flag: when it is false (strict mode) a tile
 * that breaks the placement rules scores the penalty -5 whatever its terrain,
 * and Churches also look at their whole island.
 *
 * Where the Python text differs from what its comments and names promise,
 * the functions here follow the promise and a function named `...AsWritten`
 * keeps the text:
 *  - the helper that counts "touching" tiles walks the nearby tiles
 *    (`CountTouchingAsWritten`); the rules below count touching tiles;
 *  - a Church in strict mode meets its own tile among its island's tiles and
 *    cancels itself (`ChurchScoreAsWritten`); `ChurchScore` skips its own tile;
 *  - the score dispatch calls the validity check without its `temp` argument,
 *    which raises; the only call site is strict, so `false` is passed;
 *  - an EMPTY tile falls through every branch and Python returns None; it
 *    scores 0 here.
 */
module Board9Scoring {
  import opened Base
  import opened Terrains
  import opened Board9Grid

  /** What the rules read of one tile. */
  datatype Cell = Cell(terrain: Terrain, onIsland: bool)

  /** A snapshot of the board. */
  datatype BoardView = BoardView(cells: map<Position, Cell>, islands: seq<seq<Position>>)

  /** Every board position has a cell and no other position does; every
      island position is on the board. */
  ghost predicate WellFormed(v: BoardView)
  {
    && (forall p :: p in v.cells <==> OnBoard(p))
    && (forall i, k :: 0 <= i < |v.islands| && 0 <= k < |v.islands[i]| ==> OnBoard(v.islands[i][k]))
  }

  const InvalidPenalty: int := -5

  function IsIslandCell(c: Cell): bool { c.onIsland }
  function IsHousesCell(c: Cell): bool { c.terrain == Houses }
  function IsForestCell(c: Cell): bool { c.terrain == Forest }

  /** How many of the positions `ps` hold a cell satisfying `f` (the source's
      `_count_filter_upon_*` helpers). */
  function CountWhere(cells: map<Position, Cell>, ps: seq<Position>, f: Cell -> bool): (n: nat)
    requires forall q :: q in ps ==> q in cells
    ensures n <= |ps|
  {
    if ps == [] then 0
    else CountWhere(cells, ps[..|ps| - 1], f) + (if f(cells[ps[|ps| - 1]]) then 1 else 0)
  }

  lemma CountWhereSnoc(cells: map<Position, Cell>, ps: seq<Position>, x: Position, f: Cell -> bool)
    requires (forall q :: q in ps ==> q in cells) && x in cells
    ensures CountWhere(cells, ps + [x], f) == CountWhere(cells, ps, f) + (if f(cells[x]) then 1 else 0)
  {
    assert (ps + [x])[..|ps|] == ps;
  }

  /** The count is zero exactly when no listed cell satisfies `f`. */
  lemma {:induction false} CountWhereZero(cells: map<Position, Cell>, ps: seq<Position>, f: Cell -> bool)
    requires forall q :: q in ps ==> q in cells
    ensures CountWhere(cells, ps, f) == 0 <==> forall q :: q in ps ==> !f(cells[q])
  {
    if ps != [] {
      var front := ps[..|ps| - 1];
      CountWhereZero(cells, front, f);
      assert ps == front + [ps[|ps| - 1]];
    }
  }

  /** A count over `ps` does not see a cell outside `ps`. */
  lemma {:induction false} CountWhereIgnoresOthers(cells: map<Position, Cell>, ps: seq<Position>, f: Cell -> bool, q: Position, c: Cell)
    requires forall p :: p in ps ==> p in cells
    requires q !in ps
    ensures CountWhere(cells[q := c], ps, f) == CountWhere(cells, ps, f)
  {
    if ps != [] {
      CountWhereIgnoresOthers(cells, ps[..|ps| - 1], f, q, c);
    }
  }

  /** As written, the "touching" counter walks the nearby list. */
  function CountTouchingAsWritten(cells: map<Position, Cell>, pos: Position, f: Cell -> bool): nat
    requires OnBoard(pos) && forall q :: OnBoard(q) ==> q in cells
  {
    CountWhere(cells, Nearby(pos), f)
  }

  /** The tile is not on an island but touches one. */
  predicate IsOnShore(v: BoardView, pos: Position)
    requires WellFormed(v) && OnBoard(pos)
  {
    !v.cells[pos].onIsland && CountWhere(v.cells, Touching(pos), IsIslandCell) >= 1
  }

  /** The placement rules: land must be on an island (checked only in strict
      mode), sea must not be, and in strict mode a Beach must not be on the
      shore. */
  predicate IsTileValid(v: BoardView, pos: Position, temp: bool)
    requires WellFormed(v) && OnBoard(pos)
  {
    var c := v.cells[pos];
    if IsLand(c.terrain) then temp || c.onIsland
    else if IsSea(c.terrain) && c.onIsland then false
    else if c.terrain == Beach then temp || !IsOnShore(v, pos)
    else true
  }

  /** Another Waves tile in the same row (first loop) or column (second). */
  predicate AnotherWaveInLine(v: BoardView, pos: Position)
    requires WellFormed(v) && OnBoard(pos)
  {
    || (exists c :: 0 <= c <= MaxIndex && c != pos.col && v.cells[Position(c, pos.row)].terrain == Waves)
    || (exists r :: 0 <= r <= MaxIndex && r != pos.row && v.cells[Position(pos.col, r)].terrain == Waves)
  }

  /** What the island-distance search looks for: land terrain in lenient
      mode, an on-island tile in strict mode. */
  predicate IsTarget(c: Cell, temp: bool)
  {
    if temp then IsLand(c.terrain) else c.onIsland
  }

  predicate HasTargetIn(cells: map<Position, Cell>, temp: bool, ps: seq<Position>)
    requires forall q :: q in ps ==> q in cells
  {
    exists q :: q in ps && IsTarget(cells[q], temp)
  }

  /** The smallest distance from `pos` to a target among `ps`; 0 if none. */
  function NearestIn(cells: map<Position, Cell>, pos: Position, temp: bool, ps: seq<Position>): (d: nat)
    requires forall q :: q in ps ==> q in cells
    ensures HasTargetIn(cells, temp, ps) ==>
              (exists q :: q in ps && IsTarget(cells[q], temp) && Manhattan(pos, q) == d) &&
              (forall q :: q in ps && IsTarget(cells[q], temp) ==> d <= Manhattan(pos, q))
    ensures !HasTargetIn(cells, temp, ps) ==> d == 0
  {
    if ps == [] then 0
    else
      var rest := NearestIn(cells, pos, temp, ps[1..]);
      var here := Manhattan(pos, ps[0]);
      if !IsTarget(cells[ps[0]], temp) then rest
      else if HasTargetIn(cells, temp, ps[1..]) && rest < here then rest
      else here
  }

  /** The distance from `pos` to the nearest target on the board, 0 if there
      is none. */
  function NearestTargetDistance(v: BoardView, pos: Position, temp: bool): nat
    requires WellFormed(v)
  {
    NearestIn(v.cells, pos, temp, GridOrder())
  }

  /** `NearestTargetDistance` is the minimum over the board's targets, and 0
      when the board has none: any `d` with that property equals it. */
  lemma NearestTargetDistanceIsMinimum(v: BoardView, pos: Position, temp: bool, d: nat)
    requires WellFormed(v)
    requires (forall q :: OnBoard(q) ==> !IsTarget(v.cells[q], temp)) ==> d == 0
    requires (exists q :: OnBoard(q) && IsTarget(v.cells[q], temp)) ==>
               (exists q :: OnBoard(q) && IsTarget(v.cells[q], temp) && Manhattan(pos, q) == d) &&
               (forall q :: OnBoard(q) && IsTarget(v.cells[q], temp) ==> d <= Manhattan(pos, q))
    ensures NearestTargetDistance(v, pos, temp) == d
  {
    BoardHas81Positions();
    var g := GridOrder();
    assert forall q :: q in g <==> OnBoard(q) by {
      forall q ensures q in g <==> OnBoard(q) {
        assert q in Elements(g) <==> q in BoardPositions();
      }
    }
    if HasTargetIn(v.cells, temp, g) {
      var m := NearestTargetDistance(v, pos, temp);
      var q1 :| q1 in g && IsTarget(v.cells[q1], temp) && Manhattan(pos, q1) == m;
      var q2 :| OnBoard(q2) && IsTarget(v.cells[q2], temp) && Manhattan(pos, q2) == d;
      assert d <= m && m <= Manhattan(pos, q2);
    }
  }

  /** The first island slot that contains `pos`, or the empty list. */
  function IslandOf(islands: seq<seq<Position>>, pos: Position): (r: seq<Position>)
    ensures r == [] || pos in r
    ensures (exists i :: 0 <= i < |islands| && pos in islands[i]) ==> r in islands && pos in r
    ensures (forall i :: 0 <= i < |islands| ==> pos !in islands[i]) ==> r == []
    ensures (exists i :: 0 <= i < |islands| && pos in islands[i]) ==>
              exists i :: 0 <= i < |islands| && r == islands[i] && pos in islands[i] &&
                forall j :: 0 <= j < i ==> pos !in islands[j]
  {
    if islands == [] then []
    else if pos in islands[0] then islands[0]
    else IslandOf(islands[1..], pos)
  }

  /** The island positions a Church looks at: those outside its nearby ring,
      and, when `excludeSelf` holds, other than its own. */
  function IslandOutsideRing(island: seq<Position>, pos: Position, excludeSelf: bool): (r: seq<Position>)
    ensures |r| <= |island|
    ensures forall q :: q in r <==> q in island && !InRing(pos, q) && (excludeSelf ==> q != pos)
  {
    if island == [] then []
    else
      var q := island[|island| - 1];
      var front := IslandOutsideRing(island[..|island| - 1], pos, excludeSelf);
      if !InRing(pos, q) && (excludeSelf ==> q != pos) then front + [q] else front
  }

  lemma IslandOutsideRingSnoc(island: seq<Position>, x: Position, pos: Position, excludeSelf: bool)
    ensures IslandOutsideRing(island + [x], pos, excludeSelf)
         == IslandOutsideRing(island, pos, excludeSelf) + (if !InRing(pos, x) && (excludeSelf ==> x != pos) then [x] else [])
  {
    assert (island + [x])[..|island|] == island;
  }

  /** The terrains, other than EMPTY and HOUSES, found on nearby tiles. */
  function HousesTerrains(v: BoardView, pos: Position): set<Terrain>
    requires WellFormed(v) && OnBoard(pos)
  {
    set q | q in Nearby(pos) && v.cells[q].terrain != Empty && v.cells[q].terrain != Houses :: v.cells[q].terrain
  }

  /** Church score given the island positions it looks at: 2 per nearby
      Houses; in strict mode 0 if a Churches tile is among `others`, and
      otherwise 1 more per Houses tile among them. */
  function ChurchScoreOver(v: BoardView, pos: Position, temp: bool, others: seq<Position>): int
    requires WellFormed(v) && OnBoard(pos)
    requires forall q :: q in others ==> OnBoard(q)
  {
    var ring := 2 * CountWhere(v.cells, Nearby(pos), IsHousesCell);
    if temp then ring
    else if AnyChurch(v.cells, others) then 0
    else ring + CountWhere(v.cells, others, IsHousesCell)
  }

  /** Some listed cell holds a Church. */
  predicate AnyChurch(cells: map<Position, Cell>, ps: seq<Position>)
    requires forall q :: q in ps ==> q in cells
  {
    exists q :: q in ps && cells[q].terrain == Churches
  }

  /** As written: the Church's own tile is among the positions it looks at. */
  function ChurchScoreAsWritten(v: BoardView, pos: Position, temp: bool): int
    requires WellFormed(v) && OnBoard(pos)
  {
    IslandPositionsOnBoard(v, pos);
    ChurchScoreOver(v, pos, temp, IslandOutsideRing(IslandOf(v.islands, pos), pos, false))
  }

  /** As intended: the Church skips its own tile. */
  function ChurchScore(v: BoardView, pos: Position, temp: bool): int
    requires WellFormed(v) && OnBoard(pos)
  {
    IslandPositionsOnBoard(v, pos);
    ChurchScoreOver(v, pos, temp, IslandOutsideRing(IslandOf(v.islands, pos), pos, true))
  }

  lemma IslandPositionsOnBoard(v: BoardView, pos: Position)
    requires WellFormed(v)
    ensures forall q :: q in IslandOf(v.islands, pos) ==> OnBoard(q)
  {
    var isl := IslandOf(v.islands, pos);
    if isl != [] {
      var i :| 0 <= i < |v.islands| && v.islands[i] == isl;
      forall q | q in isl ensures OnBoard(q) {
        var k :| 0 <= k < |isl| && isl[k] == q;
        assert OnBoard(v.islands[i][k]);
      }
    }
  }

  /** The score of the tile at `pos` (the source's `get_score_at`). */
  ghost function ScoreAt(v: BoardView, pos: Position, temp: bool): int
    requires WellFormed(v) && OnBoard(pos)
  {
    if !temp && !IsTileValid(v, pos, false) then InvalidPenalty
    else match v.cells[pos].terrain
      case Empty => 0
      case Boats => NearestTargetDistance(v, pos, false)
      case Waves => if AnotherWaveInLine(v, pos) then 0 else 2
      case Beach => CountWhere(v.cells, Touching(pos), IsIslandCell)
      case Houses => |HousesTerrains(v, pos)|
      case Churches => ChurchScore(v, pos, temp)
      case Forest => if CountWhere(v.cells, Touching(pos), IsForestCell) > 0 then 2 else 0
      case Mountain => 2 * CountWhere(v.cells, Nearby(pos), IsForestCell)
  }

  // ----- properties of the rules -----

  /** An unassigned tile scores 0 in both modes. */
  lemma EmptyTileScoresZero(v: BoardView, pos: Position, temp: bool)
    requires WellFormed(v) && OnBoard(pos) && v.cells[pos].terrain == Empty
    ensures ScoreAt(v, pos, temp) == 0
  {
  }

  /** In strict mode a tile that breaks the placement rules scores -5, and
      only such a tile does. */
  lemma StrictPenaltyExactly(v: BoardView, pos: Position)
    requires WellFormed(v) && OnBoard(pos)
    ensures ScoreAt(v, pos, false) == InvalidPenalty <==> !IsTileValid(v, pos, false)
  {
    if IsTileValid(v, pos, false) {
      var c := v.cells[pos];
      if c.terrain == Churches {
        IslandPositionsOnBoard(v, pos);
      }
    }
  }

  /** A tile that is not penalised is never negative. */
  lemma ScoreNonNegative(v: BoardView, pos: Position, temp: bool)
    requires WellFormed(v) && OnBoard(pos)
    requires temp || IsTileValid(v, pos, false)
    ensures ScoreAt(v, pos, temp) >= 0
  {
    if v.cells[pos].terrain == Churches {
      IslandPositionsOnBoard(v, pos);
    }
  }

  /** Boats score at most 16, the largest distance on the board. */
  lemma BoatsRange(v: BoardView, pos: Position, temp: bool)
    requires WellFormed(v) && OnBoard(pos) && v.cells[pos].terrain == Boats
    requires temp || IsTileValid(v, pos, false)
    ensures 0 <= ScoreAt(v, pos, temp) <= 16
  {
    var d := NearestTargetDistance(v, pos, false);
    assert ScoreAt(v, pos, temp) == d;
    if HasTargetIn(v.cells, false, GridOrder()) {
      var q :| q in GridOrder() && IsTarget(v.cells[q], false) && Manhattan(pos, q) == d;
      assert OnBoard(q);
    }
  }

  /** Houses score the number of distinct other terrains nearby: 0 to 6. */
  lemma HousesRange(v: BoardView, pos: Position, temp: bool)
    requires WellFormed(v) && OnBoard(pos) && v.cells[pos].terrain == Houses
    requires temp || IsTileValid(v, pos, false)
    ensures 0 <= ScoreAt(v, pos, temp) <= 6
  {
    var kinds: set<Terrain> := {Boats, Waves, Beach, Churches, Forest, Mountain};
    assert HousesTerrains(v, pos) <= kinds;
    assert |kinds| == 6;
    SubsetCardinality(HousesTerrains(v, pos), kinds);
  }

  /** Forest scores exactly 0 or 2. */
  lemma ForestRange(v: BoardView, pos: Position, temp: bool)
    requires WellFormed(v) && OnBoard(pos) && v.cells[pos].terrain == Forest
    requires temp || IsTileValid(v, pos, false)
    ensures ScoreAt(v, pos, temp) in {0, 2}
  {
  }

  /** Mountain scores 2 per nearby Forest: an even number from 0 to 16. */
  lemma MountainRange(v: BoardView, pos: Position, temp: bool)
    requires WellFormed(v) && OnBoard(pos) && v.cells[pos].terrain == Mountain
    requires temp || IsTileValid(v, pos, false)
    ensures ScoreAt(v, pos, temp) % 2 == 0 && 0 <= ScoreAt(v, pos, temp) <= 16
  {
    var n := CountWhere(v.cells, Nearby(pos), IsForestCell);
    assert ScoreAt(v, pos, temp) == 2 * n;
    assert n <= 8;
    assert (2 * n) % 2 == 0;
  }

  /** Waves score 0 or 2; Beach at most 4, one per touching island tile. */
  lemma WavesAndBeachRange(v: BoardView, pos: Position, temp: bool)
    requires WellFormed(v) && OnBoard(pos)
    requires v.cells[pos].terrain == Waves || v.cells[pos].terrain == Beach
    requires temp || IsTileValid(v, pos, false)
    ensures v.cells[pos].terrain == Waves ==> ScoreAt(v, pos, temp) in {0, 2}
    ensures v.cells[pos].terrain == Beach ==> 0 <= ScoreAt(v, pos, temp) <= 4
  {
  }

  /** Two Waves tiles that share a row or a column both score 0. */
  lemma WavesInLineCancel(v: BoardView, p: Position, q: Position, temp: bool)
    requires WellFormed(v) && OnBoard(p) && OnBoard(q) && p != q
    requires p.row == q.row || p.col == q.col
    requires v.cells[p].terrain == Waves && v.cells[q].terrain == Waves
    requires temp || (IsTileValid(v, p, false) && IsTileValid(v, q, false))
    ensures ScoreAt(v, p, temp) == 0 && ScoreAt(v, q, temp) == 0
  {
    if p.row == q.row {
      assert v.cells[Position(q.col, p.row)].terrain == Waves;
      assert v.cells[Position(p.col, q.row)].terrain == Waves;
    } else {
      assert v.cells[Position(p.col, q.row)].terrain == Waves;
      assert v.cells[Position(q.col, p.row)].terrain == Waves;
    }
  }

  /** A Waves tile alone in its row and column scores 2. */
  lemma LoneWavesScoresTwo(v: BoardView, p: Position, temp: bool)
    requires WellFormed(v) && OnBoard(p) && v.cells[p].terrain == Waves
    requires temp || IsTileValid(v, p, false)
    requires forall q :: OnBoard(q) && q != p && (q.row == p.row || q.col == p.col) ==> v.cells[q].terrain != Waves
    ensures ScoreAt(v, p, temp) == 2
  {
  }

  /** A Boats tile scores the distance to the nearest on-island tile, and 0
      when the board has no island tile. */
  lemma BoatsScoreNearestIsland(v: BoardView, pos: Position, temp: bool, q: Position)
    requires WellFormed(v) && OnBoard(pos) && v.cells[pos].terrain == Boats
    requires temp || IsTileValid(v, pos, false)
    requires OnBoard(q) && v.cells[q].onIsland
    ensures ScoreAt(v, pos, temp) <= Manhattan(pos, q)
    ensures exists t :: OnBoard(t) && v.cells[t].onIsland && Manhattan(pos, t) == ScoreAt(v, pos, temp)
  {
    BoardHas81Positions();
    assert q in Elements(GridOrder());
    assert HasTargetIn(v.cells, false, GridOrder());
    var t :| t in GridOrder() && IsTarget(v.cells[t], false) && Manhattan(pos, t) == ScoreAt(v, pos, temp);
    assert OnBoard(t);
  }

  // ----- the two defects kept visible -----

  function EmptyCells(): (cells: map<Position, Cell>)
    ensures forall p :: p in cells <==> OnBoard(p)
  {
    map p | p in BoardPositions() :: Cell(Empty, false)
  }

  /** As written, a Forest at (0, 0) counts the Forest at (1, 1) as
      touching; the intended count sees none, so the Forest scores 0. */
  lemma TouchingCountAsWrittenSeesCorners()
    ensures var cells := EmptyCells()[Position(0, 0) := Cell(Forest, false)][Position(1, 1) := Cell(Forest, false)];
      && CountTouchingAsWritten(cells, Position(0, 0), IsForestCell) == 1
      && CountWhere(cells, Touching(Position(0, 0)), IsForestCell) == 0
      && ScoreAt(BoardView(cells, []), Position(0, 0), true) == 0
  {
    var cells := EmptyCells()[Position(0, 0) := Cell(Forest, false)][Position(1, 1) := Cell(Forest, false)];
    var t := Touching(Position(0, 0));
    var near := Nearby(Position(0, 0));
    assert t == [Position(1, 0), Position(0, 1)];
    assert near == t + [Position(1, 1)];
    assert cells[Position(1, 0)] == Cell(Empty, false);
    assert cells[Position(0, 1)] == Cell(Empty, false);
    assert t[..1] == [Position(1, 0)] && t[..1][..0] == [];
    assert CountWhere(cells, t[..1], IsForestCell) == 0;
    assert CountWhere(cells, t, IsForestCell) == 0;
    assert near[..2] == t;
    assert CountWhere(cells, near, IsForestCell) == 1;
  }

  /** As written, a Church on an island in strict mode finds itself among its
      island's Churches and always scores 0. */
  lemma ChurchAsWrittenCancelsItself(v: BoardView, pos: Position)
    requires WellFormed(v) && OnBoard(pos)
    requires v.cells[pos].terrain == Churches
    requires exists i :: 0 <= i < |v.islands| && pos in v.islands[i]
    ensures ChurchScoreAsWritten(v, pos, false) == 0
  {
    IslandPositionsOnBoard(v, pos);
    NearbyIsBlock(pos, pos);
    assert pos in IslandOutsideRing(IslandOf(v.islands, pos), pos, false);
  }

  /** A Church at (0, 0) beside a Houses tile at (1, 0), both on the first
      island. */
  function ChurchExample(): BoardView
  {
    BoardView(EmptyCells()[Position(0, 0) := Cell(Churches, true)][Position(1, 0) := Cell(Houses, true)],
              [[Position(0, 0), Position(1, 0)], [], []])
  }

  lemma ChurchExampleWellFormed()
    ensures WellFormed(ChurchExample())
  {
    var v := ChurchExample();
    forall i, k | 0 <= i < |v.islands| && 0 <= k < |v.islands[i]| ensures OnBoard(v.islands[i][k]) {
      assert i == 0;
    }
  }

  /** The example Church has exactly one Houses tile in its nearby ring. */
  lemma ChurchExampleRing()
    ensures CountWhere(ChurchExample().cells, Nearby(Position(0, 0)), IsHousesCell) == 1
  {
    var cells := ChurchExample().cells;
    var near := Nearby(Position(0, 0));
    assert near == [Position(1, 0), Position(0, 1), Position(1, 1)];
    assert cells[Position(0, 1)].terrain == Empty;
    assert cells[Position(1, 1)].terrain == Empty;
    assert near[..2] == [Position(1, 0), Position(0, 1)];
    assert near[..2][..1] == [Position(1, 0)];
    assert near[..2][..1][..0] == [];
    assert CountWhere(cells, near[..2][..1], IsHousesCell) == 1;
    assert CountWhere(cells, near[..2], IsHousesCell) == 1;
  }

  /** The whole island of the example Church is in its nearby ring or is the
      Church itself. */
  lemma ChurchExampleIsland()
    ensures IslandOutsideRing(IslandOf(ChurchExample().islands, Position(0, 0)), Position(0, 0), true) == []
  {
    var isl := IslandOf(ChurchExample().islands, Position(0, 0));
    assert isl == [Position(0, 0), Position(1, 0)];
  }

  /** As written the example Church scores 0, as intended 2. */
  lemma ChurchBesideHouses()
    ensures WellFormed(ChurchExample())
    ensures ChurchScoreAsWritten(ChurchExample(), Position(0, 0), false) == 0
    ensures ChurchScore(ChurchExample(), Position(0, 0), false) == 2
  {
    var v := ChurchExample();
    var pos := Position(0, 0);
    ChurchExampleWellFormed();
    ChurchExampleRing();
    ChurchExampleIsland();
    assert v.cells[pos].terrain == Churches && pos in v.islands[0];
    ChurchAsWrittenCancelsItself(v, pos);
    assert !AnyChurch(v.cells, []);
  }
}
