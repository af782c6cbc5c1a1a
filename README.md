# Tiny Islands: a verified model of the board and scoring core

Tiny Islands is a small tile-placement puzzle. Players place terrains
(Boats, Waves, Beach, Houses, Churches, Forest, Mountain) on a grid, and up to
three islands are drawn on it. Each tile then scores by rules that look at
its touching tiles (orthogonal), its nearby tiles (orthogonal and diagonal),
its row and column, and the island it belongs to. The repository holds three
drafts of the same game, and this project models the core of each in Dafny:

- **The 9x9 scoring board** (`src/board.py`, and the terrain tile it shares
  with `codebase/tinyisland.model/tile/tile.py`). Modules `Terrains`,
  `TerrainTile`, `Board9Grid`, `Board9Scoring`, `Board9Search` and `Board9`.
  The board is a class holding 81 tile objects and three island slots. Its
  loops are methods proved against functions of a snapshot of the board
  (`BoardView`). The scoring rules are functions of that snapshot. The
  breadth-first island-distance search is proved to return the distance to a
  nearest target.
- **The rule-driven draft** (`codebase/minisland/model.py` and `search.py`).
  Modules `GridAdjacency`, `MiniRules`, `MiniBoard` and `MiniSearch`.
  Scoring rules and tile types are pure functions. The board is a class of
  tile objects. The two breadth-first turn searches are methods over an
  abstract game state, proved to compute the best score and the path to it.
- **The tile-type draft** (`codebase/tinyisland/Board.py`, `Tile.py`,
  `terrain/terrain.py`). Modules `Terrains`, `GridAdjacency`, `TinyTile` and
  `TinyBoard`: the tile class, the board's constructor and lookup, the
  Houses score and tile placement.

Python exceptions become `Err`/`Fail` values of `Base.Result` and
`Base.Outcome`. Positions are values compared structurally. The adjacency
generators of all three drafts are wrong, each in its own way. For each one
the model keeps the text as written next to the intended definition, and
every board uses the intended one (see "## Findings").

Where the game's written rules and the code disagree, the model follows the
code:

- A Boats tile with no island on the board scores 0. The written rules say it
  scores the larger grid dimension.
- The search explores every touching tile, not only valid ones.
- Beach scores one point per touching island tile. In strict mode a Beach on
  the shore is invalid: the code rejects what the written rules require.
- A Church cancels only against another Church on its island outside its
  nearby ring.

## Model

| member | source | states |
|---|---|---|
| `Terrains.Value` | codebase/tinyisland/terrain/terrain.py:8-15 | every terrain's value lies in 0..7, and only EMPTY has value 0 |
| `Terrains.FromValue` | codebase/tinyisland/terrain/terrain.py:8-15 | for every value 0..7, the terrain returned has that value (the enumeration's lookup by value) |
| `Terrains.ValueRoundTrip` | codebase/tinyisland/terrain/terrain.py:8-15 | the eight values are distinct: looking a terrain up by its own value gives it back, and no two terrains share a value |
| `Terrains.ClassesByValue` | codebase/tinyisland/terrain/terrain.py:17-18 | land is exactly the terrains with values {4,5,6,7} and sea exactly those with {1,2}; the classes are disjoint; EMPTY and BEACH belong to neither |
| `TerrainTile.Tile.constructor` | codebase/tinyisland.model/tile/tile.py:5-14 | a new tile keeps its two adjacency lists, has terrain EMPTY and is not on an island (the same class is at src/board.py lines 22-32) |
| `TerrainTile.Tile.HasSetTerrain` | codebase/tinyisland.model/tile/tile.py:16-21 | a terrain counts as set exactly when the tile is not EMPTY |
| `TerrainTile.Tile.GetTerrain` | codebase/tinyisland.model/tile/tile.py:23-28 | the terrain returned is the one `is_terrain` accepts |
| `TerrainTile.Tile.SetTerrain` | codebase/tinyisland.model/tile/tile.py:38-46 | raises exactly when a non-EMPTY terrain is already set, and then changes nothing; otherwise stores the terrain; storing EMPTY leaves the tile assignable; only the terrain field may change, so the adjacency lists and the island flag stay |
| `TerrainTile.Tile.ToggleOnIsland` | codebase/tinyisland.model/tile/tile.py:55-59 | the island flag is negated and nothing else changes |
| `TerrainTile.Tile.GetTouching` | codebase/tinyisland.model/tile/tile.py:61-66 | the touching positions are the first \|adj\| nearby positions: exactly the adjacency list given at construction |
| `TerrainTile.Tile.GetNearby` | codebase/tinyisland.model/tile/tile.py:68-73 | the nearby list is the touching list followed by the corner list: it begins with `adj` in order, ends with `cor`, has length \|adj\| + \|cor\| and no other members |
| `TerrainTile.ToggleTwice` | codebase/tinyisland.model/tile/tile.py:55-59 | toggling twice restores the island flag and leaves the terrain |
| `TerrainTile.AssignTwice` | codebase/tinyisland.model/tile/tile.py:38-46 | on an unassigned tile the first assignment succeeds; the second succeeds exactly when the first stored EMPTY; the final terrain is the one that stuck |
| `Board9Grid.BoardPositions` | src/board.py:127-131 | the board's positions are exactly those with column and row in 0..8 |
| `Board9Grid.GridOrder` | src/board.py:127-131 | the constructor's creation order: 81 positions, position i being column i mod 9 of row i div 9, all on the board |
| `Board9Grid.BoardHas81Positions` | src/board.py:127-131 | the creation order lists each board position exactly once, and there are 81 of them |
| `Board9Grid.Touching` | src/board.py:102-109 | at most 4 touching positions, all on the board when the tile is |
| `Board9Grid.Corners` | src/board.py:110-117 | at most 4 corner positions, all on the board when the tile is |
| `Board9Grid.Nearby` | src/board.py:86-91 | at most 8 nearby positions, all on the board when the tile is |
| `Board9Grid.TouchingIsOrthogonalRing` | src/board.py:102-109 | a position is touching exactly when it is on the board at Manhattan distance 1; none is listed twice |
| `Board9Grid.CornersAreDiagonalRing` | src/board.py:110-117 | a position is a corner exactly when it is on the board and diagonal to the tile; none is listed twice |
| `Board9Grid.NearbyIsBlock` | src/board.py:94-118 | the nearby list is the 3x3 block around the tile, cut to the board, without the tile itself, and has no repetitions |
| `Board9Grid.TouchingSymmetric` | src/board.py:102-109 | q touches p exactly when p touches q |
| `Board9Grid.TouchingStep` | src/board.py:239-242 | a step to a touching tile changes the distance to any fixed position by exactly one |
| `Board9Grid.Toward` | src/board.py:239-242 | every position other than the start has a touching neighbour one step closer to the start: the grid is connected, and its graph distance is the Manhattan distance |
| `Board9Grid.ClosedSetCoversBoard` | src/board.py:234-243 | a set that holds the start and the touching neighbours of all its members holds the whole board |
| `Board9Grid.TouchingAsWritten` | src/board.py:102-109 | the touching list as written (`y - 1` in the `y < 8` branch), at most 4 entries |
| `Board9Grid.TouchingTypoShown` | src/board.py:106-107 | as written, (0,0) lists the off-board (0,-1) and misses (0,1), and (4,4) lists (4,3) twice; the intended list has (0,1) |
| `Board9Scoring.ScoreAt` | src/board.py:285-325 | the score `get_score_at` gives a tile on a board snapshot: the strict-mode penalty, 0 for EMPTY, else its terrain's rule; the range and cancellation lemmas below state what it promises, and `Board9.Board.GetScoreAt` is proved to return it |
| `Board9Scoring.IsOnShore` | src/board.py:245-252 | a tile is on the shore exactly when it is off every island and some touching tile is on one |
| `Board9Scoring.IsTileValid` | src/board.py:254-272 | the placement rules: land off an island is invalid in strict mode, sea on an island is always invalid, a Beach on the shore is invalid in strict mode; `StrictPenaltyExactly` ties it to the penalty |
| `Board9Scoring.AnotherWaveInLine` | src/board.py:204-221 | some other tile of the same row or column holds Waves; `Board9.Board.CheckSecWaveInRc` is proved to compute it |
| `Board9Scoring.IsTarget` | src/board.py:237-238 | what the island-distance search stops at: a land terrain in lenient mode, an on-island tile in strict mode |
| `Board9Scoring.NearestTargetDistance` | src/board.py:223-243 | the least distance from the tile to a target on the board, 0 when there is none (`NearestTargetDistanceIsMinimum`); the search is proved to return it |
| `Board9Scoring.CountTouchingAsWritten` | src/board.py:180-191 | the touching counter as written: it counts over the nearby list, corners included |
| `Board9Scoring.CountWhere` | src/board.py:167-178 | the count of listed tiles satisfying the filter is never more than the number of listed tiles |
| `Board9Scoring.CountWhereZero` | src/board.py:167-178 | the count is 0 exactly when no listed tile satisfies the filter |
| `Board9Scoring.CountWhereIgnoresOthers` | src/board.py:167-178 | changing a tile that is not listed does not change the count |
| `Board9Scoring.NearestIn` | src/board.py:223-243 | among the listed positions, the distance returned is attained by a target and is at most the distance to every target, and it is 0 when none is a target |
| `Board9Scoring.NearestTargetDistanceIsMinimum` | src/board.py:223-243 | the island distance is characterised: any d that is the least distance to a board target (or 0 when the board has none) equals it |
| `Board9Scoring.IslandOf` | src/board.py:274-283 | the island returned is the first slot that contains the position; it is empty when no slot does |
| `Board9Scoring.IslandOutsideRing` | src/board.py:312-313 | the island positions a Church looks at are exactly its island's positions outside the nearby ring (and, as intended, other than its own) |
| `Board9Scoring.HousesTerrains` | src/board.py:304-307 | the set of terrains other than EMPTY and HOUSES on the nearby tiles; a Houses tile scores its size (`HousesRange`) |
| `Board9Scoring.ChurchScoreOver` | src/board.py:308-320 | the Church rule given the island positions it looks at: 2 per nearby Houses, and in strict mode 0 when a Church is among those positions, else 1 more per Houses among them |
| `Board9Scoring.ChurchScoreAsWritten` | src/board.py:311-319 | the Church rule as written: the Church's own tile is among the positions it looks at, so it cancels itself (`ChurchAsWrittenCancelsItself`) |
| `Board9Scoring.ChurchScore` | src/board.py:308-320 | the Church rule as intended: the Church skips its own tile; `Board9.Board.GetChurchScore` is proved to return it |
| `Board9Scoring.IslandPositionsOnBoard` | src/board.py:280-282 | every position of the island a position belongs to is on the board, so looking it up never raises |
| `Board9Scoring.EmptyTileScoresZero` | src/board.py:294-325 | an EMPTY tile scores 0 in both modes |
| `Board9Scoring.StrictPenaltyExactly` | src/board.py:296-297 | in strict mode a tile scores -5 exactly when it breaks the placement rules (`_is_tile_valid`) |
| `Board9Scoring.ScoreNonNegative` | src/board.py:298-325 | a tile that is not penalised never scores below 0 |
| `Board9Scoring.BoatsRange` | src/board.py:298-299 | Boats score between 0 and 16, the largest distance on the board |
| `Board9Scoring.HousesRange` | src/board.py:304-307 | Houses score the number of distinct other terrains nearby, 0 to 6 |
| `Board9Scoring.ForestRange` | src/board.py:321-323 | Forest scores exactly 0 or 2 |
| `Board9Scoring.MountainRange` | src/board.py:324-325 | Mountain scores an even number from 0 to 16 |
| `Board9Scoring.WavesAndBeachRange` | src/board.py:300-303 | Waves score 0 or 2, and Beach scores 0 to 4 |
| `Board9Scoring.WavesInLineCancel` | src/board.py:300-301 | two Waves tiles sharing a row or a column both score 0 |
| `Board9Scoring.LoneWavesScoresTwo` | src/board.py:300-301 | a Waves tile alone in its row and column scores 2 |
| `Board9Scoring.BoatsScoreNearestIsland` | src/board.py:298-299 | when some tile is on an island, a Boats tile scores at most its distance to any on-island tile and exactly its distance to some on-island tile |
| `Board9Scoring.EmptyCells` | src/board.py:127-131 | a fresh board's snapshot has a cell for exactly the board's positions |
| `Board9Scoring.TouchingCountAsWrittenSeesCorners` | src/board.py:186-191 | as written, the touching counter at (0,0) counts a Forest at (1,1), while the intended count is 0 and a lone Forest there scores 0 |
| `Board9Scoring.ChurchAsWrittenCancelsItself` | src/board.py:311-319 | as written, a Church on an island scores 0 in strict mode whatever surrounds it |
| `Board9Scoring.ChurchBesideHouses` | src/board.py:308-320 | a Church at (0,0) with a Houses tile at (1,0) on the same island scores 0 as written and 2 as intended |
| `Board9Search.SearchStart` | src/board.py:231-233 | the initial visited list and queue, both holding only the start, satisfy the search invariant |
| `Board9Search.SearchBound` | src/board.py:234-242 | the visited list never exceeds the 81 board positions, so the search stops |
| `Board9Search.SearchFound` | src/board.py:236-238 | the first target dequeued lies at the least distance any target has |
| `Board9Search.SearchExhausted` | src/board.py:234-243 | when the queue runs dry, no board tile is a target and the nearest-target distance is 0 |
| `Board9Search.ExpandStart` | src/board.py:235-237 | dequeuing a non-target starts its expansion with the inner invariant |
| `Board9Search.ExpandStep` | src/board.py:239-242 | enqueuing an unvisited touching neighbour keeps the queue ordered by distance |
| `Board9Search.ExpandFinish` | src/board.py:239-242 | once all neighbours of the dequeued tile are visited, the outer invariant holds again |
| `Board9Search.ExpandMany` | src/board.py:239-242 | enqueuing several unvisited touching neighbours in turn keeps the inner invariant |
| `Board9Search.AppendUnvisited` | src/board.py:239-242 | exactly the neighbours not yet visited are appended, in order, to both visited and queue; visited stays repetition-free and afterwards holds every neighbour |
| `Board9Search.EnqueueNeighbours` | src/board.py:239-242 | the inner loop keeps the inner invariant and leaves every touching neighbour visited |
| `Board9.AllIslandsDrawn` | src/board.py:338-346 | `_are_islands_full`: every slot holds a non-empty island; `FirstEmpty` is defined exactly when it fails |
| `Board9.ShoreZone` | src/board.py:348-357 | the island's positions together with every position near one of them (the list of lists is read as the union it evidently means) |
| `Board9.Conflicts` | src/board.py:371-373 | some new position lies in an island's shore zone; `RegisterKeepsIslandsApart` reads it back as "on or beside the island" |
| `Board9.ToggledCells` | src/board.py:375-376 | the cells after toggling: a listed tile's flag flips once per occurrence of its position, terrains stay; `Board9.Board.ToggleTiles` is proved to produce it |
| `Board9.FirstEmpty` | src/board.py:370-374 | the index of the first empty island slot: that slot is empty and every earlier slot is filled |
| `Board9.RegisterIsland` | src/board.py:359-377 | `add_island` with the `break` its loop needs, on a snapshot: raises when all slots are drawn, when a new position is on or beside an island in a slot before the first empty one, or when a new position is off the board; otherwise the first empty slot receives the list and the listed tiles are toggled; its meaning is fixed by the four lemmas that follow |
| `Board9.RegisterSucceedsExactly` | src/board.py:368-377 | with packed slots, registration succeeds exactly when a slot is free, every new position is on the board and no drawn island conflicts with the list; a conflict with any drawn island is reported before a position off the board |
| `Board9.RegisterFillsOneSlot` | src/board.py:374-377 | a successful registration stores the list in exactly the first empty slot, keeps the other slots, keeps the slots packed and the board well formed, and changes no terrain |
| `Board9.RegisterKeepsIslandsApart` | src/board.py:371-373 | after a successful registration no new position is on or beside an existing island |
| `Board9.RegisterMarksIsland` | src/board.py:375-376 | registering distinct positions not yet on an island puts exactly those tiles on an island |
| `Board9.FirstIslandFillsEverySlot` | src/board.py:370-377 | as written, the first island on a fresh board fills all three slots and toggles its tile three times |
| `Board9.SecondIslandToggledTwice` | src/board.py:370-377 | as written, a second island fills both remaining slots and is toggled twice, ending off the island; as intended it fills one slot and its tile is on the island |
| `Board9.AddIslandAsWritten` | src/board.py:359-377 | `add_island` as written, without a `break`: the new slots and the number of toggles; the two lemmas before show it filling every empty slot |
| `Board9.NoBreakScan` | src/board.py:370-377 | the loop of `add_island` as written from slot i on: each filled slot is checked for a conflict and every empty slot is filled |
| `Board9.AddRow` | src/board.py:128-131 | the constructor's inner loop adds a fresh blank tile, with the right adjacency lists, for each position of one row and keeps the earlier ones |
| `Board9.Board.View` | src/board.py:126-131 | the snapshot of a valid board has a cell for exactly the board's positions and its island positions on the board |
| `Board9.Board.constructor` | src/board.py:121-131 | a new board has 81 fresh tiles with their adjacency lists, no terrain, none on an island, and three empty slots |
| `Board9.Board.GetTileAt` | src/board.py:133-142 | returns the tile exactly when the position is on the board, and raises otherwise |
| `Board9.Board.GetTilesAt` | src/board.py:144-154 | returns the tiles of the positions in order, and raises exactly when some position is off the board |
| `Board9.Board.CountFilterUpon` | src/board.py:173-178 | the count equals the number of listed tiles satisfying the filter |
| `Board9.Board.CountFilterUponNearby` | src/board.py:167-178 | counts the nearby tiles satisfying the filter |
| `Board9.Board.CountFilterUponTouching` | src/board.py:180-191 | counts the touching tiles satisfying the filter (the intended walk; see Findings) |
| `Board9.Board.CheckSecWaveInRc` | src/board.py:204-221 | true exactly when another Waves tile shares the row or the column |
| `Board9.Board.GetDistanceToIsland` | src/board.py:223-243 | the breadth-first search returns the distance to a nearest target (land in lenient mode, on-island in strict mode), 0 when there is none; it visits each position at most once |
| `Board9.Board.SearchStep` | src/board.py:234-242 | one round of the search: a target dequeued is at the nearest distance; otherwise the invariant holds again with one more tile dequeued |
| `Board9.Board.ScanIsland` | src/board.py:312-319 | the island scan finds a Church exactly when one lies on the island outside the nearby ring (own tile excluded), and otherwise counts the Houses there |
| `Board9.Board.ScanPosition` | src/board.py:314-319 | one island position: a Church ends the scan, a Houses tile adds one, anything else is passed over |
| `Board9.Board.GetChurchScore` | src/board.py:308-320 | the Church score is 2 per nearby Houses, plus in strict mode the island Houses, or 0 when another Church is on the island outside the ring |
| `Board9.Board.GetScoreAt` | src/board.py:285-325 | raises off the board; otherwise returns the rule score of the tile (penalty, Boats, Waves, Beach, Houses, Churches, Forest, Mountain) |
| `Board9.Board.AddTerrain` | src/board.py:327-336 | raises off the board, and raises on a tile whose terrain is set while changing nothing; otherwise stores the terrain and changes no other tile and no island flag |
| `Board9.Board.AddIsland` | src/board.py:359-377 | succeeds exactly when the intended registration does and then leaves the board as it describes; when it raises, the error is the registration's and nothing changes |
| `Board9.Board.FillSlot` | src/board.py:374-377 | the successful end of `add_island`: the listed tiles are toggled and the list is stored in the first empty slot |
| `Board9.Board.ToggleTiles` | src/board.py:375-376 | each listed tile's island flag is flipped once per occurrence of its position, and terrains stay |
| `Board9.FirstFreeSlot` | src/board.py:370-373 | returns the first empty slot when no earlier island conflicts with the new positions, and raises a conflict exactly when one does |
| `Board9.ScanSkip` | src/board.py:312-313 | a position in the nearby ring, or the Church's own, leaves the scan's count |
| `Board9.ScanKeep` | src/board.py:314-317 | a kept non-Church position adds 1 exactly when it is Houses |
| `Board9.ScanChurch` | src/board.py:318-319 | a kept Church means the island has a Church the rule sees |
| `Board9.ScanEnd` | src/board.py:314-320 | after the last position the scan's count is the rule's Houses count, and no Church was seen |
| `GridAdjacency.Adjacency` | codebase/tinyisland/Board.py:18-48 | the intended adjacency table of a position: adjacent, near, column and row lists; the four ring and line lemmas characterise each list |
| `GridAdjacency.AdjacentIsOrthogonalRing` | codebase/tinyisland/Board.py:26-33 | the adjacent list holds exactly the in-bounds positions at distance 1, at most 4, each once |
| `GridAdjacency.NearIsDiagonalRing` | codebase/tinyisland/Board.py:34-41 | the near list holds exactly the in-bounds diagonal neighbours, at most 4, each once |
| `GridAdjacency.ColumnUpToIsColumn` | codebase/minisland/model.py:146-148 | the column list holds exactly the other positions of the column, each once: row_num - 1 of them |
| `GridAdjacency.RowUpToIsRow` | codebase/minisland/model.py:149-151 | the intended row list holds exactly the other positions of the row, each once: col_num - 1 of them |
| `GridAdjacency.AdjacencyInBounds` | codebase/tinyisland/Board.py:18-48 | every position in the intended table of an in-bounds position is in bounds, so looking it up never raises |
| `GridAdjacency.NineByNineAgrees` | src/board.py:102-117 | on a 9x9 board the parametric adjacent and near lists equal the fixed board's touching and corner lists |
| `GridAdjacency.GenerateAdjacencyInfo` | codebase/tinyisland/Board.py:18-48 | builds the intended adjacency table of a position |
| `GridAdjacency.AdjacentList` | codebase/tinyisland/Board.py:26-33 | the four orthogonal tests build the adjacent list |
| `GridAdjacency.NearList` | codebase/tinyisland/Board.py:34-41 | the four diagonal tests build the near list |
| `GridAdjacency.ColumnList` | codebase/minisland/model.py:146-148 | the loop over the rows builds the column list |
| `GridAdjacency.RowList` | codebase/minisland/model.py:149-151 | the loop over the columns builds the intended row list |
| `GridAdjacency.CellsOfRowMembers` | codebase/tinyisland/Board.py:13-16 | one row of the constructor's order holds exactly that row's positions, each once |
| `GridAdjacency.RowMajorMembers` | codebase/tinyisland/Board.py:12-16 | the constructor's keys are exactly the in-bounds positions, each once: col_num × row_num of them |
| `GridAdjacency.MiniCornerShown` | codebase/minisland/model.py:134-137 | as written, on a 5x5 board (0,0) gets the off-board neighbour (0,-1) instead of (0,1) |
| `GridAdjacency.MiniEdgeShown` | codebase/minisland/model.py:130-131 | as written, on a 5x5 board (4,2) gets the off-board neighbour (5,2) |
| `GridAdjacency.MiniRowShown` | codebase/minisland/model.py:149-151 | as written, the row list of (0,2) on a 5x5 board names positions of column 2 |
| `GridAdjacency.TinyAdjacencyShown` | codebase/tinyisland/Board.py:42-47 | as written, on a 3x3 board the column list of (0,0) misses (0,2), and its row list is [(0,1)] instead of [(1,0),(2,0)] |
| `GridAdjacency.MiniAdjacencyAsWritten` | codebase/minisland/model.py:121-152 | the rule-driven draft's adjacency table as written: bounds fixed at 8, exchanged y offsets, and row entries with swapped coordinates |
| `GridAdjacency.TinyAdjacencyAsWritten` | codebase/tinyisland/Board.py:18-48 | the tile-type draft's table as written: column and row loops one short, row entries with swapped coordinates |
| `MiniRules.Targets` | codebase/minisland/model.py:34-43 | the names a rule looks at, chosen by its search ranges; `TargetsMembers` states which names are included and how many |
| `MiniRules.TargetsMembers` | codebase/minisland/model.py:34-43 | a name is a target exactly when its group's range is searched (near implies adjacent; adjacent alone ignores near), and the target count is the sum of the searched groups' sizes |
| `MiniRules.CountMatches` | codebase/minisland/model.py:45-48 | the number of matching names is at most the number of names |
| `MiniRules.ScanFrom` | codebase/minisland/model.py:45-51 | a repeating rule ends with base + matches × unit; a stop-at-first rule returns unit when any name matches and base + counter × unit otherwise |
| `MiniRules.RuleScore` | codebase/minisland/model.py:24-51 | a repeating rule scores base plus unit per matching target; a stop-at-first rule scores unit when any target matches and base otherwise |
| `MiniRules.RulesScore` | codebase/minisland/model.py:61-66 | a tile type's score: the sum of its rules' scores; additive over rule lists (`RulesScoreAppend`) |
| `MiniRules.RulesScoreAppend` | codebase/minisland/model.py:61-66 | the score of a type over two rule lists in a row is the sum of the two |
| `MiniRules.NamesDistinct` | codebase/minisland/model.py:71-77 | the four known types have four different names |
| `MiniRules.TypeOf` | codebase/minisland/model.py:71-77 | the four known types with their names and rules; `NamesDistinct` and the per-type lemmas state what each scores |
| `MiniRules.TypeScore` | codebase/minisland/model.py:56-66 | the score of a known type against the four name lists; closed forms in `TypeAScore`, `TypeBScore` and `TypeCScore` |
| `MiniRules.EmptyScoresZero` | codebase/minisland/model.py:72 | the EMPTY type has no rules and scores 0 |
| `MiniRules.TypeAScore` | codebase/minisland/model.py:73-74 | Type A scores -2 when an "A" is in its column or row, and 2 otherwise |
| `MiniRules.TypeBScore` | codebase/minisland/model.py:75 | Type B scores 1 per "B" among its adjacent and near names |
| `MiniRules.TypeCFirstRule` | codebase/minisland/model.py:76 | Type C's first rule scores -2 per adjacent "C" |
| `MiniRules.TypeCSecondRule` | codebase/minisland/model.py:77 | Type C's second rule scores 1 per "A" or "B" among adjacent and near names |
| `MiniRules.TypeCScore` | codebase/minisland/model.py:76-77 | Type C scores -2 per adjacent "C" plus 1 per "A" or "B" among adjacent and near names |
| `MiniBoard.TileData.constructor` | codebase/minisland/model.py:84-90 | a new tile keeps its position and adjacency table, is EMPTY and unoccupied |
| `MiniBoard.TileData.AddType` | codebase/minisland/model.py:92-100 | placing EMPTY raises and changes nothing; any other type is stored and the tile becomes occupied, whether or not it was |
| `MiniBoard.VacantAmong` | codebase/minisland/model.py:187-193 | the unoccupied positions among the keys, in key order; `VacantAmongMembers` characterises it |
| `MiniBoard.VacantAmongMembers` | codebase/minisland/model.py:187-193 | a position is listed vacant exactly when it is a key and unoccupied; distinct keys give a repetition-free list |
| `MiniBoard.PlacingFillsOnePosition` | codebase/minisland/model.py:195-196 | after a placement the vacant positions are the old ones minus the placed position |
| `MiniBoard.VacantBoardScoresZero` | codebase/minisland/model.py:198-204 | a board with no occupied tile scores 0, whatever the tiles' types |
| `MiniBoard.TileScoreAt` | codebase/minisland/model.py:102-108 | one tile's score: its type's score against the names of its adjacent, near, column and row tiles |
| `MiniBoard.BoardScore` | codebase/minisland/model.py:198-204 | the sum, in key order, of the occupied tiles' scores; 0 on a board with nothing placed (`VacantBoardScoresZero`) |
| `MiniBoard.FillRow` | codebase/minisland/model.py:117-119 | the constructor's inner loop adds one empty tile with its adjacency table for each position of the row, in order |
| `MiniBoard.Board.constructor` | codebase/minisland/model.py:111-119 | a new board has col_num × row_num tiles, one per in-bounds position with its adjacency table, keyed row by row, all EMPTY and vacant |
| `MiniBoard.Board.TileAt` | codebase/minisland/model.py:155-164 | returns the tile at the position exactly when it is in bounds, and raises otherwise |
| `MiniBoard.Board.GetVacantTilePositions` | codebase/minisland/model.py:187-193 | returns exactly the vacant positions, each once, in key order |
| `MiniBoard.Board.AddTileType` | codebase/minisland/model.py:195-196 | out of bounds or with EMPTY it raises and nothing changes; otherwise only the tile at the position changes, taking the type and becoming occupied; tiles stay consistent (occupied exactly when not EMPTY) |
| `MiniBoard.Board.TypeNames` | codebase/minisland/model.py:176-185 | the names of the types at the positions, in order |
| `MiniBoard.Board.TileScore` | codebase/minisland/model.py:102-108 | the tile's score is its type's score against the names of its adjacent, near, column and row tiles |
| `MiniBoard.Board.GetScore` | codebase/minisland/model.py:198-204 | the board's score is the sum, in key order, of the occupied tiles' scores |
| `MiniBoard.PlacingKeepsConsistent` | codebase/minisland/model.py:92-100 | placing a non-EMPTY type keeps every tile occupied exactly when it is not EMPTY |
| `MiniBoard.NewBoardScoresZero` | codebase/minisland/model.py:198-204 | a board on which nothing is placed scores 0 |
| `MiniSearch.Expand` | codebase/minisland/search.py:14-21 | one turn of the exhaustive search: every entry's successors in order (`ExpandMembers`, `ExpandCount`) |
| `MiniSearch.Layers` | codebase/minisland/search.py:12-22 | the exhaustive frontier after k turns; `LayersExact` states that it holds exactly the valid k-choice paths |
| `MiniSearch.ExpandPruned` | codebase/minisland/search.py:40-50 | one turn of the pruned search: every entry's kept successors in order (`ExpandPrunedMembers`) |
| `MiniSearch.PrunedLayers` | codebase/minisland/search.py:38-51 | the pruned frontier after k turns; `PrunedLayersExact` states that it holds exactly the paths whose score never drops or goes negative |
| `MiniSearch.MaxScore` | codebase/minisland/search.py:23-26 | the best score over the final frontier, starting from 0; `MaxScoreIsBest` characterises it |
| `MiniSearch.ChosenPath` | codebase/minisland/search.py:27-30 | the path of the first entry whose score equals the given one, or the empty path; `ChosenPathIsFirstMatch` characterises it |
| `MiniSearch.MaxScoreIsBest` | codebase/minisland/search.py:23-26 | the best score is at least 0 and at least every entry's score, and it is 0 or some entry's score |
| `MiniSearch.ChosenPathIsFirstMatch` | codebase/minisland/search.py:27-30 | the chosen path is that of the first entry scoring exactly the best score, and it is empty when no entry does |
| `MiniSearch.SuccessorsMembers` | codebase/minisland/search.py:16-21 | an entry's successors are exactly the entry extended by one choice below choice_num |
| `MiniSearch.PrunedMembers` | codebase/minisland/search.py:43-50 | the kept successors are exactly the successors whose score is neither negative nor below the parent's |
| `MiniSearch.ExpandMembers` | codebase/minisland/search.py:14-21 | one turn's frontier holds exactly the successors of the previous frontier's entries |
| `MiniSearch.ExpandPrunedMembers` | codebase/minisland/search.py:40-50 | one pruned turn's frontier holds exactly the kept successors of the previous frontier's entries |
| `MiniSearch.PrunedWithinExpand` | codebase/minisland/search.py:46-47 | pruning only removes successors |
| `MiniSearch.LayersExact` | codebase/minisland/search.py:12-22 | after k turns the exhaustive frontier holds exactly the entries pairing each sequence of k choices with the state it reaches |
| `MiniSearch.LayersSound` | codebase/minisland/search.py:12-22 | every entry after k turns pairs k valid choices with the state they reach |
| `MiniSearch.LayersComplete` | codebase/minisland/search.py:12-22 | every sequence of k valid choices, with the state it reaches, is in the frontier after k turns |
| `MiniSearch.PrunedLayersExact` | codebase/minisland/search.py:38-51 | after k turns the pruned frontier holds exactly the choice sequences along which the score never drops or goes negative |
| `MiniSearch.PrunedLayersSound` | codebase/minisland/search.py:38-51 | every pruned entry pairs k valid choices, along which the score never drops or goes negative, with the state they reach |
| `MiniSearch.PrunedLayersComplete` | codebase/minisland/search.py:38-51 | every choice sequence along which the score never drops or goes negative is in the pruned frontier |
| `MiniSearch.PrunedInLayers` | codebase/minisland/search.py:38-51 | every pruned entry is also an exhaustive one |
| `MiniSearch.SuccessorsCount` | codebase/minisland/search.py:16-21 | an entry has choice_num successors |
| `MiniSearch.ExpandCount` | codebase/minisland/search.py:14-21 | one turn multiplies the frontier's size by choice_num |
| `MiniSearch.LayersCount` | codebase/minisland/search.py:12-22 | the exhaustive frontier after k turns has choice_num^k entries |
| `MiniSearch.ExhaustiveIsBest` | codebase/minisland/search.py:7-30 | the exhaustive best score bounds the score of every sequence of turn_limit valid choices |
| `MiniSearch.PrunedNoBetter` | codebase/minisland/search.py:33-59 | pruning never finds a better score than the exhaustive search |
| `MiniSearch.ChosenPathReplays` | codebase/minisland/search.py:27-30 | when some final entry reaches the best score, the chosen path has turn_limit choices and replaying it reaches that score |
| `MiniSearch.LayersShaped` | codebase/minisland/search.py:12-22 | every frontier entry pairs its choices with the state they reach, and every pruned entry's path never drops in score |
| `MiniSearch.NothingReachedGivesZero` | codebase/minisland/search.py:23-30 | when every final state scores below 0, or none exists, the search returns (0, []) |
| `MiniSearch.Successors` | codebase/minisland/search.py:16-21 | the inner loop builds an entry's successors, choice by choice |
| `MiniSearch.KeptSuccessors` | codebase/minisland/search.py:43-50 | the inner loop builds an entry's kept successors |
| `MiniSearch.ExpandLayer` | codebase/minisland/search.py:14-21 | one turn of the exhaustive search expands every frontier entry in order |
| `MiniSearch.ExpandLayerPruned` | codebase/minisland/search.py:40-50 | one turn of the pruned search expands every frontier entry in order |
| `MiniSearch.PickBest` | codebase/minisland/search.py:23-30 | returns the best score (never below 0) and the path of the first entry reaching it |
| `MiniSearch.BfsHighScore` | codebase/minisland/search.py:7-30 | returns the best score over all sequences of turn_limit choices and the path of the first final entry reaching it |
| `MiniSearch.BfsHighScoreWithPruning` | codebase/minisland/search.py:33-59 | returns the best score over the pruned frontier and the path of the first final entry reaching it |
| `TinyTile.Symbol` | codebase/tinyisland/Tile.py:5-13 | each member's one-letter value: one of the eight letters, and E exactly for EMPTY |
| `TinyTile.FromSymbol` | codebase/tinyisland/Tile.py:5-13 | the type looked up by a letter has that letter |
| `TinyTile.SymbolRoundTrip` | codebase/tinyisland/Tile.py:5-13 | the eight types have distinct letters, a type's letter looks the type up, and exactly the eight letters name a type |
| `TinyTile.PlacedTypesCount` | codebase/tinyisland/Tile.py:5-13 | the placeable types are the seven other than EMPTY |
| `TinyTile.TileData.constructor` | codebase/tinyisland/Tile.py:36-43 | a tile built with every field given stores each field |
| `TinyTile.TileData.Default` | codebase/tinyisland/Tile.py:36-43 | a tile built with the defaults is unoccupied, off any island, EMPTY and valid |
| `TinyTile.TileData.AddType` | codebase/tinyisland/Tile.py:45-53 | placing EMPTY raises and changes nothing; any other type is stored and the tile becomes occupied, whether or not it was; the island and validity flags stay |
| `TinyTile.TileData.MakeAsIsland` | codebase/tinyisland/Tile.py:55-56 | the tile is on an island afterwards, and only that flag changes |
| `TinyTile.TileData.ValidateForTurn` | codebase/tinyisland/Tile.py:58-59 | the validity flag becomes exactly the given result, and no other field changes |
| `TinyTile.MakeAsIslandTwice` | codebase/tinyisland/Tile.py:55-56 | putting a tile on an island twice leaves it as once does |
| `TinyBoard.HousesScoreAt` | codebase/tinyisland/Board.py:84-93 | the Houses score of a tile: 2 per distinct non-EMPTY type among its adjacent and near tiles, so even and between 0 and 14 |
| `TinyBoard.HousesScoreBounds` | codebase/tinyisland/Board.py:84-93 | the Houses score is even, between 0 and 14, and at most twice the number of neighbours |
| `TinyBoard.HousesScoreBySet` | codebase/tinyisland/Board.py:84-93 | the Houses score depends only on which types are around, not on their order or repetition |
| `TinyBoard.UniqueTypesStep` | codebase/tinyisland/Board.py:90-92 | recording a new non-EMPTY type keeps the list complete and free of repetitions |
| `TinyBoard.UniqueTypesCount` | codebase/tinyisland/Board.py:85-93 | the unique-types list is as long as the set of non-EMPTY types around is large |
| `TinyBoard.FillRow` | codebase/tinyisland/Board.py:13-16 | the constructor's inner loop adds one default tile with its adjacency table for each position of the row, in order |
| `TinyBoard.Board.constructor` | codebase/tinyisland/Board.py:8-16 | a new board has col_num × row_num default tiles, one per in-bounds position with its adjacency table, keyed row by row |
| `TinyBoard.Board.TileAt` | codebase/tinyisland/Board.py:50-59 | returns the tile at the position exactly when it is in bounds, and raises otherwise |
| `TinyBoard.Board.KindAt` | codebase/tinyisland/Board.py:88-89 | the type of the tile at an in-bounds position |
| `TinyBoard.Board.HousesScore` | codebase/tinyisland/Board.py:84-93 | the Houses helper returns 2 per distinct non-EMPTY type among the adjacent and near tiles |
| `TinyBoard.Board.AddTileType` | codebase/tinyisland/Board.py:101-105 | raises out of bounds, on an occupied tile or with EMPTY, and then nothing changes; otherwise only the tile at the position changes, taking the type and becoming occupied |
| `TinyBoard.PlaceTwice` | codebase/tinyisland/Board.py:101-105 | on a fresh board the first placement of a non-EMPTY type succeeds and a second one at the same position raises |

## Left out

- Printing and demos: `view_cli`, `view_board_cli`, the `__main__` blocks and
  the timing calls in `codebase/minisland/search.py` are output only.
- `codebase/tinyisland/State.py` and `codebase/tinyisland/env.py` are not part
  of this model. The first draws choices from the global random generator,
  and the second is a stub of a foreign reinforcement-learning library.
- The game state of the rule-driven search: `GameState` is not defined in
  the files modelled. Its initial state, `choose_option` and `score` are
  parameters (`init`, `step`, `score`) of `MiniSearch`. `copy.deepcopy` is
  value semantics.
- The search's dictionaries are keyed by game states. `GameState` is not part
  of this model: `codebase/minisland/search.py` imports it from
  `codebase/minisland/model.py`, which defines no such class, so its equality
  and hash cannot be read. The model assumes Python's default identity
  equality and hash. Then every freshly copied state is a new key, and each
  dictionary is a sequence of entries in insertion order. States that
  compared by contents are not modelled: an equal successor would overwrite
  the earlier entry's path in place (search.py lines 21 and 50). Under that
  reading, `MiniSearch.LayersCount`'s choice_num^k would be only an upper
  bound, `MiniSearch.LayersExact` would hold up to merged entries, and
  `MiniSearch.ChosenPath` could return the path of a later equal state.
- The unfinished parts of `codebase/tinyisland/Board.py` are not modelled:
  `_get_score_at_position` (its empty `elif` arms do not parse),
  `_validate_all_tiles_and_compute_penalties`, and `get_score`, which calls
  it. `_get_tiles_at_positions` there has no caller in the modelled code.
- `_get_nearby_tiles` and `_get_touching_tiles` of `src/board.py` are not
  separate members. The scoring functions read the same positions from
  `Nearby` and `Touching`.
- `src/board.py` raises on an EMPTY tile only by returning None from
  `get_score_at`. `Board9Scoring.ScoreAt` and `Board9.Board.GetScoreAt`
  return 0 instead.
- Python defects that only make the code raise are repaired and not
  modelled:
  - the `__int__` constructors and `tuple([], [], [])`;
  - `list.append` with two arguments;
  - `set.add` with a list;
  - the `is_on_island` attribute that shadows the method;
  - `_is_tile_valid` called without `temp` (strict mode is the only caller);
  - the tile module's import of a missing module;
  - `AdjacencyInfo.__int__`;
  - `Position` without equality or hashing.
- The land and sea tests use the intended sets of terrains. In the source,
  `Terrain.LAND_TERRAIN` and `Terrain.SEA_TERRAIN` are enumeration members,
  not containers, so `terrain in Terrain.LAND_TERRAIN` raises a `TypeError`.
  That makes every call of `_is_tile_valid` (src/board.py line 264) and
  every lenient-mode island search (line 237) raise. Like the other defects
  above, this only makes the code raise, and the model repairs it.
- `Board9Search` invariants, `Board9.Board.GetDistanceToIsland` and the
  island scan are stated on a board snapshot taken at the call. No method
  changes the board while they run.

## Findings

| source | as written | input that shows it | evidently intended | confidence | as-written member | corrected member |
|---|---|---|---|---|---|---|
| src/board.py:107 | the `y < 8` branch appends `(x, y - 1)` | (0,0) gets the off-board (0,-1) and not (0,1); (4,4) gets (4,3) twice | append `(x, y + 1)` | not executed | `Board9Grid.TouchingAsWritten`, `Board9Grid.TouchingTypoShown` | `Board9Grid.Touching`, `Board9Grid.TouchingIsOrthogonalRing` |
| src/board.py:187 | the touching counter walks `get_nearby()` | Forest at (0,0) and at (1,1), lenient mode: as written 1 touching Forest, so the Forest scores 2; intended 0 | walk `get_touching()` | not executed | `Board9Scoring.CountTouchingAsWritten`, `Board9Scoring.TouchingCountAsWrittenSeesCorners` | `Board9.Board.CountFilterUponTouching` |
| src/board.py:312-319 | the Church's own tile is among its island's tiles outside the ring, so in strict mode it always finds a Church | Church at (0,0) and Houses at (1,0), both on island 1, strict mode: as written 0, intended 2 | skip the Church's own tile | not executed | `Board9Scoring.ChurchAsWrittenCancelsItself`, `Board9Scoring.ChurchBesideHouses` | `Board9.Board.GetChurchScore`, `Board9.Board.ScanIsland` |
| src/board.py:370-377 | no `break` after the first empty slot is filled | [(0,0)] on a fresh board fills all three slots and toggles (0,0) three times; a second island [(5,5)] fills two slots and ends off the island | fill only the first empty slot | not executed | `Board9.FirstIslandFillsEverySlot`, `Board9.SecondIslandToggledTwice` | `Board9.Board.AddIsland`, `Board9.RegisterFillsOneSlot` |
| codebase/minisland/model.py:130-137 | bounds are the constant 8, and the `y` offsets of the last two branches are exchanged | 5x5 board: (0,0) gets (0,-1) instead of (0,1); (4,2) gets (5,2) | compare with `col_num - 1` and `row_num - 1`, use `y + 1` under `y < row_num - 1` | not executed | `GridAdjacency.MiniCornerShown`, `GridAdjacency.MiniEdgeShown` | `GridAdjacency.AdjacentIsOrthogonalRing`, `GridAdjacency.GenerateAdjacencyInfo` |
| codebase/minisland/model.py:151 | the row list appends `(pos_y, c)` | 5x5 board, (0,2): row list (2,1), (2,2), (2,3), (2,4) | append `(c, pos_y)` | not executed | `GridAdjacency.MiniRowShown` | `GridAdjacency.RowUpToIsRow`, `GridAdjacency.RowList` |
| codebase/tinyisland/Board.py:42-47 | the loops run over `range(n - 1)`, and the row list appends `Position(pos_y, c)` | 3x3 board, (0,0): column list [(0,1)] misses (0,2); row list [(0,1)] instead of [(1,0), (2,0)] | loop over `range(n)`, append `Position(c, pos_y)` | not executed | `GridAdjacency.TinyAdjacencyShown` | `GridAdjacency.ColumnUpToIsColumn`, `GridAdjacency.RowUpToIsRow` |
