/**
 * The terrain tile: the adjacency lists fixed at construction, a terrain that
 * can be assigned once, and an on-island flag that is toggled. The class is
 * written twice in the repository, identically, once inside the 9x9 scoring
 * board's file and once as a module of its own; it is modelled once here.
 *
 * Two defects of the Python are not reproduced: the stand-alone copy imports
 * the enumeration from a module that does not exist, and in both copies the
 * attribute `is_on_island` set by the constructor shadows the method of the
 * same name, so calling `is_on_island()` raises. The model reads the flag,
 * as the method's comment intends.
 */
module TerrainTile {
  import opened Base
  import opened Terrains

  class Tile {
    /** Positions of the orthogonally touching tiles. */
    const adj: seq<Position>
    /** Positions of the diagonal "corner" tiles. */
    const cor: seq<Position>
    var terrainType: Terrain
    var onIsland: bool

    /** A new tile has no terrain and is not on an island. */
    constructor (adj: seq<Position>, cor: seq<Position>)
      ensures this.adj == adj && this.cor == cor
      ensures terrainType == Empty && !onIsland
    {
      this.adj := adj;
      this.cor := cor;
      terrainType := Empty;
      onIsland := false;
    }

    /** Whether a terrain other than EMPTY has been assigned. */
    predicate HasSetTerrain()
      reads this
      ensures HasSetTerrain() <==> !IsTerrain(Empty)
    {
      terrainType != Empty
    }

    function GetTerrain(): (t: Terrain)
      reads this
      ensures IsTerrain(t)
    {
      terrainType
    }

    /** Whether the tile carries exactly the terrain `t`. */
    predicate IsTerrain(t: Terrain)
      reads this
    {
      terrainType == t
    }

    /** Assigns a terrain. Raises when a non-EMPTY terrain is already there;
        assigning EMPTY to an unassigned tile is allowed and leaves it
        assignable. Neither the adjacency lists nor the island flag change. */
    method SetTerrain(t: Terrain) returns (r: Outcome)
      modifies this`terrainType
      ensures r == Fail(TerrainAlreadyAssigned) <==> old(terrainType) != Empty
      ensures r.Pass? <==> old(terrainType) == Empty
      ensures terrainType == if r.Pass? then t else old(terrainType)
      ensures r.Pass? && t == Empty ==> !HasSetTerrain()
    {
      if HasSetTerrain() {
        return Fail(TerrainAlreadyAssigned);
      }
      terrainType := t;
      r := Pass;
    }

    function IsOnIsland(): bool
      reads this
    {
      onIsland
    }

    /** Flips the island flag; toggling twice restores it. */
    method ToggleOnIsland()
      modifies this`onIsland
      ensures onIsland == !old(onIsland)
    {
      onIsland := !onIsland;
    }

    /** The touching positions: the first `|adj|` of the nearby ones. */
    function GetTouching(): (r: seq<Position>)
      ensures r <= GetNearby()
      ensures |r| == |adj|
    {
      adj
    }

    /** The nearby positions: the touching ones followed by the corners. */
    function GetNearby(): (r: seq<Position>)
      ensures |r| == |adj| + |cor|
      ensures forall p :: p in r <==> p in adj || p in cor
      ensures r[..|adj|] == adj
      ensures r[|adj|..] == cor
    {
      adj + cor
    }
  }

  /** Toggling the island flag twice restores the tile. */
  method ToggleTwice(t: Tile)
    modifies t
    ensures t.onIsland == old(t.onIsland) && t.terrainType == old(t.terrainType)
  {
    t.ToggleOnIsland();
    t.ToggleOnIsland();
  }

  /** A second assignment always raises, whatever the two terrains are,
      unless the first one stored EMPTY. */
  method AssignTwice(t: Tile, first: Terrain, second: Terrain) returns (r1: Outcome, r2: Outcome)
    requires !t.HasSetTerrain()
    modifies t
    ensures r1.Pass?
    ensures r2.Pass? <==> first == Empty
    ensures t.terrainType == if first == Empty then second else first
  {
    r1 := t.SetTerrain(first);
    r2 := t.SetTerrain(second);
  }
}
