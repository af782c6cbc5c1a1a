/**
 * The terrain catalogue: eight kinds of terrain, each with an integer value,
 * and the two capability classes "land" (must sit on an island) and "sea"
 * (must not). The same enumeration is declared twice in the repository,
 * once beside the 9x9 scoring board and once as a module of its own.
 */
module Terrains {

  datatype Terrain = Empty | Boats | Waves | Beach | Houses | Churches | Forest | Mountain

  /** The integer value the enumeration gives each member. */
  function Value(t: Terrain): (v: nat)
    ensures v <= 7
    ensures v == 0 <==> t == Empty
  {
    match t
    case Empty => 0
    case Boats => 1
    case Waves => 2
    case Beach => 3
    case Houses => 4
    case Churches => 5
    case Forest => 6
    case Mountain => 7
  }

  /** The member with a given value; the inverse of `Value`. */
  function FromValue(v: int): (t: Terrain)
    requires 0 <= v <= 7
    ensures Value(t) == v
  {
    if v == 0 then Empty
    else if v == 1 then Boats
    else if v == 2 then Waves
    else if v == 3 then Beach
    else if v == 4 then Houses
    else if v == 5 then Churches
    else if v == 6 then Forest
    else Mountain
  }

  /** The eight members have distinct values: `Value` and `FromValue` are
      inverse to each other. */
  lemma ValueRoundTrip(t: Terrain)
    ensures FromValue(Value(t)) == t
    ensures forall s :: Value(s) == Value(t) ==> s == t
  {
  }

  /** The land class {HOUSES, CHURCHES, FOREST, MOUNTAIN}. */
  predicate IsLand(t: Terrain)
  {
    t in {Houses, Churches, Forest, Mountain}
  }

  /** The sea class {BOATS, WAVES}. */
  predicate IsSea(t: Terrain)
  {
    t in {Boats, Waves}
  }

  const LandValues: set<nat> := {4, 5, 6, 7}
  const SeaValues: set<nat> := {1, 2}

  /** The land class is exactly the members whose values are 4..7, the sea
      class exactly those whose values are 1 and 2; the two are disjoint and
      EMPTY and BEACH belong to neither. */
  lemma ClassesByValue(t: Terrain)
    ensures IsLand(t) <==> Value(t) in LandValues
    ensures IsSea(t) <==> Value(t) in SeaValues
    ensures !(IsLand(t) && IsSea(t))
    ensures t == Empty || t == Beach <==> !IsLand(t) && !IsSea(t)
  {
  }
}
