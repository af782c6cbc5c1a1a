/**
 * The tile of the tile-type draft: eight tile types, each shown as one
 * letter, and a tile object that records its position, its adjacency table,
 * whether a type has been placed on it, whether it belongs to an island, its
 * type and whether it passed the last turn's validation.
 *
 * The draft's `AdjacencyInfo` misspells its constructor as `__int__`, so the
 * four lists can never be set; the model uses the table the board builds.
 */
module TinyTile {
  import opened Base
  import opened GridAdjacency

  datatype TileType = EmptyType | Houses | Churches | Forest | Mountain | Boats | Waves | Sand

  datatype Option<T> = None | Some(value: T)

  /** The one-letter value of each member. */
  function Symbol(t: TileType): (c: char)
    ensures c in "EHCFMBWS"
    ensures c == 'E' <==> t == EmptyType
  {
    match t
    case EmptyType => 'E'
    case Houses => 'H'
    case Churches => 'C'
    case Forest => 'F'
    case Mountain => 'M'
    case Boats => 'B'
    case Waves => 'W'
    case Sand => 'S'
  }

  /** The member whose value is `c`, if any: `TileType(c)`. */
  function FromSymbol(c: char): (r: Option<TileType>)
    ensures r.Some? ==> Symbol(r.value) == c
  {
    if c == 'E' then Some(EmptyType)
    else if c == 'H' then Some(Houses)
    else if c == 'C' then Some(Churches)
    else if c == 'F' then Some(Forest)
    else if c == 'M' then Some(Mountain)
    else if c == 'B' then Some(Boats)
    else if c == 'W' then Some(Waves)
    else if c == 'S' then Some(Sand)
    else None
  }

  /** The eight members have eight different letters: reading a member's
      letter back gives the member, and exactly the eight letters name one. */
  lemma SymbolRoundTrip(t: TileType, c: char)
    ensures FromSymbol(Symbol(t)) == Some(t)
    ensures FromSymbol(c).Some? <==> c in "EHCFMBWS"
    ensures forall s :: Symbol(s) == Symbol(t) ==> s == t
  {
  }

  /** The seven types that can be placed. */
  const PlacedTypes: set<TileType> := {Houses, Churches, Forest, Mountain, Boats, Waves, Sand}

  lemma PlacedTypesCount()
    ensures forall t :: t in PlacedTypes <==> t != EmptyType
    ensures |PlacedTypes| == 7
  {
  }

  class TileData {
    const pos: Position
    const adjInfo: AdjacencyInfo
    var isOccupied: bool
    var onIsland: bool
    var kind: TileType
    var isValid: bool

    /** A tile with every field given. */
    constructor (pos: Position, adjInfo: AdjacencyInfo, isOccupied: bool, onIsland: bool, kind: TileType, isValid: bool)
      ensures this.pos == pos && this.adjInfo == adjInfo
      ensures this.isOccupied == isOccupied && this.onIsland == onIsland
      ensures this.kind == kind && this.isValid == isValid
    {
      this.pos := pos;
      this.adjInfo := adjInfo;
      this.isOccupied := isOccupied;
      this.onIsland := onIsland;
      this.kind := kind;
      this.isValid := isValid;
    }

    /** A tile with the default arguments: unoccupied, off any island, empty
        and valid. */
    constructor Default(pos: Position, adjInfo: AdjacencyInfo)
      ensures this.pos == pos && this.adjInfo == adjInfo
      ensures !isOccupied && !onIsland && kind == EmptyType && isValid
    {
      this.pos := pos;
      this.adjInfo := adjInfo;
      isOccupied := false;
      onIsland := false;
      kind := EmptyType;
      isValid := true;
    }

    /** Placing the empty type raises and changes nothing; any other type is
        stored and the tile becomes occupied, whether or not it was. The
        island and validity flags are never touched. */
    method AddType(tar: TileType) returns (r: Outcome)
      modifies this`kind, this`isOccupied
      ensures tar == EmptyType ==> r == Fail(PlacingEmptyType) && kind == old(kind) && isOccupied == old(isOccupied)
      ensures tar != EmptyType ==> r == Pass && kind == tar && isOccupied
      ensures onIsland == old(onIsland) && isValid == old(isValid)
    {
      if tar == EmptyType {
        return Fail(PlacingEmptyType);
      }
      kind := tar;
      isOccupied := true;
      r := Pass;
    }

    /** Puts the tile on an island; it stays there. */
    method MakeAsIsland()
      modifies this`onIsland
      ensures onIsland
    {
      onIsland := true;
    }

    /** Records the outcome of the turn's validation and nothing else. */
    method ValidateForTurn(result: bool)
      modifies this`isValid
      ensures isValid == result
      ensures kind == old(kind) && isOccupied == old(isOccupied) && onIsland == old(onIsland)
    {
      isValid := result;
    }
  }

  /** Putting a tile on an island twice leaves it as once does. */
  method MakeAsIslandTwice(t: TileData)
    modifies t
    ensures t.onIsland
    ensures t.kind == old(t.kind) && t.isOccupied == old(t.isOccupied) && t.isValid == old(t.isValid)
  {
    t.MakeAsIsland();
    t.MakeAsIsland();
  }
}
