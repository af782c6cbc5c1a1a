/**
 * Shared vocabulary of the island-building prototypes: board positions,
 * the distance between them, and the errors the boards raise.
 */
module Base {

  /** A board position: a column index and a row index. The Python drafts use
      a plain `(x, y)` tuple or a `Position` object without equality; here it
      is a value, compared structurally. */
  datatype Position = Position(col: int, row: int)

  function Abs(n: int): (r: nat)
    ensures r == n || r == -n
  {
    if n < 0 then -n else n
  }

  /** Manhattan (taxicab) distance between two positions. */
  function Manhattan(p: Position, q: Position): (d: nat)
    ensures d == 0 <==> p == q
  {
    Abs(p.col - q.col) + Abs(p.row - q.row)
  }

  /** The exceptions the boards and tiles raise. */
  datatype Error =
    | PositionNotOnBoard      // "Invalid Position: Target Position Does Not Exist In Board."
    | PositionOutsideBoard    // "Position Outside Board Dimensions"
    | TerrainAlreadyAssigned  // "Terrain Already Assigned."
    | PlacingEmptyType        // "Placing Empty TileData Type"
    | TileOccupied            // "Tile Has Been Occupied"
    | IslandsFull             // "All Islands have been Drawn."
    | IslandConflict          // "Invalid Tiles, Either Already Part of an Island or Part of Existing Shore."

  datatype Result<T> = Ok(value: T) | Err(error: Error)

  /** Outcome of an operation that returns nothing but may raise. */
  datatype Outcome = Pass | Fail(error: Error)

  /** Number of occurrences of `x` in `s`. */
  function Occurrences<T(==)>(s: seq<T>, x: T): (n: nat)
    ensures n <= |s|
    ensures n == 0 <==> x !in s
  {
    if s == [] then 0 else (if s[0] == x then 1 else 0) + Occurrences(s[1..], x)
  }

  lemma {:induction false} OccurrencesAppend<T>(s: seq<T>, y: T, x: T)
    ensures Occurrences(s + [y], x) == Occurrences(s, x) + (if y == x then 1 else 0)
  {
    if s != [] {
      assert (s + [y])[1..] == s[1..] + [y];
      OccurrencesAppend(s[1..], y, x);
    }
  }

  /** True when no element occurs twice. */
  predicate Distinct<T(==)>(s: seq<T>)
  {
    forall i, j :: 0 <= i < j < |s| ==> s[i] != s[j]
  }

  /** Writing back the value a key already has changes nothing. */
  lemma UpdateSameValue<K, V>(m: map<K, V>, k: K)
    requires k in m
    ensures m[k := m[k]] == m
  {
  }

  /** Two repetition-free sequences with no common element concatenate to a
      repetition-free sequence. */
  lemma DistinctConcat<T>(a: seq<T>, b: seq<T>)
    requires Distinct(a) && Distinct(b)
    requires forall x :: x in a ==> x !in b
    ensures Distinct(a + b)
  {
    forall i, j | 0 <= i < j < |a + b| ensures (a + b)[i] != (a + b)[j] {
      if i < |a| && j >= |a| {
        assert (a + b)[i] in a && (a + b)[j] in b;
      }
    }
  }

  /** The set of elements of a sequence. */
  function Elements<T(!new)>(s: seq<T>): (r: set<T>)
    ensures forall x :: x in r <==> x in s
  {
    set x | x in s
  }

  /** A sequence without repetitions has as many elements as its length. */
  lemma {:induction false} DistinctCardinality<T(!new)>(s: seq<T>)
    requires Distinct(s)
    ensures |Elements(s)| == |s|
  {
    if s != [] {
      var t := s[1..];
      assert Distinct(t);
      DistinctCardinality(t);
      assert Elements(s) == {s[0]} + Elements(t);
      assert s[0] !in Elements(t);
    }
  }

  /** A subset is no larger than its superset. */
  lemma SubsetCardinality<T>(a: set<T>, b: set<T>)
    requires a <= b
    ensures |a| <= |b|
  {
    assert b == a + (b - a) && a !! (b - a);
  }

  /** A sequence has no more different elements than it is long. */
  lemma {:induction false} ElementsCardinality<T(!new)>(s: seq<T>)
    ensures |Elements(s)| <= |s|
  {
    if s != [] {
      ElementsCardinality(s[1..]);
      assert Elements(s) == {s[0]} + Elements(s[1..]);
    }
  }

  /** A sequence without repetitions drawn from a set is no longer than the
      set is large. */
  lemma DistinctWithin<T(!new)>(s: seq<T>, universe: set<T>)
    requires Distinct(s)
    requires forall x :: x in s ==> x in universe
    ensures |s| <= |universe|
  {
    DistinctCardinality(s);
    var rest := universe - Elements(s);
    assert universe == Elements(s) + rest && Elements(s) !! rest;
  }
}
