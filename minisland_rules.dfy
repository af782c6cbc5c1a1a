/**
 * The scoring rules of the rule-driven draft. A rule (`ScoringLogic`) names
 * which neighbouring tile names it matches, where it looks (adjacent, near,
 * column, row), what each match is worth and what it gives when nothing
 * matches; a tile type is a name and a list of rules; three concrete types
 * and an empty one are known.
 */
module MiniRules {
  import opened Base

  datatype SearchRange = Adj | Near | Column | Row

  /** A rule. `isRepeat` is the negation of the constructor's `only_once`:
      a repeating rule counts every match, the other stops at the first. */
  datatype ScoringLogic = ScoringLogic(matches: string -> bool, unit: int, base: int,
                                       ranges: seq<SearchRange>, isRepeat: bool)

  /** The names a rule looks at, grouped by range: near implies adjacent,
      then the column, then the row. */
  function Targets(ranges: seq<SearchRange>, adj: seq<string>, near: seq<string>,
                   col: seq<string>, row: seq<string>): seq<string>
  {
    (if Near in ranges then adj + near else if Adj in ranges then adj else []) +
    (if Column in ranges then col else []) +
    (if Row in ranges then row else [])
  }

  /** A name is looked at exactly when one of the ranges that hold it is
      searched; a rule with only the adjacent range ignores the near list. */
  lemma TargetsMembers(ranges: seq<SearchRange>, adj: seq<string>, near: seq<string>,
                       col: seq<string>, row: seq<string>, x: string)
    ensures x in Targets(ranges, adj, near, col, row) <==>
              (x in adj && (Adj in ranges || Near in ranges)) ||
              (x in near && Near in ranges) ||
              (x in col && Column in ranges) ||
              (x in row && Row in ranges)
    ensures |Targets(ranges, adj, near, col, row)| ==
              (if Near in ranges then |adj| + |near| else if Adj in ranges then |adj| else 0) +
              (if Column in ranges then |col| else 0) + (if Row in ranges then |row| else 0)
  {
  }

  /** How many names `f` accepts. */
  function CountMatches(f: string -> bool, names: seq<string>): (n: nat)
    ensures n <= |names|
  {
    if names == [] then 0 else (if f(names[0]) then 1 else 0) + CountMatches(f, names[1..])
  }

  predicate AnyMatch(f: string -> bool, names: seq<string>)
  {
    exists i :: 0 <= i < |names| && f(names[i])
  }

  /** The scoring loop from some point on, with `counter` matches counted so
      far. A repeating rule ends with `base + counter * unit`; the other
      returns `unit` at its first match. */
  function ScanFrom(logic: ScoringLogic, names: seq<string>, counter: nat): (r: int)
    ensures logic.isRepeat ==> r == logic.base + (counter + CountMatches(logic.matches, names)) * logic.unit
    ensures !logic.isRepeat ==> r == if AnyMatch(logic.matches, names) then logic.unit
                                     else logic.base + counter * logic.unit
    decreases |names|
  {
    if names == [] then logic.base + counter * logic.unit
    else if logic.matches(names[0]) then
      if logic.isRepeat then ScanFrom(logic, names[1..], counter + 1) else logic.unit
    else
      assert AnyMatch(logic.matches, names) <==> AnyMatch(logic.matches, names[1..]) by {
        if AnyMatch(logic.matches, names) {
          var i :| 0 <= i < |names| && logic.matches(names[i]);
          assert names[1..][i - 1] == names[i];
        }
        if AnyMatch(logic.matches, names[1..]) {
          var i :| 0 <= i < |names[1..]| && logic.matches(names[1..][i]);
          assert names[i + 1] == names[1..][i];
        }
      }
      ScanFrom(logic, names[1..], counter)
  }

  /** `ScoringLogic.get_score`: a repeating rule scores `base` plus `unit`
      per matching name; a rule that stops at the first match scores `unit`
      when any name matches and `base` otherwise. */
  function RuleScore(logic: ScoringLogic, adj: seq<string>, near: seq<string>,
                     col: seq<string>, row: seq<string>): (r: int)
    ensures var names := Targets(logic.ranges, adj, near, col, row);
      && (logic.isRepeat ==> r == logic.base + CountMatches(logic.matches, names) * logic.unit)
      && (!logic.isRepeat ==> r == if AnyMatch(logic.matches, names) then logic.unit else logic.base)
  {
    ScanFrom(logic, Targets(logic.ranges, adj, near, col, row), 0)
  }

  /** A tile type: a one-letter name and its rules. */
  datatype TileType = TileType(name: string, logic: seq<ScoringLogic>)

  /** `TileType.get_score`: the rules' scores added up in order. */
  function RulesScore(rules: seq<ScoringLogic>, adj: seq<string>, near: seq<string>,
                      col: seq<string>, row: seq<string>): int
  {
    if rules == [] then 0 else RuleScore(rules[0], adj, near, col, row) + RulesScore(rules[1..], adj, near, col, row)
  }

  /** Adding up over a concatenation of rule lists adds the two sums. */
  lemma {:induction false} RulesScoreAppend(a: seq<ScoringLogic>, b: seq<ScoringLogic>, adj: seq<string>,
                                            near: seq<string>, col: seq<string>, row: seq<string>)
    ensures RulesScore(a + b, adj, near, col, row) == RulesScore(a, adj, near, col, row) + RulesScore(b, adj, near, col, row)
  {
    if a == [] {
      assert a + b == b;
    } else {
      assert (a + b)[1..] == a[1..] + b;
      RulesScoreAppend(a[1..], b, adj, near, col, row);
    }
  }

  /** The known tile types (`KnownTypeTypes`). */
  datatype KnownType = EmptyType | TypeA | TypeB | TypeC

  function TypeOf(k: KnownType): TileType
  {
    match k
    case EmptyType => TileType("E", [])
    case TypeA => TileType("A", [ScoringLogic(name => name == "A", -2, 2, [Column, Row], false)])
    case TypeB => TileType("B", [ScoringLogic(name => name == "B", 1, 0, [Near], true)])
    case TypeC => TileType("C", [ScoringLogic(name => name == "C", -2, 0, [Adj], true),
                                 ScoringLogic(name => name == "A" || name == "B", 1, 0, [Near], true)])
  }

  function Name(k: KnownType): string
  {
    TypeOf(k).name
  }

  function TypeScore(k: KnownType, adj: seq<string>, near: seq<string>, col: seq<string>, row: seq<string>): int
  {
    RulesScore(TypeOf(k).logic, adj, near, col, row)
  }

  /** The four known types have four different names. */
  lemma NamesDistinct(k: KnownType, l: KnownType)
    ensures Name(k) == Name(l) <==> k == l
  {
    if k != l {
      assert Name(k)[0] != Name(l)[0];
    }
  }

  /** Counting the names equal to `x` is counting the occurrences of `x`. */
  lemma {:induction false} CountEqualIsOccurrences(f: string -> bool, x: string, names: seq<string>)
    requires forall name :: f(name) == (name == x)
    ensures CountMatches(f, names) == Occurrences(names, x)
  {
    if names != [] {
      CountEqualIsOccurrences(f, x, names[1..]);
    }
  }

  /** Counting the names equal to "A" or "B" adds the two occurrence counts. */
  lemma {:induction false} CountEitherIsSum(f: string -> bool, names: seq<string>)
    requires forall name :: f(name) == (name == "A" || name == "B")
    ensures CountMatches(f, names) == Occurrences(names, "A") + Occurrences(names, "B")
  {
    if names != [] {
      CountEitherIsSum(f, names[1..]);
    }
  }

  /** The empty type has no rules and scores 0. */
  lemma EmptyScoresZero(adj: seq<string>, near: seq<string>, col: seq<string>, row: seq<string>)
    ensures TypeScore(EmptyType, adj, near, col, row) == 0
  {
  }

  /** Some name is accepted by an equality test exactly when the name occurs. */
  lemma AnyEqualIsIn(f: string -> bool, x: string, names: seq<string>)
    requires forall name :: f(name) == (name == x)
    ensures AnyMatch(f, names) <==> x in names
  {
    if x in names {
      var i :| 0 <= i < |names| && names[i] == x;
      assert f(names[i]);
    }
  }

  /** A one-rule type scores what its rule scores. */
  lemma SingleRule(rules: seq<ScoringLogic>, adj: seq<string>, near: seq<string>, col: seq<string>, row: seq<string>)
    requires |rules| == 1
    ensures RulesScore(rules, adj, near, col, row) == RuleScore(rules[0], adj, near, col, row)
  {
    assert rules[1..] == [];
  }

  /** Type A scores 2 when no "A" is in its column or row, and -2 otherwise. */
  lemma TypeAScore(adj: seq<string>, near: seq<string>, col: seq<string>, row: seq<string>)
    ensures TypeScore(TypeA, adj, near, col, row) == if "A" in col + row then -2 else 2
  {
    var logic := TypeOf(TypeA).logic[0];
    SingleRule(TypeOf(TypeA).logic, adj, near, col, row);
    assert Targets(logic.ranges, adj, near, col, row) == col + row;
    AnyEqualIsIn(logic.matches, "A", col + row);
  }

  /** Type B scores 1 per "B" among its adjacent and near names. */
  lemma TypeBScore(adj: seq<string>, near: seq<string>, col: seq<string>, row: seq<string>)
    ensures TypeScore(TypeB, adj, near, col, row) == Occurrences(adj + near, "B")
  {
    var logic := TypeOf(TypeB).logic[0];
    SingleRule(TypeOf(TypeB).logic, adj, near, col, row);
    assert Targets(logic.ranges, adj, near, col, row) == adj + near;
    CountEqualIsOccurrences(logic.matches, "B", adj + near);
  }

  /** The score of Type C's first rule: -2 per adjacent "C". */
  lemma TypeCFirstRule(adj: seq<string>, near: seq<string>, col: seq<string>, row: seq<string>)
    ensures RuleScore(TypeOf(TypeC).logic[0], adj, near, col, row) == -2 * Occurrences(adj, "C")
  {
    var logic := TypeOf(TypeC).logic[0];
    assert Targets(logic.ranges, adj, near, col, row) == adj;
    CountEqualIsOccurrences(logic.matches, "C", adj);
  }

  /** The score of Type C's second rule: 1 per "A" or "B" among the adjacent
      and near names. */
  lemma TypeCSecondRule(adj: seq<string>, near: seq<string>, col: seq<string>, row: seq<string>)
    ensures RuleScore(TypeOf(TypeC).logic[1], adj, near, col, row) ==
              Occurrences(adj + near, "A") + Occurrences(adj + near, "B")
  {
    var logic := TypeOf(TypeC).logic[1];
    assert Targets(logic.ranges, adj, near, col, row) == adj + near;
    CountEitherIsSum(logic.matches, adj + near);
  }

  /** Type C loses 2 per adjacent "C" and gains 1 per "A" or "B" among its
      adjacent and near names. */
  lemma TypeCScore(adj: seq<string>, near: seq<string>, col: seq<string>, row: seq<string>)
    ensures TypeScore(TypeC, adj, near, col, row) ==
              -2 * Occurrences(adj, "C") + Occurrences(adj + near, "A") + Occurrences(adj + near, "B")
  {
    var rules := TypeOf(TypeC).logic;
    TypeCFirstRule(adj, near, col, row);
    TypeCSecondRule(adj, near, col, row);
    SingleRule(rules[1..], adj, near, col, row);
  }
}
