/**
 * The breadth-first turn search of the rule-driven draft. The game state is
 * left abstract: an initial state, `step(s, n)` for the state after taking
 * choice `n`, and `score(s)`. The frontier ("memo") pairs each state with
 * the choices that led to it. The state's class, and so its equality, is
 * not part of this model: states are assumed to compare by identity, as
 * Python objects do by default. Under that assumption every fresh copy is a
 * new key, and the dictionary behaves as a list in insertion order; it is
 * modelled as a sequence of entries. States equal by contents, which would
 * merge entries, are not modelled.
 *
 * The exhaustive search keeps every successor. The pruned search drops a
 * successor whose score is negative or lower than its parent's. Both end by
 * taking the best score (never below 0) and the path of the first final
 * entry that scores exactly that.
 */
module MiniSearch {

  datatype Entry<S> = Entry(state: S, path: seq<nat>)

  /** The number of rounds `range(n)` runs: none when `n` is negative. */
  function Rounds(n: int): nat
  {
    if n < 0 then 0 else n
  }

  function Pow(b: nat, e: nat): nat
  {
    if e == 0 then 1 else b * Pow(b, e - 1)
  }

  /** The state reached from `init` by taking the choices of `path` in turn. */
  function Replay<S>(init: S, step: (S, nat) -> S, path: seq<nat>): S
    decreases |path|
  {
    if path == [] then init else step(Replay(init, step, path[..|path| - 1]), path[|path| - 1])
  }

  // ----- the exhaustive search -----

  /** The successors of `e` for the choices `0` to `n - 1`, in order. */
  function SuccessorsUpTo<S>(e: Entry<S>, step: (S, nat) -> S, n: nat): seq<Entry<S>>
  {
    if n == 0 then [] else SuccessorsUpTo(e, step, n - 1) + [Entry(step(e.state, n - 1), e.path + [n - 1])]
  }

  /** One turn of the exhaustive search: every entry's `c` successors, entry
      by entry. */
  function Expand<S>(memo: seq<Entry<S>>, step: (S, nat) -> S, c: nat): seq<Entry<S>>
    decreases |memo|
  {
    if memo == [] then [] else Expand(memo[..|memo| - 1], step, c) + SuccessorsUpTo(memo[|memo| - 1], step, c)
  }

  /** The frontier after `k` turns of the exhaustive search. */
  function Layers<S>(init: S, step: (S, nat) -> S, c: nat, k: nat): seq<Entry<S>>
  {
    if k == 0 then [Entry(init, [])] else Expand(Layers(init, step, c, k - 1), step, c)
  }

  // ----- the pruned search -----

  /** A successor survives pruning when its score is neither negative nor
      below its parent's. */
  predicate Kept<S>(score: S -> int, parent: S, child: S)
  {
    !(score(child) < 0 || score(child) < score(parent))
  }

  /** The successors of `e` for the choices `0` to `n - 1` that survive. */
  function PrunedUpTo<S>(e: Entry<S>, step: (S, nat) -> S, score: S -> int, n: nat): seq<Entry<S>>
  {
    if n == 0 then []
    else
      PrunedUpTo(e, step, score, n - 1) +
      (if Kept(score, e.state, step(e.state, n - 1)) then [Entry(step(e.state, n - 1), e.path + [n - 1])] else [])
  }

  /** One turn of the pruned search. */
  function ExpandPruned<S>(memo: seq<Entry<S>>, step: (S, nat) -> S, score: S -> int, c: nat): seq<Entry<S>>
    decreases |memo|
  {
    if memo == [] then []
    else ExpandPruned(memo[..|memo| - 1], step, score, c) + PrunedUpTo(memo[|memo| - 1], step, score, c)
  }

  /** The frontier after `k` turns of the pruned search. */
  function PrunedLayers<S>(init: S, step: (S, nat) -> S, score: S -> int, c: nat, k: nat): seq<Entry<S>>
  {
    if k == 0 then [Entry(init, [])] else ExpandPruned(PrunedLayers(init, step, score, c, k - 1), step, score, c)
  }

  // ----- picking the result -----

  /** The best score of a frontier, starting from 0. */
  function MaxScore<S>(memo: seq<Entry<S>>, score: S -> int): int
    decreases |memo|
  {
    if memo == [] then 0
    else
      var m := MaxScore(memo[..|memo| - 1], score);
      var last := score(memo[|memo| - 1].state);
      if last > m then last else m
  }

  /** The path of the first entry scoring exactly `m`, or the empty path when
      there is none. */
  function ChosenPath<S>(memo: seq<Entry<S>>, score: S -> int, m: int): seq<nat>
    decreases |memo|
  {
    if memo == [] then []
    else if score(memo[0].state) == m then memo[0].path
    else ChosenPath(memo[1..], score, m)
  }

  /** The best score is never negative, is at least every entry's score, and
      is either 0 or the score of some entry. */
  lemma {:induction false} MaxScoreIsBest<S>(memo: seq<Entry<S>>, score: S -> int)
    ensures MaxScore(memo, score) >= 0
    ensures forall i :: 0 <= i < |memo| ==> score(memo[i].state) <= MaxScore(memo, score)
    ensures MaxScore(memo, score) == 0 || exists i :: 0 <= i < |memo| && score(memo[i].state) == MaxScore(memo, score)
    decreases |memo|
  {
    if memo != [] {
      var init := memo[..|memo| - 1];
      MaxScoreIsBest(init, score);
      assert forall i :: 0 <= i < |init| ==> init[i] == memo[i];
    }
  }

  /** The chosen path is that of the first entry scoring exactly `m`, and is
      empty when no entry does. */
  lemma {:induction false} ChosenPathIsFirstMatch<S>(memo: seq<Entry<S>>, score: S -> int, m: int)
    ensures (exists i :: 0 <= i < |memo| && score(memo[i].state) == m) ==>
              exists i :: 0 <= i < |memo| && score(memo[i].state) == m && ChosenPath(memo, score, m) == memo[i].path &&
                          forall j :: 0 <= j < i ==> score(memo[j].state) != m
    ensures (forall i :: 0 <= i < |memo| ==> score(memo[i].state) != m) ==> ChosenPath(memo, score, m) == []
    decreases |memo|
  {
    if memo != [] && score(memo[0].state) != m {
      ChosenPathIsFirstMatch(memo[1..], score, m);
      if exists i :: 0 <= i < |memo| && score(memo[i].state) == m {
        var i :| 0 <= i < |memo| && score(memo[i].state) == m;
        assert memo[1..][i - 1] == memo[i];
        var k :| 0 <= k < |memo[1..]| && score(memo[1..][k].state) == m && ChosenPath(memo[1..], score, m) == memo[1..][k].path &&
                 forall j :: 0 <= j < k ==> score(memo[1..][j].state) != m;
        assert memo[k + 1] == memo[1..][k];
        forall j | 0 <= j < k + 1 ensures score(memo[j].state) != m {
          if j > 0 {
            assert memo[j] == memo[1..][j - 1];
          }
        }
      }
      forall i | 0 <= i < |memo[1..]| ensures memo[1..][i] == memo[i + 1] {
      }
    }
  }

  // ----- what the frontiers hold -----

  /** An entry after `k` turns: `k` choices, each below `c`, and the state
      they lead to. */
  ghost predicate Shaped<S>(init: S, step: (S, nat) -> S, c: nat, k: nat, e: Entry<S>)
  {
    && |e.path| == k
    && (forall j :: 0 <= j < k ==> e.path[j] < c)
    && e.state == Replay(init, step, e.path)
  }

  /** No step of `path` lowers the score or makes it negative. */
  ghost predicate Rising<S>(init: S, step: (S, nat) -> S, score: S -> int, path: seq<nat>)
    decreases |path|
  {
    path != [] ==>
      Rising(init, step, score, path[..|path| - 1]) &&
      Kept(score, Replay(init, step, path[..|path| - 1]), Replay(init, step, path))
  }

  /** The successors of `e` are its entries extended by one choice below
      `n`. */
  lemma {:induction false} SuccessorsMembers<S>(e: Entry<S>, step: (S, nat) -> S, n: nat, x: Entry<S>)
    ensures x in SuccessorsUpTo(e, step, n) <==> exists j :: 0 <= j < n && x == Entry(step(e.state, j), e.path + [j])
  {
    if n > 0 {
      SuccessorsMembers(e, step, n - 1, x);
    }
  }

  lemma {:induction false} PrunedMembers<S>(e: Entry<S>, step: (S, nat) -> S, score: S -> int, n: nat, x: Entry<S>)
    ensures x in PrunedUpTo(e, step, score, n) <==>
              x in SuccessorsUpTo(e, step, n) && Kept(score, e.state, x.state)
  {
    if n > 0 {
      PrunedMembers(e, step, score, n - 1, x);
    }
  }

  /** An entry is in one turn's expansion exactly when it is a successor of
      an entry of the frontier. */
  lemma {:induction false} ExpandMembers<S>(memo: seq<Entry<S>>, step: (S, nat) -> S, c: nat, x: Entry<S>)
    ensures x in Expand(memo, step, c) <==> exists d :: d in memo && x in SuccessorsUpTo(d, step, c)
    decreases |memo|
  {
    if memo != [] {
      var init := memo[..|memo| - 1];
      var last := memo[|memo| - 1];
      assert memo == init + [last];
      ExpandMembers(init, step, c, x);
      if x in Expand(memo, step, c) && x !in SuccessorsUpTo(last, step, c) {
        var d :| d in init && x in SuccessorsUpTo(d, step, c);
        assert d in memo;
      }
      if exists d :: d in memo && x in SuccessorsUpTo(d, step, c) {
        var d :| d in memo && x in SuccessorsUpTo(d, step, c);
        if d != last {
          assert d in init;
        }
      }
    }
  }

  lemma {:induction false} ExpandPrunedMembers<S>(memo: seq<Entry<S>>, step: (S, nat) -> S, score: S -> int, c: nat, x: Entry<S>)
    ensures x in ExpandPruned(memo, step, score, c) <==> exists d :: d in memo && x in PrunedUpTo(d, step, score, c)
    decreases |memo|
  {
    if memo != [] {
      var init := memo[..|memo| - 1];
      var last := memo[|memo| - 1];
      assert memo == init + [last];
      ExpandPrunedMembers(init, step, score, c, x);
      if x in ExpandPruned(memo, step, score, c) && x !in PrunedUpTo(last, step, score, c) {
        var d :| d in init && x in PrunedUpTo(d, step, score, c);
        assert d in memo;
      }
      if exists d :: d in memo && x in PrunedUpTo(d, step, score, c) {
        var d :| d in memo && x in PrunedUpTo(d, step, score, c);
        if d != last {
          assert d in init;
        }
      }
    }
  }

  /** The pruned successors of a frontier are among its exhaustive
      successors. */
  lemma PrunedWithinExpand<S>(memo: seq<Entry<S>>, step: (S, nat) -> S, score: S -> int, c: nat)
    ensures forall x :: x in ExpandPruned(memo, step, score, c) ==> x in Expand(memo, step, c)
  {
    forall x | x in ExpandPruned(memo, step, score, c) ensures x in Expand(memo, step, c) {
      ExpandPrunedMembers(memo, step, score, c, x);
      var d :| d in memo && x in PrunedUpTo(d, step, score, c);
      PrunedMembers(d, step, score, c, x);
      ExpandMembers(memo, step, c, x);
    }
  }

  /** Replaying a path one choice longer takes one more step. */
  lemma ReplaySnoc<S>(init: S, step: (S, nat) -> S, path: seq<nat>, n: nat)
    ensures Replay(init, step, path + [n]) == step(Replay(init, step, path), n)
  {
    assert (path + [n])[..|path|] == path;
  }

  /** The exhaustive frontier after `k` turns holds exactly one entry per
      sequence of `k` choices below `c`, paired with the state it reaches. */
  lemma LayersExact<S>(init: S, step: (S, nat) -> S, c: nat, k: nat, x: Entry<S>)
    ensures x in Layers(init, step, c, k) <==> Shaped(init, step, c, k, x)
  {
    if x in Layers(init, step, c, k) {
      LayersSound(init, step, c, k, x);
    }
    if Shaped(init, step, c, k, x) {
      LayersComplete(init, step, c, k, x);
    }
  }

  lemma {:induction false} LayersSound<S>(init: S, step: (S, nat) -> S, c: nat, k: nat, x: Entry<S>)
    requires x in Layers(init, step, c, k)
    ensures Shaped(init, step, c, k, x)
    decreases k, 1
  {
    if k > 0 {
      LayersSoundStep(init, step, c, k, x);
    }
  }

  /** The inductive step of `LayersSound`: the parent is shaped, so is its
      successor. */
  lemma {:induction false} LayersSoundStep<S>(init: S, step: (S, nat) -> S, c: nat, k: nat, x: Entry<S>)
    requires k > 0 && x in Layers(init, step, c, k)
    ensures Shaped(init, step, c, k, x)
    decreases k, 0
  {
    var d, j := ExpandedFrom(Layers(init, step, c, k - 1), step, c, x);
    assert Shaped(init, step, c, k - 1, d) by { LayersSound(init, step, c, k - 1, d); }
    ShapedSnoc(init, step, c, k - 1, d, j);
  }

  /** Every entry of an expansion is an entry of the frontier extended by
      one choice. */
  lemma ExpandedFrom<S>(memo: seq<Entry<S>>, step: (S, nat) -> S, c: nat, x: Entry<S>) returns (d: Entry<S>, j: nat)
    requires x in Expand(memo, step, c)
    ensures d in memo && j < c && x == Entry(step(d.state, j), d.path + [j])
  {
    ExpandMembers(memo, step, c, x);
    d :| d in memo && x in SuccessorsUpTo(d, step, c);
    SuccessorsMembers(d, step, c, x);
    j :| 0 <= j < c && x == Entry(step(d.state, j), d.path + [j]);
  }

  /** Every entry of a pruned expansion is a kept successor of an entry of
      the frontier. */
  lemma PrunedFrom<S>(memo: seq<Entry<S>>, step: (S, nat) -> S, score: S -> int, c: nat, x: Entry<S>)
    returns (d: Entry<S>, j: nat)
    requires x in ExpandPruned(memo, step, score, c)
    ensures d in memo && j < c && x == Entry(step(d.state, j), d.path + [j]) && Kept(score, d.state, x.state)
  {
    ExpandPrunedMembers(memo, step, score, c, x);
    d :| d in memo && x in PrunedUpTo(d, step, score, c);
    PrunedMembers(d, step, score, c, x);
    SuccessorsMembers(d, step, c, x);
    j :| 0 <= j < c && x == Entry(step(d.state, j), d.path + [j]);
  }

  /** A successor of an entry after `k` turns is an entry after `k + 1`. */
  lemma ShapedSnoc<S>(init: S, step: (S, nat) -> S, c: nat, k: nat, d: Entry<S>, n: nat)
    requires Shaped(init, step, c, k, d) && n < c
    ensures Shaped(init, step, c, k + 1, Entry(step(d.state, n), d.path + [n]))
  {
    ReplaySnoc(init, step, d.path, n);
  }

  lemma {:induction false} LayersComplete<S>(init: S, step: (S, nat) -> S, c: nat, k: nat, x: Entry<S>)
    requires Shaped(init, step, c, k, x)
    ensures x in Layers(init, step, c, k)
  {
    if k > 0 {
      var d := ParentOf(init, step, c, k, x);
      LayersComplete(init, step, c, k - 1, d);
      SuccessorsMembers(d, step, c, x);
      ExpandMembers(Layers(init, step, c, k - 1), step, c, x);
    }
  }

  /** The entry a shaped entry was expanded from. */
  lemma ParentOf<S>(init: S, step: (S, nat) -> S, c: nat, k: nat, x: Entry<S>) returns (d: Entry<S>)
    requires k > 0 && Shaped(init, step, c, k, x)
    ensures Shaped(init, step, c, k - 1, d)
    ensures x.path[k - 1] < c && x == Entry(step(d.state, x.path[k - 1]), d.path + [x.path[k - 1]])
  {
    var p := x.path[..k - 1];
    d := Entry(Replay(init, step, p), p);
    assert x.path == p + [x.path[k - 1]];
    ReplaySnoc(init, step, p, x.path[k - 1]);
  }

  /** The pruned frontier after `k` turns holds exactly one entry per
      sequence of `k` choices below `c` along which the score never drops or
      goes negative. */
  lemma PrunedLayersExact<S>(init: S, step: (S, nat) -> S, score: S -> int, c: nat, k: nat, x: Entry<S>)
    ensures x in PrunedLayers(init, step, score, c, k) <==> Shaped(init, step, c, k, x) && Rising(init, step, score, x.path)
  {
    if x in PrunedLayers(init, step, score, c, k) {
      PrunedLayersSound(init, step, score, c, k, x);
    }
    if Shaped(init, step, c, k, x) && Rising(init, step, score, x.path) {
      PrunedLayersComplete(init, step, score, c, k, x);
    }
  }

  lemma {:induction false} PrunedLayersSound<S>(init: S, step: (S, nat) -> S, score: S -> int, c: nat, k: nat, x: Entry<S>)
    requires x in PrunedLayers(init, step, score, c, k)
    ensures Shaped(init, step, c, k, x) && Rising(init, step, score, x.path)
  {
    if k > 0 {
      var d, j := PrunedFrom(PrunedLayers(init, step, score, c, k - 1), step, score, c, x);
      assert Shaped(init, step, c, k - 1, d) && Rising(init, step, score, d.path) by {
        PrunedLayersSound(init, step, score, c, k - 1, d);
      }
      ShapedSnoc(init, step, c, k - 1, d, j);
      RisingSnoc(init, step, score, d.path, j);
    }
  }

  lemma {:induction false} PrunedLayersComplete<S>(init: S, step: (S, nat) -> S, score: S -> int, c: nat, k: nat, x: Entry<S>)
    requires Shaped(init, step, c, k, x) && Rising(init, step, score, x.path)
    ensures x in PrunedLayers(init, step, score, c, k)
  {
    if k > 0 {
      var d := ParentOf(init, step, c, k, x);
      RisingSnoc(init, step, score, d.path, x.path[k - 1]);
      PrunedLayersComplete(init, step, score, c, k - 1, d);
      SuccessorsMembers(d, step, c, x);
      PrunedMembers(d, step, score, c, x);
      ExpandPrunedMembers(PrunedLayers(init, step, score, c, k - 1), step, score, c, x);
    }
  }

  /** A path one choice longer rises exactly when its prefix rises and the
      last step is kept. */
  lemma RisingSnoc<S>(init: S, step: (S, nat) -> S, score: S -> int, path: seq<nat>, n: nat)
    ensures Rising(init, step, score, path + [n]) <==>
              Rising(init, step, score, path) &&
              Kept(score, Replay(init, step, path), step(Replay(init, step, path), n))
  {
    assert (path + [n])[..|path|] == path;
  }

  /** Every pruned entry is also an exhaustive one. */
  lemma PrunedInLayers<S>(init: S, step: (S, nat) -> S, score: S -> int, c: nat, k: nat)
    ensures forall x :: x in PrunedLayers(init, step, score, c, k) ==> x in Layers(init, step, c, k)
  {
    forall x | x in PrunedLayers(init, step, score, c, k) ensures x in Layers(init, step, c, k) {
      PrunedLayersExact(init, step, score, c, k, x);
      LayersExact(init, step, c, k, x);
    }
  }

  lemma {:induction false} SuccessorsCount<S>(e: Entry<S>, step: (S, nat) -> S, n: nat)
    ensures |SuccessorsUpTo(e, step, n)| == n
  {
    if n > 0 {
      SuccessorsCount(e, step, n - 1);
    }
  }

  lemma {:induction false} ExpandCount<S>(memo: seq<Entry<S>>, step: (S, nat) -> S, c: nat)
    ensures |Expand(memo, step, c)| == |memo| * c
    decreases |memo|
  {
    if memo != [] {
      ExpandCount(memo[..|memo| - 1], step, c);
      SuccessorsCount(memo[|memo| - 1], step, c);
      assert |memo| * c == (|memo| - 1) * c + c;
    }
  }

  /** After `k` turns the exhaustive frontier has `c^k` entries. */
  lemma {:induction false} LayersCount<S>(init: S, step: (S, nat) -> S, c: nat, k: nat)
    ensures |Layers(init, step, c, k)| == Pow(c, k)
  {
    if k > 0 {
      LayersCount(init, step, c, k - 1);
      ExpandCount(Layers(init, step, c, k - 1), step, c);
      assert Pow(c, k - 1) * c == c * Pow(c, k - 1);
    }
  }

  /** The best score of the exhaustive search bounds the score of every
      sequence of `k` choices. */
  lemma ExhaustiveIsBest<S>(init: S, step: (S, nat) -> S, score: S -> int, c: nat, k: nat, path: seq<nat>)
    requires |path| == k && forall j :: 0 <= j < k ==> path[j] < c
    ensures score(Replay(init, step, path)) <= MaxScore(Layers(init, step, c, k), score)
  {
    var x := Entry(Replay(init, step, path), path);
    LayersComplete(init, step, c, k, x);
    var memo := Layers(init, step, c, k);
    var i :| 0 <= i < |memo| && memo[i] == x;
    MaxScoreIsBest(memo, score);
  }

  /** Pruning never finds a better score than the exhaustive search. */
  lemma PrunedNoBetter<S>(init: S, step: (S, nat) -> S, score: S -> int, c: nat, k: nat)
    ensures MaxScore(PrunedLayers(init, step, score, c, k), score) <= MaxScore(Layers(init, step, c, k), score)
  {
    var pruned := PrunedLayers(init, step, score, c, k);
    var m := MaxScore(pruned, score);
    MaxScoreIsBest(pruned, score);
    MaxScoreIsBest(Layers(init, step, c, k), score);
    if m != 0 {
      var i :| 0 <= i < |pruned| && score(pruned[i].state) == m;
      PrunedInLayers(init, step, score, c, k);
      assert pruned[i] in Layers(init, step, c, k);
      var memo := Layers(init, step, c, k);
      var j :| 0 <= j < |memo| && memo[j] == pruned[i];
    }
  }

  /** When some final entry scores the best score, the chosen path has `k`
      choices and replaying it from the start reaches that score. */
  lemma ChosenPathReplays<S>(init: S, step: (S, nat) -> S, score: S -> int, c: nat, k: nat,
                             memo: seq<Entry<S>>, m: int)
    requires forall x :: x in memo ==> Shaped(init, step, c, k, x)
    requires exists i :: 0 <= i < |memo| && score(memo[i].state) == m
    ensures |ChosenPath(memo, score, m)| == k
    ensures score(Replay(init, step, ChosenPath(memo, score, m))) == m
  {
    ChosenPathIsFirstMatch(memo, score, m);
    var i :| 0 <= i < |memo| && score(memo[i].state) == m && ChosenPath(memo, score, m) == memo[i].path;
    assert memo[i] in memo;
  }

  /** Every entry of the exhaustive frontier is shaped; so is every entry of
      the pruned one. */
  lemma LayersShaped<S>(init: S, step: (S, nat) -> S, score: S -> int, c: nat, k: nat)
    ensures forall x :: x in Layers(init, step, c, k) ==> Shaped(init, step, c, k, x)
    ensures forall x :: x in PrunedLayers(init, step, score, c, k) ==>
              Shaped(init, step, c, k, x) && Rising(init, step, score, x.path)
  {
    forall x | x in Layers(init, step, c, k) ensures Shaped(init, step, c, k, x) {
      LayersExact(init, step, c, k, x);
    }
    forall x | x in PrunedLayers(init, step, score, c, k)
      ensures Shaped(init, step, c, k, x) && Rising(init, step, score, x.path)
    {
      PrunedLayersExact(init, step, score, c, k, x);
    }
  }

  /** When every final state scores below 0, or there is none, the search
      returns `(0, [])`. */
  lemma NothingReachedGivesZero<S>(memo: seq<Entry<S>>, score: S -> int)
    requires forall i :: 0 <= i < |memo| ==> score(memo[i].state) < 0
    ensures MaxScore(memo, score) == 0
    ensures ChosenPath(memo, score, MaxScore(memo, score)) == []
  {
    MaxScoreIsBest(memo, score);
    ChosenPathIsFirstMatch(memo, score, MaxScore(memo, score));
  }

  // ----- the two searches -----

  /** The successors of one entry, choice by choice. */
  method Successors<S>(e: Entry<S>, step: (S, nat) -> S, choiceNum: int) returns (succ: seq<Entry<S>>)
    ensures succ == SuccessorsUpTo(e, step, Rounds(choiceNum))
  {
    succ := [];
    var n := 0;
    while n < choiceNum
      invariant 0 <= n && n <= Rounds(choiceNum)
      invariant succ == SuccessorsUpTo(e, step, n)
    {
      var stateN := step(e.state, n);
      var pathN := e.path + [n];
      succ := succ + [Entry(stateN, pathN)];
      n := n + 1;
    }
  }

  /** The kept successors of one entry, choice by choice. */
  method KeptSuccessors<S>(e: Entry<S>, step: (S, nat) -> S, score: S -> int, choiceNum: int)
    returns (succ: seq<Entry<S>>)
    ensures succ == PrunedUpTo(e, step, score, Rounds(choiceNum))
  {
    var stateScore := score(e.state);
    succ := [];
    var n := 0;
    while n < choiceNum
      invariant 0 <= n && n <= Rounds(choiceNum)
      invariant succ == PrunedUpTo(e, step, score, n)
    {
      var stateN := step(e.state, n);
      if !(score(stateN) < 0 || score(stateN) < stateScore) {
        var pathN := e.path + [n];
        succ := succ + [Entry(stateN, pathN)];
      }
      n := n + 1;
    }
  }

  /** One turn of `bfs_high_score`: the successors of every entry of the
      frontier, entry by entry. */
  method ExpandLayer<S>(memo: seq<Entry<S>>, step: (S, nat) -> S, choiceNum: int) returns (next: seq<Entry<S>>)
    ensures next == Expand(memo, step, Rounds(choiceNum))
  {
    next := [];
    var j := 0;
    while j < |memo|
      invariant 0 <= j <= |memo|
      invariant next == Expand(memo[..j], step, Rounds(choiceNum))
    {
      var succ := Successors(memo[j], step, choiceNum);
      assert memo[..j + 1][..j] == memo[..j];
      next := next + succ;
      j := j + 1;
    }
    assert memo[..j] == memo;
  }

  /** One turn of `bfs_high_score_with_pruning`. */
  method ExpandLayerPruned<S>(memo: seq<Entry<S>>, step: (S, nat) -> S, score: S -> int, choiceNum: int)
    returns (next: seq<Entry<S>>)
    ensures next == ExpandPruned(memo, step, score, Rounds(choiceNum))
  {
    next := [];
    var j := 0;
    while j < |memo|
      invariant 0 <= j <= |memo|
      invariant next == ExpandPruned(memo[..j], step, score, Rounds(choiceNum))
    {
      var succ := KeptSuccessors(memo[j], step, score, choiceNum);
      assert memo[..j + 1][..j] == memo[..j];
      next := next + succ;
      j := j + 1;
    }
    assert memo[..j] == memo;
  }

  /** The best score of the final frontier and the path of the first entry
      that reaches it. */
  method PickBest<S>(memo: seq<Entry<S>>, score: S -> int) returns (best: int, path: seq<nat>)
    ensures best == MaxScore(memo, score)
    ensures path == ChosenPath(memo, score, best)
  {
    best := 0;
    var i := 0;
    while i < |memo|
      invariant 0 <= i <= |memo|
      invariant best == MaxScore(memo[..i], score)
    {
      assert memo[..i + 1][..i] == memo[..i];
      if score(memo[i].state) > best {
        best := score(memo[i].state);
      }
      i := i + 1;
    }
    assert memo[..i] == memo;
    i := 0;
    while i < |memo|
      invariant 0 <= i <= |memo|
      invariant ChosenPath(memo[i..], score, best) == ChosenPath(memo, score, best)
    {
      if score(memo[i].state) == best {
        return best, memo[i].path;
      }
      assert memo[i..][1..] == memo[i + 1..];
      i := i + 1;
    }
    path := [];
  }

  /** `bfs_high_score`. */
  method BfsHighScore<S>(init: S, step: (S, nat) -> S, score: S -> int, turnLimit: int, choiceNum: int)
    returns (best: int, path: seq<nat>)
    ensures best == MaxScore(Layers(init, step, Rounds(choiceNum), Rounds(turnLimit)), score)
    ensures path == ChosenPath(Layers(init, step, Rounds(choiceNum), Rounds(turnLimit)), score, best)
  {
    var memo := [Entry(init, [])];
    var i := 0;
    while i < turnLimit
      invariant 0 <= i <= Rounds(turnLimit)
      invariant memo == Layers(init, step, Rounds(choiceNum), i)
    {
      memo := ExpandLayer(memo, step, choiceNum);
      i := i + 1;
    }
    best, path := PickBest(memo, score);
  }

  /** `bfs_high_score_with_pruning`. */
  method BfsHighScoreWithPruning<S>(init: S, step: (S, nat) -> S, score: S -> int, turnLimit: int, choiceNum: int)
    returns (best: int, path: seq<nat>)
    ensures best == MaxScore(PrunedLayers(init, step, score, Rounds(choiceNum), Rounds(turnLimit)), score)
    ensures path == ChosenPath(PrunedLayers(init, step, score, Rounds(choiceNum), Rounds(turnLimit)), score, best)
  {
    var memo := [Entry(init, [])];
    var i := 0;
    while i < turnLimit
      invariant 0 <= i <= Rounds(turnLimit)
      invariant memo == PrunedLayers(init, step, score, Rounds(choiceNum), i)
    {
      memo := ExpandLayerPruned(memo, step, score, choiceNum);
      i := i + 1;
    }
    best, path := PickBest(memo, score);
  }
}
