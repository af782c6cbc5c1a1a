/**
 * Why the island-distance search of the 9x9 board returns the distance to a
 * nearest target. The search keeps a queue of positions in the order it
 * discovers them and a `visited` list of everything ever queued; `done` is
 * the part of `visited` already taken off the queue. The predicates below
 * are its loop invariants, one lemma per step of the search.
 */
module Board9Search {
  import opened Base
  import opened Board9Grid
  import opened Board9Scoring

  /** The queue is ordered by distance from `pos`, and spans at most two
      consecutive distances. */
  ghost predicate QueueOrdered(pos: Position, queue: seq<Position>)
  {
    && (forall i, j :: 0 <= i <= j < |queue| ==> Manhattan(pos, queue[i]) <= Manhattan(pos, queue[j]))
    && (forall i :: 0 <= i < |queue| ==> Manhattan(pos, queue[i]) <= Manhattan(pos, queue[0]) + 1)
  }

  /** The invariant of the outer loop. Every dequeued position is not a
      target and has all its touching neighbours visited; every position
      nearer than the head of the queue has been dequeued. */
  ghost predicate SearchInv(v: BoardView, pos: Position, temp: bool,
                            visited: seq<Position>, queue: seq<Position>, done: seq<Position>)
  {
    && WellFormed(v) && OnBoard(pos)
    && visited == done + queue
    && Distinct(visited) && pos in visited
    && (forall q :: q in visited ==> OnBoard(q))
    && (forall q :: q in done ==> !IsTarget(v.cells[q], temp))
    && (forall q, z :: q in done && z in Touching(q) ==> z in visited)
    && QueueOrdered(pos, queue)
    && (queue != [] ==> forall y :: OnBoard(y) && Manhattan(pos, y) < Manhattan(pos, queue[0]) ==> y in done)
  }

  /** The invariant of the inner loop, which enqueues the unvisited touching
      neighbours of `next`, a dequeued position that is not a target. */
  ghost predicate ExpandInv(v: BoardView, pos: Position, temp: bool,
                            visited: seq<Position>, queue: seq<Position>, before: seq<Position>, next: Position)
  {
    && WellFormed(v) && OnBoard(pos) && OnBoard(next)
    && visited == before + [next] + queue
    && Distinct(visited) && pos in visited
    && (forall q :: q in visited ==> OnBoard(q))
    && (forall q :: q in before ==> !IsTarget(v.cells[q], temp))
    && !IsTarget(v.cells[next], temp)
    && (forall q, z :: q in before && z in Touching(q) ==> z in visited)
    && (forall i, j :: 0 <= i <= j < |queue| ==> Manhattan(pos, queue[i]) <= Manhattan(pos, queue[j]))
    && (forall i :: 0 <= i < |queue| ==> Manhattan(pos, next) <= Manhattan(pos, queue[i]) <= Manhattan(pos, next) + 1)
    && (forall y :: OnBoard(y) && Manhattan(pos, y) < Manhattan(pos, next) ==> y in before)
  }

  lemma SearchStart(v: BoardView, pos: Position, temp: bool)
    requires WellFormed(v) && OnBoard(pos)
    ensures SearchInv(v, pos, temp, [pos], [pos], [])
  {
  }

  /** The search visits each board position at most once, so it stops. */
  lemma SearchBound(v: BoardView, pos: Position, temp: bool,
                    visited: seq<Position>, queue: seq<Position>, done: seq<Position>)
    requires SearchInv(v, pos, temp, visited, queue, done)
    ensures |done| <= |visited| <= 81
  {
    BoardHas81Positions();
    DistinctWithin(visited, BoardPositions());
  }

  /** The first target dequeued is at the smallest distance any target has. */
  lemma SearchFound(v: BoardView, pos: Position, temp: bool,
                    visited: seq<Position>, queue: seq<Position>, done: seq<Position>)
    requires SearchInv(v, pos, temp, visited, queue, done)
    requires queue != [] && IsTarget(v.cells[queue[0]], temp)
    ensures Manhattan(pos, queue[0]) == NearestTargetDistance(v, pos, temp)
  {
    var next := queue[0];
    var d := Manhattan(pos, next);
    assert next in visited && OnBoard(next);
    forall q | OnBoard(q) && IsTarget(v.cells[q], temp) ensures d <= Manhattan(pos, q) {
      if Manhattan(pos, q) < d {
        assert false;
      }
    }
    NearestTargetDistanceIsMinimum(v, pos, temp, d);
  }

  /** When the queue runs dry, the search has dequeued the whole board and
      found no target. */
  lemma SearchExhausted(v: BoardView, pos: Position, temp: bool,
                        visited: seq<Position>, done: seq<Position>)
    requires SearchInv(v, pos, temp, visited, [], done)
    ensures forall y :: OnBoard(y) ==> !IsTarget(v.cells[y], temp)
    ensures NearestTargetDistance(v, pos, temp) == 0
  {
    assert done == visited;
    forall y | OnBoard(y) ensures !IsTarget(v.cells[y], temp) {
      ClosedSetCoversBoard(pos, Elements(done), y);
    }
    NearestTargetDistanceIsMinimum(v, pos, temp, 0);
  }

  /** Dequeuing a position that is not a target starts its expansion. */
  lemma ExpandStart(v: BoardView, pos: Position, temp: bool,
                    visited: seq<Position>, queue: seq<Position>, done: seq<Position>)
    requires SearchInv(v, pos, temp, visited, queue, done)
    requires queue != [] && !IsTarget(v.cells[queue[0]], temp)
    ensures ExpandInv(v, pos, temp, visited, queue[1..], done, queue[0])
  {
    assert queue == [queue[0]] + queue[1..];
    assert visited == done + [queue[0]] + queue[1..];
    forall i | 0 <= i < |queue[1..]|
      ensures Manhattan(pos, queue[0]) <= Manhattan(pos, queue[1..][i]) <= Manhattan(pos, queue[0]) + 1
    {
      assert queue[1..][i] == queue[i + 1];
    }
  }

  /** Enqueuing an unvisited touching neighbour of `next`: it lies one step
      further from `pos` than `next`, so the queue stays ordered. */
  lemma ExpandStep(v: BoardView, pos: Position, temp: bool,
                   visited: seq<Position>, queue: seq<Position>, before: seq<Position>, next: Position, nb: Position)
    requires ExpandInv(v, pos, temp, visited, queue, before, next)
    requires nb in Touching(next) && nb !in visited
    ensures ExpandInv(v, pos, temp, visited + [nb], queue + [nb], before, next)
  {
    TouchingStep(pos, next, nb);
    if Manhattan(pos, nb) + 1 == Manhattan(pos, next) {
      assert false;
    }
    assert visited + [nb] == before + [next] + (queue + [nb]);
  }

  /** Once every touching neighbour of `next` is visited, `next` joins the
      dequeued positions and the outer invariant holds again. */
  lemma ExpandFinish(v: BoardView, pos: Position, temp: bool,
                     visited: seq<Position>, queue: seq<Position>, before: seq<Position>, next: Position)
    requires ExpandInv(v, pos, temp, visited, queue, before, next)
    requires forall z :: z in Touching(next) ==> z in visited
    ensures SearchInv(v, pos, temp, visited, queue, before + [next])
  {
    var done := before + [next];
    var dn := Manhattan(pos, next);
    assert visited == done + queue;
    if queue != [] {
      forall y | OnBoard(y) && Manhattan(pos, y) < Manhattan(pos, queue[0]) ensures y in done {
        if Manhattan(pos, y) < dn {
          assert y in before;
        } else if y != next {
          assert y != pos;
          var z := Toward(pos, y);
          assert z in before && y in Touching(z);
          assert y in visited;
          assert y !in queue by {
            forall i | 0 <= i < |queue| ensures queue[i] != y {
              assert Manhattan(pos, queue[0]) <= Manhattan(pos, queue[i]);
            }
          }
        }
      }
    }
  }

  /** Enqueuing several unvisited touching neighbours of `next`, one after
      the other. */
  lemma {:induction false} ExpandMany(v: BoardView, pos: Position, temp: bool,
                                      visited: seq<Position>, queue: seq<Position>, before: seq<Position>,
                                      next: Position, added: seq<Position>)
    requires ExpandInv(v, pos, temp, visited, queue, before, next)
    requires forall z :: z in added ==> z in Touching(next)
    requires Distinct(visited + added)
    ensures ExpandInv(v, pos, temp, visited + added, queue + added, before, next)
    decreases |added|
  {
    if added != [] {
      var a := added[0];
      assert added == [a] + added[1..];
      assert visited + added == (visited + [a]) + added[1..];
      assert queue + added == (queue + [a]) + added[1..];
      assert a !in visited by {
        forall i | 0 <= i < |visited| ensures visited[i] != a {
          assert (visited + added)[i] == visited[i] && (visited + added)[|visited|] == a;
        }
      }
      ExpandStep(v, pos, temp, visited, queue, before, next, a);
      ExpandMany(v, pos, temp, visited + [a], queue + [a], before, next, added[1..]);
    }
  }

  /** The elements of `ns` that are not in `seen`, in the order of `ns`,
      each kept only the first time it appears. */
  function Unseen(seen: seq<Position>, ns: seq<Position>): seq<Position>
    decreases |ns|
  {
    if ns == [] then []
    else if ns[0] in seen then Unseen(seen, ns[1..])
    else [ns[0]] + Unseen(seen + [ns[0]], ns[1..])
  }

  /** The inner loop of the search: every element of `neighbours` not yet
      visited is appended to both `visited` and the queue, in the order of
      `neighbours`. */
  method AppendUnvisited(visited: seq<Position>, queue: seq<Position>, neighbours: seq<Position>)
    returns (visited': seq<Position>, queue': seq<Position>, ghost added: seq<Position>)
    requires Distinct(visited)
    ensures added == Unseen(visited, neighbours)
    ensures visited' == visited + added && queue' == queue + added
    ensures forall z :: z in added ==> z in neighbours
    ensures Distinct(visited')
    ensures forall z :: z in neighbours ==> z in visited'
  {
    visited', queue', added := visited, queue, [];
    var k := 0;
    while k < |neighbours|
      invariant 0 <= k <= |neighbours|
      invariant visited' == visited + added && queue' == queue + added
      invariant forall i :: 0 <= i < |added| ==> added[i] in neighbours
      invariant Distinct(visited')
      invariant forall j :: 0 <= j < k ==> neighbours[j] in visited'
      invariant added + Unseen(visited', neighbours[k..]) == Unseen(visited, neighbours)
    {
      var nb := neighbours[k];
      assert neighbours[k..][0] == nb && neighbours[k..][1..] == neighbours[k + 1..];
      if nb !in visited' {
        DistinctConcat(visited', [nb]);
        visited' := visited' + [nb];
        queue' := queue' + [nb];
        added := added + [nb];
      }
      k := k + 1;
    }
  }

  /** Enqueuing the touching neighbours of `next` keeps the inner invariant
      and leaves all of them visited. */
  method EnqueueNeighbours(ghost v: BoardView, pos: Position, temp: bool,
                           visited: seq<Position>, queue: seq<Position>, ghost before: seq<Position>,
                           next: Position, neighbours: seq<Position>)
    returns (visited': seq<Position>, queue': seq<Position>)
    requires ExpandInv(v, pos, temp, visited, queue, before, next)
    requires neighbours == Touching(next)
    ensures ExpandInv(v, pos, temp, visited', queue', before, next)
    ensures forall z :: z in Touching(next) ==> z in visited'
  {
    ghost var added;
    visited', queue', added := AppendUnvisited(visited, queue, neighbours);
    ExpandMany(v, pos, temp, visited, queue, before, next, added);
  }
}
