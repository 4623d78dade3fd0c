/** Day 21, part 1: the plots the elf can stand on after exactly 64 steps.
    The search takes positions by the most steps left first; each position
    is handled once, counted when an even number of steps is left, and
    expanded to its open neighbours with one step fewer. */
module Day21Part1 {
  import opened Util
  import Day21

  /** The number of steps of part 1. */
  const TOTAL_STEPS: nat := 64

  /** A position `(x, y)`; the rock of `(x, y)` is at flat index `y * side + x`. */
  type Pos = (nat, nat)

  // ----------------------------------------------------------- the garden

  /** Inside the square and not a rock. */
  predicate Open(walls: set<nat>, side: nat, p: Pos)
  {
    p.0 < side && p.1 < side && Flat(side, p) !in walls
  }

  /** The flat index of a position, row by row. */
  function Flat(side: nat, p: Pos): nat
  {
    p.1 * side + p.0
  }

  predicate Adjacent(p: Pos, q: Pos)
  {
    (p.1 == q.1 && (p.0 == q.0 + 1 || q.0 == p.0 + 1)) ||
    (p.0 == q.0 && (p.1 == q.1 + 1 || q.1 == p.1 + 1))
  }

  /** The candidates left, right, up and down, where `checked_sub` succeeds. */
  function Candidates(p: Pos): seq<Pos>
  {
    (if p.0 > 0 then [(p.0 - 1, p.1)] else []) + [(p.0 + 1, p.1)] +
    (if p.1 > 0 then [(p.0, p.1 - 1)] else []) + [(p.0, p.1 + 1)]
  }

  function KeepOpen(walls: set<nat>, side: nat, ps: seq<Pos>): (r: seq<Pos>)
    ensures forall q :: q in r <==> q in ps && Open(walls, side, q)
  {
    if ps == [] then []
    else (if Open(walls, side, ps[0]) then [ps[0]] else []) + KeepOpen(walls, side, ps[1..])
  }

  /** The successors of a position: its open neighbours. */
  function Neighbours(walls: set<nat>, side: nat, p: Pos): seq<Pos>
  {
    KeepOpen(walls, side, Candidates(p))
  }

  /** The successors are exactly the open positions next to `p`. */
  lemma NeighboursExact(walls: set<nat>, side: nat, p: Pos, q: Pos)
    ensures q in Neighbours(walls, side, p) <==> Open(walls, side, q) && Adjacent(p, q)
  {
    assert q in Candidates(p) <==> Adjacent(p, q);
  }

  /** A walk from `start`, each step to an open neighbour. */
  ghost predicate IsWalk(walls: set<nat>, side: nat, start: Pos, w: seq<Pos>)
  {
    |w| >= 1 && w[0] == start &&
    forall i :: 0 < i < |w| ==> Open(walls, side, w[i]) && Adjacent(w[i - 1], w[i])
  }

  function Last(w: seq<Pos>): Pos
    requires w != []
  {
    w[|w| - 1]
  }

  /** The plots the elf can reach in at most `total` steps, by a number of
      steps of the same parity as `total`: those it can stand on after
      exactly `total` steps, stepping back and forth. */
  ghost predicate Reaches(walls: set<nat>, side: nat, start: Pos, total: nat, p: Pos)
  {
    exists w :: IsWalk(walls, side, start, w) && |w| - 1 <= total && (|w| - 1) % 2 == total % 2 && Last(w) == p
  }

  /** A walk without its last step is a walk, and that step is to an open neighbour. */
  lemma WalkPrefix(walls: set<nat>, side: nat, start: Pos, w: seq<Pos>)
    requires IsWalk(walls, side, start, w) && |w| > 1
    ensures IsWalk(walls, side, start, w[..|w| - 1])
    ensures Open(walls, side, Last(w)) && Adjacent(Last(w[..|w| - 1]), Last(w))
  {
    var v := w[..|w| - 1];
    assert forall i :: 0 <= i < |v| ==> v[i] == w[i];
  }

  /** A walk with one more step to an open neighbour is a walk. */
  lemma WalkSnoc(walls: set<nat>, side: nat, start: Pos, w: seq<Pos>, n: Pos)
    requires IsWalk(walls, side, start, w) && Open(walls, side, n) && Adjacent(Last(w), n)
    ensures IsWalk(walls, side, start, w + [n]) && Last(w + [n]) == n
  {
    var v := w + [n];
    assert forall i :: 0 <= i < |w| ==> v[i] == w[i];
  }

  /** One step changes the parity of `x + y`. */
  lemma StepParity(p: Pos, q: Pos) returns (k: int)
    requires Adjacent(p, q)
    ensures p.0 + p.1 + q.0 + q.1 == 2 * k + 1
  {
    if p.1 == q.1 {
      k := p.1 + (if p.0 < q.0 then p.0 else q.0);
    } else {
      k := p.0 + (if p.1 < q.1 then p.1 else q.1);
    }
  }

  /** Every step changes `x + y` by one, so the length of a walk has the
      parity of the change of `x + y`: their sum is even. */
  lemma {:induction false} WalkParity(walls: set<nat>, side: nat, start: Pos, w: seq<Pos>) returns (k: int)
    requires IsWalk(walls, side, start, w)
    ensures |w| - 1 + start.0 + start.1 + Last(w).0 + Last(w).1 == 2 * k
  {
    if |w| > 1 {
      var v := w[..|w| - 1];
      WalkPrefix(walls, side, start, w);
      var kv := WalkParity(walls, side, start, v);
      var ks := StepParity(Last(v), Last(w));
      k := kv + ks + 1 - (Last(v).0 + Last(v).1);
    } else {
      k := start.0 + start.1;
    }
  }

  /** The positions a search can ever hold: the start and the square. */
  function Universe(side: nat, start: Pos): set<Pos>
  {
    (set x: nat, y: nat | x < side && y < side :: (x, y)) + {start}
  }

  lemma WalkInUniverse(walls: set<nat>, side: nat, start: Pos, w: seq<Pos>)
    requires IsWalk(walls, side, start, w)
    ensures Last(w) in Universe(side, start)
  {
    if |w| > 1 {
      var p := Last(w);
      WalkPrefix(walls, side, start, w);
      assert p == (p.0, p.1);
    }
  }

  // ------------------------------------------------------------- the queue

  /** A bucket queue: entries of a position and its steps left. */
  type Queue = seq<(Pos, nat)>

  /** `max_priority`: the most steps left of any entry. */
  function MaxPriority(q: Queue): (m: nat)
    requires q != []
    ensures forall i :: 0 <= i < |q| ==> q[i].1 <= m
    ensures exists i :: 0 <= i < |q| && q[i].1 == m
  {
    if |q| == 1 then q[0].1
    else
      var m := MaxPriority(q[1..]);
      assert forall i :: 1 <= i < |q| ==> q[i] == q[1..][i - 1];
      if q[0].1 > m then q[0].1 else m
  }

  /** `pop`: the entry of that priority queued last, as a `Vec` bucket gives. */
  function LastAt(q: Queue, priority: nat): (i: nat)
    requires exists i :: 0 <= i < |q| && q[i].1 == priority
    ensures i < |q| && q[i].1 == priority
  {
    if q[|q| - 1].1 == priority then |q| - 1
    else
      assert forall i :: 0 <= i < |q| - 1 ==> q[..|q| - 1][i] == q[i];
      LastAt(q[..|q| - 1], priority)
  }

  function Remove<T>(s: seq<T>, i: nat): (r: seq<T>)
    requires i < |s|
    ensures |r| == |s| - 1
  {
    s[..i] + s[i + 1..]
  }

  lemma InRemove<T>(s: seq<T>, i: nat, e: T)
    requires i < |s| && e in s && e != s[i]
    ensures e in Remove(s, i)
  {
    var k :| 0 <= k < |s| && s[k] == e;
    if k < i {
      assert Remove(s, i)[k] == e;
    } else {
      assert Remove(s, i)[k - 1] == e;
    }
  }

  lemma RemoveAt<T>(s: seq<T>, i: nat, k: nat)
    requires i < |s| && k < |s| - 1
    ensures Remove(s, i)[k] == if k < i then s[k] else s[k + 1]
  {
  }

  /** The pushes of the open neighbours with `left` steps left. */
  function Pushes(ns: seq<Pos>, left: nat): (q: Queue)
    ensures |q| == |ns| && forall i :: 0 <= i < |ns| ==> q[i] == (ns[i], left)
  {
    seq(|ns|, i requires 0 <= i < |ns| => (ns[i], left))
  }

  /** The walks to the pushed neighbours: the walk to `p`, one step on. */
  function Extend(w: seq<Pos>, ns: seq<Pos>): (ws: seq<seq<Pos>>)
    ensures |ws| == |ns| && forall i :: 0 <= i < |ns| ==> ws[i] == w + [ns[i]]
  {
    seq(|ns|, i requires 0 <= i < |ns| => w + [ns[i]])
  }

  // ---------------------------------------------------- the search invariant

  /** Each queued entry has a walk from the start whose length is the
      number of steps taken, and lies in the universe. */
  ghost predicate QueueSound(walls: set<nat>, side: nat, start: Pos, total: nat, q: Queue, trails: seq<seq<Pos>>)
  {
    |trails| == |q| &&
    forall i :: 0 <= i < |q| ==>
      q[i].1 <= total && IsWalk(walls, side, start, trails[i]) && |trails[i]| == total - q[i].1 + 1 &&
      Last(trails[i]) == q[i].0 && q[i].0 in Universe(side, start)
  }

  /** Each handled position has the steps left when it was handled and a walk of that many steps taken. */
  ghost predicate DoneSound(walls: set<nat>, side: nat, start: Pos, total: nat, left: map<Pos, nat>, walks: map<Pos, seq<Pos>>)
  {
    walks.Keys == left.Keys && left.Keys <= Universe(side, start) &&
    forall p :: p in left ==>
      left[p] <= total && IsWalk(walls, side, start, walks[p]) && |walks[p]| == total - left[p] + 1 && Last(walks[p]) == p
  }

  /** No entry has more steps left than any handled position had. */
  ghost predicate Ordered(q: Queue, left: map<Pos, nat>)
  {
    forall p, i :: p in left && 0 <= i < |q| ==> q[i].1 <= left[p]
  }

  /** Each neighbour of a handled position with steps left is handled with
      at most one step fewer left, or waits in the queue with one step fewer. */
  ghost predicate Closed(walls: set<nat>, side: nat, q: Queue, left: map<Pos, nat>)
  {
    forall p, n :: ClosedAt(walls, side, q, left, p, n)
  }

  /** `Closed` at one handled position and one of its neighbours. */
  ghost predicate ClosedAt(walls: set<nat>, side: nat, q: Queue, left: map<Pos, nat>, p: Pos, n: Pos)
  {
    p in left && left[p] > 0 && n in Neighbours(walls, side, p) ==>
      (n in left && left[n] + 1 >= left[p]) || (n, left[p] - 1) in q
  }

  /** The start is handled with every step left, or waits to be. */
  ghost predicate StartKnown(start: Pos, total: nat, q: Queue, left: map<Pos, nat>)
  {
    (start in left && left[start] == total) || (start, total) in q
  }

  ghost predicate Searching(walls: set<nat>, side: nat, start: Pos, total: nat, q: Queue, trails: seq<seq<Pos>>,
                            left: map<Pos, nat>, walks: map<Pos, seq<Pos>>)
  {
    QueueSound(walls, side, start, total, q, trails) && DoneSound(walls, side, start, total, left, walks) &&
    Ordered(q, left) && Closed(walls, side, q, left) && StartKnown(start, total, q, left)
  }

  /** The handled positions counted: those handled with an even number of steps left. */
  function Even(left: map<Pos, nat>): set<Pos>
  {
    set p | p in left && left[p] % 2 == 0
  }

  // --------------------------------------------------------- one iteration

  /** Popping an entry whose position was already handled keeps the invariant. */
  lemma SkipKeeps(walls: set<nat>, side: nat, start: Pos, total: nat, q: Queue, trails: seq<seq<Pos>>,
                  left: map<Pos, nat>, walks: map<Pos, seq<Pos>>, i: nat)
    requires Searching(walls, side, start, total, q, trails, left, walks)
    requires i < |q| && q[i].0 in left
    ensures Searching(walls, side, start, total, Remove(q, i), Remove(trails, i), left, walks)
  {
    HandleQueueSound(walls, side, start, total, q, trails, i, q[i].0, q[i].1, []);
    assert Remove(q, i) + Pushes([], 0) == Remove(q, i);
    assert Remove(trails, i) + Extend(trails[i], []) == Remove(trails, i);
    RemoveOrdered(q, left, i);
    assert q[i].1 <= left[q[i].0];
    SkipClosed(walls, side, q, left, i);
    if !(start in left && left[start] == total) {
      InRemove(q, i, (start, total));
    }
  }

  lemma RemoveOrdered(q: Queue, left: map<Pos, nat>, i: nat)
    requires Ordered(q, left) && i < |q|
    ensures Ordered(Remove(q, i), left)
  {
    forall k | 0 <= k < |q| - 1 ensures Remove(q, i)[k] in q {
      RemoveAt(q, i, k);
    }
  }

  lemma SkipClosed(walls: set<nat>, side: nat, q: Queue, left: map<Pos, nat>, i: nat)
    requires Closed(walls, side, q, left) && i < |q| && q[i].0 in left && q[i].1 <= left[q[i].0]
    ensures Closed(walls, side, Remove(q, i), left)
  {
    forall p, n ensures ClosedAt(walls, side, Remove(q, i), left, p, n) {
      SkipClosedAt(walls, side, q, left, i, p, n);
    }
  }

  /** The removed entry's position is handled with at least its steps left. */
  lemma SkipClosedAt(walls: set<nat>, side: nat, q: Queue, left: map<Pos, nat>, i: nat, p: Pos, n: Pos)
    requires Closed(walls, side, q, left) && i < |q| && q[i].0 in left && q[i].1 <= left[q[i].0]
    ensures ClosedAt(walls, side, Remove(q, i), left, p, n)
  {
    if p in left && left[p] > 0 && n in Neighbours(walls, side, p) && !(n in left && left[n] + 1 >= left[p]) {
      assert ClosedAt(walls, side, q, left, p, n);
      InRemove(q, i, (n, left[p] - 1));
    }
  }

  /** Handling a new position with `m` steps left records it and queues its
      open neighbours with one step fewer. */
  lemma HandleKeeps(walls: set<nat>, side: nat, start: Pos, total: nat, q: Queue, trails: seq<seq<Pos>>,
                    left: map<Pos, nat>, walks: map<Pos, seq<Pos>>, i: nat, p: Pos, m: nat, ns: seq<Pos>)
    requires Searching(walls, side, start, total, q, trails, left, walks)
    requires i < |q| && q[i] == (p, m) && m == MaxPriority(q) && p !in left
    requires ns == if m == 0 then [] else Neighbours(walls, side, p)
    ensures m == 0 ==> Searching(walls, side, start, total, Remove(q, i), Remove(trails, i), left[p := m], walks[p := trails[i]])
    ensures m > 0 ==> Searching(walls, side, start, total,
      Remove(q, i) + Pushes(ns, m - 1), Remove(trails, i) + Extend(trails[i], ns), left[p := m], walks[p := trails[i]])
  {
    HandleAll(walls, side, start, total, q, trails, left, walks, i, p, m, ns);
    if m == 0 {
      assert Remove(q, i) + Pushes(ns, 0) == Remove(q, i);
      assert Remove(trails, i) + Extend(trails[i], ns) == Remove(trails, i);
    }
  }

  lemma HandleAll(walls: set<nat>, side: nat, start: Pos, total: nat, q: Queue, trails: seq<seq<Pos>>,
                  left: map<Pos, nat>, walks: map<Pos, seq<Pos>>, i: nat, p: Pos, m: nat, ns: seq<Pos>)
    requires Searching(walls, side, start, total, q, trails, left, walks)
    requires i < |q| && q[i] == (p, m) && m == MaxPriority(q) && p !in left
    requires ns == if m == 0 then [] else Neighbours(walls, side, p)
    ensures Searching(walls, side, start, total, Remove(q, i) + Pushes(ns, if m == 0 then 0 else m - 1),
      Remove(trails, i) + Extend(trails[i], ns), left[p := m], walks[p := trails[i]])
  {
    NeighboursOpen(walls, side, p, ns);
    HandleQueueSound(walls, side, start, total, q, trails, i, p, m, ns);
    HandleDone(walls, side, start, total, q, trails, left, walks, i, p, m);
    HandleOrdered(q, left, i, p, m, ns);
    HandleClosed(walls, side, q, left, i, p, m, ns);
    HandleStart(start, total, q, left, i, p, m, ns);
  }

  lemma NeighboursOpen(walls: set<nat>, side: nat, p: Pos, ns: seq<Pos>)
    requires ns == [] || ns == Neighbours(walls, side, p)
    ensures forall k :: 0 <= k < |ns| ==> Open(walls, side, ns[k]) && Adjacent(p, ns[k])
  {
    forall k | 0 <= k < |ns| ensures Open(walls, side, ns[k]) && Adjacent(p, ns[k]) {
      NeighboursExact(walls, side, p, ns[k]);
    }
  }

  /** The handled position is recorded with the walk that reached it. */
  lemma HandleDone(walls: set<nat>, side: nat, start: Pos, total: nat, q: Queue, trails: seq<seq<Pos>>,
                   left: map<Pos, nat>, walks: map<Pos, seq<Pos>>, i: nat, p: Pos, m: nat)
    requires QueueSound(walls, side, start, total, q, trails) && DoneSound(walls, side, start, total, left, walks)
    requires i < |q| && q[i] == (p, m)
    ensures DoneSound(walls, side, start, total, left[p := m], walks[p := trails[i]])
  {
  }

  /** The start stays handled or queued. */
  lemma HandleStart(start: Pos, total: nat, q: Queue, left: map<Pos, nat>, i: nat, p: Pos, m: nat, ns: seq<Pos>)
    requires StartKnown(start, total, q, left) && i < |q| && q[i] == (p, m) && p !in left
    ensures StartKnown(start, total, Remove(q, i) + Pushes(ns, if m == 0 then 0 else m - 1), left[p := m])
  {
    var q' := Remove(q, i) + Pushes(ns, if m == 0 then 0 else m - 1);
    if start in left && left[start] == total {
      assert start in left[p := m] && left[p := m][start] == total;
    } else if (start, total) == q[i] {
      assert start in left[p := m] && left[p := m][start] == total;
    } else {
      InRemove(q, i, (start, total));
      assert (start, total) in q';
    }
  }

  lemma HandleQueueSound(walls: set<nat>, side: nat, start: Pos, total: nat, q: Queue, trails: seq<seq<Pos>>,
                          i: nat, p: Pos, m: nat, ns: seq<Pos>)
    requires QueueSound(walls, side, start, total, q, trails)
    requires i < |q| && q[i] == (p, m) && (ns != [] ==> m > 0)
    requires forall k :: 0 <= k < |ns| ==> Open(walls, side, ns[k]) && Adjacent(p, ns[k])
    ensures QueueSound(walls, side, start, total,
      Remove(q, i) + Pushes(ns, if m == 0 then 0 else m - 1), Remove(trails, i) + Extend(trails[i], ns))
  {
    var r := Remove(q, i);
    var rt := Remove(trails, i);
    var q' := r + Pushes(ns, if m == 0 then 0 else m - 1);
    var trails' := rt + Extend(trails[i], ns);
    forall k | 0 <= k < |q'|
      ensures q'[k].1 <= total && IsWalk(walls, side, start, trails'[k]) && |trails'[k]| == total - q'[k].1 + 1
      ensures Last(trails'[k]) == q'[k].0 && q'[k].0 in Universe(side, start)
    {
      if k < |r| {
        RemoveAt(q, i, k);
        RemoveAt(trails, i, k);
      } else {
        var n := ns[k - |r|];
        var w := trails[i] + [n];
        assert trails'[k] == w && q'[k] == (n, m - 1);
        assert forall j :: 0 <= j < |trails[i]| ==> w[j] == trails[i][j];
        assert IsWalk(walls, side, start, w);
        WalkInUniverse(walls, side, start, w);
      }
    }
  }

  lemma HandleOrdered(q: Queue, left: map<Pos, nat>, i: nat, p: Pos, m: nat, ns: seq<Pos>)
    requires Ordered(q, left) && i < |q| && q[i] == (p, m) && m == MaxPriority(q)
    ensures Ordered(Remove(q, i) + Pushes(ns, if m == 0 then 0 else m - 1), left[p := m])
  {
    var r := Remove(q, i);
    var q' := r + Pushes(ns, if m == 0 then 0 else m - 1);
    forall k | 0 <= k < |r| ensures r[k].1 <= m {
      RemoveAt(q, i, k);
    }
    var left' := left[p := m];
    forall x, k | x in left' && 0 <= k < |q'| ensures q'[k].1 <= left'[x] {
      if k < |r| {
        RemoveAt(q, i, k);
      }
    }
  }

  lemma HandleClosed(walls: set<nat>, side: nat, q: Queue, left: map<Pos, nat>, i: nat, p: Pos, m: nat, ns: seq<Pos>)
    requires Closed(walls, side, q, left) && i < |q| && q[i] == (p, m) && p !in left
    requires ns == if m == 0 then [] else Neighbours(walls, side, p)
    ensures Closed(walls, side, Remove(q, i) + Pushes(ns, if m == 0 then 0 else m - 1), left[p := m])
  {
    var q' := Remove(q, i) + Pushes(ns, if m == 0 then 0 else m - 1);
    var left' := left[p := m];
    forall x, n ensures ClosedAt(walls, side, q', left', x, n) {
      HandleClosedAt(walls, side, q, left, i, p, m, ns, x, n);
    }
  }

  /** The neighbours of the new position are queued; a neighbour of an old
      position stays queued, or is the new position. */
  lemma HandleClosedAt(walls: set<nat>, side: nat, q: Queue, left: map<Pos, nat>, i: nat, p: Pos, m: nat, ns: seq<Pos>,
                       x: Pos, n: Pos)
    requires Closed(walls, side, q, left) && i < |q| && q[i] == (p, m) && p !in left
    requires ns == if m == 0 then [] else Neighbours(walls, side, p)
    ensures ClosedAt(walls, side, Remove(q, i) + Pushes(ns, if m == 0 then 0 else m - 1), left[p := m], x, n)
  {
    var left' := left[p := m];
    if x in left' && left'[x] > 0 && n in Neighbours(walls, side, x) {
      if x == p {
        HandleClosedNew(q, i, ns, m - 1, n);
      } else if !(n in left && left[n] + 1 >= left[x]) {
        assert ClosedAt(walls, side, q, left, x, n);
        if (n, left[x] - 1) != q[i] {
          InRemove(q, i, (n, left[x] - 1));
        }
      }
    }
  }

  lemma HandleClosedNew(q: Queue, i: nat, ns: seq<Pos>, d: nat, n: Pos)
    requires i < |q| && n in ns
    ensures (n, d) in Remove(q, i) + Pushes(ns, d)
  {
    var k :| 0 <= k < |ns| && ns[k] == n;
    assert (Remove(q, i) + Pushes(ns, d))[|q| - 1 + k] == (n, d);
  }

  /** Counting a new position with an even number of steps left adds one. */
  lemma EvenStep(left: map<Pos, nat>, p: Pos, m: nat)
    requires p !in left
    ensures |Even(left[p := m])| == |Even(left)| + (if m % 2 == 0 then 1 else 0)
  {
    if m % 2 == 0 {
      assert Even(left[p := m]) == Even(left) + {p};
    } else {
      assert Even(left[p := m]) == Even(left);
    }
  }

  lemma Grows(side: nat, start: Pos, visited: set<Pos>, p: Pos)
    requires visited <= Universe(side, start) && p in Universe(side, start) && p !in visited
    ensures |Universe(side, start) - (visited + {p})| < |Universe(side, start) - visited|
  {
    assert Universe(side, start) - visited == (Universe(side, start) - (visited + {p})) + {p};
  }

  // ------------------------------------------------------------- the search

  /** `part1::solve`: handle the entry with the most steps left until the
      queue is empty, counting each new position that has an even number
      of steps left and queueing the open neighbours of those with steps left.
      The count is the number of plots reachable in at most `total` steps by
      a number of steps of the parity of `total`. */
  method Solve(walls: set<nat>, side: nat, start: Pos, total: nat) returns (reachable: nat)
    ensures reachable == |set p | p in Universe(side, start) && Reaches(walls, side, start, total, p)|
  {
    var q: Queue := [(start, total)];
    ghost var trails: seq<seq<Pos>> := [[start]];
    reachable := 0;
    var visited: set<Pos> := {};
    ghost var left: map<Pos, nat> := map[];
    ghost var walks: map<Pos, seq<Pos>> := map[];
    Starting(walls, side, start, total);
    while q != []
      invariant Searching(walls, side, start, total, q, trails, left, walks)
      invariant visited == left.Keys && reachable == |Even(left)|
      decreases |Universe(side, start) - visited|, |q|
    {
      var remaining := MaxPriority(q);
      var i := LastAt(q, remaining);
      var (x, y) := q[i].0;
      ghost var before := q;
      ghost var trailsBefore := trails;
      ghost var trail := trails[i];
      q := Remove(q, i);
      trails := Remove(trails, i);
      var canBeReached := remaining % 2 == 0;
      if (x, y) in visited {
        SkipKeeps(walls, side, start, total, before, trailsBefore, left, walks, i);
        continue;
      }
      QueuedInUniverse(walls, side, start, total, before, trailsBefore, i);
      Grows(side, start, visited, (x, y));
      visited := visited + {(x, y)};
      if canBeReached {
        reachable := reachable + 1;
      }
      EvenStep(left, (x, y), remaining);
      var ns := if remaining == 0 then [] else Neighbours(walls, side, (x, y));
      HandleKeeps(walls, side, start, total, before, trailsBefore, left, walks, i, (x, y), remaining, ns);
      KeysGrow(left, (x, y), remaining, visited);
      left := left[(x, y) := remaining];
      walks := walks[(x, y) := trail];
      if remaining == 0 {
        continue;
      }
      q := q + Pushes(ns, remaining - 1);
      trails := trails + Extend(trail, ns);
    }
    Finished(walls, side, start, total, left, walks);
  }

  lemma KeysGrow(left: map<Pos, nat>, p: Pos, m: nat, visited: set<Pos>)
    requires visited == left.Keys + {p}
    ensures left[p := m].Keys == visited
  {
  }

  /** The search starts with the start queued with every step left. */
  lemma Starting(walls: set<nat>, side: nat, start: Pos, total: nat)
    ensures Searching(walls, side, start, total, [(start, total)], [[start]], map[], map[])
  {
    assert IsWalk(walls, side, start, [start]);
  }

  lemma QueuedInUniverse(walls: set<nat>, side: nat, start: Pos, total: nat, q: Queue, trails: seq<seq<Pos>>, i: nat)
    requires QueueSound(walls, side, start, total, q, trails) && i < |q|
    ensures q[i].0 in Universe(side, start)
  {
  }

  /** A walk of at most `total` steps ends at a handled position with at
      least the steps left that the walk leaves. */
  lemma {:induction false} Covered(walls: set<nat>, side: nat, start: Pos, total: nat, left: map<Pos, nat>, w: seq<Pos>)
    requires Closed(walls, side, [], left) && start in left && left[start] == total
    requires IsWalk(walls, side, start, w) && |w| - 1 <= total
    ensures Last(w) in left && left[Last(w)] + (|w| - 1) >= total
  {
    if |w| > 1 {
      var v := w[..|w| - 1];
      WalkPrefix(walls, side, start, w);
      Covered(walls, side, start, total, left, v);
      NeighboursExact(walls, side, Last(v), Last(w));
      assert ClosedAt(walls, side, [], left, Last(v), Last(w));
    }
  }

  /** With the queue empty, the counted positions are exactly the plots
      reachable with the parity of `total`. */
  lemma Finished(walls: set<nat>, side: nat, start: Pos, total: nat, left: map<Pos, nat>, walks: map<Pos, seq<Pos>>)
    requires Searching(walls, side, start, total, [], [], left, walks)
    ensures Even(left) == set p | p in Universe(side, start) && Reaches(walls, side, start, total, p)
  {
    assert DoneSound(walls, side, start, total, left, walks) && Closed(walls, side, [], left);
    assert start in left && left[start] == total;
    forall p | p in Even(left) ensures p in Universe(side, start) && Reaches(walls, side, start, total, p) {
      EvenReaches(walls, side, start, total, left, walks, p);
    }
    forall p | p in Universe(side, start) && Reaches(walls, side, start, total, p) ensures p in Even(left) {
      ReachesEven(walls, side, start, total, left, walks, p);
    }
  }

  /** A counted position is reached by its recorded walk. */
  lemma EvenReaches(walls: set<nat>, side: nat, start: Pos, total: nat, left: map<Pos, nat>, walks: map<Pos, seq<Pos>>, p: Pos)
    requires DoneSound(walls, side, start, total, left, walks) && p in Even(left)
    ensures p in Universe(side, start) && Reaches(walls, side, start, total, p)
  {
    var w := walks[p];
    EvenLeft(|w| - 1, total, left[p]);
    assert IsWalk(walls, side, start, w) && |w| - 1 <= total && (|w| - 1) % 2 == total % 2 && Last(w) == p;
  }

  lemma EvenLeft(b: int, total: int, l: int)
    requires b == total - l && l % 2 == 0
    ensures b % 2 == total % 2
  {
  }

  /** A reachable position is handled with an even number of steps left:
      its recorded walk is no longer than the given one and, the garden
      being a grid, of the same parity. */
  lemma ReachesEven(walls: set<nat>, side: nat, start: Pos, total: nat, left: map<Pos, nat>, walks: map<Pos, seq<Pos>>, p: Pos)
    requires DoneSound(walls, side, start, total, left, walks) && Closed(walls, side, [], left)
    requires start in left && left[start] == total
    requires Reaches(walls, side, start, total, p)
    ensures p in Even(left)
  {
    var a, ka := ReachedBy(walls, side, start, total, left, p);
    var b, kb := RecordedBy(walls, side, start, total, left, walks, p);
    ParityLeft(start.0 + start.1 + p.0 + p.1, a, ka, b, kb, total, left[p]);
  }

  /** A walk of `a` steps reaching `p` makes `p` handled; `a` has the
      parity of `total` and of the change of `x + y`. */
  lemma ReachedBy(walls: set<nat>, side: nat, start: Pos, total: nat, left: map<Pos, nat>, p: Pos) returns (a: nat, k: int)
    requires Closed(walls, side, [], left) && start in left && left[start] == total
    requires Reaches(walls, side, start, total, p)
    ensures p in left && a % 2 == total % 2 && a + start.0 + start.1 + p.0 + p.1 == 2 * k
  {
    var w :| IsWalk(walls, side, start, w) && |w| - 1 <= total && (|w| - 1) % 2 == total % 2 && Last(w) == p;
    Covered(walls, side, start, total, left, w);
    k := WalkParity(walls, side, start, w);
    a := |w| - 1;
  }

  /** The recorded walk to a handled `p` takes `total - left[p]` steps,
      of the parity of the change of `x + y`. */
  lemma RecordedBy(walls: set<nat>, side: nat, start: Pos, total: nat, left: map<Pos, nat>, walks: map<Pos, seq<Pos>>, p: Pos)
    returns (b: int, k: int)
    requires DoneSound(walls, side, start, total, left, walks) && p in left
    ensures b == total - left[p] && b + start.0 + start.1 + p.0 + p.1 == 2 * k
  {
    var v := walks[p];
    k := WalkParity(walls, side, start, v);
    b := |v| - 1;
  }

  /** Two walks to the same plot have lengths of the same parity, so the
      steps left after the recorded one have the parity of none left. */
  lemma ParityLeft(c: int, a: int, ka: int, b: int, kb: int, total: int, l: int)
    requires a + c == 2 * ka && b + c == 2 * kb
    requires a % 2 == total % 2 && b == total - l
    ensures l % 2 == 0
  {
  }

  // -------------------------------------------------------------- the puzzle

  /** The answer for a garden whose search starts at `start`. */
  ghost function Answer(walls: set<nat>, side: nat, start: Pos, total: nat): nat
  {
    |set p | p in Universe(side, start) && Reaches(walls, side, start, total, p)|
  }

  /** `load_input` gives the start as (row, column); the search takes (x, y). */
  function Swap(rowCol: (nat, nat)): Pos
  {
    (rowCol.1, rowCol.0)
  }

  /** `solve` for part 1, starting from the `S` itself: the (row, column) of
      the start is turned into (x, y) before the search. */
  method Part1(input: string) returns (r: Result<nat>)
    ensures r.Ok? <==> (Lines(input) != [] && |Lines(input)[0]| > 0 &&
      Day21.AllKnown(Day21.Concat(Lines(input))) && 'S' in Day21.Concat(Lines(input)))
    ensures r.Ok? ==> Day21.StartOf(Day21.Concat(Lines(input)), |Lines(input)[0]|).Some?
    ensures r.Ok? ==> r.value == Answer(Day21.Walls(Day21.Concat(Lines(input))), |Lines(input)[0]|,
      Swap(Day21.StartOf(Day21.Concat(Lines(input)), |Lines(input)[0]|).value), TOTAL_STEPS)
  {
    var garden := Day21.LoadInput(input);
    if garden.Err? {
      return Err(garden.reason);
    }
    var g := garden.value;
    var count := Solve(g.walls, g.side, Swap(g.start), TOTAL_STEPS);
    return Ok(count);
  }

  /** As written, `solve` receives the (row, column) pair as (x, y): in the
      garden `.S` over `#.` the `S` is at row 0, column 1, and the search
      starts from x = 0, y = 1, the rock, instead of x = 1, y = 0. */
  lemma TransposedStart()
    ensures Day21.StartOf(".S#.", 2) == Some((0, 1))
    ensures !Open(Day21.Walls(".S#."), 2, (0, 1))
    ensures Open(Day21.Walls(".S#."), 2, Swap((0, 1)))
  {
    var cells := ".S#.";
    assert Day21.LastStart(cells[..3]) == Some(1);
    assert Flat(2, (0, 1)) == 2 && cells[2] == '#';
    assert Flat(2, (1, 0)) == 1 && cells[1] != '#';
  }
}
