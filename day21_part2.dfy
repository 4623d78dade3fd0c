/** Day 21, part 2: the garden repeats in every direction and the elf walks
    26501365 steps. A breadth-first search over the first few repetitions
    counts the reachable plots of each repetition (a metatile); the answer
    is extrapolated from how many metatiles share each count. */
module Day21Part2 {
  import opened Util

  const PANIC: string := "panic"

  /** The number of steps of part 2. */
  const TOTAL_STEPS: nat := 26501365

  /** A position `(x, y)` of the infinite grid; `x` is the column. */
  type Pos = (int, int)

  // ------------------------------------------------------ the infinite grid

  /** The garden's cells, `true` for a rock, repeated with period `side`. */
  datatype InfiniteGrid = InfiniteGrid(contents: seq<seq<bool>>, side: int)

  /** A square grid of rows of equal width. */
  predicate Square(contents: seq<seq<bool>>)
  {
    forall r :: 0 <= r < |contents| ==> |contents[r]| == |contents|
  }

  predicate Valid(g: InfiniteGrid)
  {
    g.side > 0 && |g.contents| == g.side && Square(g.contents)
  }

  /** `InfiniteGrid::new`: the side is the number of columns; the grid is
      asserted to be square. */
  function New(contents: seq<seq<bool>>): (g: InfiniteGrid)
    requires Square(contents)
    ensures g.contents == contents
    ensures contents != [] ==> Valid(g) && g.side == |contents[0]|
  {
    InfiniteGrid(contents, |contents|)
  }

  /** `original_coords`: the cell of the garden a position repeats. */
  function OriginalCoords(g: InfiniteGrid, yx: Pos): (r: (nat, nat))
    requires g.side > 0
    ensures r.0 < g.side && r.1 < g.side
  {
    (yx.0 % g.side, yx.1 % g.side)
  }

  /** Rust's `/` on signed integers: rounds toward zero. */
  function TruncDiv(a: int, b: int): int
    requires b > 0
  {
    if a >= 0 then a / b else -((-a) / b)
  }

  /** One coordinate of `metatile_coords`. */
  function Metatile(side: int, c: int): int
    requires side > 0
  {
    if c >= 0 then TruncDiv(c, side) else TruncDiv(c + 1, side) - 1
  }

  /** `metatile_coords`: the repetition of the garden a position lies in. */
  function MetatileCoords(g: InfiniteGrid, yx: Pos): Pos
    requires g.side > 0
  {
    (Metatile(g.side, yx.0), Metatile(g.side, yx.1))
  }

  /** The correction for negative coordinates makes the truncating division
      a floor division: the metatile holds the coordinate. */
  lemma MetatileIsFloor(side: int, c: int)
    requires side > 0
    ensures Metatile(side, c) == c / side
    ensures Metatile(side, c) * side <= c < (Metatile(side, c) + 1) * side
  {
    if c < 0 {
      var a := -(c + 1);
      var q, r := a / side, a % side;
      assert a == side * q + r;
      assert c == side * (-q - 1) + (side - r - 1);
      DivModUnique(c, side, -q - 1, side - r - 1);
    }
  }

  /** A position is its metatile's origin plus its original cell. */
  lemma Decompose(g: InfiniteGrid, yx: Pos)
    requires g.side > 0
    ensures yx.0 == MetatileCoords(g, yx).0 * g.side + OriginalCoords(g, yx).0
    ensures yx.1 == MetatileCoords(g, yx).1 * g.side + OriginalCoords(g, yx).1
  {
    MetatileIsFloor(g.side, yx.0);
    MetatileIsFloor(g.side, yx.1);
  }

  /** `Index`: whether a position holds a rock. */
  function Index(g: InfiniteGrid, yx: Pos): bool
    requires Valid(g)
  {
    var (r, c) := OriginalCoords(g, yx);
    g.contents[r][c]
  }

  /** Moving by whole metatiles lands on the same cell. */
  lemma IndexPeriodic(g: InfiniteGrid, yx: Pos, my: int, mx: int)
    requires Valid(g)
    ensures Index(g, (yx.0 + my * g.side, yx.1 + mx * g.side)) == Index(g, yx)
  {
    var s := g.side;
    DivModUnique(yx.0 + my * s, s, yx.0 / s + my, yx.0 % s);
    DivModUnique(yx.1 + mx * s, s, yx.1 / s + mx, yx.1 % s);
  }

  // ------------------------------------------------------------- the walks

  /** Not a rock: the grid is indexed by (y, x). */
  predicate Open(g: InfiniteGrid, p: Pos)
    requires Valid(g)
  {
    !Index(g, (p.1, p.0))
  }

  predicate Adjacent(p: Pos, q: Pos)
  {
    (p.1 == q.1 && (p.0 - q.0 == 1 || q.0 - p.0 == 1)) ||
    (p.0 == q.0 && (p.1 - q.1 == 1 || q.1 - p.1 == 1))
  }

  /** The four neighbours, in the order the search tries them. */
  function Around(p: Pos): (ns: seq<Pos>)
    ensures forall q :: q in ns <==> Adjacent(p, q)
  {
    [(p.0 - 1, p.1), (p.0 + 1, p.1), (p.0, p.1 - 1), (p.0, p.1 + 1)]
  }

  ghost predicate IsWalk(g: InfiniteGrid, start: Pos, w: seq<Pos>)
    requires Valid(g)
  {
    |w| >= 1 && w[0] == start &&
    forall i :: 0 < i < |w| ==> Open(g, w[i]) && Adjacent(w[i - 1], w[i])
  }

  function Last(w: seq<Pos>): Pos
    requires w != []
  {
    w[|w| - 1]
  }

  /** The positions the elf can stand on after exactly `total` steps: those
      reachable in at most `total` steps by a number of the same parity. */
  ghost predicate Reaches(g: InfiniteGrid, start: Pos, total: nat, p: Pos)
    requires Valid(g)
  {
    exists w :: IsWalk(g, start, w) && |w| - 1 <= total && (|w| - 1) % 2 == total % 2 && Last(w) == p
  }

  lemma WalkPrefix(g: InfiniteGrid, start: Pos, w: seq<Pos>)
    requires Valid(g) && IsWalk(g, start, w) && |w| > 1
    ensures IsWalk(g, start, w[..|w| - 1])
    ensures Open(g, Last(w)) && Adjacent(Last(w[..|w| - 1]), Last(w))
  {
    var v := w[..|w| - 1];
    assert forall i :: 0 <= i < |v| ==> v[i] == w[i];
  }

  lemma WalkSnoc(g: InfiniteGrid, start: Pos, w: seq<Pos>, n: Pos)
    requires Valid(g) && IsWalk(g, start, w) && Open(g, n) && Adjacent(Last(w), n)
    ensures IsWalk(g, start, w + [n]) && Last(w + [n]) == n
  {
    var v := w + [n];
    assert forall i :: 0 <= i < |w| ==> v[i] == w[i];
  }

  /** One step changes the parity of `x + y`. */
  lemma StepParity(p: Pos, q: Pos) returns (k: int)
    requires Adjacent(p, q)
    ensures p.0 + p.1 + q.0 + q.1 == 2 * k + 1
  {
    if p.1 == q.1 {
      k := p.1 + (if p.0 < q.0 then p.0 else q.0);
    } else {
      k := p.0 + (if p.1 < q.1 then p.1 else q.1);
    }
  }

  /** The length of a walk has the parity of the change of `x + y`: their sum is even. */
  lemma {:induction false} WalkParity(g: InfiniteGrid, start: Pos, w: seq<Pos>) returns (k: int)
    requires Valid(g) && IsWalk(g, start, w)
    ensures |w| - 1 + start.0 + start.1 + Last(w).0 + Last(w).1 == 2 * k
  {
    if |w| > 1 {
      var v := w[..|w| - 1];
      WalkPrefix(g, start, w);
      var kv := WalkParity(g, start, v);
      var ks := StepParity(Last(v), Last(w));
      k := kv + ks + 1 - (Last(v).0 + Last(v).1);
    } else {
      k := start.0 + start.1;
    }
  }

  /** The square of positions within `total` steps along each axis. */
  function Box(start: Pos, total: nat): set<Pos>
  {
    set x: int, y: int | start.0 - total <= x <= start.0 + total && start.1 - total <= y <= start.1 + total :: (x, y)
  }

  /** A walk stays within its length of the start along each axis. */
  lemma {:induction false} WalkBounded(g: InfiniteGrid, start: Pos, w: seq<Pos>)
    requires Valid(g) && IsWalk(g, start, w)
    ensures start.0 - (|w| - 1) <= Last(w).0 <= start.0 + (|w| - 1)
    ensures start.1 - (|w| - 1) <= Last(w).1 <= start.1 + (|w| - 1)
  {
    if |w| > 1 {
      WalkPrefix(g, start, w);
      WalkBounded(g, start, w[..|w| - 1]);
    }
  }

  lemma WalkInBox(g: InfiniteGrid, start: Pos, total: nat, w: seq<Pos>)
    requires Valid(g) && IsWalk(g, start, w) && |w| - 1 <= total
    ensures Last(w) in Box(start, total)
  {
    WalkBounded(g, start, w);
    var p := Last(w);
    assert p == (p.0, p.1);
  }

  // ------------------------------------------------------------- the queue

  /** A bucket queue: entries of a position and the steps taken to it. */
  type Queue = seq<(Pos, nat)>

  /** `min_priority`: the fewest steps of any entry. */
  function MinPriority(q: Queue): (m: nat)
    requires q != []
    ensures forall i :: 0 <= i < |q| ==> m <= q[i].1
    ensures exists i :: 0 <= i < |q| && q[i].1 == m
  {
    if |q| == 1 then q[0].1
    else
      var m := MinPriority(q[1..]);
      assert forall i :: 1 <= i < |q| ==> q[i] == q[1..][i - 1];
      if q[0].1 < m then q[0].1 else m
  }

  /** `pop`: the entry of that priority queued last. */
  function LastAt(q: Queue, priority: nat): (i: nat)
    requires exists i :: 0 <= i < |q| && q[i].1 == priority
    ensures i < |q| && q[i].1 == priority
  {
    if q[|q| - 1].1 == priority then |q| - 1
    else
      assert forall i :: 0 <= i < |q| - 1 ==> q[..|q| - 1][i] == q[i];
      LastAt(q[..|q| - 1], priority)
  }

  function Remove<T>(s: seq<T>, i: nat): (r: seq<T>)
    requires i < |s|
    ensures |r| == |s| - 1
    ensures forall k :: 0 <= k < |r| ==> r[k] == if k < i then s[k] else s[k + 1]
  {
    s[..i] + s[i + 1..]
  }

  // ----------------------------------------------------- the search invariant

  /** Each position with a distance has a walk of that many steps. */
  ghost predicate DistSound(g: InfiniteGrid, start: Pos, total: nat, dist: map<Pos, nat>, paths: map<Pos, seq<Pos>>)
    requires Valid(g)
  {
    paths.Keys == dist.Keys && dist.Keys <= Box(start, total) &&
    forall n :: n in dist ==> dist[n] <= total && IsWalk(g, start, paths[n]) && |paths[n]| == dist[n] + 1 && Last(paths[n]) == n
  }

  /** The queue holds unvisited positions at their distance, one entry each,
      every one at the current layer or the next. */
  ghost predicate QueueExact(q: Queue, dist: map<Pos, nat>, visited: set<Pos>, cur: nat)
  {
    (forall i :: 0 <= i < |q| ==> q[i].0 in dist && dist[q[i].0] == q[i].1 && q[i].0 !in visited && cur <= q[i].1 <= cur + 1) &&
    (forall i, j :: 0 <= i < j < |q| ==> q[i].0 != q[j].0)
  }

  /** Each position with a distance is visited or waits in the queue. */
  ghost predicate Pending(q: Queue, dist: map<Pos, nat>, visited: set<Pos>)
  {
    forall n :: n in dist ==> n in visited || (n, dist[n]) in q
  }

  /** Visited positions are no further than the current layer. */
  ghost predicate Settled(dist: map<Pos, nat>, visited: set<Pos>, cur: nat)
  {
    visited <= dist.Keys && forall p :: p in visited ==> p in dist && dist[p] <= cur
  }

  /** The open neighbours of the positions of `done` with steps to spare
      are at most one step further. */
  ghost predicate Closed(g: InfiniteGrid, total: nat, dist: map<Pos, nat>, done: set<Pos>)
    requires Valid(g)
  {
    forall p, n :: p in done && p in dist && dist[p] < total && Open(g, n) && Adjacent(p, n) ==>
      n in dist && dist[n] <= dist[p] + 1
  }

  ghost predicate Searching(g: InfiniteGrid, start: Pos, total: nat, q: Queue, dist: map<Pos, nat>,
                            visited: set<Pos>, paths: map<Pos, seq<Pos>>, cur: nat, done: set<Pos>)
    requires Valid(g)
  {
    DistSound(g, start, total, dist, paths) && start in dist && dist[start] == 0 &&
    QueueExact(q, dist, visited, cur) && Pending(q, dist, visited) && Settled(dist, visited, cur) &&
    Closed(g, total, dist, done)
  }

  /** The marks, once each: the visited positions at the parity of `total`. */
  ghost predicate Marked(marks: seq<Pos>, dist: map<Pos, nat>, visited: set<Pos>, total: nat)
  {
    (forall i, j :: 0 <= i < j < |marks| ==> marks[i] != marks[j]) &&
    forall p :: p in marks <==> p in visited && p in dist && dist[p] % 2 == total % 2
  }

  // --------------------------------------------------------- one iteration

  /** Popping the last entry of the fewest steps visits its position. */
  lemma PopKeeps(g: InfiniteGrid, start: Pos, total: nat, q: Queue, dist: map<Pos, nat>,
                 visited: set<Pos>, paths: map<Pos, seq<Pos>>, cur: nat, marks: seq<Pos>, i: nat)
    requires Valid(g) && Searching(g, start, total, q, dist, visited, paths, cur, visited)
    requires Marked(marks, dist, visited, total)
    requires i < |q| && q[i].1 == MinPriority(q)
    ensures Searching(g, start, total, Remove(q, i), dist, visited + {q[i].0}, paths, q[i].1, visited)
    ensures q[i].0 !in visited && dist[q[i].0] == q[i].1
    ensures Marked(if q[i].1 % 2 == total % 2 then marks + [q[i].0] else marks, dist, visited + {q[i].0}, total)
  {
    PopQueue(q, dist, visited, cur, i);
    PopMarked(marks, dist, visited, total, q[i].0);
  }

  lemma PopQueue(q: Queue, dist: map<Pos, nat>, visited: set<Pos>, cur: nat, i: nat)
    requires QueueExact(q, dist, visited, cur) && Pending(q, dist, visited) && Settled(dist, visited, cur)
    requires i < |q| && q[i].1 == MinPriority(q)
    ensures QueueExact(Remove(q, i), dist, visited + {q[i].0}, q[i].1)
    ensures Pending(Remove(q, i), dist, visited + {q[i].0})
    ensures Settled(dist, visited + {q[i].0}, q[i].1)
  {
    PopEntries(q, dist, visited, cur, i);
    PopDistinct(q, i);
    PopPending(q, dist, visited, i);
  }

  lemma PopEntries(q: Queue, dist: map<Pos, nat>, visited: set<Pos>, cur: nat, i: nat)
    requires QueueExact(q, dist, visited, cur) && i < |q| && q[i].1 == MinPriority(q)
    ensures forall k :: 0 <= k < |q| - 1 ==> var e := Remove(q, i)[k];
      e.0 in dist && dist[e.0] == e.1 && e.0 !in visited + {q[i].0} && q[i].1 <= e.1 <= q[i].1 + 1
  {
    forall k | 0 <= k < |q| - 1 ensures var e := Remove(q, i)[k];
      e.0 in dist && dist[e.0] == e.1 && e.0 !in visited + {q[i].0} && q[i].1 <= e.1 <= q[i].1 + 1
    {
      PopEntry(q, dist, visited, cur, i, k);
    }
  }

  /** An entry other than the popped one stays at the current layer or the next. */
  lemma PopEntry(q: Queue, dist: map<Pos, nat>, visited: set<Pos>, cur: nat, i: nat, k: nat)
    requires QueueExact(q, dist, visited, cur) && i < |q| && k < |q| - 1 && q[i].1 == MinPriority(q)
    ensures var e := Remove(q, i)[k];
      e.0 in dist && dist[e.0] == e.1 && e.0 !in visited + {q[i].0} && q[i].1 <= e.1 <= q[i].1 + 1
  {
    var j := if k < i then k else k + 1;
    var e, p := q[j], q[i];
    assert Remove(q, i)[k] == e;
    assert e.0 != p.0 by {
      if i < j {
        assert q[i].0 != q[j].0;
      } else {
        assert q[j].0 != q[i].0;
      }
    }
    assert e.0 in dist && dist[e.0] == e.1 && e.0 !in visited && cur <= e.1 <= cur + 1;
    assert cur <= p.1 <= e.1;
    LayerEntry(e, p, dist, visited, cur);
  }

  lemma LayerEntry(e: (Pos, nat), p: (Pos, nat), dist: map<Pos, nat>, visited: set<Pos>, cur: nat)
    requires e.0 in dist && dist[e.0] == e.1 && e.0 !in visited && cur <= e.1 <= cur + 1
    requires cur <= p.1 <= e.1 && e.0 != p.0
    ensures e.0 in dist && dist[e.0] == e.1 && e.0 !in visited + {p.0} && p.1 <= e.1 <= p.1 + 1
  {
  }

  lemma PopDistinct(q: Queue, i: nat)
    requires i < |q| && forall a, b :: 0 <= a < b < |q| ==> q[a].0 != q[b].0
    ensures forall a, b :: 0 <= a < b < |q| - 1 ==> Remove(q, i)[a].0 != Remove(q, i)[b].0
  {
    forall a, b | 0 <= a < b < |q| - 1 ensures Remove(q, i)[a].0 != Remove(q, i)[b].0 {
      var a' := if a < i then a else a + 1;
      var b' := if b < i then b else b + 1;
      assert Remove(q, i)[a] == q[a'] && Remove(q, i)[b] == q[b'] && a' < b';
    }
  }

  lemma PopPending(q: Queue, dist: map<Pos, nat>, visited: set<Pos>, i: nat)
    requires Pending(q, dist, visited) && i < |q|
    ensures Pending(Remove(q, i), dist, visited + {q[i].0})
  {
    var r := Remove(q, i);
    forall n | n in dist && n !in visited + {q[i].0} ensures (n, dist[n]) in r {
      var k :| 0 <= k < |q| && q[k] == (n, dist[n]);
      if k < i {
        assert r[k] == q[k];
      } else {
        assert r[k - 1] == q[k];
      }
    }
  }

  lemma PopMarked(marks: seq<Pos>, dist: map<Pos, nat>, visited: set<Pos>, total: nat, p: Pos)
    requires Marked(marks, dist, visited, total) && p !in visited && p in dist
    ensures Marked(if dist[p] % 2 == total % 2 then marks + [p] else marks, dist, visited + {p}, total)
  {
  }

  /** Trying one neighbour keeps the invariant, leaves the known distances
      alone, and settles the neighbour when it is open. */
  lemma RelaxKeeps(g: InfiniteGrid, start: Pos, total: nat, q: Queue, dist: map<Pos, nat>,
                   visited: set<Pos>, paths: map<Pos, seq<Pos>>, p: Pos, s: nat, next: Pos)
    requires Valid(g) && Searching(g, start, total, q, dist, visited, paths, s, visited - {p})
    requires p in visited && dist[p] == s && s < total && Adjacent(p, next)
    ensures Improves(g, visited, dist, next, s) ==> (next !in dist &&
      Searching(g, start, total, q + [(next, s + 1)], dist[next := s + 1], visited, paths[next := paths[p] + [next]], s, visited - {p}))
    ensures Open(g, next) && !Improves(g, visited, dist, next, s) ==> next in dist && dist[next] <= s + 1
  {
    if next in dist && next !in visited {
      assert (next, dist[next]) in q;
    }
    if Improves(g, visited, dist, next, s) {
      assert next !in dist;
      PushSound(g, start, total, dist, paths, p, s, next);
      PushQueue(q, dist, visited, s, next);
      PushClosed(g, total, dist, visited - {p}, s, next);
    }
  }

  lemma PushSound(g: InfiniteGrid, start: Pos, total: nat, dist: map<Pos, nat>, paths: map<Pos, seq<Pos>>, p: Pos, s: nat, next: Pos)
    requires Valid(g) && DistSound(g, start, total, dist, paths) && p in dist && dist[p] == s && s < total
    requires Open(g, next) && Adjacent(p, next)
    ensures DistSound(g, start, total, dist[next := s + 1], paths[next := paths[p] + [next]])
  {
    WalkSnoc(g, start, paths[p], next);
    WalkInBox(g, start, total, paths[p] + [next]);
  }

  lemma PushQueue(q: Queue, dist: map<Pos, nat>, visited: set<Pos>, s: nat, next: Pos)
    requires QueueExact(q, dist, visited, s) && Pending(q, dist, visited) && Settled(dist, visited, s)
    requires next !in dist && next !in visited
    ensures QueueExact(q + [(next, s + 1)], dist[next := s + 1], visited, s)
    ensures Pending(q + [(next, s + 1)], dist[next := s + 1], visited)
    ensures Settled(dist[next := s + 1], visited, s)
  {
    var q' := q + [(next, s + 1)];
    assert forall i :: 0 <= i < |q| ==> q'[i] == q[i];
    assert q'[|q|] == (next, s + 1);
  }

  lemma PushClosed(g: InfiniteGrid, total: nat, dist: map<Pos, nat>, done: set<Pos>, s: nat, next: Pos)
    requires Valid(g) && Closed(g, total, dist, done) && next !in dist && done <= dist.Keys
    ensures Closed(g, total, dist[next := s + 1], done)
  {
  }

  /** The source's test for queueing a neighbour: open, unvisited, and
      improving on its known distance. */
  predicate Improves(g: InfiniteGrid, visited: set<Pos>, dist: map<Pos, nat>, next: Pos, s: nat)
    requires Valid(g)
  {
    Open(g, next) && next !in visited && (next !in dist || dist[next] > s + 1)
  }

  /** The open ones among the first `k` neighbours are at most one step further. */
  ghost predicate Tried(g: InfiniteGrid, ns: seq<Pos>, k: nat, dist: map<Pos, nat>, s: nat)
    requires Valid(g) && k <= |ns|
  {
    forall j :: 0 <= j < k ==> Open(g, ns[j]) ==> ns[j] in dist && dist[ns[j]] <= s + 1
  }

  /** The distances known before stay as they were. */
  ghost predicate Grown(dist0: map<Pos, nat>, dist: map<Pos, nat>)
  {
    forall n :: n in dist0 ==> n in dist && dist[n] == dist0[n]
  }

  /** The state while the neighbours of `p`, popped at `s` steps, are tried. */
  ghost predicate Relaxing(g: InfiniteGrid, start: Pos, total: nat, q: Queue, dist: map<Pos, nat>, visited: set<Pos>,
                           paths: map<Pos, seq<Pos>>, marks: seq<Pos>, p: Pos, s: nat, dist0: map<Pos, nat>, size0: nat, k: nat)
  {
    Valid(g) && Searching(g, start, total, q, dist, visited, paths, s, visited - {p}) && Marked(marks, dist, visited, total) &&
    p in visited && p in dist && dist[p] == s && s < total && k <= 4 &&
    Tried(g, Around(p), k, dist, s) && Grown(dist0, dist) &&
    ((dist.Keys == dist0.Keys && |q| == size0) || dist0.Keys < dist.Keys)
  }

  /** Trying the `k`th neighbour keeps the state. */
  lemma RelaxStep(g: InfiniteGrid, start: Pos, total: nat, q: Queue, dist: map<Pos, nat>, visited: set<Pos>,
                  paths: map<Pos, seq<Pos>>, marks: seq<Pos>, p: Pos, s: nat, dist0: map<Pos, nat>, size0: nat, k: nat)
    requires Relaxing(g, start, total, q, dist, visited, paths, marks, p, s, dist0, size0, k) && k < 4
    ensures Improves(g, visited, dist, Around(p)[k], s) ==>
        Relaxing(g, start, total, q + [(Around(p)[k], s + 1)], dist[Around(p)[k] := s + 1], visited,
                 paths[Around(p)[k] := paths[p] + [Around(p)[k]]], marks, p, s, dist0, size0, k + 1)
    ensures !Improves(g, visited, dist, Around(p)[k], s) ==>
        Relaxing(g, start, total, q, dist, visited, paths, marks, p, s, dist0, size0, k + 1)
  {
    var next := Around(p)[k];
    assert Adjacent(p, next);
    RelaxKeeps(g, start, total, q, dist, visited, paths, p, s, next);
    if Improves(g, visited, dist, next, s) {
      RelaxPush(g, dist, visited, marks, p, s, dist0, k, total);
    }
  }

  lemma RelaxPush(g: InfiniteGrid, dist: map<Pos, nat>, visited: set<Pos>, marks: seq<Pos>, p: Pos, s: nat,
                  dist0: map<Pos, nat>, k: nat, total: nat)
    requires Valid(g) && k < 4 && Around(p)[k] !in dist && Around(p)[k] !in visited && Open(g, Around(p)[k])
    requires Marked(marks, dist, visited, total) && Tried(g, Around(p), k, dist, s) && Grown(dist0, dist)
    requires dist0.Keys <= dist.Keys
    ensures var dist' := dist[Around(p)[k] := s + 1];
      Marked(marks, dist', visited, total) && Tried(g, Around(p), k + 1, dist', s) && Grown(dist0, dist') && dist0.Keys < dist'.Keys
  {
  }

  /** The state before the first neighbour, right after the pop. */
  lemma RelaxStart(g: InfiniteGrid, start: Pos, total: nat, q: Queue, dist: map<Pos, nat>, visited: set<Pos>,
                   paths: map<Pos, seq<Pos>>, marks: seq<Pos>, p: Pos, s: nat)
    requires Valid(g) && Searching(g, start, total, q, dist, visited + {p}, paths, s, visited)
    requires Marked(marks, dist, visited + {p}, total)
    requires p !in visited && p in dist && dist[p] == s && s < total
    ensures Relaxing(g, start, total, q, dist, visited + {p}, paths, marks, p, s, dist, |q|, 0)
  {
    assert (visited + {p}) - {p} == visited;
  }

  /** After the last neighbour the popped position is closed. */
  lemma RelaxEnd(g: InfiniteGrid, start: Pos, total: nat, q: Queue, dist: map<Pos, nat>, visited: set<Pos>,
                 paths: map<Pos, seq<Pos>>, marks: seq<Pos>, p: Pos, s: nat, dist0: map<Pos, nat>, size0: nat)
    requires Relaxing(g, start, total, q, dist, visited, paths, marks, p, s, dist0, size0, 4)
    ensures Searching(g, start, total, q, dist, visited, paths, s, visited)
    ensures Marked(marks, dist, visited, total)
    ensures (dist.Keys == dist0.Keys && |q| == size0) || dist0.Keys < dist.Keys
  {
    CloseAt(g, total, dist, visited, p);
  }

  /** Once every neighbour was tried, the popped position is closed too. */
  lemma CloseAt(g: InfiniteGrid, total: nat, dist: map<Pos, nat>, visited: set<Pos>, p: Pos)
    requires Valid(g) && Closed(g, total, dist, visited - {p}) && p in visited
    requires forall k :: 0 <= k < 4 ==> Open(g, Around(p)[k]) ==> Around(p)[k] in dist && p in dist && dist[Around(p)[k]] <= dist[p] + 1
    ensures Closed(g, total, dist, visited)
  {
    forall x, n | x in visited && x in dist && dist[x] < total && Open(g, n) && Adjacent(x, n)
      ensures n in dist && dist[n] <= dist[x] + 1
    {
      if x == p {
        var k :| 0 <= k < 4 && Around(p)[k] == n;
      }
    }
  }

  lemma Shrinks(box: set<Pos>, a: set<Pos>, b: set<Pos>)
    requires a < b && b <= box
    ensures |box - b| < |box - a|
  {
    var x :| x in b && x !in a;
    assert box - a == (box - b) + (b - a);
    assert (box - b) * (b - a) == {};
    assert x in b - a;
  }

  // ------------------------------------------------------------- the search

  /** `dijkstra`: visit positions by the fewest steps first, mark each one
      whose steps have the parity of `total`, and, below `total` steps,
      queue each open unvisited neighbour whose known distance improves.
      The marks are exactly the positions the elf can stand on after
      `total` steps, each marked once; the start is given as (x, y). */
  method Dijkstra(g: InfiniteGrid, start: (nat, nat), total: nat) returns (marks: seq<Pos>)
    requires Valid(g)
    ensures forall i, j :: 0 <= i < j < |marks| ==> marks[i] != marks[j]
    ensures forall p :: p in marks <==> Reaches(g, (start.0, start.1), total, p)
  {
    var origin: Pos := (start.0, start.1);
    var q: Queue := [(origin, 0)];
    var dist: map<Pos, nat> := map[origin := 0];
    var visited: set<Pos> := {};
    ghost var paths: map<Pos, seq<Pos>> := map[origin := [origin]];
    ghost var cur: nat := 0;
    marks := [];
    Starting(g, origin, total);
    while q != []
      invariant Searching(g, origin, total, q, dist, visited, paths, cur, visited)
      invariant Marked(marks, dist, visited, total)
      decreases |Box(origin, total) - dist.Keys|, |q|
    {
      var steps := MinPriority(q);
      var i := LastAt(q, steps);
      var (x, y) := q[i].0;
      PopKeeps(g, origin, total, q, dist, visited, paths, cur, marks, i);
      ghost var before := visited;
      q := Remove(q, i);
      visited := visited + {(x, y)};
      cur := steps;
      if steps % 2 == total % 2 {
        marks := marks + [(x, y)];
      }
      if steps == total {
        NothingToClose(g, origin, total, q, dist, before, paths, cur, (x, y));
        continue;
      }
      ghost var dist0 := dist;
      ghost var size0 := |q|;
      q, dist, paths := RelaxNeighbours(g, origin, total, q, dist, visited, before, paths, marks, (x, y), steps);
      if dist0.Keys < dist.Keys {
        Shrinks(Box(origin, total), dist0.Keys, dist.Keys);
      }
    }
    Finished(g, origin, total, dist, visited, paths, marks);
  }

  /** The neighbours of `p`, popped at `s` steps, in order: each open,
      unvisited one whose known distance improves gets distance `s + 1` and
      a queue entry. */
  method RelaxNeighbours(g: InfiniteGrid, ghost start: Pos, ghost total: nat, q0: Queue, dist0: map<Pos, nat>,
                         visited: set<Pos>, ghost before: set<Pos>, ghost paths0: map<Pos, seq<Pos>>, ghost marks: seq<Pos>,
                         p: Pos, steps: nat)
    returns (q: Queue, dist: map<Pos, nat>, ghost paths: map<Pos, seq<Pos>>)
    requires visited == before + {p}
    requires Valid(g) && Searching(g, start, total, q0, dist0, visited, paths0, steps, before)
    requires Marked(marks, dist0, visited, total)
    requires p !in before && p in dist0 && dist0[p] == steps && steps < total
    ensures Searching(g, start, total, q, dist, visited, paths, steps, visited)
    ensures Marked(marks, dist, visited, total)
    ensures (dist.Keys == dist0.Keys && |q| == |q0|) || dist0.Keys < dist.Keys
  {
    q, dist, paths := q0, dist0, paths0;
    var neighbors := Around(p);
    RelaxStart(g, start, total, q, dist, before, paths, marks, p, steps);
    for k := 0 to 4
      invariant Relaxing(g, start, total, q, dist, visited, paths, marks, p, steps, dist0, |q0|, k)
    {
      var next := neighbors[k];
      RelaxStep(g, start, total, q, dist, visited, paths, marks, p, steps, dist0, |q0|, k);
      if !Index(g, (next.1, next.0)) && next !in visited {
        var alt := steps + 1;
        if next !in dist || dist[next] > alt {
          dist := dist[next := alt];
          q := q + [(next, alt)];
          paths := paths[next := paths[p] + [next]];
        }
      }
    }
    RelaxEnd(g, start, total, q, dist, visited, paths, marks, p, steps, dist0, |q0|);
  }

  lemma Starting(g: InfiniteGrid, origin: Pos, total: nat)
    requires Valid(g)
    ensures Searching(g, origin, total, [(origin, 0)], map[origin := 0], {}, map[origin := [origin]], 0, {})
    ensures Marked([], map[origin := 0], {}, total)
  {
    assert IsWalk(g, origin, [origin]);
    WalkInBox(g, origin, total, [origin]);
  }

  /** A position popped at `total` steps has no neighbour to close. */
  lemma NothingToClose(g: InfiniteGrid, start: Pos, total: nat, q: Queue, dist: map<Pos, nat>,
                       visited: set<Pos>, paths: map<Pos, seq<Pos>>, cur: nat, p: Pos)
    requires Valid(g) && Searching(g, start, total, q, dist, visited + {p}, paths, cur, visited)
    requires p in dist && dist[p] == total
    ensures Searching(g, start, total, q, dist, visited + {p}, paths, cur, visited + {p})
  {
  }

  /** A walk of at most `total` steps ends at a visited position no further
      than the walk. */
  lemma {:induction false} Covered(g: InfiniteGrid, start: Pos, total: nat, dist: map<Pos, nat>, visited: set<Pos>, w: seq<Pos>)
    requires Valid(g) && Closed(g, total, dist, visited) && visited == dist.Keys
    requires start in dist && dist[start] == 0
    requires IsWalk(g, start, w) && |w| - 1 <= total
    ensures Last(w) in dist && dist[Last(w)] <= |w| - 1
  {
    if |w| > 1 {
      var v := w[..|w| - 1];
      WalkPrefix(g, start, w);
      Covered(g, start, total, dist, visited, v);
    }
  }

  /** Two numbers that make even sums with the same `c` have the same parity. */
  lemma SameParity(a: int, ka: int, b: int, kb: int, c: int)
    requires a + c == 2 * ka && b + c == 2 * kb
    ensures a % 2 == b % 2
  {
    assert a == b + 2 * (ka - kb);
  }

  /** With the queue empty, the marks are the positions reachable at the
      parity of `total`. */
  lemma Finished(g: InfiniteGrid, start: Pos, total: nat, dist: map<Pos, nat>, visited: set<Pos>,
                 paths: map<Pos, seq<Pos>>, marks: seq<Pos>)
    requires Valid(g)
    requires exists cur :: Searching(g, start, total, [], dist, visited, paths, cur, visited)
    requires Marked(marks, dist, visited, total)
    ensures forall p :: p in marks <==> Reaches(g, start, total, p)
  {
    var cur :| Searching(g, start, total, [], dist, visited, paths, cur, visited);
    assert visited == dist.Keys;
    forall p | p in marks ensures Reaches(g, start, total, p) {
      assert |paths[p]| - 1 == dist[p];
    }
    forall p | Reaches(g, start, total, p) ensures p in marks {
      var w :| IsWalk(g, start, w) && |w| - 1 <= total && (|w| - 1) % 2 == total % 2 && Last(w) == p;
      Covered(g, start, total, dist, visited, w);
      var ka := WalkParity(g, start, w);
      var kb := WalkParity(g, start, paths[p]);
      SameParity(|w| - 1, ka, dist[p], kb, start.0 + start.1 + p.0 + p.1);
    }
  }

  // ------------------------------------------------------------ the counting

  /** The values `f` takes on `s`. */
  ghost function Image<A(!new), B>(s: set<A>, f: A --> B): set<B>
    requires forall a :: f.requires(a)
  {
    set a | a in s :: f(a)
  }

  /** The elements of `s` on which `f` is `b`. */
  ghost function Fibre<A(!new), B>(s: set<A>, f: A --> B, b: B): set<A>
    requires forall a :: f.requires(a)
  {
    set a | a in s && f(a) == b
  }

  /** The elements of `s` grouped by `f`: each value of `f` and how many elements have it. */
  ghost function Group<A(!new), B>(s: set<A>, f: A --> B): map<B, nat>
    requires forall a :: f.requires(a)
  {
    map b | b in Image(s, f) :: |Fibre(s, f, b)|
  }

  /** Adding a new element adds one to its group. */
  lemma GroupAdd<A(!new), B>(s: set<A>, f: A --> B, a: A)
    requires forall x :: f.requires(x)
    requires a !in s
    ensures Group(s + {a}, f) == Group(s, f)[f(a) := (if f(a) in Group(s, f) then Group(s, f)[f(a)] else 0) + 1]
  {
    var before := Group(s, f);
    var after := Group(s + {a}, f);
    var expected := before[f(a) := (if f(a) in before then before[f(a)] else 0) + 1];
    ImageAdd(s, f, a);
    forall b | b in after ensures after[b] == expected[b] {
      GroupAt(s, f, a, b);
    }
    assert after.Keys == expected.Keys;
  }

  lemma ImageAdd<A(!new), B>(s: set<A>, f: A --> B, a: A)
    requires forall x :: f.requires(x)
    ensures Image(s + {a}, f) == Image(s, f) + {f(a)}
  {
  }

  /** The count of one group after adding `a`. */
  lemma GroupAt<A(!new), B>(s: set<A>, f: A --> B, a: A, b: B)
    requires forall x :: f.requires(x)
    requires a !in s && b in Image(s + {a}, f) && Image(s + {a}, f) == Image(s, f) + {f(a)}
    ensures Group(s + {a}, f)[b] == Group(s, f)[f(a) := (if f(a) in Group(s, f) then Group(s, f)[f(a)] else 0) + 1][b]
  {
    FibreAdd(s, f, a, b);
    if b == f(a) && f(a) !in Image(s, f) {
      assert Fibre(s, f, b) == {};
    }
  }

  lemma FibreAdd<A(!new), B>(s: set<A>, f: A --> B, a: A, b: B)
    requires forall x :: f.requires(x)
    requires a !in s
    ensures Fibre(s + {a}, f, b) == if f(a) == b then Fibre(s, f, b) + {a} else Fibre(s, f, b)
    ensures a !in Fibre(s, f, b)
  {
  }

  function Elems(s: seq<Pos>): set<Pos>
  {
    set p | p in s
  }

  /** The metatile of a marked position `(x, y)`. */
  function MetaOf(g: InfiniteGrid): Pos --> Pos
  {
    (p: Pos) requires g.side > 0 => MetatileCoords(g, (p.1, p.0))
  }

  /** The count of a metatile. */
  function CountOf(counts: map<Pos, nat>): Pos -> nat
  {
    (m: Pos) => if m in counts then counts[m] else 0
  }

  /** `reachable_by_metatile`: how many marks each metatile holds. The marks
      are distinct, so these are the sizes of the groups of the marked set. */
  method TallyMetatiles(g: InfiniteGrid, marks: seq<Pos>) returns (counts: map<Pos, nat>)
    requires Valid(g)
    requires forall i, j :: 0 <= i < j < |marks| ==> marks[i] != marks[j]
    ensures counts == Group(Elems(marks), MetaOf(g))
  {
    counts := map[];
    for k := 0 to |marks|
      invariant counts == Group(Elems(marks[..k]), MetaOf(g))
    {
      var (x, y) := marks[k];
      var m := MetatileCoords(g, (y, x));
      assert marks[k] !in Elems(marks[..k]);
      GroupAdd(Elems(marks[..k]), MetaOf(g), marks[k]);
      assert (Elems(marks[..k + 1])) == (Elems(marks[..k])) + {marks[k]};
      counts := counts[m := (if m in counts then counts[m] else 0) + 1];
    }
    assert marks[..|marks|] == marks;
  }

  /** `freq`: for each count, how many metatiles have it. The metatiles are
      taken in any order. */
  method Frequencies(counts: map<Pos, nat>) returns (freq: map<nat, nat>)
    ensures freq == Group(counts.Keys, CountOf(counts))
  {
    freq := map[];
    var keys := counts.Keys;
    while keys != {}
      invariant keys <= counts.Keys
      invariant freq == Group(counts.Keys - keys, CountOf(counts))
      decreases |keys|
    {
      var m :| m in keys;
      var v := counts[m];
      GroupAdd(counts.Keys - keys, CountOf(counts), m);
      assert (counts.Keys - keys) + {m} == counts.Keys - (keys - {m});
      freq := freq[v := (if v in freq then freq[v] else 0) + 1];
      keys := keys - {m};
    }
    assert counts.Keys - keys == counts.Keys;
  }

  /** The weight of a count by how many metatiles share it, with `n` the
      number of whole garden widths walked; a subtraction below zero and an
      unexpected multiplicity panic. */
  function Weight(multiplicity: nat, n: nat): (r: Result<nat>)
    ensures r.Err? ==> r.reason == PANIC
    ensures r.Ok? <==> multiplicity in {1, 3, 9} || (multiplicity in {2, 4} && n > 0)
  {
    match multiplicity
    case 3 => Ok(n)
    case 2 => if n == 0 then Err(PANIC) else Ok(n - 1)
    case 1 => Ok(1)
    case 4 => if n == 0 then Err(PANIC) else Ok((n - 1) * (n - 1))
    case 9 => Ok(n * n)
    case _ => Err(PANIC)
  }

  /** One term of the sum: the count times its weight. */
  function Term(count: nat, multiplicity: nat, n: nat): Result<nat>
  {
    match Weight(multiplicity, n)
    case Ok(w) => Ok(count * w)
    case Err(e) => Err(e)
  }

  /** Adding two terms; a panic in either panics. */
  function Combine(a: Result<nat>, b: Result<nat>): (r: Result<nat>)
    ensures r.Ok? <==> a.Ok? && b.Ok?
    ensures r.Ok? ==> r.value == a.value + b.value
  {
    if a.Ok? && b.Ok? then Ok(a.value + b.value) else Err(PANIC)
  }

  /** Terms can be added in either order. */
  lemma CombineSwap(a: Result<nat>, b: Result<nat>, c: Result<nat>)
    ensures Combine(a, Combine(b, c)) == Combine(b, Combine(a, c))
  {
  }

  /** The sum of the terms of the counts in `keys`, in one fixed order. */
  ghost function Total(freq: map<nat, nat>, keys: set<nat>, n: nat): Result<nat>
    requires keys <= freq.Keys
    decreases keys
  {
    if keys == {} then Ok(0)
    else
      var k :| k in keys;
      Combine(Term(k, freq[k], n), Total(freq, keys - {k}, n))
  }

  /** The sum does not depend on the order: any count can be taken first. */
  lemma {:induction false} TotalAny(freq: map<nat, nat>, keys: set<nat>, n: nat, k: nat)
    requires keys <= freq.Keys && k in keys
    ensures Total(freq, keys, n) == Combine(Term(k, freq[k], n), Total(freq, keys - {k}, n))
    decreases keys
  {
    var j :| j in keys && Total(freq, keys, n) == Combine(Term(j, freq[j], n), Total(freq, keys - {j}, n));
    if j != k {
      TotalAny(freq, keys - {j}, n, k);
      TotalAny(freq, keys - {k}, n, j);
      assert keys - {j} - {k} == keys - {k} - {j};
      CombineSwap(Term(j, freq[j], n), Term(k, freq[k], n), Total(freq, keys - {j} - {k}, n));
    }
  }

  /** `solve`'s sum over the frequency table, in any order: the terms are
      added up and a panicking term panics. */
  method SumTerms(freq: map<nat, nat>, n: nat) returns (r: Result<nat>)
    ensures r == Total(freq, freq.Keys, n)
  {
    var sum: nat := 0;
    var keys := freq.Keys;
    while keys != {}
      invariant keys <= freq.Keys
      invariant Combine(Ok(sum), Total(freq, keys, n)) == Total(freq, freq.Keys, n)
      decreases |keys|
    {
      var k :| k in keys;
      TotalAny(freq, keys, n, k);
      var t := Term(k, freq[k], n);
      if t.Err? {
        return Err(PANIC);
      }
      sum := sum + t.value;
      keys := keys - {k};
    }
    return Ok(sum);
  }

  /** The positions reachable in exactly `steps` steps. */
  ghost function Reached(g: InfiniteGrid, start: (nat, nat), steps: nat): set<Pos>
    requires Valid(g)
  {
    set p | p in Box((start.0, start.1), steps) && Reaches(g, (start.0, start.1), steps, p)
  }

  lemma MarksAreReached(g: InfiniteGrid, start: (nat, nat), steps: nat, marks: seq<Pos>)
    requires Valid(g)
    requires forall p :: p in marks <==> Reaches(g, (start.0, start.1), steps, p)
    ensures Elems(marks) == Reached(g, start, steps)
  {
    forall p | Reaches(g, (start.0, start.1), steps, p) ensures p in Box((start.0, start.1), steps) {
      var w :| IsWalk(g, (start.0, start.1), w) && |w| - 1 <= steps && (|w| - 1) % 2 == steps % 2 && Last(w) == p;
      WalkInBox(g, (start.0, start.1), steps, w);
    }
  }

  /** The answer: the reachable plots after `3 * side + total % side` steps
      grouped by metatile, the metatiles grouped by count, and each count
      weighed by its multiplicity with `n = total / side`. */
  /** How far `part2::solve` searches: three grid sides plus the remainder of `total`. */
  function SearchSteps(side: int, total: nat): nat
    requires side > 0
  {
    3 * side + total % side
  }

  /** The weighted sum of the counts of `counts` grouped by multiplicity. */
  ghost function AnswerOf(counts: map<Pos, nat>, n: nat): Result<nat>
  {
    Total(Group(counts.Keys, CountOf(counts)), Group(counts.Keys, CountOf(counts)).Keys, n)
  }

  /** `part2::solve`: search `3 * side + total % side` steps, count the
      reachable plots of each metatile, and weigh each count by how many
      metatiles share it. */
  method Solve(g: InfiniteGrid, start: (nat, nat), total: nat) returns (r: Result<nat>)
    requires Valid(g)
    ensures r == AnswerOf(Group(Reached(g, start, SearchSteps(g.side, total)), MetaOf(g)), total / g.side)
  {
    var base := SearchSteps(g.side, total);
    var marks := Dijkstra(g, start, base);
    MarksAreReached(g, start, base, marks);
    var counts := TallyMetatiles(g, marks);
    var freq := Frequencies(counts);
    var n := total / g.side;
    r := SumTerms(freq, n);
    AnswerOfFreq(counts, freq, n);
  }

  lemma AnswerOfFreq(counts: map<Pos, nat>, freq: map<nat, nat>, n: nat)
    requires freq == Group(counts.Keys, CountOf(counts))
    ensures AnswerOf(counts, n) == Total(freq, freq.Keys, n)
  {
  }
}
