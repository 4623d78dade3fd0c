/** Day 23: A Long Walk, part 2. The slopes are read as paths (the caller
    replaces them by `.` first), so the map only has `.` and `#` and the
    graph is undirected: each edge shows up as a hop at both of its ends,
    a loop once. The grid, the search and the consolidation loop are those
    of part 1; what differs is the contraction, which adds one undirected
    edge, and the mask, a `u64`. */
module Day23Part2 {
  import opened Util
  import opened Day23Part1

  /** The visited set is a `u64` with one bit per node index. */
  const MASK_BITS_64: nat := 64

  /** A path's neighbours see it as a neighbour. */
  lemma StepBack(c: char, x: nat, y: nat, t: (nat, nat))
    requires c == '.' && t in Steps(c, x, y)
    ensures (x, y) in Steps('.', t.0, t.1)
  {
  }

  /** Every pair of neighbouring paths is linked both ways: the arcs laid
      from a map of paths and forest are symmetric. */
  lemma ArcsSymmetric(g: Grid, p: Node, q: Node)
    requires Shaped(g) && AllKnown(g.cells, false) && (p, q) in ArcsUpTo(g, |g.cells|)
    ensures (q, p) in ArcsUpTo(g, |g.cells|)
  {
    var j, t := ArcSource(g, |g.cells|, (p, q));
    var k := PathArc(g, j, t, (p, q));
    ArcLaid(g, |g.cells|, k, (j % g.cols, j / g.cols), (q, p));
  }

  /** The step from one path cell to an open neighbour can be taken back. */
  lemma PathArc(g: Grid, j: nat, t: (nat, nat), a: Arc) returns (k: nat)
    requires Shaped(g) && AllKnown(g.cells, false) && j < |g.cells| && Lays(g, j, t, a)
    ensures k < |g.cells| && Lays(g, k, (j % g.cols, j / g.cols), (a.1, a.0))
  {
    assert g.cells[j] == '.' by {
      assert g.cells[j] in g.cells;
    }
    StepBack(g.cells[j], j % g.cols, j / g.cols, t);
    k := OpenPlace(g, t);
    BackOpen(g, j);
  }

  /** A path cell is open. */
  lemma BackOpen(g: Grid, j: nat)
    requires Shaped(g) && j < |g.cells| && g.cells[j] == '.'
    ensures Open(g, (j % g.cols, j / g.cols))
  {
    var x, y := j % g.cols, j / g.cols;
    assert y * g.cols + x == j;
    assert y < Rows(g) by {
      if y >= Rows(g) {
        MulMonotone(Rows(g), y, g.cols);
      }
    }
    Place(g, x, y);
  }

  /** An open cell of a map of paths and forest is a path, at its flat index. */
  lemma OpenPlace(g: Grid, t: (nat, nat)) returns (k: nat)
    requires Shaped(g) && AllKnown(g.cells, false) && Open(g, t)
    ensures k < |g.cells| && g.cells[k] == '.' && k % g.cols == t.0 && k / g.cols == t.1
  {
    Place(g, t.0, t.1);
    k := t.1 * g.cols + t.0;
  }

  /** Each edge is a hop at both ends, as often at one as at the other. */
  ghost predicate Undirected(adj: Adj)
  {
    forall n, m, w :: n in adj && m in adj ==> Count(adj, n, (m, w)) == Count(adj, m, (n, w))
  }

  /** How often hop `h` occurs among the hops of `n`. */
  ghost function Count(adj: Adj, n: Node, h: Hop): nat
    requires n in adj
  {
    multiset(adj[n])[h]
  }

  lemma {:induction false} DistinctCount(hs: seq<Hop>, h: Hop)
    requires Distinct(hs)
    ensures multiset(hs)[h] == if h in hs then 1 else 0
  {
    if hs != [] {
      var n := |hs| - 1;
      assert hs == hs[..n] + [hs[n]];
      DistinctCount(hs[..n], h);
      assert hs[n] !in hs[..n];
    }
  }

  /** On a map of paths and forest every undirected edge is two arcs, so
      the edges `into_graph` indexes are half the arcs laid. */
  lemma GridLinks(g: Grid)
    requires Shaped(g) && AllKnown(g.cells, false)
    ensures 2 * EdgeCount(ArcsUpTo(g, |g.cells|), false) == |ArcsUpTo(g, |g.cells|)|
  {
    var arcs := ArcsUpTo(g, |g.cells|);
    forall a | a in arcs ensures (a.1, a.0) in arcs && a.0 != a.1 {
      ArcsSymmetric(g, a.0, a.1);
      ArcsLoopFree(g, |g.cells|, a);
    }
    LinksHalve(arcs);
  }

  /** The graph of symmetric arcs is undirected. */
  lemma GraphUndirected(arcs: set<Arc>, adj: Adj)
    requires GraphOf(arcs, adj)
    requires forall p, q :: (p, q) in arcs ==> (q, p) in arcs
    ensures Undirected(adj)
  {
    forall n, m, w | n in adj && m in adj ensures Count(adj, n, (m, w)) == Count(adj, m, (n, w)) {
      DistinctCount(adj[n], (m, w));
      DistinctCount(adj[m], (n, w));
    }
  }

  lemma {:induction false} DropCount(hs: seq<Hop>, c: Node, h: Hop)
    ensures multiset(Drop(hs, c))[h] == if h.0 == c then 0 else multiset(hs)[h]
  {
    if hs != [] {
      var n := |hs| - 1;
      assert hs == hs[..n] + [hs[n]];
      DropCount(hs[..n], c, h);
    }
  }

  /** The edge `a - b` of weight `w` added to the graph: a hop at each
      end, or a single hop when the edge is a loop. */
  function Link(adj: Adj, a: Node, b: Node, w: nat): (r: Adj)
    requires a in adj && b in adj
    ensures r.Keys == adj.Keys
    ensures Closed(adj) ==> Closed(r)
  {
    var once := adj[a := adj[a] + [(b, w)]];
    if a == b then once else once[b := once[b] + [(a, w)]]
  }

  /** One round of the consolidation loop at a node `c` with exactly two
      edges, to `a` and `b`: one edge `a - b` of the summed weight is added
      and `c` is removed. Either edge being a loop at `c` fails the
      `debug_assert_ne!`, and a sum overflowing `u16` panics. The `u16`
      edge-index limit of `add_edge` is not modelled. */
  function Contract2(adj: Adj, c: Node): (r: Result<Adj>)
    requires Closed(adj) && c in adj && |adj[c]| == 2
    ensures r.Ok? <==> adj[c][0].0 != c && adj[c][1].0 != c && adj[c][0].1 + adj[c][1].1 < U16
    ensures r.Ok? ==> Closed(r.value) && r.value.Keys == adj.Keys - {c}
    ensures r.Err? ==> r == Err(PANIC)
  {
    if adj[c][0].0 == c || adj[c][1].0 == c || adj[c][0].1 + adj[c][1].1 >= U16 then Err(PANIC)
    else
      assert adj[c][0] in adj[c] && adj[c][1] in adj[c];
      Ok(Bypass(adj, c, adj[c][0], adj[c][1]))
  }

  /** The graph with `c`, whose two edges are `from` and `to`, replaced by
      one edge between their far ends. */
  function Bypass(adj: Adj, c: Node, from: Hop, to: Hop): (r: Adj)
    requires from.0 in adj && to.0 in adj
    ensures r.Keys == adj.Keys - {c}
    ensures Closed(adj) ==> Closed(r)
  {
    Without(Link(adj, from.0, to.0, from.1 + to.1), c)
  }

  lemma Contract2IsRule()
    ensures Rule(Contract2)
  {
  }

  /** How often a hop occurs at a node once the edge is linked. */
  lemma LinkCount(adj: Adj, a: Node, b: Node, w: nat, n: Node, h: Hop)
    requires a in adj && b in adj && n in adj
    ensures multiset(Link(adj, a, b, w)[n])[h] == multiset(adj[n])[h]
      + (if n == a && h == (b, w) then 1 else 0) + (if a != b && n == b && h == (a, w) then 1 else 0)
  {
    var once := adj[a := adj[a] + [(b, w)]];
    if a == b {
      if n == a {
        assert once[n] == adj[n] + [(b, w)];
      }
    } else if n == a {
      assert Link(adj, a, b, w)[n] == adj[n] + [(b, w)];
    } else if n == b {
      assert Link(adj, a, b, w)[n] == adj[n] + [(a, w)];
    }
  }

  /** The linked graph is still undirected. */
  lemma LinkUndirected(adj: Adj, a: Node, b: Node, w: nat)
    requires Undirected(adj) && a in adj && b in adj
    ensures Undirected(Link(adj, a, b, w))
  {
    var linked := Link(adj, a, b, w);
    forall n, m, v | n in linked && m in linked ensures Count(linked, n, (m, v)) == Count(linked, m, (n, v)) {
      LinkCount(adj, a, b, w, n, (m, v));
      LinkCount(adj, a, b, w, m, (n, v));
      assert Count(adj, n, (m, v)) == Count(adj, m, (n, v));
    }
  }

  /** Removing a node keeps the graph undirected. */
  lemma WithoutUndirected(adj: Adj, c: Node)
    requires Undirected(adj)
    ensures Undirected(Without(adj, c))
  {
    var r := Without(adj, c);
    forall n, m, w | n in r && m in r ensures Count(r, n, (m, w)) == Count(r, m, (n, w)) {
      DropCount(adj[n], c, (m, w));
      DropCount(adj[m], c, (n, w));
      assert Count(adj, n, (m, w)) == Count(adj, m, (n, w));
    }
  }

  /** The contraction keeps the graph undirected. */
  lemma Contract2Undirected(adj: Adj, c: Node)
    requires Closed(adj) && Undirected(adj) && c in adj && |adj[c]| == 2 && Contract2(adj, c).Ok?
    ensures Undirected(Contract2(adj, c).value)
  {
    assert adj[c][0] in adj[c] && adj[c][1] in adj[c];
    BypassUndirected(adj, c, adj[c][0], adj[c][1]);
  }

  /** Bypassing a node keeps the graph undirected. */
  lemma BypassUndirected(adj: Adj, c: Node, from: Hop, to: Hop)
    requires Undirected(adj) && from.0 in adj && to.0 in adj
    ensures Undirected(Bypass(adj, c, from, to))
  {
    var a, b, w := from.0, to.0, from.1 + to.1;
    Relinked(adj, a, b, w, c);
    BypassIs(adj, c, from, to, a, b, w);
  }

  /** `Bypass` spelled out with the far ends and the summed weight. */
  lemma BypassIs(adj: Adj, c: Node, from: Hop, to: Hop, a: Node, b: Node, w: nat)
    requires from.0 in adj && to.0 in adj && a == from.0 && b == to.0 && w == from.1 + to.1
    ensures Bypass(adj, c, from, to) == Without(Link(adj, a, b, w), c)
  {
  }

  /** Adding an edge and then removing a node keeps the graph undirected. */
  lemma Relinked(adj: Adj, a: Node, b: Node, w: nat, c: Node)
    requires Undirected(adj) && a in adj && b in adj
    ensures Undirected(Without(Link(adj, a, b, w), c))
  {
    LinkUndirected(adj, a, b, w);
    WithoutUndirected(Link(adj, a, b, w), c);
  }

  /** The whole consolidation loop keeps the graph undirected. */
  lemma {:induction false} ConsolidatesUndirected(adj: Adj, steps: seq<Node>, g: Adj)
    requires Closed(adj) && Undirected(adj) && Consolidates(Contract2, adj, steps, Ok(g))
    ensures Undirected(g)
    decreases steps
  {
    Contract2IsRule();
    if steps != [] {
      Contract2Undirected(adj, steps[0]);
      ConsolidatesUndirected(Contract2(adj, steps[0]).value, steps[1..], g);
    }
  }

  /** A failed run of contractions fails with the one failure `Contract2`
      has. */
  lemma {:induction false} Consolidates2Panics(adj: Adj, steps: seq<Node>, r: Result<Adj>)
    requires Closed(adj) && Consolidates(Contract2, adj, steps, r) && r.Err?
    ensures r == Err(PANIC)
    decreases steps
  {
    Contract2IsRule();
    if steps != [] {
      var next := Contract2(adj, steps[0]);
      if next.Ok? {
        Consolidates2Panics(next.value, steps[1..], r);
      }
    }
  }

  /** The end of `solve`: consolidate the undirected graph, then search it
      from the start to the goal when both are still nodes and the `u64`
      mask has a bit for every node. */
  method Finish2(adj: Adj, s: Node, t: Node) returns (r: Result<nat>, ghost steps: seq<Node>, ghost final: Adj)
    requires Closed(adj) && Undirected(adj)
    ensures Consolidates(Contract2, adj, steps, Ok(final)) || (Consolidates(Contract2, adj, steps, Err(PANIC)) && r == Err(PANIC))
    ensures Consolidates(Contract2, adj, steps, Ok(final)) ==> Closed(final) && Final(final) && Undirected(final)
    ensures Consolidates(Contract2, adj, steps, Ok(final)) ==>
      r == if s in final && t in final && |final.Keys| <= MASK_BITS_64 then Search(final, s, t, 0, {}) else Err(PANIC)
  {
    final := map[];
    var consolidated;
    Contract2IsRule();
    consolidated, steps := Consolidate(Contract2, adj);
    if consolidated.Err? {
      Consolidates2Panics(adj, steps, consolidated);
      return Err(PANIC), steps, final;
    }
    var h := consolidated.value;
    final := h;
    ConsolidatesShrinks(Contract2, adj, steps, h);
    ConsolidatesUndirected(adj, steps, h);
    if s !in h || t !in h || |h.Keys| > MASK_BITS_64 {
      return Err(PANIC), steps, final;
    }
    r := Search(h, s, t, 0, {});
  }

  /** `solve` on the map with slopes read as paths. */
  method Solve(input: string) returns (r: Result<nat>, ghost graph: Adj, ghost steps: seq<Node>, ghost final: Adj, ghost start: Node, ghost goal: Node)
    ensures ReadGrid(input).Err? ==> r.Err?
    ensures ReadGrid(input).Ok? && !AllKnown(ReadGrid(input).value.0.cells, false) ==> r.Err?
    ensures ReadGrid(input).Ok? ==>
      var (g, height) := ReadGrid(input).value;
      DotMark(g, |g.cells|, 0).None? || GoalMark(g, |g.cells|, height).None? ==> r.Err?
    ensures ReadGrid(input).Ok? ==>
      var (g, height) := ReadGrid(input).value;
      AllKnown(g.cells, false) && DotMark(g, |g.cells|, 0).Some? && GoalMark(g, |g.cells|, height).Some? ==>
        if Indexable(ArcsUpTo(g, |g.cells|), false) then Closed(graph) && Undirected(graph) && Charted(g, height, false, graph, start, goal)
        else r == Err(PANIC)
    ensures ReadGrid(input).Ok? && Closed(graph) && Charted(ReadGrid(input).value.0, ReadGrid(input).value.1, false, graph, start, goal) ==>
      Consolidates(Contract2, graph, steps, Ok(final)) || (Consolidates(Contract2, graph, steps, Err(PANIC)) && r == Err(PANIC))
    ensures Closed(graph) && Consolidates(Contract2, graph, steps, Ok(final)) ==> Closed(final) && Final(final) && Undirected(final)
    ensures Closed(graph) && Consolidates(Contract2, graph, steps, Ok(final)) ==>
      r == if start in final && goal in final && |final.Keys| <= MASK_BITS_64 then Search(final, start, goal, 0, {}) else Err(PANIC)
    ensures r.Ok? ==> ReadGrid(input).Ok? && Closed(graph) && Undirected(graph)
    ensures r.Ok? ==> Charted(ReadGrid(input).value.0, ReadGrid(input).value.1, false, graph, start, goal)
    ensures r.Ok? ==> Indexable(ArcsUpTo(ReadGrid(input).value.0, |ReadGrid(input).value.0.cells|), false)
    ensures r.Ok? ==> Consolidates(Contract2, graph, steps, Ok(final)) && Closed(final) && Undirected(final)
    ensures r.Ok? ==> start in final && goal in final && |final.Keys| <= MASK_BITS_64
    ensures r.Ok? ==> Search(final, start, goal, 0, {}) == Ok(r.value)
  {
    graph, steps, final, start, goal := map[], [], map[], (0, 0), (0, 0);
    var read := ReadGrid(input);
    if read.Err? {
      return Err(PANIC), graph, steps, final, start, goal;
    }
    var (g, height) := read.value;
    var laid := LayArcs(g, height, false);
    if laid.Err? || laid.value.start.None? || laid.value.goal.None? {
      return Err(PANIC), graph, steps, final, start, goal;
    }
    var s, t := laid.value.start.value, laid.value.goal.value;
    var indexed := IntoGraph(laid.value.arcs, false);
    if indexed.Err? {
      return Err(PANIC), graph, steps, final, start, goal;
    }
    var adj := indexed.value;
    start, goal, graph := s, t, adj;
    forall p, q | (p, q) in laid.value.arcs ensures (q, p) in laid.value.arcs {
      ArcsSymmetric(g, p, q);
    }
    GraphUndirected(laid.value.arcs, adj);
    r, steps, final := Finish2(adj, s, t);
  }
}
