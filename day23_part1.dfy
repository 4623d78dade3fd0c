/** Day 23: A Long Walk, part 1. The map is a grid of `.` paths, `#`
    forest and slopes `>`, `v`, `<`, `^`. Every open cell becomes a node
    labelled by its `(u8, u8)` coordinates, with an arc of weight 1 to each
    cell it may step to; corridors are then contracted into single weighted
    arcs, and a depth-first search over simple paths gives the longest walk
    from the start (top row) to the goal (bottom row).

    The directed graph is kept as an adjacency map: each node to the list of
    its out-arcs as (target, weight) hops. The order of the lists and of the
    nodes plays no part in the answer, which is a maximum, so the node order
    petgraph keeps (and reshuffles on `remove_node`) is left abstract. */
module Day23Part1 {
  import opened Util

  const PANIC: string := "panic"

  /** Distances and weights are `u16`; a sum reaching this overflows. */
  const U16: nat := 0x1_0000

  /** The visited set is a `u128` with one bit per node index. */
  const MASK_BITS: nat := 128

  /** A node label: the cell's `(x as u8, y as u8)`. */
  type Node = (nat, nat)

  function Label(x: nat, y: nat): Node
  {
    (x % 256, y % 256)
  }

  // ---------------------------------------------------------------- grid

  /** `grid::Grid::from_vec(bytes, width)`: the cells row after row. */
  datatype Grid = Grid(cells: string, cols: nat)

  /** `from_vec` panics unless the cells fill whole rows. */
  predicate Shaped(g: Grid)
  {
    g.cols > 0 && |g.cells| % g.cols == 0
  }

  function Rows(g: Grid): nat
    requires Shaped(g)
  {
    |g.cells| / g.cols
  }

  /** Row `y`, column `x` sits at flat index `y * cols + x`, and nowhere else. */
  lemma Place(g: Grid, x: nat, y: nat)
    requires Shaped(g) && x < g.cols && y < Rows(g)
    ensures y * g.cols + x < |g.cells|
    ensures (y * g.cols + x) % g.cols == x && (y * g.cols + x) / g.cols == y
  {
    assert |g.cells| == Rows(g) * g.cols;
    MulMonotone(y + 1, Rows(g), g.cols);
    DivModUnique(y * g.cols + x, g.cols, y, x);
  }

  lemma Whole(g: Grid)
    requires Shaped(g)
    ensures |g.cells| == Rows(g) * g.cols
  {
  }

  /** `grid.get(y, x)`. */
  function Get(g: Grid, x: nat, y: nat): Option<char>
    requires Shaped(g)
  {
    if x < g.cols && y < Rows(g) then
      Place(g, x, y);
      Some(g.cells[y * g.cols + x])
    else None
  }

  /** A cell an arc may lead to: inside the grid and not forest. */
  predicate Open(g: Grid, t: (nat, nat))
    requires Shaped(g)
  {
    Get(g, t.0, t.1).Some? && Get(g, t.0, t.1).value != '#'
  }

  /** The input's bytes without ASCII whitespace. */
  function NonBlank(s: string): (r: string)
    ensures forall i :: 0 <= i < |r| ==> !IsAsciiWhitespace(r[i])
    ensures |r| <= |s|
  {
    if s == [] then []
    else if IsAsciiWhitespace(s[|s| - 1]) then NonBlank(s[..|s| - 1])
    else NonBlank(s[..|s| - 1]) + [s[|s| - 1]]
  }

  /** The width is the first line's length and the height the number of
      lines; a missing first line panics, and so does `from_vec` on cells
      that do not fill whole rows. (A zero width with no cells gives an
      empty grid in the source, which then panics for want of a start.) */
  function ReadGrid(input: string): (r: Result<(Grid, nat)>)
    ensures r.Ok? <==> Lines(input) != [] && Shaped(Grid(NonBlank(input), |Lines(input)[0]|))
    ensures r.Ok? ==> r.value == (Grid(NonBlank(input), |Lines(input)[0]|), |Lines(input)|) && r.value.1 > 0
  {
    var lines := Lines(input);
    if lines == [] then Err(PANIC)
    else
      var g := Grid(NonBlank(input), |lines[0]|);
      if Shaped(g) then Ok((g, |lines|)) else Err(PANIC)
  }

  // ---------------------------------------------------------------- arcs

  /** The bytes the source knows; any other one panics. Part 1 knows
      the slopes, part 2 only paths and forest. */
  predicate Known(c: char, slopes: bool)
  {
    c == '.' || c == '#' || (slopes && (c == '>' || c == 'v' || c == '<' || c == '^'))
  }

  predicate AllKnown(cells: string, slopes: bool)
  {
    forall k :: 0 <= k < |cells| ==> Known(cells[k], slopes)
  }

  /** The cells a byte at `(x, y)` may step to, before the grid is looked
      at: a path steps four ways (up and left only when not at the edge),
      `>` right, `v` down, and both `<` and `^` up. */
  function Steps(c: char, x: nat, y: nat): seq<(nat, nat)>
  {
    match c
    case '.' => (if y > 0 then [(x, y - 1)] else []) + (if x > 0 then [(x - 1, y)] else []) + [(x + 1, y), (x, y + 1)]
    case '>' => [(x + 1, y)]
    case 'v' => [(x, y + 1)]
    case '<' => if y > 0 then [(x, y - 1)] else []
    case '^' => if y > 0 then [(x, y - 1)] else []
    case _ => []
  }

  type Arc = (Node, Node)

  /** The arcs laid from the cell at flat index `k`. */
  function CellArcs(g: Grid, k: nat): set<Arc>
    requires Shaped(g) && k < |g.cells|
  {
    var x, y := k % g.cols, k / g.cols;
    set t | t in Steps(g.cells[k], x, y) && Open(g, t) :: (Label(x, y), Label(t.0, t.1))
  }

  /** The arcs laid from the first `k` cells. `DiGraphMap::add_edge` keeps
      one arc per pair of labels. */
  function ArcsUpTo(g: Grid, k: nat): set<Arc>
    requires Shaped(g) && k <= |g.cells|
  {
    if k == 0 then {} else ArcsUpTo(g, k - 1) + CellArcs(g, k - 1)
  }

  /** Cell `j` may step to the open cell `t`, which lays arc `a`. */
  predicate Lays(g: Grid, j: nat, t: (nat, nat), a: Arc)
    requires Shaped(g) && j < |g.cells|
  {
    t in Steps(g.cells[j], j % g.cols, j / g.cols) && Open(g, t) && a == (Label(j % g.cols, j / g.cols), Label(t.0, t.1))
  }

  /** An arc is laid exactly when some cell may step to an open cell. */
  lemma ArcsRule(g: Grid, k: nat, a: Arc)
    requires Shaped(g) && k <= |g.cells|
    ensures a in ArcsUpTo(g, k) <==> exists j, t :: 0 <= j < k && Lays(g, j, t, a)
  {
    if a in ArcsUpTo(g, k) {
      var j, t := ArcSource(g, k, a);
    } else if exists j, t :: 0 <= j < k && Lays(g, j, t, a) {
      var j, t :| 0 <= j < k && Lays(g, j, t, a);
      ArcLaid(g, k, j, t, a);
    }
  }

  /** The cell and step an arc comes from. */
  lemma {:induction false} ArcSource(g: Grid, k: nat, a: Arc) returns (j: nat, t: (nat, nat))
    requires Shaped(g) && k <= |g.cells| && a in ArcsUpTo(g, k)
    ensures j < k && Lays(g, j, t, a)
  {
    assert k != 0;
    var last := k - 1;
    if a in CellArcs(g, last) {
      j := last;
      t := CellSource(g, j, a);
    } else {
      EarlierArc(g, k, a);
      j, t := ArcSource(g, last, a);
    }
  }

  /** No arc is a loop: a step moves one cell along one axis, and the
      neighbouring coordinates stay distinct as `u8`. */
  lemma ArcsLoopFree(g: Grid, k: nat, a: Arc)
    requires Shaped(g) && k <= |g.cells| && a in ArcsUpTo(g, k)
    ensures a.0 != a.1
  {
    var j, t := ArcSource(g, k, a);
    LaysMoves(g, j, t, a);
  }

  /** The arc a step lays joins two labels. */
  lemma LaysMoves(g: Grid, j: nat, t: (nat, nat), a: Arc)
    requires Shaped(g) && j < |g.cells| && Lays(g, j, t, a)
    ensures a.0 != a.1
  {
    StepMoves(g.cells[j], j % g.cols, j / g.cols, t);
  }

  /** A step lands on a cell with another label. */
  lemma StepMoves(c: char, x: nat, y: nat, t: (nat, nat))
    requires t in Steps(c, x, y)
    ensures Label(x, y) != Label(t.0, t.1)
  {
    if t.0 == x {
      var lo := if t.1 < y then t.1 else y;
      Apart(lo);
    } else {
      var lo := if t.0 < x then t.0 else x;
      Apart(lo);
    }
  }

  /** Neighbouring coordinates differ as `u8`. */
  lemma Apart(n: nat)
    ensures n % 256 != (n + 1) % 256
  {
  }

  /** An arc not laid by the last cell was laid before it. */
  lemma EarlierArc(g: Grid, k: nat, a: Arc)
    requires Shaped(g) && 0 < k <= |g.cells| && a in ArcsUpTo(g, k) && a !in CellArcs(g, k - 1)
    ensures a in ArcsUpTo(g, k - 1)
  {
  }

  /** The step an arc of one cell comes from. */
  lemma CellSource(g: Grid, k: nat, a: Arc) returns (t: (nat, nat))
    requires Shaped(g) && k < |g.cells| && a in CellArcs(g, k)
    ensures Lays(g, k, t, a)
  {
    var x, y := k % g.cols, k / g.cols;
    t :| t in Steps(g.cells[k], x, y) && Open(g, t) && a == (Label(x, y), Label(t.0, t.1));
  }

  /** A step from a cell to an open cell lays its arc. */
  lemma {:induction false} ArcLaid(g: Grid, k: nat, j: nat, t: (nat, nat), a: Arc)
    requires Shaped(g) && j < k <= |g.cells| && Lays(g, j, t, a)
    ensures a in ArcsUpTo(g, k)
  {
    if j < k - 1 {
      ArcLaid(g, k - 1, j, t, a);
      LaterArc(g, k, a);
    } else {
      CellLays(g, j, t, a);
    }
  }

  /** The arcs laid before the last cell stay laid. */
  lemma LaterArc(g: Grid, k: nat, a: Arc)
    requires Shaped(g) && 0 < k <= |g.cells| && a in ArcsUpTo(g, k - 1)
    ensures a in ArcsUpTo(g, k)
  {
  }

  /** A step from a cell to an open cell is one of the cell's arcs. */
  lemma CellLays(g: Grid, j: nat, t: (nat, nat), a: Arc)
    requires Shaped(g) && j < |g.cells| && Lays(g, j, t, a)
    ensures a in CellArcs(g, j) && a in ArcsUpTo(g, j + 1)
  {
  }

  /** The flat index of the last `.` among the first `k` cells that lies in
      row `row`. */
  function LastDot(g: Grid, k: nat, row: nat): (r: Option<nat>)
    requires Shaped(g) && k <= |g.cells|
    ensures r.Some? ==> r.value < k && g.cells[r.value] == '.' && r.value / g.cols == row
    ensures r.Some? ==> forall j :: r.value < j < k && j / g.cols == row ==> g.cells[j] != '.'
    ensures r.None? ==> forall j :: 0 <= j < k && j / g.cols == row ==> g.cells[j] != '.'
  {
    if k == 0 then None
    else if g.cells[k - 1] == '.' && (k - 1) / g.cols == row then Some(k - 1)
    else LastDot(g, k - 1, row)
  }

  /** The label of that cell: the start when `row` is 0. */
  function DotMark(g: Grid, k: nat, row: nat): Option<Node>
    requires Shaped(g) && k <= |g.cells|
  {
    match LastDot(g, k, row)
    case None => None
    case Some(j) => Some(Label(j % g.cols, row))
  }

  /** The goal: a `.` in the last line, unless that is also the first. */
  function GoalMark(g: Grid, k: nat, height: nat): Option<Node>
    requires Shaped(g) && k <= |g.cells| && height > 0
  {
    if height == 1 then None else DotMark(g, k, height - 1)
  }

  datatype Laid = Laid(arcs: set<Arc>, start: Option<Node>, goal: Option<Node>)

  /** The first `k` cells are known and laid. */
  predicate LaidUpTo(g: Grid, height: nat, slopes: bool, k: nat, laid: Laid)
    requires Shaped(g) && height > 0 && k <= |g.cells|
  {
    (forall j :: 0 <= j < k ==> Known(g.cells[j], slopes)) &&
    laid == Laid(ArcsUpTo(g, k), DotMark(g, k, 0), GoalMark(g, k, height))
  }

  /** The `add_edge` calls for one cell. */
  method AddArcs(g: Grid, x: nat, y: nat, steps: seq<(nat, nat)>, arcs: set<Arc>) returns (more: set<Arc>)
    requires Shaped(g)
    ensures more == arcs + set t | t in steps && Open(g, t) :: (Label(x, y), Label(t.0, t.1))
  {
    more := arcs;
    for i := 0 to |steps|
      invariant more == arcs + set t | t in steps[..i] && Open(g, t) :: (Label(x, y), Label(t.0, t.1))
    {
      if Open(g, steps[i]) {
        more := more + {(Label(x, y), Label(steps[i].0, steps[i].1))};
      }
      assert steps[..i + 1] == steps[..i] + [steps[i]];
    }
    assert steps[..|steps|] == steps;
  }

  /** One cell of the loop: a known byte lays its arcs and a `.` in the
      first (last) line becomes the start (goal); an unknown byte panics. */
  method LayCell(g: Grid, height: nat, slopes: bool, x: nat, y: nat, laid: Laid) returns (r: Result<Laid>)
    requires Shaped(g) && height > 0 && x < g.cols && y < Rows(g)
    requires y * g.cols + x < |g.cells| && LaidUpTo(g, height, slopes, y * g.cols + x, laid)
    ensures r.Ok? <==> Known(g.cells[y * g.cols + x], slopes)
    ensures r.Ok? ==> LaidUpTo(g, height, slopes, y * g.cols + x + 1, r.value)
    ensures r.Err? ==> !AllKnown(g.cells, slopes)
  {
    var k := y * g.cols + x;
    Place(g, x, y);
    var c := g.cells[k];
    if !Known(c, slopes) {
      assert !Known(g.cells[k], slopes);
      return Err(PANIC);
    }
    var start, goal := laid.start, laid.goal;
    if c == '.' {
      if y == 0 {
        start := Some(Label(x, y));
      } else if y == height - 1 {
        goal := Some(Label(x, y));
      }
    }
    var arcs := AddArcs(g, x, y, Steps(c, x, y), laid.arcs);
    ArcsStep(g, k, x, y);
    MarksStep(g, height, x, y);
    r := Ok(Laid(arcs, start, goal));
  }

  /** The arcs of the cell at row `y`, column `x` join those laid before it. */
  lemma ArcsStep(g: Grid, k: nat, x: nat, y: nat)
    requires Shaped(g) && x < g.cols && y < Rows(g) && k == y * g.cols + x && k < |g.cells|
    ensures ArcsUpTo(g, k + 1) ==
      ArcsUpTo(g, k) + set t | t in Steps(g.cells[k], x, y) && Open(g, t) :: (Label(x, y), Label(t.0, t.1))
  {
    Place(g, x, y);
    assert k % g.cols == x && k / g.cols == y;
  }

  /** A `.` at row `y`, column `x` is the start when `y` is the first row
      and the goal when it is the last of several; otherwise the marks stay. */
  lemma MarksStep(g: Grid, height: nat, x: nat, y: nat)
    requires Shaped(g) && height > 0 && x < g.cols && y < Rows(g) && y * g.cols + x < |g.cells|
    ensures var k := y * g.cols + x;
      DotMark(g, k + 1, 0) == if g.cells[k] == '.' && y == 0 then Some(Label(x, y)) else DotMark(g, k, 0)
    ensures var k := y * g.cols + x;
      GoalMark(g, k + 1, height) ==
        if g.cells[k] == '.' && y != 0 && y == height - 1 then Some(Label(x, y)) else GoalMark(g, k, height)
  {
    Place(g, x, y);
  }

  /** The cells of row `y`, in order; the row panics at its first unknown
      byte. */
  method LayRow(g: Grid, height: nat, slopes: bool, y: nat, laid: Laid) returns (r: Result<Laid>)
    requires Shaped(g) && height > 0 && y < Rows(g)
    requires y * g.cols <= |g.cells| && LaidUpTo(g, height, slopes, y * g.cols, laid)
    ensures y * g.cols + g.cols <= |g.cells|
    ensures r.Ok? ==> LaidUpTo(g, height, slopes, y * g.cols + g.cols, r.value)
    ensures r.Err? ==> !AllKnown(g.cells, slopes)
  {
    NextRow(g, y);
    var row := laid;
    for x := 0 to g.cols
      invariant LaidUpTo(g, height, slopes, y * g.cols + x, row)
    {
      Place(g, x, y);
      r := LayCell(g, height, slopes, x, y, row);
      if r.Err? {
        return;
      }
      row := r.value;
    }
    return Ok(row);
  }

  /** The source's loop over the rows and the cells of each row; it panics
      at the first unknown byte. */
  method LayArcs(g: Grid, height: nat, slopes: bool) returns (r: Result<Laid>)
    requires Shaped(g) && height > 0
    ensures r.Ok? <==> AllKnown(g.cells, slopes)
    ensures r.Ok? ==> r.value == Laid(ArcsUpTo(g, |g.cells|), DotMark(g, |g.cells|, 0), GoalMark(g, |g.cells|, height))
  {
    var laid := Laid({}, None, None);
    var rows := Rows(g);
    Whole(g);
    for y := 0 to rows
      invariant y * g.cols <= |g.cells|
      invariant LaidUpTo(g, height, slopes, y * g.cols, laid)
    {
      r := LayRow(g, height, slopes, y, laid);
      if r.Err? {
        return;
      }
      laid := r.value;
      NextRow(g, y);
    }
    return Ok(laid);
  }

  /** The cells of row `y` end where row `y + 1` begins. */
  lemma NextRow(g: Grid, y: nat)
    requires Shaped(g) && y < Rows(g)
    ensures y * g.cols + g.cols == (y + 1) * g.cols <= |g.cells|
  {
    Whole(g);
    MulMonotone(y + 1, Rows(g), g.cols);
  }

  // --------------------------------------------------------------- graph

  /** A hop: an out-arc's target and weight. */
  type Hop = (Node, nat)

  /** Each node with the list of its out-hops. */
  type Adj = map<Node, seq<Hop>>

  /** Every hop leads to a node of the graph. */
  predicate Closed(adj: Adj)
  {
    forall n, h :: n in adj && h in adj[n] ==> h.0 in adj
  }

  predicate Distinct<T(==)>(s: seq<T>)
  {
    forall i, j :: 0 <= i < j < |s| ==> s[i] != s[j]
  }

  /** The labels an arc touches. */
  function Ends(arcs: set<Arc>): set<Node>
  {
    (set a | a in arcs :: a.0) + (set a | a in arcs :: a.1)
  }

  /** `into_graph`: a node per label some arc touches and a hop of weight 1
      per arc, each once. */
  ghost predicate GraphOf(arcs: set<Arc>, adj: Adj)
  {
    adj.Keys == Ends(arcs) &&
    forall n :: n in adj ==> Distinct(adj[n]) && forall h :: h in adj[n] <==> h.1 == 1 && (n, h.0) in arcs
  }

  /** `NodeIndex::<u16>::end()`. petgraph's `add_node` and `add_edge`
      assert, in every build, that the index they hand out is not this one,
      so a `u16`-indexed graph holds at most 65535 nodes and 65535 edges. */
  const INDEX_END: nat := 0xFFFF

  /** The edges of `UnGraphMap`: one per unordered pair of ends. */
  function Links(arcs: set<Arc>): set<set<Node>>
  {
    set a | a in arcs :: {a.0, a.1}
  }

  /** The edges the graph map holds: one per arc when it is directed, one
      per unordered pair of ends when it is not. */
  function EdgeCount(arcs: set<Arc>, directed: bool): nat
  {
    if directed then |arcs| else |Links(arcs)|
  }

  /** Every node and every edge of the graph map gets a `u16` index. */
  predicate Indexable(arcs: set<Arc>, directed: bool)
  {
    |Ends(arcs)| <= INDEX_END && EdgeCount(arcs, directed) <= INDEX_END
  }

  /** `into_graph::<u16>`: `add_node` for each label, then `add_edge` for
      each edge of the map; either panics once its index would reach
      `INDEX_END`. Otherwise each arc becomes a hop of weight 1 (an
      undirected edge is a hop at both of its ends). */
  method IntoGraph(arcs: set<Arc>, directed: bool) returns (r: Result<Adj>)
    ensures r.Ok? <==> Indexable(arcs, directed)
    ensures r.Err? ==> r == Err(PANIC)
    ensures r.Ok? ==> GraphOf(arcs, r.value) && Closed(r.value)
  {
    if !Indexable(arcs, directed) {
      return Err(PANIC);
    }
    var adj := AddHops(arcs);
    return Ok(adj);
  }

  /** The `add_edge` loop of `into_graph`, once every index fits: a hop of
      weight 1 per arc, at the arc's first end. */
  method AddHops(arcs: set<Arc>) returns (adj: Adj)
    ensures GraphOf(arcs, adj) && Closed(adj)
  {
    adj := map n | n in Ends(arcs) :: [];
    var left := arcs;
    while left != {}
      invariant left <= arcs && adj.Keys == Ends(arcs)
      invariant forall n :: n in adj ==> Distinct(adj[n]) && forall h :: h in adj[n] <==> h.1 == 1 && (n, h.0) in arcs - left
      decreases left
    {
      var a :| a in left;
      assert a.0 in Ends(arcs);
      adj := adj[a.0 := adj[a.0] + [(a.1, 1)]];
      left := left - {a};
    }
    forall n, h | n in adj && h in adj[n] ensures h.0 in adj {
      assert (n, h.0) in arcs;
    }
  }

  /** Two arcs with the same pair of ends, neither a loop, are the same arc
      or each other's reverse. */
  lemma SameLink(a: Arc, c: Arc)
    requires a.0 != a.1 && {c.0, c.1} == {a.0, a.1}
    ensures c == a || c == (a.1, a.0)
  {
    assert c.0 in {a.0, a.1} && c.1 in {a.0, a.1};
    assert a.0 in {c.0, c.1} && a.1 in {c.0, c.1};
  }

  /** Arcs that come in reverse pairs and hold no loop make half as many
      undirected edges: each edge is two arcs. */
  lemma {:induction false} LinksHalve(arcs: set<Arc>)
    requires forall a :: a in arcs ==> (a.1, a.0) in arcs && a.0 != a.1
    ensures 2 * |Links(arcs)| == |arcs|
    decreases |arcs|
  {
    if arcs != {} {
      var a :| a in arcs;
      var rest := arcs - {a, (a.1, a.0)};
      forall c | c in rest ensures (c.1, c.0) in rest && c.0 != c.1 {
        assert (c.1, c.0) in arcs;
      }
      LinksHalve(rest);
      LinksSplit(arcs, a);
      assert |arcs| == |rest| + 2 by {
        assert arcs == rest + {a, (a.1, a.0)};
      }
    }
  }

  /** Taking an arc and its reverse out of the arcs takes exactly their
      edge out of the edges. */
  lemma LinksSplit(arcs: set<Arc>, a: Arc)
    requires a in arcs && a.0 != a.1 && (a.1, a.0) in arcs
    ensures var rest := arcs - {a, (a.1, a.0)};
      Links(arcs) == Links(rest) + {{a.0, a.1}} && {a.0, a.1} !in Links(rest)
  {
    var rest := arcs - {a, (a.1, a.0)};
    forall c | c in rest ensures {c.0, c.1} != {a.0, a.1} {
      if {c.0, c.1} == {a.0, a.1} {
        SameLink(a, c);
      }
    }
    assert {a.1, a.0} == {a.0, a.1};
  }

  // ----------------------------------------------------------- the search

  lemma MarkShrinks(keys: set<Node>, visited: set<Node>, cur: Node)
    requires cur in keys && cur !in visited
    ensures |keys - (visited + {cur})| + 1 == |keys - visited|
  {
    assert keys - visited == (keys - (visited + {cur})) + {cur};
  }

  /** `do_search`: the goal gives the distance walked so far; any other
      node is marked, and the result is the largest search over the hops to
      unmarked nodes, or 0 when there is none. `distance + weight`
      overflowing `u16` panics. */
  function Search(adj: Adj, cur: Node, goal: Node, dist: nat, visited: set<Node>): Result<nat>
    requires Closed(adj) && cur in adj && cur !in visited
    decreases |adj.Keys - visited|, 1, 0
  {
    if cur == goal then Ok(dist)
    else
      MarkShrinks(adj.Keys, visited, cur);
      SearchHops(adj, adj[cur], goal, dist, visited + {cur})
  }

  /** The `filter`, `map` and `max().unwrap_or(0)` over the hops `hs`. */
  function SearchHops(adj: Adj, hs: seq<Hop>, goal: Node, dist: nat, marked: set<Node>): Result<nat>
    requires Closed(adj) && forall h :: h in hs ==> h.0 in adj
    decreases |adj.Keys - marked| + 1, 0, |hs|
  {
    if hs == [] then Ok(0)
    else
      var h := hs[0];
      var rest := SearchHops(adj, hs[1..], goal, dist, marked);
      var here: Result<nat> :=
        if h.0 in marked then Ok(0)
        else if dist + h.1 >= U16 then Err(PANIC)
        else Search(adj, h.0, goal, dist + h.1, marked);
      if here.Err? || rest.Err? then Err(PANIC)
      else Ok(if here.value < rest.value then rest.value else here.value)
  }

  /** A walk the search may take: along hops, never to a node visited
      before, and ending at the first arrival at the goal. */
  ghost predicate Walk(adj: Adj, cur: Node, goal: Node, visited: set<Node>, p: seq<Hop>)
    decreases p
  {
    cur in adj && cur !in visited &&
    if p == [] then cur == goal
    else cur != goal && p[0] in adj[cur] && Walk(adj, p[0].0, goal, visited + {cur}, p[1..])
  }

  function Length(p: seq<Hop>): nat
  {
    if p == [] then 0 else p[0].1 + Length(p[1..])
  }

  lemma {:induction false} HopsCover(adj: Adj, hs: seq<Hop>, goal: Node, dist: nat, marked: set<Node>, h: Hop)
    requires Closed(adj) && forall h :: h in hs ==> h.0 in adj
    requires h in hs && h.0 !in marked && SearchHops(adj, hs, goal, dist, marked).Ok?
    ensures dist + h.1 < U16 && Search(adj, h.0, goal, dist + h.1, marked).Ok?
    ensures Search(adj, h.0, goal, dist + h.1, marked).value <= SearchHops(adj, hs, goal, dist, marked).value
    decreases |hs|
  {
    if hs[0] != h {
      HopsCover(adj, hs[1..], goal, dist, marked, h);
    }
  }

  /** No walk from `cur` to the goal is longer than what the search finds. */
  lemma {:induction false} SearchCoversWalks(adj: Adj, cur: Node, goal: Node, dist: nat, visited: set<Node>, p: seq<Hop>)
    requires Closed(adj) && cur in adj && cur !in visited
    requires Walk(adj, cur, goal, visited, p) && Search(adj, cur, goal, dist, visited).Ok?
    ensures dist + Length(p) <= Search(adj, cur, goal, dist, visited).value
    decreases p
  {
    if p != [] {
      var h := p[0];
      MarkShrinks(adj.Keys, visited, cur);
      HopsCover(adj, adj[cur], goal, dist, visited + {cur}, h);
      SearchCoversWalks(adj, h.0, goal, dist + h.1, visited + {cur}, p[1..]);
    }
  }

  lemma {:induction false} HopsAttained(adj: Adj, hs: seq<Hop>, goal: Node, dist: nat, marked: set<Node>) returns (h: Hop, q: seq<Hop>)
    requires Closed(adj) && forall h :: h in hs ==> h.0 in adj
    requires SearchHops(adj, hs, goal, dist, marked).Ok?
    ensures var v := SearchHops(adj, hs, goal, dist, marked).value;
      v == 0 || (h in hs && Walk(adj, h.0, goal, marked, q) && v == dist + h.1 + Length(q))
    decreases |adj.Keys - marked| + 1, 0, |hs|
  {
    h, q := (goal, 0), [];
    if hs != [] {
      var h0 := hs[0];
      var rest := SearchHops(adj, hs[1..], goal, dist, marked);
      if h0.0 !in marked && rest.value <= Search(adj, h0.0, goal, dist + h0.1, marked).value {
        q := SearchAttained(adj, h0.0, goal, dist + h0.1, marked);
        h := h0;
      } else {
        h, q := HopsAttained(adj, hs[1..], goal, dist, marked);
      }
    }
  }

  /** A non-zero result is the length of some walk to the goal. */
  lemma {:induction false} SearchAttained(adj: Adj, cur: Node, goal: Node, dist: nat, visited: set<Node>) returns (p: seq<Hop>)
    requires Closed(adj) && cur in adj && cur !in visited
    requires Search(adj, cur, goal, dist, visited).Ok?
    ensures var v := Search(adj, cur, goal, dist, visited).value;
      v == 0 || (Walk(adj, cur, goal, visited, p) && v == dist + Length(p))
    decreases |adj.Keys - visited|, 1, 0
  {
    p := [];
    if cur != goal {
      MarkShrinks(adj.Keys, visited, cur);
      var h, q := HopsAttained(adj, adj[cur], goal, dist, visited + {cur});
      p := [h] + q;
      assert p[1..] == q;
    }
  }

  /** The search finds the longest walk from the start to the goal (or 0
      when there is none): every walk is at most the result, and a non-zero
      result is attained by one. */
  lemma LongestWalk(adj: Adj, start: Node, goal: Node) returns (p: seq<Hop>)
    requires Closed(adj) && start in adj && Search(adj, start, goal, 0, {}).Ok?
    ensures forall q :: Walk(adj, start, goal, {}, q) ==> Length(q) <= Search(adj, start, goal, 0, {}).value
    ensures Search(adj, start, goal, 0, {}).value == 0 || (Walk(adj, start, goal, {}, p) && Length(p) == Search(adj, start, goal, 0, {}).value)
  {
    forall q | Walk(adj, start, goal, {}, q) ensures Length(q) <= Search(adj, start, goal, 0, {}).value {
      SearchCoversWalks(adj, start, goal, 0, {}, q);
    }
    p := SearchAttained(adj, start, goal, 0, {});
  }

  // ------------------------------------------------------- consolidation

  /** The hops of `hs` that do not lead to `c`. */
  function Drop(hs: seq<Hop>, c: Node): (r: seq<Hop>)
    ensures forall h :: h in r <==> h in hs && h.0 != c
    ensures |r| <= |hs|
  {
    if hs == [] then []
    else if hs[|hs| - 1].0 == c then Drop(hs[..|hs| - 1], c)
    else Drop(hs[..|hs| - 1], c) + [hs[|hs| - 1]]
  }

  /** `remove_node`: the node goes, and so do the arcs into it. */
  function Without(adj: Adj, c: Node): (r: Adj)
    ensures r.Keys == adj.Keys - {c}
    ensures Closed(adj) ==> Closed(r)
  {
    map n | n in adj && n != c :: Drop(adj[n], c)
  }

  /** One round of the consolidation loop at a node `c` with exactly two
      out-hops, to `a` and `b`: arcs `a -> b` and `b -> a` are added with
      the summed weight `w` and `c` is removed. Either hop leading back to
      `c` fails the `debug_assert_ne!`, and a sum overflowing `u16` panics.
      Every other node keeps its hops that avoid `c` and gains nothing.
      The `u16` edge-index limit of the two `add_edge` calls is not
      modelled: the graph's edges are not counted here. */
  function Contract(adj: Adj, c: Node): (r: Result<Adj>)
    requires Closed(adj) && c in adj && |adj[c]| == 2
    ensures r.Ok? <==> adj[c][0].0 != c && adj[c][1].0 != c && adj[c][0].1 + adj[c][1].1 < U16
    ensures r.Err? ==> r == Err(PANIC)
    ensures r.Ok? ==> Closed(r.value) && r.value.Keys == adj.Keys - {c}
  {
    var from, to := adj[c][0], adj[c][1];
    if from.0 == c || to.0 == c || from.1 + to.1 >= U16 then Err(PANIC)
    else
      var w, a, b := from.1 + to.1, from.0, to.0;
      var once := adj[a := adj[a] + [(b, w)]];
      var twice := once[b := once[b] + [(a, w)]];
      ArcsClosed(adj, a, b, w);
      Ok(Without(twice, c))
  }

  /** Adding arcs both ways between two nodes of a closed graph keeps it closed. */
  lemma ArcsClosed(adj: Adj, a: Node, b: Node, w: nat)
    requires Closed(adj) && a in adj && b in adj
    ensures var once := adj[a := adj[a] + [(b, w)]];
      Closed(once[b := once[b] + [(a, w)]]) && once[b := once[b] + [(a, w)]].Keys == adj.Keys
  {
    var once := adj[a := adj[a] + [(b, w)]];
    var twice := once[b := once[b] + [(a, w)]];
    forall n: Node, h: Hop | n in twice && h in twice[n] ensures h.0 in twice {
      if n != a && n != b {
        assert h in adj[n];
      } else if h !in adj[n] {
        assert h.0 == a || h.0 == b;
      }
    }
  }

  /** What one contraction changes: the hops of each remaining node. */
  lemma ContractHops(adj: Adj, c: Node, n: Node, h: Hop)
    requires Closed(adj) && c in adj && |adj[c]| == 2 && Contract(adj, c).Ok?
    requires n in Contract(adj, c).value
    ensures var a, b, w := adj[c][0].0, adj[c][1].0, adj[c][0].1 + adj[c][1].1;
      h in Contract(adj, c).value[n] <==>
        (h in adj[n] && h.0 != c) || (n == a && h == (b, w)) || (n == b && h == (a, w))
  {
  }

  /** A contraction rule: defined at every node with two out-hops, it
      removes exactly that node and keeps every hop inside the graph. */
  ghost predicate Rule(step: (Adj, Node) --> Result<Adj>)
  {
    forall a: Adj, c: Node :: Closed(a) && c in a && |a[c]| == 2 ==>
      step.requires(a, c) && (step(a, c).Ok? ==> Closed(step(a, c).value) && step(a, c).value.Keys == a.Keys - {c})
  }

  lemma ContractIsRule()
    ensures Rule(Contract)
  {
  }

  /** No node has exactly two out-hops: the loop's exit. */
  predicate Final(adj: Adj)
  {
    forall n :: n in adj ==> |adj[n]| != 2
  }

  /** Contracting the nodes of `done` in turn, each with two out-hops when
      its turn comes, leads from `adj` to `g`. */
  ghost predicate Reaches(step: (Adj, Node) --> Result<Adj>, adj: Adj, done: seq<Node>, g: Adj)
    requires Rule(step) && Closed(adj)
    decreases done
  {
    if done == [] then g == adj
    else
      var c := done[0];
      c in adj && |adj[c]| == 2 && step(adj, c).Ok? && Reaches(step, step(adj, c).value, done[1..], g)
  }

  /** The consolidation loop contracts the nodes of `steps` in turn and
      ends with `r`: a graph with no node of two out-hops, or a panic in
      the last round. */
  ghost predicate Consolidates(step: (Adj, Node) --> Result<Adj>, adj: Adj, steps: seq<Node>, r: Result<Adj>)
    requires Rule(step) && Closed(adj)
    decreases steps
  {
    if steps == [] then r == Ok(adj) && Final(adj)
    else
      var c := steps[0];
      c in adj && |adj[c]| == 2 &&
      match step(adj, c)
      case Err(e) => r == Err(e) && |steps| == 1
      case Ok(next) => Consolidates(step, next, steps[1..], r)
  }

  lemma {:induction false} ReachesStep(step: (Adj, Node) --> Result<Adj>, adj: Adj, done: seq<Node>, g: Adj, c: Node)
    requires Rule(step) && Closed(adj) && Reaches(step, adj, done, g) && Closed(g)
    requires c in g && |g[c]| == 2 && step(g, c).Ok?
    ensures Reaches(step, adj, done + [c], step(g, c).value)
    decreases done
  {
    if done != [] {
      ReachesStep(step, step(adj, done[0]).value, done[1..], g, c);
      assert (done + [c])[1..] == done[1..] + [c];
    }
  }

  lemma {:induction false} ReachesClosed(step: (Adj, Node) --> Result<Adj>, adj: Adj, done: seq<Node>, g: Adj)
    requires Rule(step) && Closed(adj) && Reaches(step, adj, done, g)
    ensures Closed(g)
    decreases done
  {
    if done != [] {
      ReachesClosed(step, step(adj, done[0]).value, done[1..], g);
    }
  }

  lemma {:induction false} ReachesThen(step: (Adj, Node) --> Result<Adj>, adj: Adj, done: seq<Node>, g: Adj, rest: seq<Node>, r: Result<Adj>)
    requires Rule(step) && Closed(adj) && Reaches(step, adj, done, g) && Closed(g) && Consolidates(step, g, rest, r)
    ensures Consolidates(step, adj, done + rest, r)
    decreases done
  {
    if done != [] {
      var next := step(adj, done[0]).value;
      ReachesClosed(step, next, done[1..], g);
      ReachesThen(step, next, done[1..], g, rest, r);
      var all := done + rest;
      assert all[0] == done[0] && all[1..] == done[1..] + rest;
    } else {
      assert done + rest == rest;
    }
  }

  /** Each round removes one node: the loop ends with a closed graph that
      has `|steps|` nodes fewer and no node of two out-hops. */
  lemma {:induction false} ConsolidatesShrinks(step: (Adj, Node) --> Result<Adj>, adj: Adj, steps: seq<Node>, g: Adj)
    requires Rule(step) && Closed(adj) && Consolidates(step, adj, steps, Ok(g))
    ensures Closed(g) && Final(g) && |g.Keys| + |steps| == |adj.Keys|
    decreases steps
  {
    if steps != [] {
      var next := step(adj, steps[0]).value;
      ConsolidatesShrinks(step, next, steps[1..], g);
      assert adj.Keys == next.Keys + {steps[0]};
    }
  }

  /** `'consolidate_loop`: while some node has exactly two out-hops,
      contract it. Which such node comes first in petgraph's node order is
      left open. */
  method Consolidate(step: (Adj, Node) --> Result<Adj>, adj: Adj) returns (r: Result<Adj>, ghost steps: seq<Node>)
    requires Rule(step) && Closed(adj)
    ensures Consolidates(step, adj, steps, r)
  {
    var g := adj;
    ghost var done: seq<Node> := [];
    while exists c :: c in g && |g[c]| == 2
      invariant Closed(g) && Reaches(step, adj, done, g)
      decreases |g.Keys|
    {
      var c :| c in g && |g[c]| == 2;
      var next := step(g, c);
      if next.Err? {
        ReachesThen(step, adj, done, g, [c], next);
        return next, done + [c];
      }
      ReachesStep(step, adj, done, g, c);
      done := done + [c];
      assert g.Keys == next.value.Keys + {c};
      g := next.value;
    }
    ReachesThen(step, adj, done, g, [], Ok(g));
    assert done + [] == done;
    return Ok(g), done;
  }

  // ------------------------------------------------------------ the answer

  /** A failed run of contractions fails with the one failure `Contract`
      has. */
  lemma {:induction false} ConsolidatesPanics(adj: Adj, steps: seq<Node>, r: Result<Adj>)
    requires Closed(adj) && Consolidates(Contract, adj, steps, r) && r.Err?
    ensures r == Err(PANIC)
    decreases steps
  {
    ContractIsRule();
    if steps != [] {
      var next := Contract(adj, steps[0]);
      if next.Ok? {
        ConsolidatesPanics(next.value, steps[1..], r);
      }
    }
  }

  /** The end of `solve`: consolidate the graph, then search it from the
      start to the goal when both are still nodes and the mask has a bit
      for every node. */
  method Finish(adj: Adj, s: Node, t: Node) returns (r: Result<nat>, ghost steps: seq<Node>, ghost final: Adj)
    requires Closed(adj)
    ensures Consolidates(Contract, adj, steps, Ok(final)) || (Consolidates(Contract, adj, steps, Err(PANIC)) && r == Err(PANIC))
    ensures Consolidates(Contract, adj, steps, Ok(final)) ==> Closed(final) && Final(final)
    ensures Consolidates(Contract, adj, steps, Ok(final)) ==>
      r == if s in final && t in final && |final.Keys| <= MASK_BITS then Search(final, s, t, 0, {}) else Err(PANIC)
  {
    final := map[];
    var consolidated;
    ContractIsRule();
    consolidated, steps := Consolidate(Contract, adj);
    if consolidated.Err? {
      ConsolidatesPanics(adj, steps, consolidated);
      return Err(PANIC), steps, final;
    }
    var h := consolidated.value;
    final := h;
    ConsolidatesShrinks(Contract, adj, steps, h);
    if s !in h || t !in h || |h.Keys| > MASK_BITS {
      return Err(PANIC), steps, final;
    }
    r := Search(h, s, t, 0, {});
  }

  /** What the grid yields: every byte known, the arcs as a graph, and the
      start and goal labels. */
  ghost predicate Charted(g: Grid, height: nat, slopes: bool, graph: Adj, start: Node, goal: Node)
    requires Shaped(g) && height > 0
  {
    AllKnown(g.cells, slopes) && GraphOf(ArcsUpTo(g, |g.cells|), graph) &&
    DotMark(g, |g.cells|, 0) == Some(start) && GoalMark(g, |g.cells|, height) == Some(goal)
  }

  /** `solve`: lay the arcs, consolidate, find the start and goal among the
      remaining nodes and search. The mask needs a bit per node. */
  method Solve(input: string) returns (r: Result<nat>, ghost graph: Adj, ghost steps: seq<Node>, ghost final: Adj, ghost start: Node, ghost goal: Node)
    ensures ReadGrid(input).Err? ==> r.Err?
    ensures ReadGrid(input).Ok? && !AllKnown(ReadGrid(input).value.0.cells, true) ==> r.Err?
    ensures ReadGrid(input).Ok? ==>
      var (g, height) := ReadGrid(input).value;
      DotMark(g, |g.cells|, 0).None? || GoalMark(g, |g.cells|, height).None? ==> r.Err?
    ensures ReadGrid(input).Ok? ==>
      var (g, height) := ReadGrid(input).value;
      AllKnown(g.cells, true) && DotMark(g, |g.cells|, 0).Some? && GoalMark(g, |g.cells|, height).Some? ==>
        if Indexable(ArcsUpTo(g, |g.cells|), true) then Closed(graph) && Charted(g, height, true, graph, start, goal)
        else r == Err(PANIC)
    ensures ReadGrid(input).Ok? && Closed(graph) && Charted(ReadGrid(input).value.0, ReadGrid(input).value.1, true, graph, start, goal) ==>
      Consolidates(Contract, graph, steps, Ok(final)) || (Consolidates(Contract, graph, steps, Err(PANIC)) && r == Err(PANIC))
    ensures Closed(graph) && Consolidates(Contract, graph, steps, Ok(final)) ==> Closed(final) && Final(final)
    ensures Closed(graph) && Consolidates(Contract, graph, steps, Ok(final)) ==>
      r == if start in final && goal in final && |final.Keys| <= MASK_BITS then Search(final, start, goal, 0, {}) else Err(PANIC)
    ensures r.Ok? ==> ReadGrid(input).Ok? && Closed(graph)
    ensures r.Ok? ==> Charted(ReadGrid(input).value.0, ReadGrid(input).value.1, true, graph, start, goal)
    ensures r.Ok? ==> Indexable(ArcsUpTo(ReadGrid(input).value.0, |ReadGrid(input).value.0.cells|), true)
    ensures r.Ok? ==> Consolidates(Contract, graph, steps, Ok(final)) && Closed(final)
    ensures r.Ok? ==> start in final && goal in final && |final.Keys| <= MASK_BITS
    ensures r.Ok? ==> Search(final, start, goal, 0, {}) == Ok(r.value)
  {
    graph, steps, final, start, goal := map[], [], map[], (0, 0), (0, 0);
    var read := ReadGrid(input);
    if read.Err? {
      return Err(PANIC), graph, steps, final, start, goal;
    }
    var (g, height) := read.value;
    var laid := LayArcs(g, height, true);
    if laid.Err? || laid.value.start.None? || laid.value.goal.None? {
      return Err(PANIC), graph, steps, final, start, goal;
    }
    var s, t := laid.value.start.value, laid.value.goal.value;
    var indexed := IntoGraph(laid.value.arcs, true);
    if indexed.Err? {
      return Err(PANIC), graph, steps, final, start, goal;
    }
    var adj := indexed.value;
    start, goal, graph := s, t, adj;
    r, steps, final := Finish(adj, s, t);
  }
}
