/** Day 16: The Floor Will Be Lava. A beam enters a grid of mirrors and
    splitters and is bounced and split as it goes. The simulation moves
    every beam one cell per round and stops when the set of beams is one it
    has seen before; the answer is the number of cells any beam has been
    in. Part 1 enters at the top-left corner heading right; part 2 tries
    every edge cell heading inward and keeps the largest count. */
module Day16 {
  import opened Util

  const PANIC: string := "panic"

  datatype Cell = Empty | ForwardMirror | BackMirror | VerticalSplitter | HorizontalSplitter

  datatype Direction = Up | Down | Left | Right

  /** `(x, y)`: column, then row. */
  type Pos = (nat, nat)

  /** A beam: where it is and which way it travels. */
  type Beam = (Pos, Direction)

  // ------------------------------------------------------------ cells

  /** The step a direction takes, as `(dx, dy)` with `y` growing downward. */
  function Delta(d: Direction): (int, int)
  {
    match d
    case Up => (0, -1)
    case Down => (0, 1)
    case Left => (-1, 0)
    case Right => (1, 0)
  }

  /** The directions a beam arriving with direction `from` leaves a cell in. */
  function Outgoing(c: Cell, from: Direction): set<Direction>
  {
    match (c, from)
    case (Empty, _) => {from}
    case (VerticalSplitter, Up) | (VerticalSplitter, Down) => {from}
    case (HorizontalSplitter, Left) | (HorizontalSplitter, Right) => {from}
    case (ForwardMirror, Right) | (BackMirror, Left) => {Up}
    case (ForwardMirror, Up) | (BackMirror, Down) => {Right}
    case (ForwardMirror, Left) | (BackMirror, Right) => {Down}
    case (ForwardMirror, Down) | (BackMirror, Up) => {Left}
    case (VerticalSplitter, Left) | (VerticalSplitter, Right) => {Up, Down}
    case (HorizontalSplitter, Up) | (HorizontalSplitter, Down) => {Left, Right}
  }

  /** The cell rules in geometric terms: an empty cell passes a beam on;
      `/` turns `(dx, dy)` into `(-dy, -dx)` and `\` into `(dy, dx)`; a
      splitter passes a beam along its own axis and splits one hitting its
      flat side into the two directions along it. */
  lemma OutgoingGeometry(c: Cell, from: Direction)
    ensures c == Empty ==> Outgoing(c, from) == {from}
    ensures c == ForwardMirror ==>
      forall d :: d in Outgoing(c, from) <==> Delta(d) == (-Delta(from).1, -Delta(from).0)
    ensures c == BackMirror ==>
      forall d :: d in Outgoing(c, from) <==> Delta(d) == (Delta(from).1, Delta(from).0)
    ensures c == VerticalSplitter ==>
      forall d :: d in Outgoing(c, from) <==> if Delta(from).0 == 0 then d == from else Delta(d).0 == 0
    ensures c == HorizontalSplitter ==>
      forall d :: d in Outgoing(c, from) <==> if Delta(from).1 == 0 then d == from else Delta(d).1 == 0
  {
  }

  /** A cell always sends a beam on, and splits it into at most two. */
  lemma OutgoingCount(c: Cell, from: Direction)
    ensures 1 <= |Outgoing(c, from)| <= 2
  {
  }

  /** The beams a cell at `pos` emits for a beam arriving with `from`. */
  function Emitted(c: Cell, pos: Pos, from: Direction): (r: set<Beam>)
    ensures forall b :: b in r <==> b.0 == pos && b.1 in Outgoing(c, from)
  {
    set d | d in Outgoing(c, from) :: (pos, d)
  }

  /** `Cell::apply_to`: the emitted beams are added to `beams`. */
  function ApplyCell(c: Cell, pos: Pos, from: Direction, beams: set<Beam>): set<Beam>
  {
    beams + Emitted(c, pos, from)
  }

  /** `Direction::apply_to`: one cell on; `checked_sub` gives none past the
      top or left edge, while the bottom and right edges are the caller's
      to check. */
  function Move(d: Direction, p: Pos): (r: Option<Pos>)
    ensures r.None? <==> (d == Up && p.1 == 0) || (d == Left && p.0 == 0)
    ensures r.Some? ==> r.value.0 == p.0 + Delta(d).0 && r.value.1 == p.1 + Delta(d).1
  {
    match d
    case Up => if p.1 == 0 then None else Some((p.0, p.1 - 1))
    case Down => Some((p.0, p.1 + 1))
    case Left => if p.0 == 0 then None else Some((p.0 - 1, p.1))
    case Right => Some((p.0 + 1, p.1))
  }

  // ------------------------------------------------------------ rounds

  /** `map.get(y).and_then(|row| row.get(x))` finds a cell. Rows may differ
      in length. */
  predicate InMap(grid: seq<seq<Cell>>, p: Pos)
  {
    p.1 < |grid| && p.0 < |grid[p.1]|
  }

  /** What one beam turns into in the next round. */
  function Next(grid: seq<seq<Cell>>, b: Beam): set<Beam>
  {
    match Move(b.1, b.0)
    case None => {}
    case Some(q) => if InMap(grid, q) then Emitted(grid[q.1][q.0], q, b.1) else {}
  }

  /** One round: every beam of `beams` moved on. */
  function Round(grid: seq<seq<Cell>>, beams: set<Beam>): set<Beam>
  {
    set b, e | b in beams && e in Next(grid, b) :: e
  }

  /** A round over one more beam adds that beam's successors. */
  lemma RoundAdd(grid: seq<seq<Cell>>, beams: set<Beam>, b: Beam)
    ensures Round(grid, beams + {b}) == Round(grid, beams) + Next(grid, b)
  {
  }

  /** Every beam that can exist: a direction on a cell of the grid. */
  function Universe(grid: seq<seq<Cell>>): set<Beam>
  {
    set y, x, d | 0 <= y < |grid| && 0 <= x < |grid[y]| && d in DIRECTIONS :: ((x, y), d)
  }

  const DIRECTIONS: set<Direction> := {Up, Down, Left, Right}

  /** Every beam of `beams` is on a cell of the map. */
  predicate OnMap(grid: seq<seq<Cell>>, beams: set<Beam>)
  {
    forall b :: b in beams ==> InMap(grid, b.0)
  }

  lemma InUniverse(grid: seq<seq<Cell>>, beams: set<Beam>)
    requires OnMap(grid, beams)
    ensures beams <= Universe(grid)
  {
    forall b | b in beams ensures b in Universe(grid) {
      var ((x, y), d) := b;
      assert d in DIRECTIONS by {
        match d
        case Up =>
        case Down =>
        case Left =>
        case Right =>
      }
      assert InMap(grid, (x, y));
    }
  }

  /** Beams stay on the grid. */
  lemma RoundOnMap(grid: seq<seq<Cell>>, beams: set<Beam>)
    ensures OnMap(grid, Round(grid, beams))
  {
  }

  /** Every subset of `u`: the sets of beams there can be. */
  function Subsets<T>(u: set<T>): set<set<T>>
  {
    set s | s <= u
  }

  /** Seeing one more subset leaves fewer unseen. */
  lemma Shrink<T>(u: set<T>, seen: set<set<T>>, s: set<T>)
    requires s <= u && s !in seen
    ensures |Subsets(u) - (seen + {s})| < |Subsets(u) - seen|
  {
    assert s in Subsets(u);
    assert Subsets(u) - (seen + {s}) == (Subsets(u) - seen) - {s};
  }

  lemma SubsetsShrink(grid: seq<seq<Cell>>, seen: seq<set<Beam>>, beams: set<Beam>)
    requires OnMap(grid, beams) && beams !in seen
    ensures |Subsets(Universe(grid)) - Elems(seen + [beams])| < |Subsets(Universe(grid)) - Elems(seen)|
  {
    InUniverse(grid, beams);
    assert Elems(seen + [beams]) == Elems(seen) + {beams};
    assert beams !in Elems(seen);
    Shrink<Beam>(Universe(grid), Elems(seen), beams);
  }

  /** The sets in a sequence. */
  function Elems(seen: seq<set<Beam>>): set<set<Beam>>
  {
    set s | s in seen
  }

  /** The cells some beam of `beams` is in. */
  function Lit(beams: set<Beam>): set<Pos>
  {
    set b | b in beams :: b.0
  }

  /** The cells some beam of some round of `trace` is in. */
  function LitAll(trace: seq<set<Beam>>): set<Pos>
  {
    set i, b | 0 <= i < |trace| && b in trace[i] :: b.0
  }

  /** The `visited` grid has a row for every row of the map, each as wide as
      the first; marking a cell outside it panics. */
  predicate InRect(grid: seq<seq<Cell>>, beams: set<Beam>)
    requires |grid| > 0
  {
    forall b :: b in beams ==> b.0.1 < |grid| && b.0.0 < |grid[0]|
  }

  /** The loop of `do_solve` from the beam sets `seen` so far and the
      current `beams`: stop with the seen sets when `beams` was seen
      before, otherwise mark and move every beam. */
  function Explore(grid: seq<seq<Cell>>, seen: seq<set<Beam>>, beams: set<Beam>): Result<seq<set<Beam>>>
    requires |grid| > 0 && OnMap(grid, beams)
    decreases |Subsets(Universe(grid)) - Elems(seen)|
  {
    if beams in seen then Ok(seen)
    else if !InRect(grid, beams) then Err(PANIC)
    else
      SubsetsShrink(grid, seen, beams);
      RoundOnMap(grid, beams);
      Explore(grid, seen + [beams], Round(grid, beams))
  }

  /** The beams emitted where the beam enters. */
  function Start(grid: seq<seq<Cell>>, start: Pos, dir: Direction): (r: set<Beam>)
    requires InMap(grid, start)
    ensures OnMap(grid, r)
  {
    Emitted(grid[start.1][start.0], start, dir)
  }

  /** `do_solve`: `map[0]` and the entry cell must exist; the count is the
      number of cells lit in the rounds before the first repeat. */
  function Energized(grid: seq<seq<Cell>>, start: Pos, dir: Direction): Result<nat>
  {
    if grid == [] || !InMap(grid, start) then Err(PANIC)
    else match Explore(grid, [], Start(grid, start, dir))
      case Err(e) => Err(e)
      case Ok(trace) => Ok(|LitAll(trace)|)
  }

  // ------------------------------------------------------------ completeness

  /** The beams after `j` rounds from `s`. */
  function Rounds(grid: seq<seq<Cell>>, s: set<Beam>, j: nat): set<Beam>
  {
    if j == 0 then s else Round(grid, Rounds(grid, s, j - 1))
  }

  /** Each set of a trace is the round of the one before. */
  predicate Linked(grid: seq<seq<Cell>>, trace: seq<set<Beam>>)
  {
    forall i :: 0 < i < |trace| ==> trace[i] == Round(grid, trace[i - 1])
  }

  /** A trace that holds its own next round: each round after the last
      recorded one is among the recorded ones. */
  predicate Closed(grid: seq<seq<Cell>>, trace: seq<set<Beam>>)
  {
    Linked(grid, trace) && |trace| > 0 && Round(grid, trace[|trace| - 1]) in trace
  }

  lemma LinkedSnoc(grid: seq<seq<Cell>>, seen: seq<set<Beam>>, beams: set<Beam>)
    requires Linked(grid, seen) && (seen != [] ==> beams == Round(grid, seen[|seen| - 1]))
    ensures Linked(grid, seen + [beams])
  {
  }

  /** `Explore` records every round in order until the round after the last
      recorded one is among them. */
  lemma {:induction false} ExploreTrace(grid: seq<seq<Cell>>, seen: seq<set<Beam>>, beams: set<Beam>)
    requires |grid| > 0 && OnMap(grid, beams)
    requires Linked(grid, seen) && (seen != [] ==> beams == Round(grid, seen[|seen| - 1]))
    ensures Explore(grid, seen, beams).Ok? ==>
      Closed(grid, Explore(grid, seen, beams).value) && seen <= Explore(grid, seen, beams).value &&
      (seen == [] ==> Explore(grid, seen, beams).value[0] == beams)
    decreases |Subsets(Universe(grid)) - Elems(seen)|
  {
    if beams !in seen && InRect(grid, beams) {
      SubsetsShrink(grid, seen, beams);
      RoundOnMap(grid, beams);
      var seen' := seen + [beams];
      LinkedSnoc(grid, seen, beams);
      assert Explore(grid, seen, beams) == Explore(grid, seen', Round(grid, beams));
      ExploreTrace(grid, seen', Round(grid, beams));
      if Explore(grid, seen', Round(grid, beams)).Ok? {
        PrefixSnoc(seen, beams, Explore(grid, seen', Round(grid, beams)).value);
      }
    }
  }

  lemma PrefixSnoc<T>(seen: seq<T>, b: T, t: seq<T>)
    requires seen + [b] <= t
    ensures seen <= t && (seen == [] ==> t[0] == b)
  {
    assert t[|seen|] == (seen + [b])[|seen|];
  }

  lemma {:induction false} LinkedRounds(grid: seq<seq<Cell>>, trace: seq<set<Beam>>, i: nat)
    requires Linked(grid, trace) && i < |trace|
    ensures trace[i] == Rounds(grid, trace[0], i)
  {
    if i > 0 {
      LinkedRounds(grid, trace, i - 1);
    }
  }

  /** Once a trace is closed, no round ever leaves it. */
  lemma {:induction false} ClosedTrace(grid: seq<seq<Cell>>, trace: seq<set<Beam>>, j: nat)
    requires Closed(grid, trace)
    ensures Rounds(grid, trace[0], j) in trace
  {
    if j > 0 {
      ClosedTrace(grid, trace, j - 1);
      var i :| 0 <= i < |trace| && trace[i] == Rounds(grid, trace[0], j - 1);
      if i + 1 < |trace| {
        assert trace[i + 1] == Round(grid, trace[i]);
      }
    }
  }

  /** Some round from `s` before round `n` lights `p`. */
  predicate LitWithin(grid: seq<seq<Cell>>, s: set<Beam>, n: nat, p: Pos)
  {
    exists i :: 0 <= i < n && p in Lit(Rounds(grid, s, i))
  }

  /** Every cell some round from the first set of a closed trace lights
      is lit in the trace. */
  lemma TraceHoldsRounds(grid: seq<seq<Cell>>, t: seq<set<Beam>>, j: nat)
    requires Closed(grid, t)
    ensures Lit(Rounds(grid, t[0], j)) <= LitAll(t)
  {
    ClosedTrace(grid, t, j);
    var k :| 0 <= k < |t| && t[k] == Rounds(grid, t[0], j);
    forall p | p in Lit(t[k]) ensures p in LitAll(t) {
      var b :| b in t[k] && p == b.0;
    }
  }

  /** Every cell lit in a linked trace is lit by some round from its first
      set. */
  lemma TraceFromRounds(grid: seq<seq<Cell>>, t: seq<set<Beam>>)
    requires Linked(grid, t) && |t| > 0
    ensures forall p: Pos :: p in LitAll(t) ==> LitWithin(grid, t[0], |t|, p)
  {
    forall p: Pos | p in LitAll(t) ensures LitWithin(grid, t[0], |t|, p) {
      var i: int, b: Beam :| 0 <= i < |t| && b in t[i] && p == b.0;
      LinkedRounds(grid, t, i);
      assert p in Lit(t[i]);
    }
  }

  /** The count is exactly the cells beams ever reach: every cell any round
      lights is counted, and every counted cell is lit by some round. */
  lemma EnergizedCountsReached(grid: seq<seq<Cell>>, start: Pos, dir: Direction, t: seq<set<Beam>>, j: nat)
    requires grid != [] && InMap(grid, start)
    requires Explore(grid, [], Start(grid, start, dir)) == Ok(t)
    ensures Energized(grid, start, dir) == Ok(|LitAll(t)|)
    ensures |t| > 0 && t[0] == Start(grid, start, dir)
    ensures Lit(Rounds(grid, t[0], j)) <= LitAll(t)
    ensures forall p: Pos :: p in LitAll(t) ==> LitWithin(grid, t[0], |t|, p)
  {
    ExploreTrace(grid, [], Start(grid, start, dir));
    TraceHoldsRounds(grid, t, j);
    TraceFromRounds(grid, t);
  }

  /** Equal rows: a beam is always inside the `visited` grid, so a
      rectangular map never panics. */
  lemma {:induction false} RectangularExplores(grid: seq<seq<Cell>>, seen: seq<set<Beam>>, beams: set<Beam>)
    requires |grid| > 0 && OnMap(grid, beams)
    requires forall y :: 0 <= y < |grid| ==> |grid[y]| == |grid[0]|
    ensures Explore(grid, seen, beams).Ok?
    decreases |Subsets(Universe(grid)) - Elems(seen)|
  {
    if beams !in seen {
      assert InRect(grid, beams);
      SubsetsShrink(grid, seen, beams);
      RoundOnMap(grid, beams);
      RectangularExplores(grid, seen + [beams], Round(grid, beams));
    }
  }

  // ------------------------------------------------------------ visited

  /** The `visited` grid with the cells of `lit` marked. */
  function Marks(h: nat, w: nat, lit: set<Pos>): (v: seq<seq<bool>>)
    ensures |v| == h && forall y :: 0 <= y < h ==> |v[y]| == w
  {
    seq(h, y requires 0 <= y < h => seq(w, x requires 0 <= x < w => (x, y) in lit))
  }

  lemma MarksAt(h: nat, w: nat, lit: set<Pos>, x: nat, y: nat)
    requires x < w && y < h
    ensures Marks(h, w, lit)[y][x] <==> (x, y) in lit
  {
  }

  lemma MarkOne(h: nat, w: nat, lit: set<Pos>, x: nat, y: nat)
    requires x < w && y < h
    ensures Marks(h, w, lit)[y := Marks(h, w, lit)[y][x := true]] == Marks(h, w, lit + {(x, y)})
  {
    var m := Marks(h, w, lit);
    var n := Marks(h, w, lit + {(x, y)});
    var u := m[y := m[y][x := true]];
    forall yy | 0 <= yy < h ensures u[yy] == n[yy] {
      assert |u[yy]| == |n[yy]| == w;
      forall xx | 0 <= xx < w ensures u[yy][xx] == n[yy][xx] {
        MarksAt(h, w, lit, xx, yy);
        MarksAt(h, w, lit + {(x, y)}, xx, yy);
      }
    }
  }

  /** Nothing marked: the freshly allocated `visited` grid. */
  lemma MarksNone(h: nat, w: nat)
    ensures Marks(h, w, {}) == seq(h, _ => seq(w, _ => false))
  {
    var m := Marks(h, w, {});
    var f := seq(h, _ => seq(w, _ => false));
    forall yy | 0 <= yy < h ensures m[yy] == f[yy] {
      assert |m[yy]| == |f[yy]| == w;
      forall xx | 0 <= xx < w ensures m[yy][xx] == f[yy][xx] {
        MarksAt(h, w, {}, xx, yy);
      }
    }
  }

  function CountRow(row: seq<bool>): nat
  {
    if row == [] then 0 else CountRow(row[..|row| - 1]) + (if row[|row| - 1] then 1 else 0)
  }

  /** `count_visited`: the marked cells of every row added up. */
  function CountVisited(visited: seq<seq<bool>>): nat
  {
    if visited == [] then 0 else CountVisited(visited[..|visited| - 1]) + CountRow(visited[|visited| - 1])
  }

  /** The cells of row `y` left of column `w`. */
  function RowCells(y: nat, w: nat): set<Pos>
  {
    set x | 0 <= x < w :: (x, y)
  }

  /** The cells of the first `h` rows left of column `w`. */
  function Rect(h: nat, w: nat): set<Pos>
  {
    set y, x | 0 <= y < h && 0 <= x < w :: (x, y)
  }

  lemma {:induction false} CountRowMarks(y: nat, w: nat, lit: set<Pos>)
    ensures CountRow(seq(w, x requires 0 <= x < w => (x, y) in lit)) == |lit * RowCells(y, w)|
  {
    if w > 0 {
      var row := seq(w, x requires 0 <= x < w => (x, y) in lit);
      assert row[..w - 1] == seq(w - 1, x requires 0 <= x < w - 1 => (x, y) in lit);
      CountRowMarks(y, w - 1, lit);
      RowCellsSnoc(y, w - 1);
      MeetAdd(lit, RowCells(y, w - 1), (w - 1, y));
    }
  }

  lemma RowCellsSnoc(y: nat, w: nat)
    ensures RowCells(y, w + 1) == RowCells(y, w) + {(w, y)}
    ensures (w, y) !in RowCells(y, w)
  {
  }

  lemma RectSnoc(h: nat, w: nat)
    ensures Rect(h + 1, w) == Rect(h, w) + RowCells(h, w)
    ensures Rect(h, w) !! RowCells(h, w)
  {
  }

  /** Meeting a set with one more element adds one exactly when it is met. */
  lemma MeetAdd<T>(lit: set<T>, a: set<T>, e: T)
    requires e !in a
    ensures |lit * (a + {e})| == |lit * a| + if e in lit then 1 else 0
  {
    if e in lit {
      assert lit * (a + {e}) == lit * a + {e};
    } else {
      assert lit * (a + {e}) == lit * a;
    }
  }

  /** Meeting a set with a disjoint union adds up the two meetings. */
  lemma MeetUnion<T>(lit: set<T>, a: set<T>, b: set<T>)
    requires a !! b
    ensures |lit * (a + b)| == |lit * a| + |lit * b|
  {
    assert lit * (a + b) == lit * a + lit * b;
    assert (lit * a) !! (lit * b);
  }

  /** The last row of the marks, and the marks of the rows above it. */
  lemma MarksPrefix(h: nat, w: nat, lit: set<Pos>)
    requires h > 0
    ensures Marks(h, w, lit)[..h - 1] == Marks(h - 1, w, lit)
    ensures Marks(h, w, lit)[h - 1] == seq(w, x requires 0 <= x < w => (x, h - 1) in lit)
    ensures CountVisited(Marks(h, w, lit)) == CountVisited(Marks(h - 1, w, lit)) + CountRow(Marks(h, w, lit)[h - 1])
  {
    assert Marks(h, w, lit)[..h - 1] == Marks(h - 1, w, lit);
  }

  /** `count_visited` counts each marked cell once. */
  lemma {:induction false} CountMarks(h: nat, w: nat, lit: set<Pos>)
    ensures CountVisited(Marks(h, w, lit)) == |lit * Rect(h, w)|
  {
    if h > 0 {
      var v := Marks(h, w, lit);
      MarksPrefix(h, w, lit);
      CountMarks(h - 1, w, lit);
      CountRowMarks(h - 1, w, lit);
      RectSnoc(h - 1, w);
      MeetUnion(lit, Rect(h - 1, w), RowCells(h - 1, w));
    }
  }

  // ------------------------------------------------------------ the loop

  /** The `for ... in beams.drain()` loop: every beam's cell is marked and
      its successors are collected; a cell outside `visited` panics. */
  method Drain(grid: seq<seq<Cell>>, beams: set<Beam>, visited: seq<seq<bool>>, ghost lit: set<Pos>)
    returns (r: Result<(set<Beam>, seq<seq<bool>>)>)
    requires |grid| > 0 && OnMap(grid, beams)
    requires visited == Marks(|grid|, |grid[0]|, lit)
    ensures r.Ok? <==> InRect(grid, beams)
    ensures r.Ok? ==> r.value.0 == Round(grid, beams) && r.value.1 == Marks(|grid|, |grid[0]|, lit + Lit(beams))
  {
    var width := |grid[0]|;
    var rest := beams;
    var next: set<Beam> := {};
    var marked := visited;
    assert beams - rest == {} && lit + Lit({}) == lit;
    while rest != {}
      invariant Drained(grid, beams, rest, next, marked, lit)
      decreases |rest|
    {
      var b: Beam :| b in rest;
      if b.0.0 >= width {
        return Err(PANIC);
      }
      DrainStep(grid, beams, rest, next, marked, lit, b);
      next, marked := Visit(grid, b, next, marked);
      rest := rest - {b};
    }
    assert beams - rest == beams;
    return Ok((next, marked));
  }

  /** The body of the drain loop for one beam inside `visited`: mark its
      cell, and if its next cell is on the map, let that cell emit into
      `next`. */
  method Visit(grid: seq<seq<Cell>>, b: Beam, next: set<Beam>, marked: seq<seq<bool>>)
    returns (next': set<Beam>, marked': seq<seq<bool>>)
    requires b.0.1 < |marked| && b.0.0 < |marked[b.0.1]|
    ensures next' == next + Next(grid, b)
    ensures marked' == marked[b.0.1 := marked[b.0.1][b.0.0 := true]]
  {
    var ((x, y), dir) := b;
    marked' := marked[y := marked[y][x := true]];
    next' := next;
    match Move(dir, (x, y)) {
      case None =>
      case Some(q) =>
        if InMap(grid, q) {
          next' := ApplyCell(grid[q.1][q.0], q, dir, next);
        }
    }
  }

  /** The drain so far: the beams of `beams` no longer in `rest` are inside
      `visited`, their successors are in `next` and their cells are marked. */
  predicate Drained(grid: seq<seq<Cell>>, beams: set<Beam>, rest: set<Beam>, next: set<Beam>, marked: seq<seq<bool>>, lit: set<Pos>)
    requires |grid| > 0
  {
    rest <= beams && InRect(grid, beams - rest) && next == Round(grid, beams - rest) &&
    marked == Marks(|grid|, |grid[0]|, lit + Lit(beams - rest))
  }

  /** One beam of the drain keeps `Drained`. */
  lemma DrainStep(grid: seq<seq<Cell>>, beams: set<Beam>, rest: set<Beam>, next: set<Beam>, marked: seq<seq<bool>>, lit: set<Pos>, b: Beam)
    requires |grid| > 0 && Drained(grid, beams, rest, next, marked, lit)
    requires b in rest && b.0.1 < |grid| && b.0.0 < |grid[0]|
    ensures b.0.1 < |marked| && b.0.0 < |marked[b.0.1]|
    ensures Drained(grid, beams, rest - {b}, next + Next(grid, b), marked[b.0.1 := marked[b.0.1][b.0.0 := true]], lit)
  {
    var done := beams - rest;
    assert beams - (rest - {b}) == done + {b};
    RoundAdd(grid, done, b);
    MarkOne(|grid|, |grid[0]|, lit + Lit(done), b.0.0, b.0.1);
    assert lit + Lit(done) + {b.0} == lit + Lit(done + {b});
  }

  /** `do_solve`. */
  method DoSolve(grid: seq<seq<Cell>>, start: Pos, dir: Direction) returns (r: Result<nat>)
    ensures r == Energized(grid, start, dir)
  {
    if |grid| == 0 {
      return Err(PANIC);
    }
    var width := |grid[0]|;
    var visited := seq(|grid|, _ => seq(width, _ => false));
    MarksNone(|grid|, width);
    if !InMap(grid, start) {
      return Err(PANIC);
    }
    var beams := ApplyCell(grid[start.1][start.0], start, dir, {});
    var newBeams: set<Beam> := {};
    var seenBeams: set<set<Beam>> := {};
    ghost var seen: seq<set<Beam>> := [];
    assert LitAll(seen) == {} && Elems(seen) == {};
    while beams !in seenBeams
      invariant Exploring(grid, start, dir, seen, seenBeams, beams, visited) && newBeams == {}
      decreases |Subsets(Universe(grid)) - seenBeams|
    {
      SubsetsShrink(grid, seen, beams);
      seenBeams := seenBeams + {beams};
      var drained := Drain(grid, beams, visited, LitAll(seen));
      if drained.Err? {
        ExplorePanics(grid, start, dir, seen, beams, visited);
        return Err(PANIC);
      }
      ExploreStep(grid, start, dir, seen, beams);
      newBeams, visited := drained.value.0, drained.value.1;
      seen := seen + [beams];
      beams, newBeams := newBeams, {};
    }
    ExploreDone(grid, start, dir, seen, beams, visited);
    return Ok(CountVisited(visited));
  }

  /** The state of the `do_solve` loop: the seen beam sets in order, the
      cells they lit marked in `visited`, and what is left to explore from
      the current beams the same as from the start. */
  predicate Exploring(grid: seq<seq<Cell>>, start: Pos, dir: Direction, seen: seq<set<Beam>>,
                      seenBeams: set<set<Beam>>, beams: set<Beam>, visited: seq<seq<bool>>)
    requires |grid| > 0 && InMap(grid, start)
  {
    OnMap(grid, beams) && seenBeams == Elems(seen) &&
    LitAll(seen) <= Rect(|grid|, |grid[0]|) && visited == Marks(|grid|, |grid[0]|, LitAll(seen)) &&
    Explore(grid, seen, beams) == Explore(grid, [], Start(grid, start, dir))
  }

  /** A round that stays inside `visited` keeps `Exploring`. */
  lemma ExploreStep(grid: seq<seq<Cell>>, start: Pos, dir: Direction, seen: seq<set<Beam>>, beams: set<Beam>)
    requires |grid| > 0 && InMap(grid, start)
    requires Exploring(grid, start, dir, seen, Elems(seen), beams, Marks(|grid|, |grid[0]|, LitAll(seen)))
    requires beams !in Elems(seen) && InRect(grid, beams)
    ensures Exploring(grid, start, dir, seen + [beams], Elems(seen) + {beams}, Round(grid, beams),
                      Marks(|grid|, |grid[0]|, LitAll(seen) + Lit(beams)))
  {
    RoundOnMap(grid, beams);
    LitAllSnoc(seen, beams);
    assert Elems(seen + [beams]) == Elems(seen) + {beams};
    assert Explore(grid, seen, beams) == Explore(grid, seen + [beams], Round(grid, beams));
  }

  /** A round that leaves `visited` makes `do_solve` panic. */
  lemma ExplorePanics(grid: seq<seq<Cell>>, start: Pos, dir: Direction, seen: seq<set<Beam>>, beams: set<Beam>, visited: seq<seq<bool>>)
    requires |grid| > 0 && InMap(grid, start)
    requires Exploring(grid, start, dir, seen, Elems(seen), beams, visited)
    requires beams !in Elems(seen) && !InRect(grid, beams)
    ensures Energized(grid, start, dir) == Err(PANIC)
  {
    assert Explore(grid, seen, beams) == Err(PANIC);
  }

  /** When the beams repeat, `visited` counts what `Energized` does. */
  lemma ExploreDone(grid: seq<seq<Cell>>, start: Pos, dir: Direction, seen: seq<set<Beam>>, beams: set<Beam>, visited: seq<seq<bool>>)
    requires |grid| > 0 && InMap(grid, start)
    requires Exploring(grid, start, dir, seen, Elems(seen), beams, visited) && beams in Elems(seen)
    ensures Energized(grid, start, dir) == Ok(CountVisited(visited))
  {
    assert Explore(grid, seen, beams) == Ok(seen);
    CountMarks(|grid|, |grid[0]|, LitAll(seen));
    assert LitAll(seen) * Rect(|grid|, |grid[0]|) == LitAll(seen);
  }

  lemma LitAllSnoc(seen: seq<set<Beam>>, beams: set<Beam>)
    ensures LitAll(seen + [beams]) == LitAll(seen) + Lit(beams)
  {
    var t := seen + [beams];
    forall p | p in LitAll(t) ensures p in LitAll(seen) + Lit(beams) {
      var i: int, b: Beam :| 0 <= i < |t| && b in t[i] && p == b.0;
      if i < |seen| {
        assert b in seen[i];
      }
    }
    forall p | p in LitAll(seen) + Lit(beams) ensures p in LitAll(t) {
      if p in LitAll(seen) {
        var i: int, b: Beam :| 0 <= i < |seen| && b in seen[i] && p == b.0;
        assert b in t[i];
      } else {
        var b :| b in beams && p == b.0;
        assert b in t[|seen|];
      }
    }
  }

  // ------------------------------------------------------------ part 2

  /** The entry points of part 2 in the order `solve` tries them: each
      column from the top heading down and from the bottom heading up, then
      each row from the left heading right and from the right heading left. */
  function EdgeStarts(w: nat, h: nat): (r: seq<Beam>)
    requires w > 0 && h > 0
    ensures |r| == 2 * w + 2 * h
  {
    seq(2 * w, k requires 0 <= k < 2 * w => if k % 2 == 0 then ((k / 2, 0), Down) else ((k / 2, h - 1), Up)) +
    seq(2 * h, k requires 0 <= k < 2 * h => if k % 2 == 0 then ((0, k / 2), Right) else ((w - 1, k / 2), Left))
  }

  /** Every edge cell is among the entry points, with its inward direction. */
  lemma EdgeStartsCover(w: nat, h: nat, x: nat, y: nat)
    requires w > 0 && h > 0 && x < w && y < h
    ensures ((x, 0), Down) in EdgeStarts(w, h) && ((x, h - 1), Up) in EdgeStarts(w, h)
    ensures ((0, y), Right) in EdgeStarts(w, h) && ((w - 1, y), Left) in EdgeStarts(w, h)
  {
    var e := EdgeStarts(w, h);
    assert e[2 * x] == ((x, 0), Down);
    assert e[2 * x + 1] == ((x, h - 1), Up);
    assert e[2 * w + 2 * y] == ((0, y), Right);
    assert e[2 * w + 2 * y + 1] == ((w - 1, y), Left);
  }

  /** The count of every edge entry point, in the order of `EdgeStarts`. */
  function EdgeCounts(grid: seq<seq<Cell>>): (r: seq<Result<nat>>)
    requires grid != [] && |grid[0]| > 0
    ensures |r| == |EdgeStarts(|grid[0]|, |grid|)|
  {
    var starts := EdgeStarts(|grid[0]|, |grid|);
    seq(|starts|, k requires 0 <= k < |starts| => Energized(grid, starts[k].0, starts[k].1))
  }

  /** Each entry point's count is the one `do_solve` gives for it. */
  lemma EdgeCountsAt(grid: seq<seq<Cell>>, k: nat)
    requires grid != [] && |grid[0]| > 0 && k < |EdgeStarts(|grid[0]|, |grid|)|
    ensures EdgeCounts(grid)[k] ==
      Energized(grid, EdgeStarts(|grid[0]|, |grid|)[k].0, EdgeStarts(|grid[0]|, |grid|)[k].1)
  {
  }

  predicate AllOk(counts: seq<Result<nat>>)
  {
    forall k :: 0 <= k < |counts| ==> counts[k].Ok?
  }

  /** `best` is the largest of `counts`: none is larger and one reaches it. */
  predicate IsMax(counts: seq<Result<nat>>, best: nat)
  {
    AllOk(counts) && (forall k :: 0 <= k < |counts| ==> counts[k].value <= best) &&
    exists k :: 0 <= k < |counts| && counts[k] == Ok(best)
  }

  /** Part 2: the largest count over the edge entry points, each computed
      by `do_solve`; a panic in any of them, or a first row with no cells,
      panics. */
  method Part2(grid: seq<seq<Cell>>) returns (r: Result<nat>)
    ensures r.Ok? <==> (grid != [] && |grid[0]| > 0 && AllOk(EdgeCounts(grid)))
    ensures r.Ok? ==> grid != [] && |grid[0]| > 0 && IsMax(EdgeCounts(grid), r.value)
  {
    if |grid| == 0 || |grid[0]| == 0 {
      return Err(PANIC);
    }
    var starts := EdgeStarts(|grid[0]|, |grid|);
    ghost var counts := EdgeCounts(grid);
    var best: nat := 0;
    ghost var arg: nat := 0;
    for k := 0 to |starts|
      invariant |counts| == |starts| && BestSoFar(counts, k, best, arg)
    {
      var count := EntryCount(grid, starts, k);
      if count.Err? {
        NotAllOk(counts, k);
        return Err(count.reason);
      }
      var better := k == 0 || count.value > best;
      var nextBest := if better then count.value else best;
      ghost var nextArg := if better then k else arg;
      BestStep(counts, k, best, arg, count.value);
      BestNext(counts, k, best, arg, count.value, nextBest, nextArg);
      best, arg := nextBest, nextArg;
    }
    BestOfAll(counts, best, arg);
    return Ok(best);
  }

  /** `do_solve` from the `k`-th entry point. */
  method EntryCount(grid: seq<seq<Cell>>, starts: seq<Beam>, k: nat) returns (count: Result<nat>)
    requires grid != [] && |grid[0]| > 0 && starts == EdgeStarts(|grid[0]|, |grid|) && k < |starts|
    ensures count == EdgeCounts(grid)[k]
  {
    count := DoSolve(grid, starts[k].0, starts[k].1);
    CountAt(grid, k, count);
  }

  lemma CountAt(grid: seq<seq<Cell>>, k: nat, count: Result<nat>)
    requires grid != [] && |grid[0]| > 0 && k < |EdgeStarts(|grid[0]|, |grid|)|
    requires count == Energized(grid, EdgeStarts(|grid[0]|, |grid|)[k].0, EdgeStarts(|grid[0]|, |grid|)[k].1)
    ensures EdgeCounts(grid)[k] == count
  {
    EdgeCountsAt(grid, k);
  }

  lemma NotAllOk(counts: seq<Result<nat>>, k: nat)
    requires k < |counts| && counts[k].Err?
    ensures !AllOk(counts)
  {
  }

  lemma BestOfAll(counts: seq<Result<nat>>, best: nat, arg: nat)
    requires BestSoFar(counts, |counts|, best, arg) && |counts| > 0
    ensures AllOk(counts) && IsMax(counts, best)
  {
    assert counts[..|counts|] == counts;
  }

  /** The first `k` counts are not panics, none is above `best`, and the
      one at `arg` is `best`. */
  predicate BestSoFar(counts: seq<Result<nat>>, k: nat, best: nat, arg: nat)
  {
    k <= |counts| && arg < |counts| && AllOk(counts[..k]) &&
    (forall i :: 0 <= i < k ==> counts[i].value <= best) &&
    (k > 0 ==> counts[arg] == Ok(best))
  }

  lemma BestStep(counts: seq<Result<nat>>, k: nat, best: nat, arg: nat, count: nat)
    requires k < |counts| && BestSoFar(counts, k, best, arg) && counts[k] == Ok(count)
    ensures if k == 0 || count > best then BestSoFar(counts, k + 1, count, k)
            else BestSoFar(counts, k + 1, best, arg)
  {
    assert counts[..k + 1] == counts[..k] + [counts[k]];
  }

  lemma BestNext(counts: seq<Result<nat>>, k: nat, best: nat, arg: nat, count: nat, nextBest: nat, nextArg: nat)
    requires if k == 0 || count > best then BestSoFar(counts, k + 1, count, k) else BestSoFar(counts, k + 1, best, arg)
    requires nextBest == (if k == 0 || count > best then count else best)
    requires nextArg == (if k == 0 || count > best then k else arg)
    ensures BestSoFar(counts, k + 1, nextBest, nextArg)
  {
  }

  // ------------------------------------------------------------ parsing

  /** The character a cell is drawn with. */
  function Glyph(c: Cell): char
  {
    match c
    case Empty => '.'
    case ForwardMirror => '/'
    case BackMirror => '\\'
    case VerticalSplitter => '|'
    case HorizontalSplitter => '-'
  }

  /** The `match c` of `solve`; any other character is unreachable. */
  function ParseCell(ch: char): (r: Result<Cell>)
  {
    match ch
    case '.' => Ok(Empty)
    case '/' => Ok(ForwardMirror)
    case '\\' => Ok(BackMirror)
    case '|' => Ok(VerticalSplitter)
    case '-' => Ok(HorizontalSplitter)
    case _ => Err(PANIC)
  }

  /** Parsing and drawing are inverse: every cell reads back from its
      character, and a character reads as a cell only if it draws it. */
  lemma ParseGlyph(c: Cell, ch: char)
    ensures ParseCell(Glyph(c)) == Ok(c)
    ensures ParseCell(ch) == Ok(c) ==> Glyph(c) == ch
  {
  }

  function ParseRow(line: string): Result<seq<Cell>>
  {
    MapResults(line, ParseCell)
  }

  /** `solve`: part 1 enters at the top-left corner heading right. */
  method Solve(input: string) returns (r: Result<(nat, nat)>)
    ensures var grid := MapResults(Lines(input), ParseRow);
      r.Ok? <==> (grid.Ok? && Energized(grid.value, (0, 0), Right).Ok? &&
        grid.value != [] && |grid.value[0]| > 0 && AllOk(EdgeCounts(grid.value)))
    ensures var grid := MapResults(Lines(input), ParseRow);
      r.Ok? ==> (grid.Ok? && grid.value != [] && |grid.value[0]| > 0 &&
        r.value.0 == Energized(grid.value, (0, 0), Right).value && IsMax(EdgeCounts(grid.value), r.value.1))
  {
    var grid := MapResults(Lines(input), ParseRow);
    if grid.Err? {
      return Err(grid.reason);
    }
    var part1 := DoSolve(grid.value, (0, 0), Right);
    if part1.Err? {
      return Err(part1.reason);
    }
    var part2 := Part2(grid.value);
    if part2.Err? {
      return Err(part2.reason);
    }
    return Ok((part1.value, part2.value));
  }
}
