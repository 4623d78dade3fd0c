/** Day 11: Cosmic Expansion. Every row and column without a galaxy grows
    by a padding; the answer is the sum of the Manhattan distances between
    all pairs of galaxies in the expanded image. */
module Day11 {
  import opened Util

  const PANIC: string := "panic"

  /** Part 1 doubles each empty line; part 2 makes it a million wide. */
  const PART1_PADDING: nat := 1
  const PART2_PADDING: nat := 1_000_000 - 1

  /** `true` marks a galaxy. */
  type Space = seq<seq<bool>>

  /** A cell as (x, y). */
  type Pos = (nat, nat)

  function ParseSpace(lines: seq<string>): Space
  {
    seq(|lines|, y requires 0 <= y < |lines| => seq(|lines[y]|, x requires 0 <= x < |lines[y]| => lines[y][x] == '#'))
  }

  predicate Increasing(s: seq<nat>)
  {
    forall i, j :: 0 <= i < j < |s| ==> s[i] < s[j]
  }

  // --------------------------------------------------------- empty lines

  predicate RowEmpty(row: seq<bool>)
  {
    forall x :: 0 <= x < |row| ==> !row[x]
  }

  /** The indices of the galaxy-free rows among the first `n`, in order. */
  function EmptyRows(space: Space, n: nat): (r: seq<nat>)
    requires n <= |space|
    ensures forall y: nat :: y in r <==> y < n && RowEmpty(space[y])
    ensures forall i :: 0 <= i < |r| ==> r[i] < n
    ensures Increasing(r)
  {
    if n == 0 then []
    else
      var r := EmptyRows(space, n - 1);
      if RowEmpty(space[n - 1]) then r + [n - 1] else r
  }

  /** Rows `y` to `k` - 1 all reach column `x` and have no galaxy there. */
  predicate ClearThrough(space: Space, x: nat, y: nat, k: nat)
    requires k <= |space|
  {
    forall j :: y <= j < k ==> x < |space[j]| && !space[j][x]
  }

  /** `space.iter().all(|row| !row[x])` from row `y` on: it stops with
      `false` at the first galaxy, and indexing a row too short for `x`
      before that panics. */
  function ColumnEmptyFrom(space: Space, x: nat, y: nat): (r: Result<bool>)
    requires y <= |space|
    ensures r == Ok(true) <==> ClearThrough(space, x, y, |space|)
    ensures r.Err? <==> exists k :: y <= k < |space| && ClearThrough(space, x, y, k) && x >= |space[k]|
    decreases |space| - y
  {
    if y == |space| then Ok(true)
    else if x >= |space[y]| then
      assert ClearThrough(space, x, y, y);
      Err(PANIC)
    else if space[y][x] then Ok(false)
    else
      var r := ColumnEmptyFrom(space, x, y + 1);
      ClearThroughStep(space, x, y);
      r
  }

  lemma ClearThroughStep(space: Space, x: nat, y: nat)
    requires y < |space| && x < |space[y]| && !space[y][x]
    ensures forall k :: y + 1 <= k <= |space| ==> (ClearThrough(space, x, y, k) <==> ClearThrough(space, x, y + 1, k))
  {
  }

  /** Scanning column `x` panics. */
  predicate ColumnPanics(space: Space, x: nat)
  {
    ColumnEmptyFrom(space, x, 0).Err?
  }

  /** The galaxy-free columns among the first `n`, collected in order; the
      first column whose scan panics makes the whole collection panic. */
  function EmptyCols(space: Space, n: nat): (r: Result<seq<nat>>)
    ensures r.Ok? ==> forall x: nat :: x in r.value <==> x < n && ColumnEmptyFrom(space, x, 0) == Ok(true)
    ensures r.Ok? ==> (forall i :: 0 <= i < |r.value| ==> r.value[i] < n) && Increasing(r.value)
    ensures r.Err? <==> exists x: nat :: x < n && ColumnPanics(space, x)
  {
    if n == 0 then Ok([])
    else
      match EmptyCols(space, n - 1)
      case Err(e) => Err(e)
      case Ok(cols) =>
        var last: nat := n - 1;
        match ColumnEmptyFrom(space, last, 0)
        case Err(e) =>
          assert ColumnPanics(space, last);
          Err(e)
        case Ok(empty) => if empty then Ok(cols + [last]) else Ok(cols)
  }

  // ------------------------------------------------------------ expansion

  /** How many of `idx` are at most `v`: the `filter(..).count()` of the
      offsets. */
  function CountUpTo(idx: seq<nat>, v: nat): nat
  {
    if idx == [] then 0
    else CountUpTo(idx[..|idx| - 1], v) + (if idx[|idx| - 1] <= v then 1 else 0)
  }

  /** How many of `idx` lie in the interval (a, b]. */
  function CountIn(idx: seq<nat>, a: nat, b: nat): nat
  {
    if idx == [] then 0
    else CountIn(idx[..|idx| - 1], a, b) + (if a < idx[|idx| - 1] <= b then 1 else 0)
  }

  lemma {:induction false} CountUpToSplit(idx: seq<nat>, a: nat, b: nat)
    requires a <= b
    ensures CountUpTo(idx, b) == CountUpTo(idx, a) + CountIn(idx, a, b)
  {
    if idx != [] {
      CountUpToSplit(idx[..|idx| - 1], a, b);
    }
  }

  /** A coordinate after expansion: it moves by the padding for every
      empty line at or before it. */
  function Shift(v: nat, idx: seq<nat>, padding: nat): nat
  {
    v + CountUpTo(idx, v) * padding
  }

  /** Between two coordinates, the expanded gap is the original gap plus
      the padding for each empty line between them; so expansion keeps the
      order of coordinates. */
  lemma ShiftGap(a: nat, b: nat, idx: seq<nat>, padding: nat)
    requires a <= b
    ensures Shift(b, idx, padding) == Shift(a, idx, padding) + (b - a) + CountIn(idx, a, b) * padding
    ensures a < b ==> Shift(a, idx, padding) < Shift(b, idx, padding)
  {
    CountUpToSplit(idx, a, b);
    Distribute(CountUpTo(idx, a), CountIn(idx, a, b), padding);
  }

  function ExpandPos(p: Pos, rows: seq<nat>, cols: seq<nat>, padding: nat): Pos
  {
    (Shift(p.0, cols, padding), Shift(p.1, rows, padding))
  }

  function ExpandAll(g: seq<Pos>, rows: seq<nat>, cols: seq<nat>, padding: nat): (r: seq<Pos>)
    ensures |r| == |g|
  {
    seq(|g|, k requires 0 <= k < |g| => ExpandPos(g[k], rows, cols, padding))
  }

  // ------------------------------------------------------------- galaxies

  /** The galaxies among the first `n` cells of row `y`, left to right. */
  function RowGalaxies(row: seq<bool>, y: nat, n: nat): seq<Pos>
    requires n <= |row|
  {
    if n == 0 then []
    else RowGalaxies(row, y, n - 1) + (if row[n - 1] then [(n - 1, y)] else [])
  }

  /** The galaxies of the first `n` rows in reading order. */
  function Galaxies(space: Space, n: nat): seq<Pos>
    requires n <= |space|
  {
    if n == 0 then []
    else Galaxies(space, n - 1) + RowGalaxies(space[n - 1], n - 1, |space[n - 1]|)
  }

  predicate IsGalaxy(space: Space, p: Pos)
  {
    p.1 < |space| && p.0 < |space[p.1]| && space[p.1][p.0]
  }

  /** Reading order: by row, then by column. */
  predicate Before(p: Pos, q: Pos)
  {
    p.1 < q.1 || (p.1 == q.1 && p.0 < q.0)
  }

  lemma {:induction false} RowGalaxiesSpec(row: seq<bool>, y: nat, n: nat)
    requires n <= |row|
    ensures forall p :: p in RowGalaxies(row, y, n) <==> p.1 == y && p.0 < n && row[p.0]
    ensures forall i, j :: 0 <= i < j < |RowGalaxies(row, y, n)| ==> Before(RowGalaxies(row, y, n)[i], RowGalaxies(row, y, n)[j])
  {
    if n > 0 {
      RowGalaxiesSpec(row, y, n - 1);
    }
  }

  /** The list holds every galaxy of the first `n` rows and nothing else,
      each once, in reading order. */
  lemma {:induction false} GalaxiesSpec(space: Space, n: nat)
    requires n <= |space|
    ensures forall p :: p in Galaxies(space, n) <==> p.1 < n && IsGalaxy(space, p)
    ensures forall i, j :: 0 <= i < j < |Galaxies(space, n)| ==> Before(Galaxies(space, n)[i], Galaxies(space, n)[j])
  {
    if n > 0 {
      GalaxiesSpec(space, n - 1);
      var front, row := Galaxies(space, n - 1), RowGalaxies(space[n - 1], n - 1, |space[n - 1]|);
      RowGalaxiesSpec(space[n - 1], n - 1, |space[n - 1]|);
      var all := front + row;
      forall i, j | 0 <= i < j < |all| ensures Before(all[i], all[j]) {
        if j < |front| {
          assert all[i] == front[i] && all[j] == front[j];
        } else if i < |front| {
          assert all[i] == front[i] && all[i] in front && all[j] == row[j - |front|] && all[j] in row;
        } else {
          assert all[i] == row[i - |front|] && all[j] == row[j - |front|];
        }
      }
    }
  }

  /** The vertex loop of `do_solve`: every galaxy in reading order, moved by
      its row and column offsets. */
  method Expand(space: Space, rows: seq<nat>, cols: seq<nat>, padding: nat) returns (vertices: seq<Pos>)
    ensures vertices == ExpandAll(Galaxies(space, |space|), rows, cols, padding)
  {
    vertices := [];
    for y := 0 to |space|
      invariant vertices == ExpandAll(Galaxies(space, y), rows, cols, padding)
    {
      var yOffset := CountUpTo(rows, y) * padding;
      ghost var front := vertices;
      for x := 0 to |space[y]|
        invariant vertices == front + ExpandAll(RowGalaxies(space[y], y, x), rows, cols, padding)
      {
        if !space[y][x] {
          continue;
        }
        var xOffset := CountUpTo(cols, x) * padding;
        vertices := vertices + [(x + xOffset, y + yOffset)];
        ExpandAllAppend(RowGalaxies(space[y], y, x), [(x, y)], rows, cols, padding);
      }
      ExpandAllAppend(Galaxies(space, y), RowGalaxies(space[y], y, |space[y]|), rows, cols, padding);
    }
  }

  lemma ExpandAllAppend(a: seq<Pos>, b: seq<Pos>, rows: seq<nat>, cols: seq<nat>, padding: nat)
    ensures ExpandAll(a + b, rows, cols, padding) == ExpandAll(a, rows, cols, padding) + ExpandAll(b, rows, cols, padding)
  {
  }

  // ------------------------------------------------------------ distances

  function AbsDiff(a: nat, b: nat): nat
  {
    if a < b then b - a else a - b
  }

  function Dist(p: Pos, q: Pos): nat
  {
    AbsDiff(p.0, q.0) + AbsDiff(p.1, q.1)
  }

  /** The empty lines crossed between two cells: columns, then rows. */
  function Gap(p: Pos, q: Pos, rows: seq<nat>, cols: seq<nat>): nat
  {
    (if p.0 <= q.0 then CountIn(cols, p.0, q.0) else CountIn(cols, q.0, p.0)) +
    (if p.1 <= q.1 then CountIn(rows, p.1, q.1) else CountIn(rows, q.1, p.1))
  }

  /** Along one axis, the expanded gap is the original gap plus the padding
      for each empty line between. */
  lemma AxisGap(a: nat, b: nat, idx: seq<nat>, padding: nat)
    ensures AbsDiff(Shift(a, idx, padding), Shift(b, idx, padding)) ==
      AbsDiff(a, b) + (if a <= b then CountIn(idx, a, b) else CountIn(idx, b, a)) * padding
  {
    if a <= b { ShiftGap(a, b, idx, padding); } else { ShiftGap(b, a, idx, padding); }
  }

  lemma Distribute(a: nat, b: nat, c: nat)
    ensures (a + b) * c == a * c + b * c
  {
  }

  lemma AddScaled(x1: nat, y1: nat, g1: nat, x2: nat, y2: nat, g2: nat, p: nat)
    requires x1 == y1 + g1 * p && x2 == y2 + g2 * p
    ensures x1 + x2 == (y1 + y2) + (g1 + g2) * p
  {
    Distribute(g1, g2, p);
  }

  /** After expansion two galaxies are as far apart as before, plus the
      padding for every empty row and column between them. */
  lemma ExpandedDist(p: Pos, q: Pos, rows: seq<nat>, cols: seq<nat>, padding: nat)
    ensures Dist(ExpandPos(p, rows, cols, padding), ExpandPos(q, rows, cols, padding)) == Dist(p, q) + Gap(p, q, rows, cols) * padding
  {
    AxisGap(p.0, q.0, cols, padding);
    AxisGap(p.1, q.1, rows, padding);
    Distribute(if p.0 <= q.0 then CountIn(cols, p.0, q.0) else CountIn(cols, q.0, p.0),
               if p.1 <= q.1 then CountIn(rows, p.1, q.1) else CountIn(rows, q.1, p.1), padding);
  }

  /** The distances from `v[j]` to the `n` vertices before position `n`. */
  function ColPart(v: seq<Pos>, n: nat, j: nat): nat
    requires n <= |v| && j < |v|
  {
    if n == 0 then 0 else ColPart(v, n - 1, j) + Dist(v[n - 1], v[j])
  }

  /** The sum over unordered pairs among the first `n` vertices, each pair
      counted once, as the later vertex and all before it. */
  function Pairs(v: seq<Pos>, n: nat): nat
    requires n <= |v|
  {
    if n == 0 then 0 else Pairs(v, n - 1) + ColPart(v, n - 1, n - 1)
  }

  /** The inner loop's sum: from `v[i]` to each vertex after it and before
      `hi`. */
  function RowPart(v: seq<Pos>, i: nat, hi: nat): nat
    requires i < hi <= |v|
  {
    if hi == i + 1 then 0 else RowPart(v, i, hi - 1) + Dist(v[i], v[hi - 1])
  }

  /** The outer loop's sum after `n` rounds. */
  function Rows(v: seq<Pos>, n: nat, hi: nat): nat
    requires n <= hi <= |v|
  {
    if n == 0 then 0 else Rows(v, n - 1, hi) + RowPart(v, n - 1, hi)
  }

  lemma {:induction false} RowsSplit(v: seq<Pos>, n: nat, hi: nat)
    requires n < hi <= |v|
    ensures Rows(v, n, hi) == Rows(v, n, hi - 1) + ColPart(v, n, hi - 1)
  {
    if n > 0 {
      RowsSplit(v, n - 1, hi);
    }
  }

  /** Adding up row by row, as the loops do, visits every unordered pair
      exactly once. */
  lemma {:induction false} RowsArePairs(v: seq<Pos>, n: nat)
    requires n <= |v|
    ensures Rows(v, n, n) == Pairs(v, n)
  {
    if n > 0 {
      RowsArePairs(v, n - 1);
      RowsSplit(v, n - 1, n);
      assert RowPart(v, n - 1, n) == 0;
    }
  }

  /** The pairwise loop of `do_solve`. */
  method SumPairs(v: seq<Pos>) returns (answer: nat)
    ensures answer == Pairs(v, |v|)
  {
    answer := 0;
    for i := 0 to |v|
      invariant answer == Rows(v, i, |v|)
    {
      var start := v[i];
      ghost var before := answer;
      for j := i + 1 to |v|
        invariant answer == before + RowPart(v, i, j)
      {
        answer := answer + Dist(start, v[j]);
      }
    }
    RowsArePairs(v, |v|);
  }

  // ---------------------------------------------------- linear in padding

  function GapPart(g: seq<Pos>, n: nat, j: nat, rows: seq<nat>, cols: seq<nat>): nat
    requires n <= |g| && j < |g|
  {
    if n == 0 then 0 else GapPart(g, n - 1, j, rows, cols) + Gap(g[n - 1], g[j], rows, cols)
  }

  /** The empty lines crossed, summed over unordered pairs. */
  function Gaps(g: seq<Pos>, n: nat, rows: seq<nat>, cols: seq<nat>): nat
    requires n <= |g|
  {
    if n == 0 then 0 else Gaps(g, n - 1, rows, cols) + GapPart(g, n - 1, n - 1, rows, cols)
  }

  lemma {:induction false} ColPartExpanded(g: seq<Pos>, n: nat, j: nat, rows: seq<nat>, cols: seq<nat>, padding: nat)
    requires n <= |g| && j < |g|
    ensures ColPart(ExpandAll(g, rows, cols, padding), n, j) == ColPart(g, n, j) + GapPart(g, n, j, rows, cols) * padding
  {
    if n > 0 {
      ColPartExpanded(g, n - 1, j, rows, cols, padding);
      ExpandedDist(g[n - 1], g[j], rows, cols, padding);
      AddScaled(ColPart(ExpandAll(g, rows, cols, padding), n - 1, j), ColPart(g, n - 1, j), GapPart(g, n - 1, j, rows, cols),
                Dist(ExpandAll(g, rows, cols, padding)[n - 1], ExpandAll(g, rows, cols, padding)[j]), Dist(g[n - 1], g[j]),
                Gap(g[n - 1], g[j], rows, cols), padding);
    }
  }

  /** The answer is linear in the padding: the unexpanded pair sum plus the
      padding times the empty lines crossed by all pairs. */
  lemma {:induction false} PairsExpanded(g: seq<Pos>, n: nat, rows: seq<nat>, cols: seq<nat>, padding: nat)
    requires n <= |g|
    ensures Pairs(ExpandAll(g, rows, cols, padding), n) == Pairs(g, n) + Gaps(g, n, rows, cols) * padding
  {
    if n > 0 {
      PairsExpanded(g, n - 1, rows, cols, padding);
      ColPartExpanded(g, n - 1, n - 1, rows, cols, padding);
      AddScaled(Pairs(ExpandAll(g, rows, cols, padding), n - 1), Pairs(g, n - 1), Gaps(g, n - 1, rows, cols),
                ColPart(ExpandAll(g, rows, cols, padding), n - 1, n - 1), ColPart(g, n - 1, n - 1),
                GapPart(g, n - 1, n - 1, rows, cols), padding);
    }
  }

  // ---------------------------------------------------------------- solve

  /** The answer for one padding, as an unexpanded pair sum and a crossing
      count: what the solver computes when nothing panics. */
  function Answer(space: Space, cols: seq<nat>, padding: nat): nat
  {
    var g := Galaxies(space, |space|);
    Pairs(ExpandAll(g, EmptyRows(space, |space|), cols, padding), |g|)
  }

  /** `do_solve`: read the image, find the empty rows and columns, expand
      and add up the pairwise distances. An empty image panics at
      `space[0]`, and so does a column scan that reaches a short row. */
  method DoSolve(input: string, padding: nat) returns (r: Result<nat>)
    ensures var space := ParseSpace(Lines(input));
      r.Err? <==> space == [] || EmptyCols(space, |space[0]|).Err?
    ensures var space := ParseSpace(Lines(input));
      r.Ok? ==> space != [] && EmptyCols(space, |space[0]|).Ok? && r.value == Answer(space, EmptyCols(space, |space[0]|).value, padding)
  {
    var space := ParseSpace(Lines(input));
    if space == [] {
      return Err(PANIC);
    }
    var rows := EmptyRows(space, |space|);
    var cols := EmptyCols(space, |space[0]|);
    if cols.Err? {
      return Err(cols.reason);
    }
    var vertices := Expand(space, rows, cols.value, padding);
    var answer := SumPairs(vertices);
    return Ok(answer);
  }

  /** Both parts share the image; the second answer differs from the first
      only by the extra padding times the empty lines crossed. */
  method Solve(input: string) returns (r: Result<(nat, nat)>)
    ensures var space := ParseSpace(Lines(input));
      r.Ok? <==> space != [] && EmptyCols(space, |space[0]|).Ok?
    ensures var space := ParseSpace(Lines(input));
      r.Ok? ==> var cols := EmptyCols(space, |space[0]|).value;
        var g := Galaxies(space, |space|);
        var gaps := Gaps(g, |g|, EmptyRows(space, |space|), cols);
        r.value.0 == Pairs(g, |g|) + gaps * PART1_PADDING &&
        r.value.1 == Pairs(g, |g|) + gaps * PART2_PADDING
  {
    var part1 := DoSolve(input, PART1_PADDING);
    if part1.Err? {
      return Err(part1.reason);
    }
    var part2 := DoSolve(input, PART2_PADDING);
    assert part2.Ok?;
    var space := ParseSpace(Lines(input));
    var cols := EmptyCols(space, |space[0]|).value;
    var g := Galaxies(space, |space|);
    PairsExpanded(g, |g|, EmptyRows(space, |space|), cols, PART1_PADDING);
    PairsExpanded(g, |g|, EmptyRows(space, |space|), cols, PART2_PADDING);
    return Ok((part1.value, part2.value));
  }
}
