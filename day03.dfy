/** Gear ratios (day03/src/lib.rs). The schematic is a grid of bytes; a
    symbol is any byte other than a digit or '.', and a '*' is a gear.
    A first pass marks symbols and gears in two flat vectors indexed by
    `y * width + x`, where `width` is the length of the first line. A second
    pass scans each row for numbers. A number next to a symbol is added to
    part 1, and the gears next to it receive the number in one of their two
    slots. Part 2 sums the products of the gears that received exactly two numbers. */
module Day03 {
  import opened Util

  const U64: nat := 0x1_0000_0000_0000_0000

  /** The two number slots of a gear. `None` is a cell that is not a gear,
      or a gear that was next to more than two numbers. */
  type GearSlots = Option<(Option<nat>, Option<nat>)>

  const NewGear: GearSlots := Some((None, None))

  /** The flat index `y * width + x` of cell (x, y), written as repeated
      addition so that the proofs about it stay linear. */
  function Flat(y: nat, x: nat, width: nat): nat
  {
    if y == 0 then x else Flat(y - 1, x, width) + width
  }

  lemma {:induction false} FlatIsProduct(y: nat, x: nat, width: nat)
    ensures Flat(y, x, width) == y * width + x
  {
    if y > 0 {
      FlatIsProduct(y - 1, x, width);
    }
  }

  predicate IsSymbol(b: char)
  {
    !IsDigit(b) && b != '.'
  }

  // ------------------------------------------------------------ first pass

  /** The two flat vectors written by the first pass. */
  datatype Marks = Marks(symbols: seq<bool>, gears: seq<GearSlots>)

  /** The first pass at one byte whose flat index is `i`: a symbol is marked,
      a '*' also becomes a gear; an index past the end of a vector panics. */
  function MarkCell(m: Marks, i: nat, b: char): Result<Marks>
  {
    if !IsSymbol(b) then Ok(m)
    else if i >= |m.symbols| then Err("symbol index out of bounds")
    else if b != '*' then Ok(m.(symbols := m.symbols[i := true]))
    else if i >= |m.gears| then Err("gear index out of bounds")
    else Ok(Marks(m.symbols[i := true], m.gears[i := NewGear]))
  }

  /** The first pass over the first `x` bytes of row `y`. */
  function MarkRow(m: Marks, row: string, y: nat, width: nat, x: nat): Result<Marks>
    requires x <= |row|
  {
    if x == 0 then Ok(m)
    else match MarkRow(m, row, y, width, x - 1)
      case Err(e) => Err(e)
      case Ok(m') => MarkCell(m', Flat(y, x - 1, width), row[x - 1])
  }

  function EmptyMarks(size: nat): Marks
  {
    Marks(seq(size, _ => false), seq(size, _ => None))
  }

  /** The first pass over the first `y` rows, from vectors of `size` cells. */
  function MarkRows(lines: seq<string>, width: nat, size: nat, y: nat): Result<Marks>
    requires y <= |lines|
  {
    if y == 0 then Ok(EmptyMarks(size))
    else match MarkRows(lines, width, size, y - 1)
      case Err(e) => Err(e)
      case Ok(m) => MarkRow(m, lines[y - 1], y - 1, width, |lines[y - 1]|)
  }

  lemma {:induction false} MarkRowErrorIsFinal(m: Marks, row: string, y: nat, width: nat, x: nat)
    requires x <= |row| && MarkRow(m, row, y, width, x).Err?
    ensures MarkRow(m, row, y, width, |row|).Err?
    decreases |row| - x
  {
    if x < |row| {
      MarkRowErrorIsFinal(m, row, y, width, x + 1);
    }
  }

  lemma {:induction false} MarkRowsErrorIsFinal(lines: seq<string>, width: nat, size: nat, y: nat)
    requires y <= |lines| && MarkRows(lines, width, size, y).Err?
    ensures MarkRows(lines, width, size, |lines|).Err?
    decreases |lines| - y
  {
    if y < |lines| {
      MarkRowsErrorIsFinal(lines, width, size, y + 1);
    }
  }

  /** The first pass: two vectors of `width * height` cells, written in place. */
  method MarkSymbols(lines: seq<string>, width: nat) returns (r: Result<(array<bool>, array<GearSlots>)>)
    ensures r.Err? <==> MarkRows(lines, width, width * |lines|, |lines|).Err?
    ensures r.Ok? ==> fresh(r.value.0) && fresh(r.value.1) && r.value.0.Length == r.value.1.Length
    ensures r.Ok? ==> MarkRows(lines, width, width * |lines|, |lines|).value == Marks(r.value.0[..], r.value.1[..])
  {
    var size := width * |lines|;
    assert size == Flat(|lines|, 0, width) by { FlatIsProduct(|lines|, 0, width); }
    var symbols := new bool[size](_ => false);
    var gears := new GearSlots[size](_ => None);
    assert Marks(symbols[..], gears[..]) == EmptyMarks(size);
    var y := 0;
    while y < |lines|
      invariant 0 <= y <= |lines|
      invariant MarkRows(lines, width, size, y).Ok?
      invariant MarkRows(lines, width, size, y).value == Marks(symbols[..], gears[..])
    {
      var row := lines[y];
      ghost var start := MarkRows(lines, width, size, y).value;
      var x := 0;
      while x < |row|
        invariant 0 <= x <= |row|
        invariant MarkRow(start, row, y, width, x).Ok?
        invariant MarkRow(start, row, y, width, x).value == Marks(symbols[..], gears[..])
      {
        var b := row[x];
        var i := y * width + x;
        assert i == Flat(y, x, width) by { FlatIsProduct(y, x, width); }
        ghost var before := Marks(symbols[..], gears[..]);
        if IsSymbol(b) {
          if i >= symbols.Length {
            MarkRowErrorIsFinal(start, row, y, width, x + 1);
            MarkRowsErrorIsFinal(lines, width, size, y + 1);
            return Err("symbol index out of bounds");
          }
          symbols[i] := true;
          if b == '*' {
            gears[i] := NewGear;
          }
        }
        assert MarkCell(before, i, b) == Ok(Marks(symbols[..], gears[..]));
        x := x + 1;
      }
      y := y + 1;
    }
    return Ok((symbols, gears));
  }

  // ---------------------------------------------- the first pass on a grid

  /** Every row is as long as the first one. */
  predicate Rectangular(lines: seq<string>, width: nat)
  {
    forall y :: 0 <= y < |lines| ==> |lines[y]| == width
  }

  lemma {:induction false} FlatShift(y: nat, x: nat, width: nat)
    ensures Flat(y, x, width) == Flat(y, 0, width) + x
  {
    if y > 0 {
      FlatShift(y - 1, x, width);
    }
  }

  lemma {:induction false} FlatIndexBound(y: nat, x: nat, width: nat, height: nat)
    requires y < height && x < width
    ensures Flat(y, x, width) < Flat(height, 0, width)
  {
    if y < height - 1 {
      FlatIndexBound(y, x, width, height - 1);
    } else {
      FlatShift(y, x, width);
    }
  }

  /** Within the width, distinct cells have distinct flat indices. */
  lemma FlatIndexInjective(y1: nat, x1: nat, y2: nat, x2: nat, width: nat)
    requires x1 < width && x2 < width && (y1, x1) != (y2, x2)
    ensures Flat(y1, x1, width) != Flat(y2, x2, width)
  {
    FlatShift(y1, x1, width);
    FlatShift(y2, x2, width);
    if y1 < y2 {
      FlatIndexBound(y1, x1, width, y2);
    } else if y2 < y1 {
      FlatIndexBound(y2, x2, width, y1);
    }
  }

  /** Cell (yy, xx) comes before cell (y, x) in reading order. */
  predicate Before(yy: nat, xx: nat, y: nat, x: nat)
  {
    yy < y || (yy == y && xx < x)
  }

  /** The vectors hold the marks of exactly the cells before (y, x). */
  predicate MarkedUpTo(m: Marks, lines: seq<string>, width: nat, y: nat, x: nat)
    requires Rectangular(lines, width)
  {
    |m.symbols| == Flat(|lines|, 0, width) && |m.gears| == Flat(|lines|, 0, width) &&
    forall yy, xx {:trigger lines[yy][xx]} :: 0 <= yy < |lines| && 0 <= xx < width ==>
      Flat(yy, xx, width) < Flat(|lines|, 0, width) &&
      m.symbols[Flat(yy, xx, width)] == (Before(yy, xx, y, x) && IsSymbol(lines[yy][xx])) &&
      m.gears[Flat(yy, xx, width)] == (if Before(yy, xx, y, x) && lines[yy][xx] == '*' then NewGear else None)
  }

  lemma MarkedAt(m: Marks, lines: seq<string>, width: nat, y: nat, x: nat, yy: nat, xx: nat)
    requires Rectangular(lines, width) && MarkedUpTo(m, lines, width, y, x)
    requires yy < |lines| && xx < width
    ensures Flat(yy, xx, width) < |m.symbols| == |m.gears|
    ensures m.symbols[Flat(yy, xx, width)] == (Before(yy, xx, y, x) && IsSymbol(lines[yy][xx]))
    ensures m.gears[Flat(yy, xx, width)] == (if Before(yy, xx, y, x) && lines[yy][xx] == '*' then NewGear else None)
  {
    var c := lines[yy][xx];
    assert Flat(yy, xx, width) < Flat(|lines|, 0, width);
    assert m.symbols[Flat(yy, xx, width)] == (Before(yy, xx, y, x) && IsSymbol(c));
  }

  /** What one step of the first pass does to cell `j`. */
  lemma MarkCellAt(m: Marks, i: nat, b: char, j: nat)
    requires i < |m.symbols| && |m.gears| == |m.symbols| && j < |m.symbols|
    ensures MarkCell(m, i, b).Ok?
    ensures MarkCell(m, i, b).value.symbols[j] == if j == i then IsSymbol(b) || m.symbols[j] else m.symbols[j]
    ensures MarkCell(m, i, b).value.gears[j] == if j == i && b == '*' then NewGear else m.gears[j]
    ensures |MarkCell(m, i, b).value.symbols| == |m.symbols| && |MarkCell(m, i, b).value.gears| == |m.gears|
  {
  }

  lemma {:induction false} MarkRowOfGrid(m: Marks, lines: seq<string>, width: nat, y: nat, x: nat)
    requires Rectangular(lines, width) && y < |lines| && x <= width
    requires MarkedUpTo(m, lines, width, y, 0)
    ensures MarkRow(m, lines[y], y, width, x).Ok?
    ensures MarkedUpTo(MarkRow(m, lines[y], y, width, x).value, lines, width, y, x)
  {
    if x > 0 {
      MarkRowOfGrid(m, lines, width, y, x - 1);
      var m' := MarkRow(m, lines[y], y, width, x - 1).value;
      var i := Flat(y, x - 1, width);
      FlatIndexBound(y, x - 1, width, |lines|);
      var b := lines[y][x - 1];
      MarkCellAt(m', i, b, i);
      var m'' := MarkCell(m', i, b).value;
      assert MarkRow(m, lines[y], y, width, x).value == m'';
      forall yy, xx | 0 <= yy < |lines| && 0 <= xx < width
        ensures Flat(yy, xx, width) < Flat(|lines|, 0, width)
        ensures m''.symbols[Flat(yy, xx, width)] == (Before(yy, xx, y, x) && IsSymbol(lines[yy][xx]))
        ensures m''.gears[Flat(yy, xx, width)] == (if Before(yy, xx, y, x) && lines[yy][xx] == '*' then NewGear else None)
      {
        var j := Flat(yy, xx, width);
        FlatIndexBound(yy, xx, width, |lines|);
        MarkCellAt(m', i, b, j);
        if (yy, xx) != (y, x - 1) {
          FlatIndexInjective(yy, xx, y, x - 1, width);
          assert Before(yy, xx, y, x) == Before(yy, xx, y, x - 1);
          assert m''.gears[j] == m'.gears[j];
          MarkedAt(m', lines, width, y, x - 1, yy, xx);
        } else {
          MarkedAt(m', lines, width, y, x - 1, yy, xx);
          assert Before(yy, xx, y, x);
          if b == '*' {
            assert m''.gears[j] == NewGear;
          } else {
            assert m''.gears[j] == None;
          }
        }
      }
    }
  }

  lemma {:induction false} MarkRowsOfGrid(lines: seq<string>, width: nat, y: nat)
    requires Rectangular(lines, width) && y <= |lines|
    ensures MarkRows(lines, width, Flat(|lines|, 0, width), y).Ok?
    ensures MarkedUpTo(MarkRows(lines, width, Flat(|lines|, 0, width), y).value, lines, width, y, 0)
  {
    if y == 0 {
      forall yy, xx | 0 <= yy < |lines| && 0 <= xx < width ensures Flat(yy, xx, width) < Flat(|lines|, 0, width) {
        FlatIndexBound(yy, xx, width, |lines|);
      }
    } else {
      MarkRowsOfGrid(lines, width, y - 1);
      var m := MarkRows(lines, width, Flat(|lines|, 0, width), y - 1).value;
      MarkRowOfGrid(m, lines, width, y - 1, width);
      var m' := MarkRow(m, lines[y - 1], y - 1, width, width).value;
      assert MarkRows(lines, width, Flat(|lines|, 0, width), y).value == m';
      forall yy, xx | 0 <= yy < |lines| && 0 <= xx < width
        ensures Flat(yy, xx, width) < Flat(|lines|, 0, width)
        ensures m'.symbols[Flat(yy, xx, width)] == (Before(yy, xx, y, 0) && IsSymbol(lines[yy][xx]))
        ensures m'.gears[Flat(yy, xx, width)] == (if Before(yy, xx, y, 0) && lines[yy][xx] == '*' then NewGear else None)
      {
        MarkedAt(m', lines, width, y - 1, width, yy, xx);
        assert Before(yy, xx, y - 1, width) == Before(yy, xx, y, 0);
      }
    }
  }

  /** On a rectangular grid the first pass never panics, and it marks exactly
      the symbols, and as gears exactly the '*', each at its own cell. */
  lemma MarksOfGrid(lines: seq<string>, width: nat)
    requires Rectangular(lines, width)
    ensures MarkRows(lines, width, Flat(|lines|, 0, width), |lines|).Ok?
    ensures |MarkRows(lines, width, Flat(|lines|, 0, width), |lines|).value.symbols| == Flat(|lines|, 0, width)
    ensures |MarkRows(lines, width, Flat(|lines|, 0, width), |lines|).value.gears| == Flat(|lines|, 0, width)
    ensures forall y, x {:trigger lines[y][x]} :: 0 <= y < |lines| && 0 <= x < width ==>
      var m := MarkRows(lines, width, Flat(|lines|, 0, width), |lines|).value;
      Flat(y, x, width) < Flat(|lines|, 0, width) &&
      m.symbols[Flat(y, x, width)] == IsSymbol(lines[y][x]) &&
      m.gears[Flat(y, x, width)] == (if lines[y][x] == '*' then NewGear else None)
  {
    MarkRowsOfGrid(lines, width, |lines|);
    var m := MarkRows(lines, width, Flat(|lines|, 0, width), |lines|).value;
    forall y, x | 0 <= y < |lines| && 0 <= x < width
      ensures Flat(y, x, width) < Flat(|lines|, 0, width)
      ensures m.symbols[Flat(y, x, width)] == IsSymbol(lines[y][x])
      ensures m.gears[Flat(y, x, width)] == (if lines[y][x] == '*' then NewGear else None)
    {
      MarkedAt(m, lines, width, |lines|, 0, y, x);
    }
  }

  // ----------------------------------------------------------- second pass

  /** The state of the second pass: the part 1 total, the gears seen next to
      the digits read since the last credited number (this list lives across
      rows), the gear vector, and, per row, whether a symbol was seen next to
      the current number and the number itself. */
  datatype Scan = Scan(part1: nat, nearby: seq<(nat, nat)>, gears: seq<GearSlots>, found: bool, number: nat)

  /** The nine offsets (dx, dy) in the order of the nested loops: dx outer, dy inner. */
  const Offsets: seq<(int, int)> := [(-1, -1), (-1, 0), (-1, 1), (0, -1), (0, 0), (0, 1), (1, -1), (1, 0), (1, 1)]

  /** The neighbour of (x, y) at offset d as the code looks it up: a negative
      coordinate is skipped, and so is a flat index past the end of the
      vectors, but nothing checks that the column is inside the row. */
  function NeighbourAsWritten(x: nat, y: nat, d: (int, int), width: nat, size: nat): Option<(nat, nat)>
  {
    if x + d.0 < 0 || y + d.1 < 0 then None
    else if Flat(y + d.1, x + d.0, width) < size then Some((x + d.0, y + d.1))
    else None
  }

  /** The neighbour of (x, y) at offset d, when it is a cell of the grid. */
  function Neighbour(x: nat, y: nat, d: (int, int), width: nat, size: nat): Option<(nat, nat)>
  {
    if x + d.0 < 0 || y + d.1 < 0 || x + d.0 >= width then None
    else if Flat(y + d.1, x + d.0, width) < size then Some((x + d.0, y + d.1))
    else None
  }

  /** The neighbour at offset number `j` exists and holds a symbol. */
  predicate SymbolNear(symbols: seq<bool>, x: nat, y: nat, j: nat, width: nat)
    requires j < 9
  {
    match Neighbour(x, y, Offsets[j], width, |symbols|)
    case None => false
    case Some(q) => symbols[Flat(q.1, q.0, width)]
  }

  /** One neighbour lookup: a symbol there sets the flag, and a gear there is
      remembered for the current number. */
  function LookAt(s: Scan, symbols: seq<bool>, p: Option<(nat, nat)>, width: nat): Scan
  {
    match p
    case None => s
    case Some(q) =>
      var i := Flat(q.1, q.0, width);
      if i < |symbols| && symbols[i] then
        s.(found := true, nearby := if i < |s.gears| && s.gears[i].Some? then s.nearby + [q] else s.nearby)
      else s
  }

  /** The first `k` of the nine neighbour lookups around the digit at (x, y). */
  function Surroundings(s: Scan, symbols: seq<bool>, x: nat, y: nat, width: nat, k: nat): (r: Scan)
    requires k <= 9
    ensures r.part1 == s.part1 && r.gears == s.gears && r.number == s.number
  {
    if k == 0 then s
    else LookAt(Surroundings(s, symbols, x, y, width, k - 1), symbols, Neighbour(x, y, Offsets[k - 1], width, |symbols|), width)
  }

  /** The lookups set the flag exactly when some neighbour is a symbol, and
      remember only cells of the grid. */
  lemma {:induction false} SurroundingsFindSymbols(s: Scan, symbols: seq<bool>, x: nat, y: nat, width: nat, k: nat)
    requires k <= 9
    ensures Surroundings(s, symbols, x, y, width, k).found <==>
      s.found || exists j :: 0 <= j < k && SymbolNear(symbols, x, y, j, width)
    ensures k == 9 ==> (Surroundings(s, symbols, x, y, width, k).found <==> s.found || DigitNearSymbol(symbols, x, y, width))
    ensures Pending(s.nearby, width, |symbols|) ==> Pending(Surroundings(s, symbols, x, y, width, k).nearby, width, |symbols|)
  {
    if k > 0 {
      SurroundingsFindSymbols(s, symbols, x, y, width, k - 1);
      LookAtNear(Surroundings(s, symbols, x, y, width, k - 1), symbols, x, y, width, k - 1);
      NearUpTo(s.found, symbols, x, y, width, k);
    }
  }

  /** One lookup sets the flag exactly when that neighbour is a symbol, and
      remembers only a cell of the grid. */
  lemma LookAtNear(s: Scan, symbols: seq<bool>, x: nat, y: nat, width: nat, j: nat)
    requires j < 9
    ensures LookAt(s, symbols, Neighbour(x, y, Offsets[j], width, |symbols|), width).found <==>
      s.found || SymbolNear(symbols, x, y, j, width)
    ensures Pending(s.nearby, width, |symbols|) ==>
      Pending(LookAt(s, symbols, Neighbour(x, y, Offsets[j], width, |symbols|), width).nearby, width, |symbols|)
  {
  }

  /** Some of the first `k` neighbours is a symbol exactly when one of the
      first `k - 1` is or the last is. */
  lemma NearUpTo(found: bool, symbols: seq<bool>, x: nat, y: nat, width: nat, k: nat)
    requires 0 < k <= 9
    ensures (found || exists j :: 0 <= j < k && SymbolNear(symbols, x, y, j, width)) <==>
      (found || (exists j :: 0 <= j < k - 1 && SymbolNear(symbols, x, y, j, width)) || SymbolNear(symbols, x, y, k - 1, width))
  {
  }

  /** Every remembered position is a cell of the grid inside the vectors. */
  predicate Pending(nearby: seq<(nat, nat)>, width: nat, size: nat)
  {
    forall k :: 0 <= k < |nearby| ==> nearby[k].0 < width && Flat(nearby[k].1, nearby[k].0, width) < size
  }

  /** A gear receives a number: the first fills the left slot, the second the
      right slot, and any further one, or one reaching a cell that is no
      longer a gear, leaves `None`. */
  function Credit(g: GearSlots, n: nat): GearSlots
  {
    match g
    case Some((None, None)) => Some((Some(n), None))
    case Some((Some(l), None)) => Some((Some(l), Some(n)))
    case _ => None
  }

  /** A gear that starts empty and receives the numbers `ns` in order. */
  function Credits(g: GearSlots, ns: seq<nat>): GearSlots
  {
    if ns == [] then g else Credit(Credits(g, ns[..|ns| - 1]), ns[|ns| - 1])
  }

  /** The product a gear adds to part 2: only a gear holding two numbers counts. */
  function GearProduct(g: GearSlots): nat
  {
    match g
    case Some((Some(l), Some(r))) => l * r
    case _ => 0
  }

  /** A gear ends with both slots filled exactly when it received two numbers,
      and then part 2 gets their product; a third number disqualifies it for good. */
  lemma {:induction false} GearLifecycle(ns: seq<nat>)
    ensures Credits(NewGear, ns) ==
      if |ns| == 0 then NewGear
      else if |ns| == 1 then Some((Some(ns[0]), None))
      else if |ns| == 2 then Some((Some(ns[0]), Some(ns[1])))
      else None
    ensures GearProduct(Credits(NewGear, ns)) == if |ns| == 2 then ns[0] * ns[1] else 0
  {
    if ns != [] {
      GearLifecycle(ns[..|ns| - 1]);
    }
  }

  /** A strict lexicographic order on (x, y) positions, the order of Rust tuples. */
  predicate Less(p: (nat, nat), q: (nat, nat))
  {
    p.0 < q.0 || (p.0 == q.0 && p.1 < q.1)
  }

  predicate StrictlyIncreasing(ps: seq<(nat, nat)>)
  {
    forall i, j :: 0 <= i < j < |ps| ==> Less(ps[i], ps[j])
  }

  /** Inserts `p` into an increasing sequence, unless it is there already. */
  function InsertUnique(p: (nat, nat), ps: seq<(nat, nat)>): seq<(nat, nat)>
  {
    if ps == [] then [p]
    else if p == ps[0] then ps
    else if Less(p, ps[0]) then [p] + ps
    else [ps[0]] + InsertUnique(p, ps[1..])
  }

  lemma {:induction false} InsertUniqueSpec(p: (nat, nat), ps: seq<(nat, nat)>)
    requires StrictlyIncreasing(ps)
    ensures StrictlyIncreasing(InsertUnique(p, ps))
    ensures forall q :: q in InsertUnique(p, ps) <==> q == p || q in ps
  {
    if ps != [] && p != ps[0] && !Less(p, ps[0]) {
      var a, rest := ps[0], ps[1..];
      assert ps == [a] + rest;
      InsertUniqueSpec(p, rest);
      var r := InsertUnique(p, rest);
      assert InsertUnique(p, ps) == [a] + r;
      assert forall q :: q in rest ==> Less(a, q);
      ConsIncreasing(a, r);
    }
  }

  /** A smaller head keeps an increasing sequence increasing. */
  lemma ConsIncreasing(a: (nat, nat), r: seq<(nat, nat)>)
    requires StrictlyIncreasing(r)
    requires forall q :: q in r ==> Less(a, q)
    ensures StrictlyIncreasing([a] + r)
  {
    forall i, j | 0 <= i < j < |[a] + r|
      ensures Less(([a] + r)[i], ([a] + r)[j])
    {
      assert ([a] + r)[j] == r[j - 1];
      if i > 0 {
        assert ([a] + r)[i] == r[i - 1];
      }
    }
  }

  /** `sort_unstable` followed by `dedup`: the positions in increasing order,
      each once. */
  function SortDedup(ps: seq<(nat, nat)>): seq<(nat, nat)>
  {
    if ps == [] then [] else InsertUnique(ps[|ps| - 1], SortDedup(ps[..|ps| - 1]))
  }

  /** The result is strictly increasing, so no position occurs twice, and it
      holds exactly the positions given. */
  lemma {:induction false} SortDedupSpec(ps: seq<(nat, nat)>)
    ensures StrictlyIncreasing(SortDedup(ps))
    ensures forall q :: q in SortDedup(ps) <==> q in ps
  {
    if ps != [] {
      var init := ps[..|ps| - 1];
      SortDedupSpec(init);
      InsertUniqueSpec(ps[|ps| - 1], SortDedup(init));
      assert ps == init + [ps[|ps| - 1]];
    }
  }

  /** The drain loop: every position in `ps`, in order, credits its gear with `n`. */
  function CreditAll(gears: seq<GearSlots>, ps: seq<(nat, nat)>, width: nat, n: nat): (r: seq<GearSlots>)
    ensures |r| == |gears|
  {
    if ps == [] then gears
    else
      var g := CreditAll(gears, ps[..|ps| - 1], width, n);
      var i := Flat(ps[|ps| - 1].1, ps[|ps| - 1].0, width);
      if i < |g| then g[i := Credit(g[i], n)] else g
  }

  /** With distinct positions inside the grid, each gear is credited at most
      once: the gears listed receive the number once, all others are untouched. */
  lemma {:induction false} CreditAllOnce(gears: seq<GearSlots>, ps: seq<(nat, nat)>, width: nat, n: nat, q: (nat, nat))
    requires StrictlyIncreasing(ps) && Pending(ps, width, |gears|)
    requires q.0 < width && Flat(q.1, q.0, width) < |gears|
    ensures CreditAll(gears, ps, width, n)[Flat(q.1, q.0, width)] ==
      if q in ps then Credit(gears[Flat(q.1, q.0, width)], n) else gears[Flat(q.1, q.0, width)]
  {
    if ps != [] {
      var init := ps[..|ps| - 1];
      var p := ps[|ps| - 1];
      assert StrictlyIncreasing(init) && Pending(init, width, |gears|);
      CreditAllOnce(gears, init, width, n, q);
      if q != p {
        FlatIndexInjective(q.1, q.0, p.1, p.0, width);
        assert q in ps <==> q in init;
      }
    }
  }

  /** The end of a number, at a non-digit or at the end of its row. A number
      next to a symbol is added to part 1; if it is not 0, each gear seen next
      to it is credited once and the list is emptied. A 0 credits nothing and
      keeps the list. */
  function Ended(s: Scan, width: nat): Scan
  {
    if !s.found then s
    else if s.number == 0 then s.(part1 := (s.part1 + s.number) % U64)
    else s.(part1 := (s.part1 + s.number) % U64, nearby := [],
            gears := CreditAll(s.gears, SortDedup(s.nearby), width, s.number))
  }

  /** One byte of a row: a digit extends the number (modulo 2^64) and looks
      around; any other byte ends the number and resets the flag and the number. */
  function ScanByte(s: Scan, symbols: seq<bool>, row: string, x: nat, y: nat, width: nat): Scan
    requires x < |row|
  {
    if IsDigit(row[x]) then
      Surroundings(s.(number := (s.number * 10 + DigitValue(row[x])) % U64), symbols, x, y, width, 9)
    else Ended(s, width).(found := false, number := 0)
  }

  /** The second pass over the first `x` bytes of row `y`. */
  function ScanRow(s: Scan, symbols: seq<bool>, row: string, y: nat, width: nat, x: nat): Scan
    requires x <= |row|
  {
    if x == 0 then s else ScanByte(ScanRow(s, symbols, row, y, width, x - 1), symbols, row, x - 1, y, width)
  }

  /** The second pass over the first `y` rows; each row starts with a clear
      flag and number, and its last number ends at the end of the row. */
  function ScanRows(lines: seq<string>, symbols: seq<bool>, gears: seq<GearSlots>, width: nat, y: nat): Scan
    requires y <= |lines|
  {
    if y == 0 then Scan(0, [], gears, false, 0)
    else
      var s := ScanRows(lines, symbols, gears, width, y - 1).(found := false, number := 0);
      Ended(ScanRow(s, symbols, lines[y - 1], y - 1, width, |lines[y - 1]|), width)
  }

  // ------------------------------------------------------------ the scan

  /** One neighbour lookup of the nested loops. */
  method Look(symbols: array<bool>, gears: array<GearSlots>, x: nat, y: nat, d: (int, int), width: nat,
              nearby: seq<(nat, nat)>, found: bool, ghost s: Scan)
    returns (nearby': seq<(nat, nat)>, found': bool)
    requires s.nearby == nearby && s.found == found && s.gears == gears[..]
    ensures LookAt(s, symbols[..], Neighbour(x, y, d, width, symbols.Length), width) == s.(nearby := nearby', found := found')
  {
    nearby', found' := nearby, found;
    if x + d.0 >= 0 && y + d.1 >= 0 {
      var nx: nat, ny: nat := x + d.0, y + d.1;
      var i := ny * width + nx;
      assert i == Flat(ny, nx, width) by { FlatIsProduct(ny, nx, width); }
      if nx < width && i < symbols.Length && symbols[i] {
        found' := true;
        if i < gears.Length && gears[i].Some? {
          nearby' := nearby' + [(nx, ny)];
        }
      }
    }
  }

  /** The nested loops over dx and dy around the digit at (x, y). */
  method LookAround(symbols: array<bool>, gears: array<GearSlots>, x: nat, y: nat, width: nat,
                    nearby: seq<(nat, nat)>, found: bool, ghost s: Scan)
    returns (nearby': seq<(nat, nat)>, found': bool)
    requires s.nearby == nearby && s.found == found && s.gears == gears[..]
    ensures Surroundings(s, symbols[..], x, y, width, 9) == s.(nearby := nearby', found := found')
  {
    nearby', found' := nearby, found;
    for dx := -1 to 2
      invariant Surroundings(s, symbols[..], x, y, width, 3 * (dx + 1)) == s.(nearby := nearby', found := found')
    {
      for dy := -1 to 2
        invariant Surroundings(s, symbols[..], x, y, width, 3 * (dx + 1) + (dy + 1)) == s.(nearby := nearby', found := found')
      {
        SurroundingsNext(s, symbols[..], x, y, width, dx, dy);
        nearby', found' := Look(symbols, gears, x, y, (dx, dy), width, nearby', found', s.(nearby := nearby', found := found'));
      }
    }
  }

  /** Lookup number `3 * (dx + 1) + (dy + 1)` is the one at offset (dx, dy). */
  lemma SurroundingsNext(s: Scan, symbols: seq<bool>, x: nat, y: nat, width: nat, dx: int, dy: int)
    requires -1 <= dx <= 1 && -1 <= dy <= 1
    ensures Surroundings(s, symbols, x, y, width, 3 * (dx + 1) + (dy + 1) + 1) ==
      LookAt(Surroundings(s, symbols, x, y, width, 3 * (dx + 1) + (dy + 1)), symbols, Neighbour(x, y, (dx, dy), width, |symbols|), width)
  {
    assert Offsets[3 * (dx + 1) + (dy + 1)] == (dx, dy);
  }

  /** The drain loop, crediting the gears in place. */
  method CreditGears(gears: array<GearSlots>, ps: seq<(nat, nat)>, width: nat, n: nat)
    requires Pending(ps, width, gears.Length)
    modifies gears
    ensures gears[..] == CreditAll(old(gears[..]), ps, width, n)
  {
    for k := 0 to |ps|
      invariant gears[..] == CreditAll(old(gears[..]), ps[..k], width, n)
    {
      var (x, y) := ps[k];
      var i := y * width + x;
      assert i == Flat(y, x, width) by { FlatIsProduct(y, x, width); }
      assert ps[..k + 1][..k] == ps[..k];
      gears[i] := Credit(gears[i], n);
    }
    assert ps[..|ps|] == ps;
  }

  /** The end of a number, written once for both places where a number ends. */
  method FinishNumber(gears: array<GearSlots>, width: nat, part1: nat, nearby: seq<(nat, nat)>, found: bool, number: nat)
    returns (part1': nat, nearby': seq<(nat, nat)>)
    requires Pending(nearby, width, gears.Length)
    modifies gears
    ensures Ended(Scan(part1, nearby, old(gears[..]), found, number), width) ==
      Scan(part1', nearby', gears[..], found, number)
    ensures Pending(nearby', width, gears.Length)
  {
    part1', nearby' := part1, nearby;
    if found {
      part1' := (part1 + number) % U64;
      if number != 0 {
        var ps := SortDedup(nearby);
        assert Pending(ps, width, gears.Length) by {
          SortDedupSpec(nearby);
          forall k | 0 <= k < |ps| ensures ps[k].0 < width && Flat(ps[k].1, ps[k].0, width) < gears.Length {
            assert ps[k] in nearby;
          }
        }
        CreditGears(gears, ps, width, number);
        nearby' := [];
      }
    }
  }

  /** A digit: the number grows by one decimal place, modulo 2^64, and the
      nine neighbours are looked at. */
  method ReadDigit(row: string, x: nat, y: nat, symbols: array<bool>, gears: array<GearSlots>, width: nat,
                   part1: nat, nearby: seq<(nat, nat)>, found: bool, number: nat)
    returns (nearby': seq<(nat, nat)>, found': bool, number': nat)
    requires x < |row| && IsDigit(row[x])
    requires symbols.Length == gears.Length && Pending(nearby, width, gears.Length)
    ensures ScanByte(Scan(part1, nearby, gears[..], found, number), symbols[..], row, x, y, width) ==
      Scan(part1, nearby', gears[..], found', number')
    ensures Pending(nearby', width, gears.Length)
  {
    number' := (number * 10 + DigitValue(row[x])) % U64;
    ghost var s := Scan(part1, nearby, gears[..], found, number');
    nearby', found' := LookAround(symbols, gears, x, y, width, nearby, found, s);
    SurroundingsFindSymbols(s, symbols[..], x, y, width, 9);
  }

  /** The loop over the bytes of row `y`; the number still open at the end
      of the row is returned with its flag. */
  method ScanLine(row: string, y: nat, symbols: array<bool>, gears: array<GearSlots>, width: nat,
                  part1: nat, nearby: seq<(nat, nat)>)
    returns (part1': nat, nearby': seq<(nat, nat)>, found: bool, number: nat)
    requires symbols.Length == gears.Length && Pending(nearby, width, gears.Length)
    modifies gears
    ensures ScanRow(Scan(part1, nearby, old(gears[..]), false, 0), symbols[..], row, y, width, |row|) ==
      Scan(part1', nearby', gears[..], found, number)
    ensures Pending(nearby', width, gears.Length)
  {
    part1', nearby', found, number := part1, nearby, false, 0;
    ghost var start := Scan(part1, nearby, gears[..], found, number);
    var x := 0;
    while x < |row|
      invariant 0 <= x <= |row|
      invariant Pending(nearby', width, gears.Length)
      invariant ScanRow(start, symbols[..], row, y, width, x) == Scan(part1', nearby', gears[..], found, number)
    {
      var b := row[x];
      ghost var before := Scan(part1', nearby', gears[..], found, number);
      if IsDigit(b) {
        nearby', found, number := ReadDigit(row, x, y, symbols, gears, width, part1', nearby', found, number);
      } else {
        part1', nearby' := FinishNumber(gears, width, part1', nearby', found, number);
        found := false;
        number := 0;
      }
      assert ScanByte(before, symbols[..], row, x, y, width) == Scan(part1', nearby', gears[..], found, number);
      x := x + 1;
    }
  }

  /** The second pass: each row is scanned byte by byte; a number ends at a
      non-digit and at the end of its row. */
  method ScanNumbers(lines: seq<string>, symbols: array<bool>, gears: array<GearSlots>, width: nat) returns (part1: nat)
    requires symbols.Length == gears.Length
    modifies gears
    ensures part1 == ScanRows(lines, symbols[..], old(gears[..]), width, |lines|).part1
    ensures gears[..] == ScanRows(lines, symbols[..], old(gears[..]), width, |lines|).gears
  {
    part1 := 0;
    var nearby: seq<(nat, nat)> := [];
    var y := 0;
    while y < |lines|
      invariant 0 <= y <= |lines|
      invariant Pending(nearby, width, gears.Length)
      invariant ScanRows(lines, symbols[..], old(gears[..]), width, y).part1 == part1
      invariant ScanRows(lines, symbols[..], old(gears[..]), width, y).nearby == nearby
      invariant ScanRows(lines, symbols[..], old(gears[..]), width, y).gears == gears[..]
    {
      var found, number;
      part1, nearby, found, number := ScanLine(lines[y], y, symbols, gears, width, part1, nearby);
      part1, nearby := FinishNumber(gears, width, part1, nearby, found, number);
      y := y + 1;
    }
  }

  /** The sum of the products of the gears holding two numbers. */
  function GearSum(gears: seq<GearSlots>): nat
  {
    if gears == [] then 0 else GearSum(gears[..|gears| - 1]) + GearProduct(gears[|gears| - 1])
  }

  /** Both answers for a puzzle input, as `u64` values that wrap on overflow;
      the width is the length of the first line, and an empty input panics. */
  function Answers(input: string): (r: Result<(nat, nat)>)
  {
    var lines := Lines(input);
    if lines == [] then Err("empty input")
    else
      var width := |lines[0]|;
      match MarkRows(lines, width, width * |lines|, |lines|)
      case Err(e) => Err(e)
      case Ok(m) =>
        var s := ScanRows(lines, m.symbols, m.gears, width, |lines|);
        Ok((s.part1, GearSum(s.gears) % U64))
  }

  method Solve(input: string) returns (r: Result<(nat, nat)>)
    ensures r == Answers(input)
  {
    var lines := Lines(input);
    if lines == [] {
      return Err("empty input");
    }
    var width := |lines[0]|;
    var marks := MarkSymbols(lines, width);
    if marks.Err? {
      return Err(MarkRows(lines, width, width * |lines|, |lines|).reason);
    }
    var (symbols, gears) := marks.value;
    var part1 := ScanNumbers(lines, symbols, gears, width);
    r := Ok((part1, GearSum(gears[..]) % U64));
  }

  /** On a rectangular grid every symbol index is inside the vectors, so
      the only way the solver fails is an empty input. */
  lemma GridAnswers(input: string)
    requires Lines(input) != [] && Rectangular(Lines(input), |Lines(input)[0]|)
    ensures Answers(input).Ok?
  {
    MarksOk(Lines(input), |Lines(input)[0]|);
  }

  lemma MarksOk(lines: seq<string>, width: nat)
    requires Rectangular(lines, width)
    ensures MarkRows(lines, width, width * |lines|, |lines|).Ok?
  {
    FlatIsProduct(|lines|, 0, width);
    MarksOfGrid(lines, width);
  }

  // ------------------------------------------------- properties of the scan

  /** The digits of a run read left to right as n = n * 10 + d, modulo 2^64. */
  function Accumulated(ds: string): nat
    requires AllDigits(ds)
  {
    if ds == [] then 0 else (Accumulated(ds[..|ds| - 1]) * 10 + DigitValue(ds[|ds| - 1])) % U64
  }

  lemma {:induction false} ModAddMultiple(k: nat, t: nat)
    ensures (k * U64 + t) % U64 == t % U64
  {
    if k > 0 {
      ModAddMultiple(k - 1, t);
      assert k * U64 + t == (k - 1) * U64 + t + U64;
    }
  }

  /** Wrapping after every step gives the decimal value of the run modulo 2^64. */
  lemma {:induction false} AccumulatedIsDecimal(ds: string)
    requires AllDigits(ds)
    ensures Accumulated(ds) == DecimalValue(ds) % U64
  {
    if ds != [] {
      var init := ds[..|ds| - 1];
      AccumulatedIsDecimal(init);
      var a := DecimalValue(init);
      var d := DigitValue(ds[|ds| - 1]);
      assert a * 10 + d == (a / U64) * 10 * U64 + ((a % U64) * 10 + d);
      ModAddMultiple((a / U64) * 10, (a % U64) * 10 + d);
    }
  }

  /** The digit at (x, y) has a symbol among its nine neighbours. */
  predicate DigitNearSymbol(symbols: seq<bool>, x: nat, y: nat, width: nat)
  {
    exists j :: 0 <= j < 9 && SymbolNear(symbols, x, y, j, width)
  }

  /** Some digit at columns `start .. x-1` of row `y` has a symbol among its nine neighbours. */
  predicate RunNearSymbol(symbols: seq<bool>, y: nat, width: nat, start: nat, x: nat)
  {
    exists k :: start <= k < x && DigitNearSymbol(symbols, k, y, width)
  }

  lemma RunNearSymbolSnoc(symbols: seq<bool>, y: nat, width: nat, start: nat, x: nat)
    requires start < x
    ensures RunNearSymbol(symbols, y, width, start, x) <==>
      RunNearSymbol(symbols, y, width, start, x - 1) || DigitNearSymbol(symbols, x - 1, y, width)
  {
    if RunNearSymbol(symbols, y, width, start, x) {
      var k :| start <= k < x && DigitNearSymbol(symbols, k, y, width);
      if k < x - 1 {
        assert RunNearSymbol(symbols, y, width, start, x - 1);
      }
    }
    if RunNearSymbol(symbols, y, width, start, x - 1) {
      var k :| start <= k < x - 1 && DigitNearSymbol(symbols, k, y, width);
      assert RunNearSymbol(symbols, y, width, start, x);
    }
  }

  /** A row starts with a clear flag and number, and a non-digit clears them. */
  lemma RunStart(s0: Scan, symbols: seq<bool>, row: string, y: nat, width: nat, start: nat)
    requires start <= |row|
    requires start == 0 ==> !s0.found && s0.number == 0
    requires start > 0 ==> !IsDigit(row[start - 1])
    ensures !ScanRow(s0, symbols, row, y, width, start).found && ScanRow(s0, symbols, row, y, width, start).number == 0
  {
    if start > 0 {
      var s := ScanRow(s0, symbols, row, y, width, start - 1);
      assert ScanRow(s0, symbols, row, y, width, start) == ScanByte(s, symbols, row, start - 1, y, width);
    }
  }

  /** A digit extends the number and sets the flag when a neighbour is a symbol. */
  lemma DigitStep(s: Scan, symbols: seq<bool>, row: string, x: nat, y: nat, width: nat)
    requires x < |row| && IsDigit(row[x])
    ensures ScanByte(s, symbols, row, x, y, width).number == (s.number * 10 + DigitValue(row[x])) % U64
    ensures ScanByte(s, symbols, row, x, y, width).found <==> s.found || DigitNearSymbol(symbols, x, y, width)
  {
    var t := s.(number := (s.number * 10 + DigitValue(row[x])) % U64);
    SurroundingsFindSymbols(t, symbols, x, y, width, 9);
  }

  /** Along a run of digits that starts a row or follows a non-digit, the
      number read is the run folded as n = n * 10 + d with 64-bit wrap. */
  lemma {:induction false} DigitRunAccumulates(s0: Scan, symbols: seq<bool>, row: string, y: nat, width: nat, start: nat, x: nat)
    requires start <= x <= |row|
    requires forall k :: start <= k < x ==> IsDigit(row[k])
    requires start == 0 ==> !s0.found && s0.number == 0
    requires start > 0 ==> !IsDigit(row[start - 1])
    ensures AllDigits(row[start..x])
    ensures ScanRow(s0, symbols, row, y, width, x).number == Accumulated(row[start..x])
  {
    AllDigitsChars(row[start..x]);
    if x == start {
      assert row[start..x] == [];
      RunStart(s0, symbols, row, y, width, start);
    } else {
      DigitRunAccumulates(s0, symbols, row, y, width, start, x - 1);
      var s := ScanRow(s0, symbols, row, y, width, x - 1);
      assert ScanRow(s0, symbols, row, y, width, x) == ScanByte(s, symbols, row, x - 1, y, width);
      DigitStep(s, symbols, row, x - 1, y, width);
      AccumulatedSnoc(row, start, x);
    }
  }

  /** Extending a run by its next digit folds that digit into the number. */
  lemma AccumulatedSnoc(row: string, start: nat, x: nat)
    requires start < x <= |row|
    requires AllDigits(row[start..x]) && AllDigits(row[start..x - 1])
    ensures Accumulated(row[start..x]) == (Accumulated(row[start..x - 1]) * 10 + DigitValue(row[x - 1])) % U64
  {
    var run := row[start..x];
    assert run[..|run| - 1] == row[start..x - 1] && run[|run| - 1] == row[x - 1];
  }

  /** Along a run of digits that starts a row or follows a non-digit, the
      number read is the run's decimal value, wrapped to 64 bits. */
  lemma DigitRunNumber(s0: Scan, symbols: seq<bool>, row: string, y: nat, width: nat, start: nat, x: nat)
    requires start <= x <= |row|
    requires forall k :: start <= k < x ==> IsDigit(row[k])
    requires start == 0 ==> !s0.found && s0.number == 0
    requires start > 0 ==> !IsDigit(row[start - 1])
    ensures AllDigits(row[start..x])
    ensures ScanRow(s0, symbols, row, y, width, x).number == DecimalValue(row[start..x]) % U64
  {
    DigitRunAccumulates(s0, symbols, row, y, width, start, x);
    AccumulatedIsDecimal(row[start..x]);
  }

  /** Along a run of digits that starts a row or follows a non-digit, the flag
      is set exactly when some digit of the run has a symbol among its nine
      neighbours. */
  lemma {:induction false} DigitRunFound(s0: Scan, symbols: seq<bool>, row: string, y: nat, width: nat, start: nat, x: nat)
    requires start <= x <= |row|
    requires forall k :: start <= k < x ==> IsDigit(row[k])
    requires start == 0 ==> !s0.found && s0.number == 0
    requires start > 0 ==> !IsDigit(row[start - 1])
    ensures ScanRow(s0, symbols, row, y, width, x).found <==> RunNearSymbol(symbols, y, width, start, x)
  {
    if x == start {
      assert !RunNearSymbol(symbols, y, width, start, x);
      RunStart(s0, symbols, row, y, width, start);
    } else {
      DigitRunFound(s0, symbols, row, y, width, start, x - 1);
      var s := ScanRow(s0, symbols, row, y, width, x - 1);
      assert ScanRow(s0, symbols, row, y, width, x) == ScanByte(s, symbols, row, x - 1, y, width);
      DigitStep(s, symbols, row, x - 1, y, width);
      RunNearSymbolSnoc(symbols, y, width, start, x);
    }
  }

  /** A number equal to 0 adds nothing and credits no gear; the gears seen
      next to it stay pending and go to the next number that is credited. */
  lemma ZeroIsNeverCredited(s: Scan, width: nat)
    requires s.number == 0
    ensures Ended(s, width).gears == s.gears && Ended(s, width).nearby == s.nearby
    ensures Ended(s, width).part1 % U64 == s.part1 % U64
  {
  }

  /** The lookup the code performs, on the grid "..1" over "*..": from the '1'
      in the last column of row 0, offset (+1, 0) reaches column 3 of row 0,
      whose flat index 3 is the '*' at the start of row 1, two columns away. */
  lemma LastColumnSeesNextRow()
    ensures NeighbourAsWritten(2, 0, Offsets[7], 3, 6) == Some((3, 0))
    ensures Flat(0, 3, 3) == Flat(1, 0, 3) == 3
    ensures MarkRows(["..1", "*.."], 3, 6, 2) == Ok(Marks([false, false, false, true, false, false], [None, None, None, NewGear, None, None]))
    ensures Neighbour(2, 0, Offsets[7], 3, 6) == None
  {
    var lines := ["..1", "*.."];
    var e := EmptyMarks(6);
    assert e == Marks([false, false, false, false, false, false], [None, None, None, None, None, None]);
    assert MarkRow(e, lines[0], 0, 3, 3) == Ok(e);
    assert MarkRows(lines, 3, 6, 1) == Ok(e);
    assert MarkRow(e, lines[1], 1, 3, 1) == Ok(Marks(e.symbols[3 := true], e.gears[3 := NewGear]));
    assert MarkRow(e, lines[1], 1, 3, 3) == Ok(Marks(e.symbols[3 := true], e.gears[3 := NewGear]));
    assert e.symbols[3 := true] == [false, false, false, true, false, false];
    assert e.gears[3 := NewGear] == [None, None, None, NewGear, None, None];
  }

  /** The corrected lookup returns only cells of the grid, at most one row and
      one column away. */
  lemma NeighbourIsAdjacent(x: nat, y: nat, j: nat, width: nat, size: nat)
    requires j < 9
    ensures Neighbour(x, y, Offsets[j], width, size).Some? ==>
      var q := Neighbour(x, y, Offsets[j], width, size).value;
      q.0 < width && Flat(q.1, q.0, width) < size &&
      -1 <= q.0 - x <= 1 && -1 <= q.1 - y <= 1
  {
  }
}
