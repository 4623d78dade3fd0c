/** Day 13: Point of Incidence. Each pattern of ash and rocks has a line of
    reflection between two rows or two columns. A candidate line compares
    the rows (or, within each row, the characters) mirrored around it, as
    far as the shorter side reaches; it is accepted when exactly `smudges`
    positions differ. Rows are tried first, top to bottom, then columns,
    left to right. */
module Day13 {
  import opened Util

  const PANIC: string := "panic"

  /** The pattern separator of the input. */
  const BLANK_LINE: string := "\n\n"

  // ------------------------------------------------------ zipped sums

  /** Σ w(xs[j], ys[j]) over the positions both sequences have: a `zip`
      followed by a sum, which stops at the shorter sequence. */
  function ZipSum<T>(xs: seq<T>, ys: seq<T>, w: (T, T) -> nat): nat
    decreases |xs|
  {
    if xs == [] || ys == [] then 0 else w(xs[0], ys[0]) + ZipSum(xs[1..], ys[1..], w)
  }

  /** Every zipped pair weighs nothing. */
  ghost predicate AllZero<T>(xs: seq<T>, ys: seq<T>, w: (T, T) -> nat)
  {
    forall j :: 0 <= j < |xs| && j < |ys| ==> w(xs[j], ys[j]) == 0
  }

  /** The pair at `j` weighs 1 and every other pair nothing. */
  ghost predicate OnlyOne<T>(xs: seq<T>, ys: seq<T>, w: (T, T) -> nat, j: nat)
  {
    j < |xs| && j < |ys| && w(xs[j], ys[j]) == 1 &&
    forall i :: 0 <= i < |xs| && i < |ys| && i != j ==> w(xs[i], ys[i]) == 0
  }

  lemma {:induction false} ZipSumZero<T>(xs: seq<T>, ys: seq<T>, w: (T, T) -> nat)
    ensures ZipSum(xs, ys, w) == 0 <==> AllZero(xs, ys, w)
    decreases |xs|
  {
    if xs != [] && ys != [] {
      ZipSumZero(xs[1..], ys[1..], w);
      if AllZero(xs, ys, w) {
        forall j | 0 <= j < |xs| - 1 && j < |ys| - 1 ensures w(xs[1..][j], ys[1..][j]) == 0 {
          assert w(xs[j + 1], ys[j + 1]) == 0;
        }
      }
      if ZipSum(xs, ys, w) == 0 {
        forall j | 0 <= j < |xs| && j < |ys| ensures w(xs[j], ys[j]) == 0 {
          if j > 0 {
            assert xs[j] == xs[1..][j - 1] && ys[j] == ys[1..][j - 1];
          }
        }
      }
    }
  }

  lemma {:induction false} ZipSumOne<T>(xs: seq<T>, ys: seq<T>, w: (T, T) -> nat)
    ensures ZipSum(xs, ys, w) == 1 <==> exists j :: OnlyOne(xs, ys, w, j)
    decreases |xs|
  {
    if xs != [] && ys != [] {
      var xs', ys' := xs[1..], ys[1..];
      ZipSumOne(xs', ys', w);
      ZipSumZero(xs', ys', w);
      if ZipSum(xs, ys, w) == 1 {
        if w(xs[0], ys[0]) == 1 {
          forall i | 0 <= i < |xs| && i < |ys| && i != 0 ensures w(xs[i], ys[i]) == 0 {
            assert xs[i] == xs'[i - 1] && ys[i] == ys'[i - 1];
          }
          assert OnlyOne(xs, ys, w, 0);
        } else {
          assert w(xs[0], ys[0]) == 0;
          var j: nat :| OnlyOne(xs', ys', w, j);
          forall i | 0 <= i < |xs| && i < |ys| && i != j + 1 ensures w(xs[i], ys[i]) == 0 {
            if i > 0 {
              assert xs[i] == xs'[i - 1] && ys[i] == ys'[i - 1];
            }
          }
          assert OnlyOne(xs, ys, w, j + 1);
        }
      }
      if exists j :: OnlyOne(xs, ys, w, j) {
        var j: nat :| OnlyOne(xs, ys, w, j);
        if j == 0 {
          forall i | 0 <= i < |xs'| && i < |ys'| ensures w(xs'[i], ys'[i]) == 0 {
            assert w(xs[i + 1], ys[i + 1]) == 0;
          }
        } else {
          forall i | 0 <= i < |xs'| && i < |ys'| && i != j - 1 ensures w(xs'[i], ys'[i]) == 0 {
            assert w(xs[i + 1], ys[i + 1]) == 0;
          }
          assert OnlyOne(xs', ys', w, j - 1);
        }
      }
    }
  }

  /** Cutting the first sequence down to no shorter than the second
      changes nothing: the zip stops there anyway. */
  lemma {:induction false} ZipSumTakeLeft<T>(xs: seq<T>, ys: seq<T>, w: (T, T) -> nat, k: nat)
    requires |ys| <= k <= |xs|
    ensures ZipSum(xs[..k], ys, w) == ZipSum(xs, ys, w)
    decreases |ys|
  {
    if ys != [] {
      assert xs[..k][1..] == xs[1..][..k - 1];
      ZipSumTakeLeft(xs[1..], ys[1..], w, k - 1);
    }
  }

  lemma {:induction false} ZipSumTakeRight<T>(xs: seq<T>, ys: seq<T>, w: (T, T) -> nat, k: nat)
    requires |xs| <= k <= |ys|
    ensures ZipSum(xs, ys[..k], w) == ZipSum(xs, ys, w)
    decreases |xs|
  {
    if xs != [] {
      assert ys[..k][1..] == ys[1..][..k - 1];
      ZipSumTakeRight(xs[1..], ys[1..], w, k - 1);
    }
  }

  // ------------------------------------------------------- count_diffs

  function Differ(): (char, char) -> nat
  {
    (a: char, b: char) => if a != b then 1 else 0
  }

  /** `count_diffs`: the positions, over the shorter length, at which the
      two texts hold different characters. */
  function CountDiffs(a: string, b: string): (n: nat)
  {
    ZipSum(a, b, Differ())
  }

  /** No difference means the texts agree over the shorter length. */
  lemma CountDiffsZero(a: string, b: string)
    ensures CountDiffs(a, b) == 0 <==> forall i :: 0 <= i < |a| && i < |b| ==> a[i] == b[i]
  {
    ZipSumZero(a, b, Differ());
    if CountDiffs(a, b) == 0 {
      forall i | 0 <= i < |a| && i < |b| ensures a[i] == b[i] {
        assert Differ()(a[i], b[i]) == 0;
      }
    }
  }

  /** One difference means the texts agree at every position but one. */
  lemma CountDiffsOne(a: string, b: string)
    ensures CountDiffs(a, b) == 1 <==> exists i :: OnlyOne(a, b, Differ(), i)
  {
    ZipSumOne(a, b, Differ());
  }

  // ---------------------------------------------------- mirror lines

  function Min(a: nat, b: nat): nat
  {
    if a < b then a else b
  }

  /** The two sides of a candidate line cut to equal length: the longer
      side keeps the part next to the line. */
  function Trim<T>(before: seq<T>, after: seq<T>): (r: (seq<T>, seq<T>))
    ensures |r.0| == |r.1| == Min(|before|, |after|)
    ensures r.0 == before[|before| - |r.0|..] && r.1 == after[..|r.1|]
  {
    if |before| < |after| then (before, after[..|before|])
    else (before[|before| - |after|..], after)
  }

  lemma ReverseSuffix<T>(s: seq<T>, k: nat)
    requires k <= |s|
    ensures Reverse(s[|s| - k..]) == Reverse(s)[..k]
  {
  }

  /** Trimming changes no mirrored sum: reversed, the kept part of the
      longer side is a prefix, and the zip stops at the shorter side. */
  lemma TrimKeepsSum<T>(before: seq<T>, after: seq<T>, w: (T, T) -> nat)
    ensures var (b, a) := Trim(before, after);
      ZipSum(Reverse(b), a, w) == ZipSum(Reverse(before), after, w)
  {
    if |before| < |after| {
      ZipSumTakeRight(Reverse(before), after, w, |before|);
    } else {
      ReverseSuffix(before, |after|);
      ZipSumTakeLeft(Reverse(before), after, w, |after|);
    }
  }

  function RowDiffs(): (string, string) -> nat
  {
    (a: string, b: string) => CountDiffs(a, b)
  }

  /** The pair of elements `j` places before and after position `at`:
      the two sides of a line of reflection, `j` steps out from it. */
  function Mirror<T>(s: seq<T>, at: nat, j: nat): (T, T)
    requires j < at && at + j < |s|
  {
    (s[at - 1 - j], s[at + j])
  }

  /** The differences across the horizontal line above row `y`: the rows
      above, nearest first, zipped with the rows below. */
  function RowsDiff(rows: seq<string>, y: nat): nat
    requires 0 < y < |rows|
  {
    var (before, after) := Trim(rows[..y], rows[y..]);
    ZipSum(Reverse(before), after, RowDiffs())
  }

  /** The differences across the vertical line left of column `x` in one
      row; a row too short to cut at `x` panics. */
  function RowMirror(row: string, x: nat): Result<nat>
  {
    if x > |row| then Err(PANIC)
    else
      var (before, after) := Trim(row[..x], row[x..]);
      Ok(CountDiffs(Reverse(before), after))
  }

  /** The differences across the vertical line left of column `x`, summed
      over every row; the first short row panics. */
  function ColumnsDiff(rows: seq<string>, x: nat): Result<nat>
  {
    SumResults(seq(|rows|, y requires 0 <= y < |rows| => RowMirror(rows[y], x)))
  }

  /** Rows `y - 1 - j` and `y + j` are mirror images for every `j` up to
      the nearer edge of the pattern. */
  ghost predicate RowsMirrored(rows: seq<string>, y: nat)
    requires 0 < y < |rows|
  {
    forall j :: 0 <= j < Min(y, |rows| - y) ==> Mirror(rows, y, j).0 == Mirror(rows, y, j).1
  }

  predicate SameWidth(rows: seq<string>)
  {
    forall y :: 0 <= y < |rows| ==> |rows[y]| == |rows[0]|
  }

  /** The mirrored sum at `at`, pair by pair. */
  ghost predicate MirrorWeighs<T>(s: seq<T>, at: nat, w: (T, T) -> nat, n: nat)
    requires 0 < at <= |s|
  {
    forall j :: 0 <= j < Min(at, |s| - at) ==> w(Mirror(s, at, j).0, Mirror(s, at, j).1) == n
  }

  /** Trimmed and reversed, the side before `at` lists the elements going
      away from the line, in step with the side after it. */
  lemma MirrorView<T>(s: seq<T>, at: nat)
    requires 0 < at <= |s|
    ensures var (b, a) := Trim(s[..at], s[at..]);
      |Reverse(b)| == |a| == Min(at, |s| - at) &&
      forall j :: 0 <= j < |a| ==> Reverse(b)[j] == Mirror(s, at, j).0 && a[j] == Mirror(s, at, j).1
  {
  }

  lemma MirrorZero<T>(s: seq<T>, at: nat, w: (T, T) -> nat)
    requires 0 < at <= |s|
    ensures var (b, a) := Trim(s[..at], s[at..]);
      ZipSum(Reverse(b), a, w) == 0 <==> MirrorWeighs(s, at, w, 0)
  {
    var (b, a) := Trim(s[..at], s[at..]);
    MirrorView(s, at);
    ZipSumZero(Reverse(b), a, w);
    if MirrorWeighs(s, at, w, 0) {
      forall j | 0 <= j < |a| ensures w(Reverse(b)[j], a[j]) == 0 {
        assert w(Mirror(s, at, j).0, Mirror(s, at, j).1) == 0;
      }
    }
  }

  /** In a rectangular pattern, no difference across a horizontal line
      means a perfect reflection there. */
  lemma RowsDiffZero(rows: seq<string>, y: nat)
    requires 0 < y < |rows| && SameWidth(rows)
    ensures RowsDiff(rows, y) == 0 <==> RowsMirrored(rows, y)
  {
    MirrorZero(rows, y, RowDiffs());
    forall j | 0 <= j < Min(y, |rows| - y)
      ensures CountDiffs(Mirror(rows, y, j).0, Mirror(rows, y, j).1) == 0 <==> Mirror(rows, y, j).0 == Mirror(rows, y, j).1
    {
      CountDiffsZero(Mirror(rows, y, j).0, Mirror(rows, y, j).1);
    }
  }

  /** Row `y - 1 - j` and row `y + j` differ at column `i` and nowhere
      else, and every other mirrored pair of rows is equal over their
      common width. */
  ghost predicate OneSmudge(rows: seq<string>, y: nat, j: nat, i: nat)
    requires 0 < y < |rows|
  {
    j < Min(y, |rows| - y) &&
    OnlyOne(Mirror(rows, y, j).0, Mirror(rows, y, j).1, Differ(), i) &&
    forall j' :: 0 <= j' < Min(y, |rows| - y) && j' != j ==> CountDiffs(Mirror(rows, y, j').0, Mirror(rows, y, j').1) == 0
  }

  /** One difference across a horizontal line means exactly one cell of
      one mirrored pair of rows is off. */
  lemma RowsDiffOne(rows: seq<string>, y: nat)
    requires 0 < y < |rows|
    ensures RowsDiff(rows, y) == 1 <==> exists j: nat, i: nat :: OneSmudge(rows, y, j, i)
  {
    var w := RowDiffs();
    var (before, after) := Trim(rows[..y], rows[y..]);
    MirrorView(rows, y);
    ZipSumOne(Reverse(before), after, w);
    if RowsDiff(rows, y) == 1 {
      var j: nat :| OnlyOne(Reverse(before), after, w, j);
      CountDiffsOne(Mirror(rows, y, j).0, Mirror(rows, y, j).1);
      var i: nat :| OnlyOne(Mirror(rows, y, j).0, Mirror(rows, y, j).1, Differ(), i);
      forall j' | 0 <= j' < Min(y, |rows| - y) && j' != j
        ensures CountDiffs(Mirror(rows, y, j').0, Mirror(rows, y, j').1) == 0
      {
        assert w(Reverse(before)[j'], after[j']) == 0;
      }
      assert OneSmudge(rows, y, j, i);
    }
    if exists j: nat, i: nat :: OneSmudge(rows, y, j, i) {
      var j: nat, i: nat :| OneSmudge(rows, y, j, i);
      CountDiffsOne(Mirror(rows, y, j).0, Mirror(rows, y, j).1);
      forall j' | 0 <= j' < |after| && j' != j ensures w(Reverse(before)[j'], after[j']) == 0 {
        assert CountDiffs(Mirror(rows, y, j').0, Mirror(rows, y, j').1) == 0;
      }
      assert OnlyOne(Reverse(before), after, w, j);
    }
  }

  /** No difference left of column `x` in one row means the row reads the
      same both ways around the line, up to the nearer end of the row. */
  lemma RowMirrorZero(row: string, x: nat)
    requires 0 < x <= |row|
    ensures RowMirror(row, x) == Ok(0) <==>
      forall j :: 0 <= j < Min(x, |row| - x) ==> Mirror(row, x, j).0 == Mirror(row, x, j).1
  {
    MirrorZero(row, x, Differ());
    forall j | 0 <= j < Min(x, |row| - x)
      ensures Differ()(Mirror(row, x, j).0, Mirror(row, x, j).1) == 0 <==> Mirror(row, x, j).0 == Mirror(row, x, j).1
    {
    }
  }

  // ---------------------------------------------------------- search

  /** The first horizontal line at or below `y` with exactly `smudges`
      differences. */
  function FindRow(rows: seq<string>, smudges: nat, y: nat): (r: Option<nat>)
    requires 0 < y
    ensures r.Some? ==> y <= r.value < |rows| && RowsDiff(rows, r.value) == smudges
    ensures r.Some? ==> forall z :: y <= z < r.value ==> RowsDiff(rows, z) != smudges
    ensures r.None? ==> forall z :: y <= z < |rows| ==> RowsDiff(rows, z) != smudges
    decreases |rows| - y
  {
    if y >= |rows| then None
    else if RowsDiff(rows, y) == smudges then Some(y)
    else
      var r := FindRow(rows, smudges, y + 1);
      SkipRow(rows, smudges, y, r);
      r
  }

  /** A row that does not qualify extends the stretch searched past. */
  lemma SkipRow(rows: seq<string>, smudges: nat, y: nat, r: Option<nat>)
    requires 0 < y < |rows| && RowsDiff(rows, y) != smudges
    requires r.Some? ==> y + 1 <= r.value < |rows| && forall z :: y + 1 <= z < r.value ==> RowsDiff(rows, z) != smudges
    requires r.None? ==> forall z :: y + 1 <= z < |rows| ==> RowsDiff(rows, z) != smudges
    ensures r.Some? ==> forall z :: y <= z < r.value ==> RowsDiff(rows, z) != smudges
    ensures r.None? ==> forall z :: y <= z < |rows| ==> RowsDiff(rows, z) != smudges
  {
  }

  /** The first vertical line from column `x` on, before `width`, whose
      summed differences are exactly `smudges`; a row too short for a
      column tried on the way panics. */
  function FindColumn(rows: seq<string>, smudges: nat, x: nat, width: nat): (r: Result<Option<nat>>)
    requires 0 < x
    ensures r.Ok? && r.value.Some? ==> x <= r.value.value < width && ColumnsDiff(rows, r.value.value) == Ok(smudges)
    ensures r.Ok? ==> forall z :: x <= z < width && (r.value.None? || z < r.value.value) ==>
      ColumnsDiff(rows, z).Ok? && ColumnsDiff(rows, z) != Ok(smudges)
    ensures r.Err? ==> exists z :: (x <= z < width && ColumnsDiff(rows, z).Err? &&
      forall z' :: x <= z' < z ==> ColumnsDiff(rows, z').Ok? && ColumnsDiff(rows, z') != Ok(smudges))
    decreases width - x
  {
    if x >= width then Ok(None)
    else match ColumnsDiff(rows, x)
      case Err(e) => Err(e)
      case Ok(d) => if d == smudges then Ok(Some(x)) else FindColumn(rows, smudges, x + 1, width)
  }

  /** `process_map`: the first horizontal line scores 100 times the rows
      above it; failing that, the first vertical line scores the columns
      left of it. No line at all, an empty pattern or a row shorter than
      a column tried panics. */
  function ProcessMap(pattern: string, smudges: nat): (r: Result<nat>)
  {
    var rows := Lines(pattern);
    match FindRow(rows, smudges, 1)
    case Some(y) => Ok(100 * y)
    case None =>
      if rows == [] then Err(PANIC)
      else match FindColumn(rows, smudges, 1, |rows[0]|)
        case Err(e) => Err(e)
        case Ok(None) => Err(PANIC)
        case Ok(Some(x)) => Ok(x)
  }

  /** A horizontal line of the pattern qualifies at `y`. */
  ghost predicate RowLine(rows: seq<string>, smudges: nat, y: nat)
  {
    0 < y < |rows| && RowsDiff(rows, y) == smudges
  }

  /** A vertical line qualifies at `x`, and no earlier column qualifies or
      panics. */
  ghost predicate FirstColumnLine(rows: seq<string>, smudges: nat, x: nat)
  {
    rows != [] && 0 < x < |rows[0]| && ColumnsDiff(rows, x) == Ok(smudges) &&
    forall z :: 0 < z < x ==> ColumnsDiff(rows, z).Ok? && ColumnsDiff(rows, z) != Ok(smudges)
  }

  /** When some horizontal line qualifies, `process_map` scores the first
      one: 100 times the rows above it. */
  lemma ProcessMapRow(pattern: string, smudges: nat, y: nat)
    requires RowLine(Lines(pattern), smudges, y)
    requires forall z :: 0 < z < y ==> !RowLine(Lines(pattern), smudges, z)
    ensures ProcessMap(pattern, smudges) == Ok(100 * y)
  {
    FindRowFirst(Lines(pattern), smudges, 1, y);
  }

  lemma FindRowFirst(rows: seq<string>, smudges: nat, from: nat, y: nat)
    requires 0 < from <= y && RowLine(rows, smudges, y)
    requires forall z :: from <= z < y ==> !RowLine(rows, smudges, z)
    ensures FindRow(rows, smudges, from) == Some(y)
    decreases y - from
  {
    if from < y {
      assert !RowLine(rows, smudges, from);
      FindRowFirst(rows, smudges, from + 1, y);
    }
  }

  /** When no horizontal line qualifies, `process_map` answers exactly
      when some column is the first vertical line, and then answers that
      column. */
  lemma ProcessMapColumn(pattern: string, smudges: nat)
    requires forall y: nat :: !RowLine(Lines(pattern), smudges, y)
    ensures ProcessMap(pattern, smudges).Ok? <==> exists x: nat :: FirstColumnLine(Lines(pattern), smudges, x)
    ensures forall x: nat :: FirstColumnLine(Lines(pattern), smudges, x) ==> ProcessMap(pattern, smudges) == Ok(x)
  {
    var rows := Lines(pattern);
    var found := FindRow(rows, smudges, 1);
    assert found.None? by {
      if found.Some? {
        assert RowLine(rows, smudges, found.value);
      }
    }
    if rows != [] {
      var col := FindColumn(rows, smudges, 1, |rows[0]|);
      if col.Ok? && col.value.Some? {
        assert FirstColumnLine(rows, smudges, col.value.value);
      }
      forall x: nat | FirstColumnLine(rows, smudges, x) ensures col == Ok(Some(x)) {
        FirstColumnIsFound(rows, smudges, x);
      }
    }
  }

  lemma FirstColumnIsFound(rows: seq<string>, smudges: nat, x: nat)
    requires FirstColumnLine(rows, smudges, x)
    ensures FindColumn(rows, smudges, 1, |rows[0]|) == Ok(Some(x))
  {
    FindColumnFirst(rows, smudges, 1, |rows[0]|, x);
  }

  lemma {:induction false} FindColumnFirst(rows: seq<string>, smudges: nat, from: nat, width: nat, x: nat)
    requires 0 < from <= x < width && ColumnsDiff(rows, x) == Ok(smudges)
    requires forall z :: from <= z < x ==> ColumnsDiff(rows, z).Ok? && ColumnsDiff(rows, z) != Ok(smudges)
    ensures FindColumn(rows, smudges, from, width) == Ok(Some(x))
    decreases x - from
  {
    if from < x {
      assert ColumnsDiff(rows, from).Ok? && ColumnsDiff(rows, from) != Ok(smudges);
      FindColumnFirst(rows, smudges, from + 1, width, x);
    }
  }

  // ------------------------------------------------------------ solve

  /** Part 1 (no smudge) or part 2 (one smudge): the scores of all
      patterns added up; a panic in any pattern is the answer's panic. */
  function Part(input: string, smudges: nat): (r: Result<nat>)
  {
    var maps := Split(input, BLANK_LINE);
    SumResults(Scores(maps, smudges))
  }

  function Scores(maps: seq<string>, smudges: nat): seq<Result<nat>>
  {
    seq(|maps|, k requires 0 <= k < |maps| => ProcessMap(maps[k], smudges))
  }

  /** A part is defined exactly when every pattern scores, and then it is
      the sum of the scores. */
  lemma PartScores(input: string, smudges: nat)
    ensures Part(input, smudges).Ok? <==> AllScore(Split(input, BLANK_LINE), smudges)
  {
    var maps := Split(input, BLANK_LINE);
    ScoresOk(maps, smudges);
  }

  /** Every pattern of `maps` scores. */
  ghost predicate AllScore(maps: seq<string>, smudges: nat)
  {
    forall k :: 0 <= k < |maps| ==> ProcessMap(maps[k], smudges).Ok?
  }

  lemma ScoresOk(maps: seq<string>, smudges: nat)
    ensures SumResults(Scores(maps, smudges)).Ok? <==> AllScore(maps, smudges)
  {
    var scores := Scores(maps, smudges);
    if !AllScore(maps, smudges) {
      var i :| 0 <= i < |maps| && !ProcessMap(maps[i], smudges).Ok?;
      assert !scores[i].Ok?;
    }
  }

  /** Both parts: part 1 with no smudge, part 2 with exactly one. */
  function Solve(input: string): (r: Result<(nat, nat)>)
    ensures r.Ok? <==> Part(input, 0).Ok? && Part(input, 1).Ok?
    ensures r.Ok? ==> r.value == (Part(input, 0).value, Part(input, 1).value)
  {
    match Part(input, 0)
    case Err(e) => Err(e)
    case Ok(part1) =>
      match Part(input, 1)
      case Err(e) => Err(e)
      case Ok(part2) => Ok((part1, part2))
  }

  /** With one smudge the chosen line is never a perfect reflection, and
      with none it always is: a line differs in 0 positions or not. */
  lemma SmudgedLineIsNotPerfect(rows: seq<string>, y: nat)
    requires 0 < y < |rows| && SameWidth(rows) && RowsDiff(rows, y) == 1
    ensures !RowsMirrored(rows, y)
  {
    RowsDiffZero(rows, y);
  }
}
