/** Day 22: Sand Slabs. Bricks of sand cubes are read as two corners,
    dropped in order of height onto a 10 by 10 height map until they settle,
    and then related by who rests on whom. Part 1 counts the bricks that
    hold no brick up alone; part 2 sums, over the bricks that do, how many
    other bricks fall in the chain reaction their removal sets off. */
module Day22 {
  import opened Util

  const PANIC: string := "panic"

  /** The side of the square height map; cell `(x, y)` is its entry `x + y * SIDE`. */
  const SIDE: nat := 10

  /** Coordinates are `u16`. */
  const U16: nat := 0x1_0000

  /** The capacity of the `ArrayVec` of a brick's supporters. */
  const MAX_SUPPORTERS: nat := 3

  /** The capacity of the `ArrayVec` of a brick's supportees. */
  const MAX_SUPPORTEES: nat := 4

  datatype Pos = Pos(x: nat, y: nat, z: nat)

  /** A brick spans every cube from `start` to `end`, both included. */
  datatype Brick = Brick(id: nat, start: Pos, end: Pos)

  function Max(a: nat, b: nat): nat
  {
    if a < b then b else a
  }

  predicate PosFits(p: Pos)
  {
    p.x < U16 && p.y < U16 && p.z < U16
  }

  /** Every coordinate fits a `u16`. */
  predicate Fits(b: Brick)
  {
    PosFits(b.start) && PosFits(b.end)
  }

  /** `p` is at most `q` in every coordinate. */
  predicate AtMost(p: Pos, q: Pos)
  {
    p.x <= q.x && p.y <= q.y && p.z <= q.z
  }

  // --------------------------------------------------------------- parsing

  /** `Pos::parse`: the first three comma-separated fields as `u16`s. Fields
      after the third are never read. */
  function ParsePos(s: string): (r: Result<Pos>)
    ensures r.Ok? ==> PosFits(r.value)
  {
    var fields := Split(s, ",");
    if |fields| < 3 then Err(PANIC)
    else
      var x, y, z := ParseUnsigned(fields[0], U16), ParseUnsigned(fields[1], U16), ParseUnsigned(fields[2], U16);
      if x.Some? && y.Some? && z.Some? then Ok(Pos(x.value, y.value, z.value)) else Err(PANIC)
  }

  /** `Brick::parse`: two corners around `~`; when the first lies beyond the
      second in any coordinate the two are swapped. */
  function ParseBrick(id: nat, s: string): (r: Result<Brick>)
    ensures r.Ok? ==> r.value.id == id && Fits(r.value)
  {
    match SplitOnce(s, "~")
    case None => Err(PANIC)
    case Some((a, b)) =>
      var start, end := ParsePos(a), ParsePos(b);
      if start.Err? || end.Err? then Err(PANIC)
      else if !AtMost(start.value, end.value) then Ok(Brick(id, end.value, start.value))
      else Ok(Brick(id, start.value, end.value))
  }

  /** The input text of a brick. */
  function PosText(p: Pos): string
  {
    DecimalText(p.x) + "," + DecimalText(p.y) + "," + DecimalText(p.z)
  }

  function BrickText(start: Pos, end: Pos): string
  {
    PosText(start) + "~" + PosText(end)
  }

  lemma DigitsLack(n: nat, c: char)
    requires !IsDigit(c)
    ensures c !in DecimalText(n)
  {
    AllDigitsChars(DecimalText(n));
  }

  lemma {:induction false} ParsePosText(p: Pos)
    requires PosFits(p)
    ensures '~' !in PosText(p)
    ensures ParsePos(PosText(p)) == Ok(p)
  {
    var dx, dy, dz := DecimalText(p.x), DecimalText(p.y), DecimalText(p.z);
    DigitsLack(p.x, ','); DigitsLack(p.y, ','); DigitsLack(p.z, ',');
    DigitsLack(p.x, '~'); DigitsLack(p.y, '~'); DigitsLack(p.z, '~');
    assert PosText(p) == dx + [','] + (dy + [','] + dz);
    SplitAtFirst(dx, ',', dy + [','] + dz);
    SplitAtFirst(dy, ',', dz);
    SplitWithout(dz, ',');
    var fields := Split(PosText(p), ",");
    assert fields == [dx, dy, dz];
    AllDigitsChars(dx); AllDigitsChars(dy); AllDigitsChars(dz);
    ParseDecimalText(p.x, U16); ParseDecimalText(p.y, U16); ParseDecimalText(p.z, U16);
    assert ParseUnsigned(dx, U16) == Some(p.x);
    assert ParseUnsigned(dy, U16) == Some(p.y);
    assert ParseUnsigned(dz, U16) == Some(p.z);
  }

  lemma ParseBrickTextFields(start: Pos, end: Pos)
    requires PosFits(start) && PosFits(end)
    ensures SplitOnce(BrickText(start, end), "~") == Some((PosText(start), PosText(end)))
    ensures ParsePos(PosText(start)) == Ok(start) && ParsePos(PosText(end)) == Ok(end)
  {
    ParsePosText(start);
    ParsePosText(end);
    SplitOnceAtChar(PosText(start), "~", PosText(end));
  }

  /** A brick written with its corners in order parses back as itself. */
  lemma ParseBrickText(b: Brick)
    requires Fits(b) && AtMost(b.start, b.end)
    ensures ParseBrick(b.id, BrickText(b.start, b.end)) == Ok(b)
  {
    ParseBrickTextFields(b.start, b.end);
  }

  /** A brick written with its corners the other way round parses as the
      same brick, since the corners are swapped back. */
  lemma ParseBrickTextSwapped(b: Brick)
    requires Fits(b) && AtMost(b.start, b.end) && b.start != b.end
    ensures ParseBrick(b.id, BrickText(b.end, b.start)) == Ok(b)
  {
    ParseBrickTextFields(b.end, b.start);
  }

  /** The swap orders the corners of a straight brick: when the corners are
      comparable, the parsed start is at most the parsed end. */
  lemma ParseBrickOrders(id: nat, s: string)
    requires ParseBrick(id, s).Ok?
    requires AtMost(ParseBrick(id, s).value.start, ParseBrick(id, s).value.end) ||
             AtMost(ParseBrick(id, s).value.end, ParseBrick(id, s).value.start)
    ensures AtMost(ParseBrick(id, s).value.start, ParseBrick(id, s).value.end)
  {
  }

  // ------------------------------------------------------------ height map

  /** The height map entry of column `(x, y)`. */
  function Cell(x: nat, y: nat): nat
  {
    x + y * SIDE
  }

  /** Entry `k` of the height map is one of the columns of `b`. The entry
      is computed as the source does: an `x` of `SIDE` or more lands in a
      later row. */
  predicate Covers(b: Brick, k: nat)
  {
    exists x: nat, y: nat | b.start.x <= x <= b.end.x && b.start.y <= y <= b.end.y :: Cell(x, y) == k
  }

  /** Both ranges of columns are non-empty and every entry is inside the map;
      otherwise `max()` finds nothing or an index is out of bounds, and the
      source panics. */
  predicate OnMap(b: Brick)
  {
    b.start.x <= b.end.x && b.start.y <= b.end.y && Cell(b.end.x, b.end.y) < SIDE * SIDE
  }

  /** The highest of `h` over columns `x` and `y..=top`. */
  function MaxColumn(h: seq<nat>, x: nat, y: nat, top: nat): nat
    requires y <= top && Cell(x, top) < |h|
    decreases top - y
  {
    if y == top then h[Cell(x, y)] else Max(h[Cell(x, y)], MaxColumn(h, x, y + 1, top))
  }

  /** The highest of `h` over columns `x..=right` by `y..=top`. */
  function MaxRect(h: seq<nat>, x: nat, right: nat, y: nat, top: nat): nat
    requires x <= right && y <= top && Cell(right, top) < |h|
    decreases right - x
  {
    if x == right then MaxColumn(h, x, y, top)
    else Max(MaxColumn(h, x, y, top), MaxRect(h, x + 1, right, y, top))
  }

  /** `fall_to`: the highest entry of the height map under `b`. */
  function FallTo(h: seq<nat>, b: Brick): nat
    requires OnMap(b) && |h| == SIDE * SIDE
  {
    MaxRect(h, b.start.x, b.end.x, b.start.y, b.end.y)
  }

  lemma {:induction false} MaxColumnBounds(h: seq<nat>, x: nat, y: nat, top: nat, yy: nat)
    requires y <= yy <= top && Cell(x, top) < |h|
    ensures h[Cell(x, yy)] <= MaxColumn(h, x, y, top)
    decreases top - y
  {
    if y < yy {
      MaxColumnBounds(h, x, y + 1, top, yy);
    }
  }

  lemma {:induction false} MaxColumnAttained(h: seq<nat>, x: nat, y: nat, top: nat) returns (yy: nat)
    requires y <= top && Cell(x, top) < |h|
    ensures y <= yy <= top && MaxColumn(h, x, y, top) == h[Cell(x, yy)]
    decreases top - y
  {
    if y == top || h[Cell(x, y)] >= MaxColumn(h, x, y + 1, top) {
      yy := y;
    } else {
      yy := MaxColumnAttained(h, x, y + 1, top);
    }
  }

  lemma {:induction false} MaxRectBounds(h: seq<nat>, x: nat, right: nat, y: nat, top: nat, xx: nat, yy: nat)
    requires x <= xx <= right && y <= yy <= top && Cell(right, top) < |h|
    ensures h[Cell(xx, yy)] <= MaxRect(h, x, right, y, top)
    decreases right - x
  {
    if x < xx {
      MaxRectBounds(h, x + 1, right, y, top, xx, yy);
    } else {
      MaxColumnBounds(h, x, y, top, yy);
    }
  }

  lemma {:induction false} MaxRectAttained(h: seq<nat>, x: nat, right: nat, y: nat, top: nat) returns (xx: nat, yy: nat)
    requires x <= right && y <= top && Cell(right, top) < |h|
    ensures x <= xx <= right && y <= yy <= top && MaxRect(h, x, right, y, top) == h[Cell(xx, yy)]
    decreases right - x
  {
    if x == right || MaxColumn(h, x, y, top) >= MaxRect(h, x + 1, right, y, top) {
      xx := x;
      yy := MaxColumnAttained(h, x, y, top);
    } else {
      xx, yy := MaxRectAttained(h, x + 1, right, y, top);
    }
  }

  /** Every entry under a brick on the map is inside the map. */
  lemma CoversOnMap(b: Brick, k: nat)
    requires OnMap(b) && Covers(b, k)
    ensures k < SIDE * SIDE
  {
  }

  /** `fall_to` is the highest entry under the brick, and some entry under
      the brick is that high. */
  lemma FallToIsMax(h: seq<nat>, b: Brick) returns (k: nat)
    requires OnMap(b) && |h| == SIDE * SIDE
    ensures forall c: nat :: Covers(b, c) ==> c < |h| && h[c] <= FallTo(h, b)
    ensures Covers(b, k) && k < |h| && h[k] == FallTo(h, b)
  {
    forall c: nat | Covers(b, c) ensures c < |h| && h[c] <= FallTo(h, b) {
      var xx: nat, yy: nat :| b.start.x <= xx <= b.end.x && b.start.y <= yy <= b.end.y && Cell(xx, yy) == c;
      MaxRectBounds(h, b.start.x, b.end.x, b.start.y, b.end.y, xx, yy);
    }
    var xx, yy := MaxRectAttained(h, b.start.x, b.end.x, b.start.y, b.end.y);
    k := Cell(xx, yy);
  }

  // ------------------------------------------------------------- settling

  /** The height just above the highest brick of `bs` over entry `k` of the
      map, or 0 (the ground) when none covers it. */
  ghost function TopAt(bs: seq<Brick>, k: nat): nat
  {
    if bs == [] then 0
    else
      var b := bs[|bs| - 1];
      Max(TopAt(bs[..|bs| - 1], k), if Covers(b, k) then b.end.z + 1 else 0)
  }

  /** The height map of a pile of settled bricks. */
  ghost function Heights(bs: seq<Brick>): (h: seq<nat>)
    ensures |h| == SIDE * SIDE
  {
    seq(SIDE * SIDE, (k: int) requires 0 <= k => TopAt(bs, k))
  }

  /** Moves `b` to start at height `z`, keeping its vertical extent. */
  function Lower(b: Brick, z: nat): Brick
    requires b.start.z <= b.end.z
  {
    Brick(b.id, b.start.(z := z), b.end.(z := z + (b.end.z - b.start.z)))
  }

  /** Where `b` comes to rest on the pile `done`: it starts at the highest
      top under its columns. The source panics when a column range is empty
      or off the map, when the corners are not in order along z, and when
      the new top overflows `u16`. */
  ghost function Land(done: seq<Brick>, b: Brick): Result<Brick>
  {
    if !OnMap(b) || b.start.z > b.end.z then Err(PANIC)
    else
      var z := FallTo(Heights(done), b);
      if z + (b.end.z - b.start.z) + 1 >= U16 then Err(PANIC) else Ok(Lower(b, z))
  }

  /** The bricks of `bs` dropped one after the other in this order. */
  ghost function Settled(bs: seq<Brick>): (r: Result<seq<Brick>>)
    ensures r.Ok? ==> |r.value| == |bs|
  {
    if bs == [] then Ok([])
    else
      var done := Settled(bs[..|bs| - 1]);
      if done.Err? then Err(done.reason)
      else
        var b := Land(done.value, bs[|bs| - 1]);
        if b.Err? then Err(b.reason) else Ok(done.value + [b.value])
  }

  /** `height_map[..] = brick.end.z + 1` over the columns of `b`. */
  function Raise(h: seq<nat>, b: Brick): (r: seq<nat>)
  {
    seq(|h|, k requires 0 <= k < |h| => if Covers(b, k) then b.end.z + 1 else h[k])
  }

  /** Raising the map over a freshly landed brick gives the map of the
      larger pile: the new top is above everything under the brick. */
  lemma RaiseHeights(done: seq<Brick>, b: Brick)
    requires Land(done, b).Ok?
    ensures Raise(Heights(done), Land(done, b).value) == Heights(done + [Land(done, b).value])
  {
    var h := Heights(done);
    var landed := Land(done, b).value;
    var _ := FallToIsMax(h, b);
    var bigger := done + [landed];
    assert bigger[..|bigger| - 1] == done;
    forall k | 0 <= k < SIDE * SIDE
      ensures Raise(h, landed)[k] == Heights(bigger)[k]
    {
      assert Covers(landed, k) == Covers(b, k);
    }
  }

  /** When `b` lands on `done`, and what the map becomes. */
  lemma LandStep(done: seq<Brick>, b: Brick)
    ensures Land(done, b).Ok? <==>
      (OnMap(b) && b.start.z <= b.end.z && FallTo(Heights(done), b) + (b.end.z - b.start.z) + 1 < U16)
    ensures Land(done, b).Ok? ==> Land(done, b).value == Lower(b, FallTo(Heights(done), b))
    ensures Land(done, b).Ok? ==>
      Raise(Heights(done), Land(done, b).value) == Heights(done + [Land(done, b).value])
  {
    if Land(done, b).Ok? {
      RaiseHeights(done, b);
    }
  }

  lemma {:induction false} SettledErrGrows(bs: seq<Brick>, i: nat)
    requires i <= |bs| && Settled(bs[..i]).Err?
    ensures Settled(bs).Err?
    decreases |bs| - i
  {
    if i < |bs| {
      assert bs[..i + 1][..i] == bs[..i];
      SettledErrGrows(bs, i + 1);
    } else {
      assert bs[..i] == bs;
    }
  }

  /** One more brick of `bs` settles on the pile of the ones before it. */
  lemma SettledStep(bs: seq<Brick>, i: nat, done: seq<Brick>)
    requires i < |bs| && Settled(bs[..i]) == Ok(done)
    ensures Land(done, bs[i]).Err? ==> Settled(bs[..i + 1]).Err?
    ensures Land(done, bs[i]).Ok? ==> Settled(bs[..i + 1]) == Ok(done + [Land(done, bs[i]).value])
  {
    var front := bs[..i + 1];
    assert front[..|front| - 1] == bs[..i] && front[|front| - 1] == bs[i];
    SettledSnoc(front, done, Land(done, bs[i]));
  }

  /** Settling one more brick lands it on the pile of the others. */
  lemma SettledSnoc(bs: seq<Brick>, done: seq<Brick>, landed: Result<Brick>)
    requires bs != [] && Settled(bs[..|bs| - 1]) == Ok(done) && landed == Land(done, bs[|bs| - 1])
    ensures landed.Err? ==> Settled(bs).Err?
    ensures landed.Ok? ==> Settled(bs) == Ok(done + [landed.value])
  {
  }

  /** `simulate_until_settled` after the sort: each brick in turn falls to
      the highest entry of the height map under it, which then becomes its
      top plus one. */
  method Settle(bricks: array<Brick>) returns (ok: bool)
    modifies bricks
    ensures ok <==> Settled(old(bricks[..])).Ok?
    ensures ok ==> bricks[..] == Settled(old(bricks[..])).value
  {
    ghost var input := bricks[..];
    var heights: seq<nat> := seq(SIDE * SIDE, k => 0);
    assert heights == Heights([]);
    for i := 0 to bricks.Length
      invariant bricks[i..] == input[i..]
      invariant Settled(input[..i]) == Ok(bricks[..i])
      invariant heights == Heights(bricks[..i])
    {
      var b := bricks[i];
      ghost var before := bricks[..i];
      SettledStep(input, i, before);
      LandStep(before, b);
      if !OnMap(b) || b.start.z > b.end.z {
        SettledErrGrows(input, i + 1);
        return false;
      }
      var z := FallTo(heights, b);
      if z + (b.end.z - b.start.z) + 1 >= U16 {
        SettledErrGrows(input, i + 1);
        return false;
      }
      var landed := Lower(b, z);
      bricks[i] := landed;
      assert bricks[..i + 1] == before + [landed];
      heights := Raise(heights, landed);
    }
    assert input[..bricks.Length] == input;
    assert bricks[..bricks.Length] == bricks[..];
    ok := true;
  }

  // ------------------------------------------------------ the settled pile

  /** The first `i` bricks of a settled pile are the pile they make alone. */
  lemma {:induction false} SettledPrefix(bs: seq<Brick>, i: nat)
    requires i <= |bs| && Settled(bs).Ok?
    ensures Settled(bs[..i]) == Ok(Settled(bs).value[..i])
    decreases |bs|
  {
    if i < |bs| {
      var front := bs[..|bs| - 1];
      assert front[..i] == bs[..i];
      SettledPrefix(front, i);
      assert Settled(bs).value[..i] == Settled(front).value[..i];
    } else {
      assert bs[..i] == bs;
      assert Settled(bs).value[..i] == Settled(bs).value;
    }
  }

  /** Each brick of the pile is its input brick landed on the bricks before it. */
  lemma {:induction false} SettledLands(bs: seq<Brick>, i: nat)
    requires i < |bs| && Settled(bs).Ok?
    ensures Land(Settled(bs).value[..i], bs[i]) == Ok(Settled(bs).value[i])
    decreases |bs|
  {
    var out := Settled(bs).value;
    if i == |bs| - 1 {
      SettledLast(bs, out);
    } else {
      var front := bs[..|bs| - 1];
      var pile := Settled(front).value;
      assert out == pile + [out[|bs| - 1]];
      SettledLands(front, i);
      assert front[i] == bs[i] && pile[..i] == out[..i] && pile[i] == out[i];
    }
  }

  /** The last brick of a settled pile is its input brick landed on the
      pile of the others. */
  lemma SettledLast(bs: seq<Brick>, pile: seq<Brick>)
    requires bs != [] && Settled(bs) == Ok(pile)
    ensures Land(pile[..|bs| - 1], bs[|bs| - 1]) == Ok(pile[|bs| - 1])
  {
    var done := Settled(bs[..|bs| - 1]).value;
    assert pile == done + [Land(done, bs[|bs| - 1]).value];
    assert pile[..|bs| - 1] == done;
  }

  /** A settled brick is its input brick moved along z only: same id, same
      columns, same vertical extent. */
  lemma SettledShape(bs: seq<Brick>, i: nat)
    requires i < |bs| && Settled(bs).Ok?
    ensures Settled(bs).value[i].id == bs[i].id
    ensures Settled(bs).value[i].start.x == bs[i].start.x && Settled(bs).value[i].end.x == bs[i].end.x
    ensures Settled(bs).value[i].start.y == bs[i].start.y && Settled(bs).value[i].end.y == bs[i].end.y
    ensures bs[i].start.z <= bs[i].end.z && OnMap(bs[i])
    ensures Settled(bs).value[i].end.z - Settled(bs).value[i].start.z == bs[i].end.z - bs[i].start.z
    ensures Settled(bs).value[i].end.z < U16 - 1
  {
    SettledLands(bs, i);
  }

  /** The map over a pile is above every brick of the pile. */
  lemma {:induction false} TopAtAbove(bs: seq<Brick>, j: nat, k: nat)
    requires j < |bs| && Covers(bs[j], k)
    ensures bs[j].end.z + 1 <= TopAt(bs, k)
  {
    if j < |bs| - 1 {
      TopAtAbove(bs[..|bs| - 1], j, k);
    }
  }

  /** A non-zero entry of the map is the top of some brick of the pile plus one. */
  lemma {:induction false} TopAtAttained(bs: seq<Brick>, k: nat) returns (j: nat)
    requires TopAt(bs, k) > 0
    ensures j < |bs| && Covers(bs[j], k) && bs[j].end.z + 1 == TopAt(bs, k)
  {
    var front := bs[..|bs| - 1];
    var b := bs[|bs| - 1];
    if Covers(b, k) && b.end.z + 1 >= TopAt(front, k) {
      j := |bs| - 1;
    } else {
      j := TopAtAttained(front, k);
    }
  }

  /** Settled bricks do not overlap: a later brick over a column of an
      earlier one starts above the earlier one's top. */
  lemma SettledApart(bs: seq<Brick>, j: nat, i: nat, k: nat)
    requires j < i < |bs| && Settled(bs).Ok?
    requires Covers(Settled(bs).value[j], k) && Covers(Settled(bs).value[i], k)
    ensures Settled(bs).value[j].end.z < Settled(bs).value[i].start.z
  {
    var out := Settled(bs).value;
    SettledLands(bs, i);
    var h := Heights(out[..i]);
    assert Covers(bs[i], k);
    var _ := FallToIsMax(h, bs[i]);
    TopAtAbove(out[..i], j, k);
  }

  /** Every settled brick rests on the ground or directly on an earlier
      brick that shares one of its columns. */
  lemma SettledRests(bs: seq<Brick>, i: nat) returns (j: nat, k: nat)
    requires i < |bs| && Settled(bs).Ok?
    requires Settled(bs).value[i].start.z > 0
    ensures j < i && Covers(Settled(bs).value[j], k) && Covers(Settled(bs).value[i], k)
    ensures Settled(bs).value[j].end.z + 1 == Settled(bs).value[i].start.z
  {
    var out := Settled(bs).value;
    SettledLands(bs, i);
    var h := Heights(out[..i]);
    k := FallToIsMax(h, bs[i]);
    j := TopAtAttained(out[..i], k);
  }

  // ----------------------------------------------------------- the sort

  /** The sort key `(start.z, end.z)` as one number, exact for `u16` heights. */
  function ZKey(b: Brick): int
  {
    b.start.z * U16 + b.end.z
  }

  /** The key orders bricks by `start.z`, then by `end.z`. */
  lemma ZKeyIsLexicographic(a: Brick, b: Brick)
    requires Fits(a) && Fits(b)
    ensures ZKey(a) <= ZKey(b) <==> a.start.z < b.start.z || (a.start.z == b.start.z && a.end.z <= b.end.z)
  {
    if a.start.z < b.start.z {
      MulMonotone(a.start.z + 1, b.start.z, U16);
    } else if a.start.z > b.start.z {
      MulMonotone(b.start.z + 1, a.start.z, U16);
    }
  }

  /** `simulate_until_settled`: sort by `(start.z, end.z)`, then settle in
      that order. The sort is unstable, so bricks with equal keys may come
      in any order; `sorted` is the order it chose. */
  method SimulateUntilSettled(bricks: array<Brick>) returns (ok: bool, ghost sorted: seq<Brick>)
    modifies bricks
    ensures multiset(sorted) == multiset(old(bricks[..])) && SortedBy(sorted, ZKey)
    ensures ok <==> Settled(sorted).Ok?
    ensures ok ==> bricks[..] == Settled(sorted).value
  {
    SortInPlace(bricks, ZKey);
    sorted := bricks[..];
    ok := Settle(bricks);
  }

  // -------------------------------------------------------- the support tree

  /** `intersects_xy`: the x ranges overlap and the y ranges overlap. */
  predicate IntersectsXY(a: Brick, b: Brick)
  {
    a.start.x <= b.end.x && a.end.x >= b.start.x && a.start.y <= b.end.y && a.end.y >= b.start.y
  }

  /** On the map, an entry of the height map names one column only. */
  lemma CellUnique(x: nat, y: nat, x': nat, y': nat)
    requires x < SIDE && x' < SIDE && Cell(x, y) == Cell(x', y')
    ensures x == x' && y == y'
  {
    DivModUnique(Cell(x, y), SIDE, y, x);
    DivModUnique(Cell(x', y'), SIDE, y', x');
  }

  lemma SharedIntersects(a: Brick, b: Brick, k: nat)
    requires a.end.x < SIDE && b.end.x < SIDE && Covers(a, k) && Covers(b, k)
    ensures IntersectsXY(a, b)
  {
    var xa: nat, ya: nat :| a.start.x <= xa <= a.end.x && a.start.y <= ya <= a.end.y && Cell(xa, ya) == k;
    var xb: nat, yb: nat :| b.start.x <= xb <= b.end.x && b.start.y <= yb <= b.end.y && Cell(xb, yb) == k;
    CellUnique(xa, ya, xb, yb);
  }

  /** For bricks whose x columns lie on the map, overlapping in x and y is
      sharing an entry of the height map; in particular it is symmetric. */
  lemma IntersectsIffShared(a: Brick, b: Brick)
    requires OnMap(a) && OnMap(b) && a.end.x < SIDE && b.end.x < SIDE
    ensures IntersectsXY(a, b) <==> exists k: nat :: Covers(a, k) && Covers(b, k)
    ensures IntersectsXY(a, b) <==> IntersectsXY(b, a)
  {
    if IntersectsXY(a, b) {
      var x := Max(a.start.x, b.start.x);
      var y := Max(a.start.y, b.start.y);
      assert Covers(a, Cell(x, y)) && Covers(b, Cell(x, y));
    }
    forall k: nat | Covers(a, k) && Covers(b, k) ensures IntersectsXY(a, b) {
      SharedIntersects(a, b, k);
    }
  }

  /** The ids of the bricks of `below` whose top is at height `z` and which
      overlap `b` in x and y, in their order. */
  function Supports(below: seq<Brick>, b: Brick, z: nat): seq<nat>
  {
    if below == [] then []
    else
      var s := below[|below| - 1];
      Supports(below[..|below| - 1], b, z) + (if s.end.z == z && IntersectsXY(b, s) then [s.id] else [])
  }

  /** `get_support_tree` for the brick at `idx`: none for a brick on the
      ground, otherwise the earlier bricks ending just below it that overlap it. */
  function SupportersOf(bricks: seq<Brick>, idx: nat): seq<nat>
    requires idx < |bricks|
  {
    var b := bricks[idx];
    if b.start.z == 0 then [] else Supports(bricks[..idx], b, b.start.z - 1)
  }

  lemma {:induction false} SupportsMembers(below: seq<Brick>, b: Brick, z: nat, s: nat)
    ensures s in Supports(below, b, z) <==>
      exists j :: 0 <= j < |below| && below[j].id == s && below[j].end.z == z && IntersectsXY(b, below[j])
  {
    if below != [] {
      var front := below[..|below| - 1];
      SupportsMembers(front, b, z, s);
      if j :| 0 <= j < |front| && front[j].id == s && front[j].end.z == z && IntersectsXY(b, front[j]) {
        assert below[j] == front[j];
      }
    }
  }

  /** A brick's supporters are exactly the earlier bricks whose top is just
      under its bottom and which overlap it in x and y; a brick on the ground
      has none because nothing ends below height 0. */
  lemma SupportersMembers(bricks: seq<Brick>, idx: nat, s: nat)
    requires idx < |bricks|
    ensures s in SupportersOf(bricks, idx) <==>
      exists j :: 0 <= j < idx && bricks[j].id == s && bricks[j].end.z + 1 == bricks[idx].start.z && IntersectsXY(bricks[idx], bricks[j])
  {
    var b := bricks[idx];
    if b.start.z > 0 {
      SupportsMembers(bricks[..idx], b, b.start.z - 1, s);
      if j :| 0 <= j < idx && bricks[j].id == s && bricks[j].end.z + 1 == b.start.z && IntersectsXY(b, bricks[j]) {
        assert bricks[..idx][j] == bricks[j];
      }
    }
  }

  predicate DistinctIds(bricks: seq<Brick>)
  {
    forall i, j :: 0 <= i < j < |bricks| ==> bricks[i].id != bricks[j].id
  }

  predicate IdsBelow(bricks: seq<Brick>)
  {
    forall i :: 0 <= i < |bricks| ==> bricks[i].id < |bricks|
  }

  predicate NoDup(l: seq<nat>)
  {
    forall i, j :: 0 <= i < j < |l| ==> l[i] != l[j]
  }

  /** Distinct bricks give distinct supporters. */
  lemma {:induction false} SupportsNoDup(below: seq<Brick>, b: Brick, z: nat)
    requires DistinctIds(below)
    ensures NoDup(Supports(below, b, z))
  {
    if below != [] {
      var front := below[..|below| - 1];
      var last := below[|below| - 1];
      SupportsNoDup(front, b, z);
      SupportsMembers(front, b, z, last.id);
    }
  }

  /** `tree[id]` lists the supporters of the brick with that id. */
  predicate IsSupportTree(bricks: seq<Brick>, tree: seq<seq<nat>>)
  {
    IdsBelow(bricks) && |tree| == |bricks| &&
    forall idx :: 0 <= idx < |bricks| ==> tree[bricks[idx].id] == SupportersOf(bricks, idx)
  }

  /** Every supporter ranks below the brick it supports, and ranks are below
      the number of bricks: the support relation has no cycle. */
  predicate Ranked(tree: seq<seq<nat>>, rank: seq<nat>)
  {
    |rank| == |tree| &&
    (forall c :: 0 <= c < |tree| ==> rank[c] < |tree|) &&
    forall c, k :: 0 <= c < |tree| && 0 <= k < |tree[c]| ==> tree[c][k] < |tree| && rank[tree[c][k]] < rank[c]
  }

  /** The state of `get_support_tree` after the first `i` bricks. */
  predicate TreeSoFar(bricks: seq<Brick>, tree: seq<seq<nat>>, rank: seq<nat>, i: nat)
    requires i <= |bricks| && IdsBelow(bricks)
  {
    |tree| == |bricks| && Ranked(tree, rank) &&
    (forall idx :: 0 <= idx < i ==> tree[bricks[idx].id] == SupportersOf(bricks, idx) && rank[bricks[idx].id] == idx) &&
    (forall idx :: 0 <= idx < i ==> |SupportersOf(bricks, idx)| <= MAX_SUPPORTERS) &&
    forall c, k :: 0 <= c < |tree| && 0 <= k < |tree[c]| ==> exists j :: 0 <= j < i && bricks[j].id == tree[c][k]
  }

  lemma TreeStep(bricks: seq<Brick>, tree: seq<seq<nat>>, rank: seq<nat>, i: nat)
    requires i < |bricks| && IdsBelow(bricks) && DistinctIds(bricks)
    requires TreeSoFar(bricks, tree, rank, i)
    requires |SupportersOf(bricks, i)| <= MAX_SUPPORTERS
    ensures TreeSoFar(bricks, tree[bricks[i].id := SupportersOf(bricks, i)], rank[bricks[i].id := i], i + 1)
  {
    var c' := bricks[i].id;
    var l := SupportersOf(bricks, i);
    var tree', rank' := tree[c' := l], rank[c' := i];
    forall c, k | 0 <= c < |tree'| && 0 <= k < |tree'[c]|
      ensures tree'[c][k] < |tree'| && rank'[tree'[c][k]] < rank'[c]
      ensures exists j :: 0 <= j < i + 1 && bricks[j].id == tree'[c][k]
    {
      TreeStepArc(bricks, tree, rank, i, c, k);
    }
    forall idx | 0 <= idx < i + 1
      ensures tree'[bricks[idx].id] == SupportersOf(bricks, idx) && rank'[bricks[idx].id] == idx
    {
      if idx < i {
        assert bricks[idx].id != c';
      }
    }
    RankedStep(tree, rank, rank', c', i);
  }

  /** Placing brick `i` keeps every rank below the number of bricks. */
  lemma RankedStep(tree: seq<seq<nat>>, rank: seq<nat>, rank': seq<nat>, c': nat, i: nat)
    requires Ranked(tree, rank) && c' < |tree| && i < |tree| && rank' == rank[c' := i]
    ensures forall c :: 0 <= c < |tree| ==> rank'[c] < |tree|
  {
  }

  /** Arc `k` of brick `c` after the step still goes down in rank, to a
      brick already placed. */
  lemma TreeStepArc(bricks: seq<Brick>, tree: seq<seq<nat>>, rank: seq<nat>, i: nat, c: nat, k: nat)
    requires i < |bricks| && IdsBelow(bricks) && DistinctIds(bricks)
    requires TreeSoFar(bricks, tree, rank, i)
    requires c < |tree| && k < |tree[bricks[i].id := SupportersOf(bricks, i)][c]|
    ensures var tree', rank' := tree[bricks[i].id := SupportersOf(bricks, i)], rank[bricks[i].id := i];
      tree'[c][k] < |tree'| && rank'[tree'[c][k]] < rank'[c] &&
      exists j :: 0 <= j < i + 1 && bricks[j].id == tree'[c][k]
  {
    var c' := bricks[i].id;
    var tree', rank' := tree[c' := SupportersOf(bricks, i)], rank[c' := i];
    var s := tree'[c][k];
    var j: nat;
    if c == c' {
      j := NewArc(bricks, tree, rank, i, k);
      assert rank'[c] == i;
    } else {
      j := OldArc(bricks, tree, rank, i, c, k);
      assert rank'[c] == rank[c];
    }
    assert s != c' && rank'[s] == rank[s];
  }

  /** A supporter of brick `i` is an earlier brick, placed before it. */
  lemma NewArc(bricks: seq<Brick>, tree: seq<seq<nat>>, rank: seq<nat>, i: nat, k: nat) returns (j: nat)
    requires i < |bricks| && IdsBelow(bricks) && DistinctIds(bricks)
    requires TreeSoFar(bricks, tree, rank, i)
    requires k < |SupportersOf(bricks, i)|
    ensures j < i && bricks[j].id == SupportersOf(bricks, i)[k] && rank[bricks[j].id] == j
  {
    var s := SupportersOf(bricks, i)[k];
    SupportersMembers(bricks, i, s);
    j :| 0 <= j < i && bricks[j].id == s && bricks[j].end.z + 1 == bricks[i].start.z && IntersectsXY(bricks[i], bricks[j]);
  }

  /** An arc already in the tree goes to a brick placed before brick `i`. */
  lemma OldArc(bricks: seq<Brick>, tree: seq<seq<nat>>, rank: seq<nat>, i: nat, c: nat, k: nat) returns (j: nat)
    requires i < |bricks| && IdsBelow(bricks)
    requires TreeSoFar(bricks, tree, rank, i)
    requires c < |tree| && k < |tree[c]|
    ensures j < i && bricks[j].id == tree[c][k]
    ensures tree[c][k] < |tree| && rank[tree[c][k]] < rank[c]
  {
    var s := tree[c][k];
    assert exists j :: 0 <= j < i && bricks[j].id == s;
    j :| 0 <= j < i && bricks[j].id == s;
  }

  lemma SupportersNoDup(bricks: seq<Brick>, idx: nat)
    requires idx < |bricks| && DistinctIds(bricks)
    ensures NoDup(SupportersOf(bricks, idx))
  {
    if bricks[idx].start.z > 0 {
      SupportsNoDup(bricks[..idx], bricks[idx], bricks[idx].start.z - 1);
    }
  }

  /** `get_support_tree`: for each brick in pile order, the earlier bricks
      it rests on, stored under its id. An `ArrayVec` of three overflows,
      and the source panics, when a brick has more than three supporters.
      The ghost `rank` (each brick's place in the pile) shows the tree has
      no cycle. */
  method GetSupportTree(bricks: seq<Brick>) returns (r: Result<seq<seq<nat>>>, ghost rank: seq<nat>)
    requires DistinctIds(bricks) && IdsBelow(bricks)
    ensures r.Ok? <==> forall idx :: 0 <= idx < |bricks| ==> |SupportersOf(bricks, idx)| <= MAX_SUPPORTERS
    ensures r.Ok? ==> IsSupportTree(bricks, r.value) && Ranked(r.value, rank)
    ensures r.Ok? ==> forall c :: 0 <= c < |r.value| ==> NoDup(r.value[c])
  {
    var n := |bricks|;
    var tree: seq<seq<nat>> := seq(n, c => []);
    rank := seq(n, c => 0);
    for i := 0 to n
      invariant TreeSoFar(bricks, tree, rank, i)
      invariant forall c :: 0 <= c < n ==> NoDup(tree[c])
    {
      var brick := bricks[i];
      var supporters := if brick.start.z == 0 then [] else Supports(bricks[..i], brick, brick.start.z - 1);
      assert supporters == SupportersOf(bricks, i);
      if |supporters| > MAX_SUPPORTERS {
        assert !(|SupportersOf(bricks, i)| <= MAX_SUPPORTERS);
        return Err(PANIC), rank;
      }
      TreeStep(bricks, tree, rank, i);
      SupportersNoDup(bricks, i);
      tree := tree[brick.id := supporters];
      rank := rank[brick.id := i];
    }
    TreeDone(bricks, tree, rank);
    return Ok(tree), rank;
  }

  /** After the last brick the tree is the support tree, and every brick
      had few enough supporters. */
  lemma TreeDone(bricks: seq<Brick>, tree: seq<seq<nat>>, rank: seq<nat>)
    requires IdsBelow(bricks) && TreeSoFar(bricks, tree, rank, |bricks|)
    ensures IsSupportTree(bricks, tree) && Ranked(tree, rank)
    ensures forall idx :: 0 <= idx < |bricks| ==> |SupportersOf(bricks, idx)| <= MAX_SUPPORTERS
  {
  }

  // --------------------------------------------------------------- part 1

  /** Every supporter is the id of a brick. */
  predicate Bounded(tree: seq<seq<nat>>)
  {
    forall c, k :: 0 <= c < |tree| && 0 <= k < |tree[c]| ==> tree[c][k] < |tree|
  }

  /** The bricks that are the only supporter of some brick. */
  function Sole(tree: seq<seq<nat>>): (r: set<nat>)
    ensures Bounded(tree) ==> forall b :: b in r ==> b < |tree|
  {
    set c | 0 <= c < |tree| && |tree[c]| == 1 :: tree[c][0]
  }

  /** The loop collecting `sole_supporters`. */
  method SoleSupporters(tree: seq<seq<nat>>) returns (sole: set<nat>)
    ensures sole == Sole(tree)
  {
    sole := {};
    for c := 0 to |tree|
      invariant sole == set c' | 0 <= c' < c && |tree[c']| == 1 :: tree[c'][0]
    {
      if |tree[c]| == 1 {
        sole := sole + {tree[c][0]};
      }
    }
  }

  /** Brick `b` can be taken away: every brick it holds up has another supporter. */
  ghost predicate Disintegrable(tree: seq<seq<nat>>, b: nat)
  {
    forall c :: 0 <= c < |tree| && b in tree[c] ==> exists s :: s in tree[c] && s != b
  }

  /** The ids `0..n`. */
  function Below(n: nat): set<nat>
  {
    if n == 0 then {} else Below(n - 1) + {n - 1}
  }

  lemma {:induction false} BelowSize(n: nat)
    ensures |Below(n)| == n
    ensures forall i :: i in Below(n) <==> 0 <= i < n
  {
    if n > 0 {
      BelowSize(n - 1);
    }
  }

  /** A list without repeats whose every element is `b` is `[b]`. */
  lemma OnlyOne(l: seq<nat>, b: nat)
    requires NoDup(l) && b in l && forall s :: s in l ==> s == b
    ensures l == [b]
  {
    var i :| 0 <= i < |l| && l[i] == b;
    forall j | 0 <= j < |l| ensures l[j] == b && j == i {
      assert l[j] in l;
    }
    assert l[0] == b && l[|l| - 1] == b;
  }

  /** Part 1 counts the bricks that can be taken away: those that are not
      the only supporter of any brick. */
  lemma Part1Counts(tree: seq<seq<nat>>)
    requires Bounded(tree) && forall c :: 0 <= c < |tree| ==> NoDup(tree[c])
    ensures |Sole(tree)| <= |tree|
    ensures |tree| - |Sole(tree)| == |set b | 0 <= b < |tree| && Disintegrable(tree, b)|
  {
    var n := |tree|;
    var all, sole := Below(n), Sole(tree);
    var safe := set b | 0 <= b < n && Disintegrable(tree, b);
    BelowSize(n);
    forall b | b in sole ensures b in all && !Disintegrable(tree, b) {
      var c :| 0 <= c < n && |tree[c]| == 1 && tree[c][0] == b;
      assert b in tree[c];
    }
    forall b | b in all && !Disintegrable(tree, b) ensures b in sole {
      var c :| 0 <= c < n && b in tree[c] && !(exists s :: s in tree[c] && s != b);
      OnlyOne(tree[c], b);
    }
    assert safe == all - sole;
    assert all == safe + sole && safe * sole == {};
    BelowSize(n);
  }

  // ------------------------------------------------------------ supportees

  /** `c` once for each time `s` occurs in `l`. */
  function Occ(l: seq<nat>, s: nat, c: nat): seq<nat>
  {
    if l == [] then [] else Occ(l[..|l| - 1], s, c) + (if l[|l| - 1] == s then [c] else [])
  }

  /** The supportees of `s` pushed by the first `m` entries of the tree,
      entry `i` standing for the brick with id `ids[i]`. */
  function Children(tree: seq<seq<nat>>, ids: seq<nat>, m: nat, s: nat): seq<nat>
    requires m <= |tree| && m <= |ids|
  {
    if m == 0 then [] else Children(tree, ids, m - 1, s) + Occ(tree[m - 1], s, ids[m - 1])
  }

  lemma {:induction false} OccMembers(l: seq<nat>, s: nat, c: nat, x: nat)
    ensures x in Occ(l, s, c) <==> x == c && s in l
  {
    if l != [] {
      OccMembers(l[..|l| - 1], s, c, x);
      assert l == l[..|l| - 1] + [l[|l| - 1]];
    }
  }

  /** `c` is recorded under `s` exactly when `s` supports entry `i` with id `c`. */
  lemma {:induction false} ChildrenMembers(tree: seq<seq<nat>>, ids: seq<nat>, m: nat, s: nat, c: nat)
    requires m <= |tree| && m <= |ids|
    ensures c in Children(tree, ids, m, s) <==> exists i :: 0 <= i < m && ids[i] == c && s in tree[i]
  {
    if m > 0 {
      ChildrenMembers(tree, ids, m - 1, s, c);
      OccMembers(tree[m - 1], s, ids[m - 1], c);
    }
  }

  lemma {:induction false} OccPrefix(l: seq<nat>, j: nat, s: nat, c: nat)
    requires j <= |l|
    ensures |Occ(l[..j], s, c)| <= |Occ(l, s, c)|
    decreases |l|
  {
    if j < |l| {
      assert l[..|l| - 1][..j] == l[..j];
      OccPrefix(l[..|l| - 1], j, s, c);
    } else {
      assert l[..j] == l;
    }
  }

  lemma {:induction false} ChildrenGrow(tree: seq<seq<nat>>, ids: seq<nat>, m: nat, m': nat, s: nat)
    requires m <= m' <= |tree| && m' <= |ids|
    ensures |Children(tree, ids, m, s)| <= |Children(tree, ids, m', s)|
    decreases m' - m
  {
    if m < m' {
      ChildrenGrow(tree, ids, m, m' - 1, s);
    }
  }

  /** No list of supportees outgrows its `ArrayVec` while the first `m`
      entries of the tree are read. */
  predicate Fit(tree: seq<seq<nat>>, ids: seq<nat>, m: nat)
    requires m <= |tree| && m <= |ids|
  {
    forall s :: 0 <= s < |tree| ==> |Children(tree, ids, m, s)| <= MAX_SUPPORTEES
  }

  /** The supportee lists while entry `i` of the tree is being read, after
      its first `j` supporters. */
  predicate PushedSoFar(tree: seq<seq<nat>>, ids: seq<nat>, sup: seq<seq<nat>>, i: nat, j: nat)
    requires i < |tree| && |ids| == |tree| && j <= |tree[i]|
  {
    |sup| == |tree| &&
    forall s :: 0 <= s < |tree| ==> sup[s] == Children(tree, ids, i, s) + Occ(tree[i][..j], s, ids[i]) && |sup[s]| <= MAX_SUPPORTEES
  }

  /** The inner loop of the supportee table: `supportees[supporter].push(id)`
      for each supporter of entry `i`; a fifth push overflows the `ArrayVec`
      and the source panics. */
  method PushSupportee(tree: seq<seq<nat>>, ids: seq<nat>, sup: seq<seq<nat>>, i: nat) returns (r: Result<seq<seq<nat>>>)
    requires Bounded(tree) && i < |tree| && |ids| == |tree|
    requires PushedSoFar(tree, ids, sup, i, 0)
    ensures r.Ok? <==> Fit(tree, ids, i + 1)
    ensures r.Ok? ==> |r.value| == |tree| && forall s :: 0 <= s < |tree| ==> r.value[s] == Children(tree, ids, i + 1, s)
  {
    var cur := sup;
    var l := tree[i];
    for j := 0 to |l|
      invariant PushedSoFar(tree, ids, cur, i, j)
    {
      var s := l[j];
      assert l[..j + 1][..j] == l[..j];
      if |cur[s]| == MAX_SUPPORTEES {
        assert l[..j + 1] == l[..j] + [s];
        assert Occ(l[..j + 1], s, ids[i]) == Occ(l[..j], s, ids[i]) + [ids[i]];
        OccPrefix(l, j + 1, s, ids[i]);
        assert |Children(tree, ids, i + 1, s)| > MAX_SUPPORTEES;
        return Err(PANIC);
      }
      cur := cur[s := cur[s] + [ids[i]]];
    }
    assert l[..|l|] == l;
    return Ok(cur);
  }

  /** The supportee table: for each entry `i` of the tree in order, the id
      `ids[i]` is pushed onto the list of each of its supporters. */
  method Supportees(tree: seq<seq<nat>>, ids: seq<nat>) returns (r: Result<seq<seq<nat>>>)
    requires Bounded(tree) && |ids| == |tree|
    ensures r.Ok? <==> Fit(tree, ids, |tree|)
    ensures r.Ok? ==> |r.value| == |tree| && forall s :: 0 <= s < |tree| ==> r.value[s] == Children(tree, ids, |tree|, s)
  {
    var sup: seq<seq<nat>> := seq(|tree|, s => []);
    for i := 0 to |tree|
      invariant |sup| == |tree|
      invariant forall s :: 0 <= s < |tree| ==> sup[s] == Children(tree, ids, i, s) && |sup[s]| <= MAX_SUPPORTEES
    {
      assert tree[i][..0] == [];
      var next := PushSupportee(tree, ids, sup, i);
      if next.Err? {
        var s :| 0 <= s < |tree| && |Children(tree, ids, i + 1, s)| > MAX_SUPPORTEES;
        ChildrenGrow(tree, ids, i + 1, |tree|, s);
        return Err(PANIC);
      }
      sup := next.value;
    }
    return Ok(sup);
  }

  // -------------------------------------------------------- chain reaction

  /** `F` is closed under falling: a brick all of whose supporters are in
      `F` is in `F` too. */
  ghost predicate Closed(tree: seq<seq<nat>>, F: set<nat>)
  {
    forall c :: 0 <= c < |tree| && tree[c] != [] && (forall s :: s in tree[c] ==> s in F) ==> c in F
  }

  /** The bricks that fall once `b` is removed: those in every closed set
      that holds `b`. */
  ghost function Fallen(tree: seq<seq<nat>>, b: nat): set<nat>
  {
    set c | 0 <= c < |tree| && InEveryClosed(tree, b, c)
  }

  ghost predicate InEveryClosed(tree: seq<seq<nat>>, b: nat, c: nat)
  {
    forall F: set<nat> :: b in F && Closed(tree, F) ==> c in F
  }

  /** `Fallen` is the least closed set holding `b`. */
  lemma FallenLeast(tree: seq<seq<nat>>, b: nat)
    requires b < |tree|
    ensures b in Fallen(tree, b) && Closed(tree, Fallen(tree, b))
    ensures forall F: set<nat> :: b in F && Closed(tree, F) ==> Fallen(tree, b) <= F
  {
    var fallen := Fallen(tree, b);
    forall c | 0 <= c < |tree| && tree[c] != [] && (forall s :: s in tree[c] ==> s in fallen)
      ensures c in fallen
    {
      forall F: set<nat> | b in F && Closed(tree, F) ensures c in F {
        assert forall s :: s in tree[c] ==> s in F;
      }
    }
  }

  /** The number of other bricks that fall when `b` is removed. */
  ghost function ChainCount(tree: seq<seq<nat>>, b: nat): nat
    requires b < |tree|
  {
    FallenLeast(tree, b);
    |Fallen(tree, b)| - 1
  }

  /** `sup` is the inverse of `tree`: `c` is listed under `x` exactly when
      `x` supports `c`. */
  predicate Inverse(tree: seq<seq<nat>>, sup: seq<seq<nat>>)
  {
    |sup| == |tree| &&
    (forall x, k :: 0 <= x < |sup| && 0 <= k < |sup[x]| ==> sup[x][k] < |tree| && x in tree[sup[x][k]]) &&
    forall c, k :: 0 <= c < |tree| && 0 <= k < |tree[c]| ==> tree[c][k] < |sup| && c in sup[tree[c][k]]
  }

  /** Every supportee ranks above its supporter. */
  predicate Layered(sup: seq<seq<nat>>, rank: seq<nat>)
  {
    |rank| == |sup| &&
    (forall x :: 0 <= x < |sup| ==> rank[x] < |sup|) &&
    forall x, k :: 0 <= x < |sup| && 0 <= k < |sup[x]| ==> sup[x][k] < |sup| && rank[x] < rank[sup[x][k]]
  }

  lemma LayeredFromRanked(tree: seq<seq<nat>>, sup: seq<seq<nat>>, rank: seq<nat>)
    requires Ranked(tree, rank) && Inverse(tree, sup)
    ensures Layered(sup, rank)
  {
    forall x, k | 0 <= x < |sup| && 0 <= k < |sup[x]| ensures rank[x] < rank[sup[x][k]] {
      var c := sup[x][k];
      var i :| 0 <= i < |tree[c]| && tree[c][i] == x;
    }
  }

  /** One more than the number of paths down the supportee lists from `x`:
      a bound on how often `x` and what it holds up can be queued. */
  ghost function Weight(sup: seq<seq<nat>>, rank: seq<nat>, x: nat): nat
    requires Layered(sup, rank) && x < |sup|
    decreases |sup| - rank[x], |sup[x]| + 1
  {
    1 + WeightSum(sup, rank, sup[x], rank[x])
  }

  ghost function WeightSum(sup: seq<seq<nat>>, rank: seq<nat>, l: seq<nat>, floor: nat): nat
    requires Layered(sup, rank)
    requires forall k :: 0 <= k < |l| ==> l[k] < |sup| && floor < rank[l[k]]
    decreases |sup| - floor, |l|
  {
    if l == [] then 0
    else WeightSum(sup, rank, l[..|l| - 1], floor) + Weight(sup, rank, l[|l| - 1])
  }

  ghost function QueueWeight(sup: seq<seq<nat>>, rank: seq<nat>, q: seq<nat>): nat
    requires Layered(sup, rank) && forall k :: 0 <= k < |q| ==> q[k] < |sup|
  {
    if q == [] then 0 else QueueWeight(sup, rank, q[..|q| - 1]) + Weight(sup, rank, q[|q| - 1])
  }

  /** The state of the search from `b`: everything queued or fallen falls,
      and a brick whose supporters have all fallen and left the queue has
      fallen. */
  ghost predicate Falling(tree: seq<seq<nat>>, b: nat, falling: set<nat>, q: seq<nat>)
    requires b < |tree|
  {
    b in falling && falling <= Fallen(tree, b) &&
    (forall k :: 0 <= k < |q| ==> q[k] in falling) &&
    forall c :: 0 <= c < |tree| && tree[c] != [] && (forall s :: s in tree[c] ==> s in falling && s !in q) ==> c in falling
  }

  /** As `Falling`, while the supportees `rest` of a popped brick are still
      to be looked at. */
  ghost predicate Releasing(tree: seq<seq<nat>>, b: nat, falling: set<nat>, q: seq<nat>, rest: seq<nat>)
    requires b < |tree|
  {
    b in falling && falling <= Fallen(tree, b) &&
    (forall k :: 0 <= k < |q| ==> q[k] in falling) &&
    forall c :: 0 <= c < |tree| && tree[c] != [] && (forall s :: s in tree[c] ==> s in falling && s !in q) ==> c in falling || c in rest
  }

  lemma ReleaseStart(tree: seq<seq<nat>>, sup: seq<seq<nat>>, b: nat, falling: set<nat>, q: seq<nat>, x: nat)
    requires b < |tree| && Inverse(tree, sup) && x < |sup|
    requires Falling(tree, b, falling, q + [x])
    ensures Releasing(tree, b, falling, q, sup[x])
  {
    forall k | 0 <= k < |q| ensures q[k] in falling {
      assert q[k] == (q + [x])[k];
    }
    forall c | 0 <= c < |tree| && tree[c] != [] && (forall s :: s in tree[c] ==> s in falling && s !in q)
      ensures c in falling || c in sup[x]
    {
      if x in tree[c] {
        var k :| 0 <= k < |tree[c]| && tree[c][k] == x;
      } else {
        assert forall s :: s in tree[c] ==> s !in q + [x];
      }
    }
  }

  lemma ReleaseChild(tree: seq<seq<nat>>, b: nat, falling: set<nat>, q: seq<nat>, rest: seq<nat>)
    requires b < |tree| && rest != [] && rest[0] < |tree|
    requires Releasing(tree, b, falling, q, rest)
    ensures var c := rest[0];
      if tree[c] != [] && forall s :: s in tree[c] ==> s in falling then
        Releasing(tree, b, falling + {c}, q + [c], rest[1..])
      else
        Releasing(tree, b, falling, q, rest[1..])
  {
    var c := rest[0];
    FallenLeast(tree, b);
    if tree[c] != [] && forall s :: s in tree[c] ==> s in falling {
      var falling', q' := falling + {c}, q + [c];
      forall k | 0 <= k < |q'| ensures q'[k] in falling' {
        if k < |q| {
          assert q'[k] == q[k];
        }
      }
      forall c' | 0 <= c' < |tree| && tree[c'] != [] && (forall s :: s in tree[c'] ==> s in falling' && s !in q')
        ensures c' in falling' || c' in rest[1..]
      {
        assert forall s :: s in tree[c'] ==> s in falling && s !in q;
        assert rest == [c] + rest[1..];
      }
    } else {
      assert rest == [c] + rest[1..];
    }
  }

  lemma WeightSumSnoc(sup: seq<seq<nat>>, rank: seq<nat>, l: seq<nat>, j: nat, floor: nat)
    requires Layered(sup, rank) && j < |l|
    requires forall k :: 0 <= k < |l| ==> l[k] < |sup| && floor < rank[l[k]]
    ensures WeightSum(sup, rank, l[..j + 1], floor) == WeightSum(sup, rank, l[..j], floor) + Weight(sup, rank, l[j])
  {
    assert l[..j + 1][..j] == l[..j];
  }

  lemma QueueWeightSnoc(sup: seq<seq<nat>>, rank: seq<nat>, q: seq<nat>, c: nat)
    requires Layered(sup, rank) && c < |sup| && forall k :: 0 <= k < |q| ==> q[k] < |sup|
    ensures QueueWeight(sup, rank, q + [c]) == QueueWeight(sup, rank, q) + Weight(sup, rank, c)
  {
    assert (q + [c])[..|q|] == q;
  }

  /** The loop over the supportees of the popped brick `x`: a supportee
      whose supporters have all fallen falls and is queued. The queue's
      weight drops below what it was with `x` on it. */
  method Release(tree: seq<seq<nat>>, sup: seq<seq<nat>>, b: nat, falling: set<nat>, q: seq<nat>, x: nat, ghost rank: seq<nat>)
      returns (falling': set<nat>, q': seq<nat>)
    requires b < |tree| && Inverse(tree, sup) && Layered(sup, rank) && x < |sup|
    requires forall k :: 0 <= k < |q| ==> q[k] < |sup|
    requires Falling(tree, b, falling, q + [x])
    ensures Falling(tree, b, falling', q')
    ensures forall k :: 0 <= k < |q'| ==> q'[k] < |sup|
    ensures QueueWeight(sup, rank, q') < QueueWeight(sup, rank, q + [x])
  {
    ReleaseStart(tree, sup, b, falling, q, x);
    QueueWeightSnoc(sup, rank, q, x);
    var children := sup[x];
    falling', q' := falling, q;
    for j := 0 to |children|
      invariant Releasing(tree, b, falling', q', children[j..])
      invariant forall k :: 0 <= k < |q'| ==> q'[k] < |sup|
      invariant QueueWeight(sup, rank, q') <= QueueWeight(sup, rank, q) + WeightSum(sup, rank, children[..j], rank[x])
    {
      falling', q' := ReleaseStep(tree, sup, b, falling', q', x, j, rank, QueueWeight(sup, rank, q));
    }
    assert children[..|children|] == children;
  }

  /** One supportee `c` of `x`: it falls and is queued when all its
      supporters have fallen. */
  method ReleaseStep(tree: seq<seq<nat>>, sup: seq<seq<nat>>, b: nat, falling: set<nat>, q: seq<nat>, x: nat, j: nat, ghost rank: seq<nat>, ghost base: nat)
      returns (falling': set<nat>, q': seq<nat>)
    requires b < |tree| && Inverse(tree, sup) && Layered(sup, rank) && x < |sup| && j < |sup[x]|
    requires Releasing(tree, b, falling, q, sup[x][j..])
    requires forall k :: 0 <= k < |q| ==> q[k] < |sup|
    requires QueueWeight(sup, rank, q) <= base + WeightSum(sup, rank, sup[x][..j], rank[x])
    ensures Releasing(tree, b, falling', q', sup[x][j + 1..])
    ensures forall k :: 0 <= k < |q'| ==> q'[k] < |sup|
    ensures QueueWeight(sup, rank, q') <= base + WeightSum(sup, rank, sup[x][..j + 1], rank[x])
  {
    var children := sup[x];
    var c := children[j];
    assert children[j..][0] == c && children[j..][1..] == children[j + 1..];
    ReleaseChild(tree, b, falling, q, children[j..]);
    WeightSumSnoc(sup, rank, children, j, rank[x]);
    falling', q' := falling, q;
    if forall k :: 0 <= k < |tree[c]| ==> tree[c][k] in falling {
      QueueWeightSnoc(sup, rank, q, c);
      falling' := falling + {c};
      q' := q + [c];
    }
  }

  /** The chain reaction from `b`: it falls, and each brick popped off the
      stack lets fall those of its supportees whose supporters have all
      fallen. The count leaves `b` itself out. */
  method ChainReaction(tree: seq<seq<nat>>, sup: seq<seq<nat>>, b: nat, ghost rank: seq<nat>) returns (count: nat)
    requires Ranked(tree, rank) && Inverse(tree, sup) && b < |tree|
    ensures count == ChainCount(tree, b)
  {
    LayeredFromRanked(tree, sup, rank);
    FallenLeast(tree, b);
    var falling: set<nat> := {b};
    var q: seq<nat> := [b];
    forall c | 0 <= c < |tree| && tree[c] != []
      ensures !(forall s :: s in tree[c] ==> s in falling && s !in q)
    {
      assert tree[c][0] in tree[c];
    }
    while q != []
      invariant Falling(tree, b, falling, q)
      invariant forall k :: 0 <= k < |q| ==> q[k] < |sup|
      decreases QueueWeight(sup, rank, q)
    {
      var x := q[|q| - 1];
      var rest := q[..|q| - 1];
      assert q == rest + [x];
      falling, q := Release(tree, sup, b, falling, rest, x, rank);
    }
    assert Closed(tree, falling);
    assert falling == Fallen(tree, b);
    count := |falling| - 1;
  }

  // --------------------------------------------------------------- part 2

  /** The chain counts of the bricks of `bs`, added up. */
  ghost function ChainSum(tree: seq<seq<nat>>, bs: set<nat>): nat
    requires forall b :: b in bs ==> b < |tree|
    decreases bs
  {
    if bs == {} then 0
    else
      var b :| b in bs;
      ChainCount(tree, b) + ChainSum(tree, bs - {b})
  }

  /** The sum does not depend on the order the bricks are taken in. */
  lemma {:induction false} ChainSumAny(tree: seq<seq<nat>>, bs: set<nat>, b: nat)
    requires (forall x :: x in bs ==> x < |tree|) && b in bs
    ensures ChainSum(tree, bs) == ChainCount(tree, b) + ChainSum(tree, bs - {b})
    decreases bs
  {
    var a :| a in bs && ChainSum(tree, bs) == ChainCount(tree, a) + ChainSum(tree, bs - {a});
    if a != b {
      ChainSumAny(tree, bs - {a}, b);
      ChainSumAny(tree, bs - {b}, a);
      assert bs - {a} - {b} == bs - {b} - {a};
    }
  }

  /** The sum over the sole supporters of their chain reactions, taken in
      any order as the parallel iterator does. */
  method SumChains(tree: seq<seq<nat>>, sup: seq<seq<nat>>, sole: set<nat>, ghost rank: seq<nat>) returns (total: nat)
    requires Ranked(tree, rank) && Inverse(tree, sup) && forall b :: b in sole ==> b < |tree|
    ensures total == ChainSum(tree, sole)
  {
    total := 0;
    var left := sole;
    while left != {}
      invariant left <= sole
      invariant total + ChainSum(tree, left) == ChainSum(tree, sole)
      decreases |left|
    {
      var b :| b in left;
      ChainSumAny(tree, left, b);
      var count := ChainReaction(tree, sup, b, rank);
      total := total + count;
      left := left - {b};
    }
  }

  // ------------------------------------------------------------ ids

  /** The ids of the bricks, in order. */
  function Ids(bricks: seq<Brick>): (r: seq<nat>)
    ensures |r| == |bricks|
  {
    seq(|bricks|, i requires 0 <= i < |bricks| => bricks[i].id)
  }

  /** `0, 1, ..., n - 1`. */
  function Numbers(n: nat): (r: seq<nat>)
    ensures |r| == n
  {
    seq(n, i requires 0 <= i < n => i)
  }

  function IdKey(b: Brick): int
  {
    b.id
  }

  lemma IdsAppend(a: seq<Brick>, b: seq<Brick>)
    ensures Ids(a + b) == Ids(a) + Ids(b)
  {
  }

  /** Rearranging bricks rearranges their ids. */
  lemma {:induction false} IdsPermutation(s: seq<Brick>, t: seq<Brick>)
    requires multiset(s) == multiset(t)
    ensures multiset(Ids(s)) == multiset(Ids(t))
  {
    if s == [] {
      assert |t| == |multiset(t)| == 0;
    } else {
      var n := |s| - 1;
      var x := s[n];
      assert x in multiset(t);
      var k :| 0 <= k < |t| && t[k] == x;
      var front, back := t[..k], t[k + 1..];
      assert t == front + [x] + back;
      assert s == s[..n] + [x];
      assert multiset(s[..n]) == multiset(s) - multiset{x};
      assert multiset(front + back) == multiset(t) - multiset{x};
      IdsPermutation(s[..n], front + back);
      IdsAppend(s[..n], [x]);
      IdsAppend(front, [x]);
      IdsAppend(front + [x], back);
      IdsAppend(front, back);
    }
  }

  lemma {:induction false} NumbersOnce(n: nat, v: nat)
    ensures multiset(Numbers(n))[v] == (if v < n then 1 else 0)
  {
    if n > 0 {
      NumbersOnce(n - 1, v);
      assert Numbers(n) == Numbers(n - 1) + [n - 1];
    }
  }

  /** Ids that are a rearrangement of `0..n` are below `n` and distinct. */
  lemma IdsFromNumbers(bricks: seq<Brick>)
    requires multiset(Ids(bricks)) == multiset(Numbers(|bricks|))
    ensures IdsBelow(bricks) && DistinctIds(bricks)
  {
    var ids := Ids(bricks);
    forall i | 0 <= i < |bricks| ensures bricks[i].id < |bricks| {
      assert ids[i] in multiset(ids);
      NumbersOnce(|bricks|, ids[i]);
    }
    forall i, j | 0 <= i < j < |bricks| ensures bricks[i].id != bricks[j].id {
      if ids[i] == ids[j] {
        var v := ids[i];
        assert ids == ids[..j] + [v] + ids[j + 1..];
        assert v in multiset(ids[..j]) by {
          assert ids[..j][i] == v;
        }
        NumbersOnce(|bricks|, v);
        assert false;
      }
    }
  }

  /** After `sort_unstable_by_key(|brick| brick.id)` the brick at `i` has id `i`. */
  lemma SortedById(bricks: seq<Brick>)
    requires SortedBy(bricks, IdKey) && multiset(Ids(bricks)) == multiset(Numbers(|bricks|))
    ensures Ids(bricks) == Numbers(|bricks|)
  {
    var n := |bricks|;
    var key := (x: nat) => x as int;
    assert SortedBy(Ids(bricks), key);
    assert SortedBy(Numbers(n), key);
    SortedUnique(Numbers(n), Ids(bricks), key);
  }

  /** Settling leaves the ids in place. */
  lemma SettledIds(bs: seq<Brick>)
    requires Settled(bs).Ok?
    ensures Ids(Settled(bs).value) == Ids(bs)
  {
    forall i | 0 <= i < |bs| ensures Settled(bs).value[i].id == bs[i].id {
      SettledShape(bs, i);
    }
  }

  /** The supportee table is the inverse of the tree when entry `i` is the
      brick with id `i`. */
  lemma InverseFromChildren(tree: seq<seq<nat>>, sup: seq<seq<nat>>)
    requires Bounded(tree) && |sup| == |tree|
    requires forall s :: 0 <= s < |tree| ==> sup[s] == Children(tree, Numbers(|tree|), |tree|, s)
    ensures Inverse(tree, sup)
  {
    var n := |tree|;
    forall x, k | 0 <= x < n && 0 <= k < |sup[x]| ensures sup[x][k] < n && x in tree[sup[x][k]] {
      ChildrenMembers(tree, Numbers(n), n, x, sup[x][k]);
      assert sup[x][k] in sup[x];
    }
    forall c, k | 0 <= c < n && 0 <= k < |tree[c]| ensures c in sup[tree[c][k]] {
      ChildrenMembers(tree, Numbers(n), n, tree[c][k], c);
      assert tree[c][k] in tree[c];
    }
  }

  // ------------------------------------------------------------ the answer

  /** The bricks of the input, line `i` being the brick with id `i`. */
  function ParseLines(lines: seq<string>): (r: Result<seq<Brick>>)
    ensures r.Ok? <==> forall i :: 0 <= i < |lines| ==> ParseBrick(i, lines[i]).Ok?
    ensures r.Ok? ==> |r.value| == |lines| && Ids(r.value) == Numbers(|lines|)
    ensures r.Ok? ==> forall i :: 0 <= i < |lines| ==> r.value[i] == ParseBrick(i, lines[i]).value
  {
    if lines == [] then Ok([])
    else
      var n := |lines| - 1;
      var front := ParseLines(lines[..n]);
      var b := ParseBrick(n, lines[n]);
      if front.Err? then
        assert exists i :: 0 <= i < n && ParseBrick(i, lines[..n][i]).Err?;
        Err(front.reason)
      else if b.Err? then
        assert ParseBrick(n, lines[n]).Err?;
        Err(b.reason)
      else
        ParsedSnoc(lines, front.value, b.value);
        Ok(front.value + [b.value])
  }

  /** One more parsed line extends the parsed bricks by its brick. */
  lemma ParsedSnoc(lines: seq<string>, front: seq<Brick>, b: Brick)
    requires lines != [] && |front| == |lines| - 1
    requires forall i :: 0 <= i < |front| ==>
      ParseBrick(i, lines[..|front|][i]).Ok? && front[i] == ParseBrick(i, lines[..|front|][i]).value
    requires ParseBrick(|front|, lines[|front|]) == Ok(b)
    ensures forall i :: 0 <= i < |lines| ==> ParseBrick(i, lines[i]).Ok?
    ensures forall i :: 0 <= i < |lines| ==> (front + [b])[i] == ParseBrick(i, lines[i]).value
    ensures Ids(front + [b]) == Numbers(|lines|)
  {
    var bs := front + [b];
    forall i | 0 <= i < |lines|
      ensures ParseBrick(i, lines[i]).Ok? && bs[i] == ParseBrick(i, lines[i]).value
    {
      if i < |front| {
        assert lines[..|front|][i] == lines[i];
      }
    }
    forall i | 0 <= i < |bs| ensures Ids(bs)[i] == Numbers(|lines|)[i] {
      assert bs[i] == ParseBrick(i, lines[i]).value;
    }
  }

  /** Every brick of the pile rests on at most three others, so no
      supporter list outgrows its `ArrayVec`. */
  predicate SupportersFit(bricks: seq<Brick>)
  {
    forall idx :: 0 <= idx < |bricks| ==> |SupportersOf(bricks, idx)| <= MAX_SUPPORTERS
  }

  /** No brick of the tree, whose ids are `0..|tree|`, holds up more than
      four others, so no supportee list outgrows its `ArrayVec`. */
  predicate SupporteesFit(tree: seq<seq<nat>>)
  {
    Fit(tree, Numbers(|tree|), |tree|)
  }

  /** The rest of `solve`, from the settled pile in `bricks` (whose ids
      are `0..n` in some order) to the two answers. */
  method Answer(bricks: array<Brick>) returns (r: Result<(nat, nat)>, ghost tree: seq<seq<nat>>)
    requires multiset(Ids(bricks[..])) == multiset(Numbers(bricks.Length))
    modifies bricks
    ensures r.Ok? <==> SupportersFit(old(bricks[..])) && SupporteesFit(tree)
    ensures SupportersFit(old(bricks[..])) ==> IsSupportTree(old(bricks[..]), tree) && Bounded(tree)
    ensures r.Ok? ==> r.value.0 == |set b | 0 <= b < |tree| && Disintegrable(tree, b)|
    ensures r.Ok? ==> r.value.1 == ChainSum(tree, Sole(tree))
  {
    tree := [];
    var n := bricks.Length;
    var settled := bricks[..];
    IdsFromNumbers(settled);
    var support;
    ghost var rank;
    support, rank := GetSupportTree(settled);
    if support.Err? {
      return Err(PANIC), tree;
    }
    var supporters := support.value;
    tree := supporters;
    SortInPlace(bricks, IdKey);
    IdsPermutation(bricks[..], settled);
    SortedById(bricks[..]);
    var ids := seq(n, i requires 0 <= i < n reads bricks => bricks[i].id);
    assert ids == Ids(bricks[..]);
    var sole := SoleSupporters(supporters);
    Part1Counts(supporters);
    var p1 := n - |sole|;
    var sup := Supportees(supporters, ids);
    if sup.Err? {
      return Err(PANIC), tree;
    }
    InverseFromChildren(supporters, sup.value);
    var p2 := SumChains(supporters, sup.value, sole, rank);
    return Ok((p1, p2)), tree;
  }

  /** `solve`. The unstable sort picks `sorted` among the orders by
      `(start.z, end.z)`; `pile` is the settled pile and `tree` its support
      tree. Part 1 counts the bricks that can be taken away without another
      brick losing its last supporter; part 2 adds up, over the bricks that
      cannot, how many other bricks fall in their chain reaction. */
  method Solve(input: string) returns (r: Result<(nat, nat)>, ghost sorted: seq<Brick>, ghost pile: seq<Brick>, ghost tree: seq<seq<nat>>)
    ensures r.Ok? <==> ParseLines(Lines(input)).Ok? && Settled(sorted).Ok? && SupportersFit(pile) && SupporteesFit(tree)
    ensures ParseLines(Lines(input)).Ok? ==> multiset(sorted) == multiset(ParseLines(Lines(input)).value) && SortedBy(sorted, ZKey)
    ensures ParseLines(Lines(input)).Ok? && Settled(sorted).Ok? ==> Settled(sorted) == Ok(pile)
    ensures ParseLines(Lines(input)).Ok? && Settled(sorted).Ok? && SupportersFit(pile) ==> IsSupportTree(pile, tree)
    ensures r.Ok? ==> r.value.0 == |set b | 0 <= b < |tree| && Disintegrable(tree, b)|
    ensures r.Ok? ==> Bounded(tree) && r.value.1 == ChainSum(tree, Sole(tree))
  {
    sorted, pile, tree := [], [], [];
    var parsed := ParseLines(Lines(input));
    if parsed.Err? {
      return Err(PANIC), sorted, pile, tree;
    }
    var n := |parsed.value|;
    var bricks := new Brick[n](i requires 0 <= i < n => parsed.value[i]);
    assert bricks[..] == parsed.value;
    var ok;
    ok, sorted := SimulateUntilSettled(bricks);
    if !ok {
      return Err(PANIC), sorted, pile, tree;
    }
    pile := bricks[..];
    IdsPermutation(sorted, parsed.value);
    SettledIds(sorted);
    r, tree := Answer(bricks);
  }
}
