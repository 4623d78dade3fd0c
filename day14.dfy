/** Day 14: Parabolic Reflector Dish. A platform of round rocks (`O`, the
    rollers), cube rocks (`#`, the blocks) and empty cells is kept as two
    arrays of `u128` rows, bit `x` of row `y` standing for column `x`.
    Tilting moves every roller as far as it rolls in one direction; the
    load on the north beams weighs each roller by its distance from the
    south edge. Part 1 tilts north once; part 2 spins the platform (north,
    west, south, east) until a pair of consecutive loads repeats, and skips
    ahead to the billionth cycle. */
module Day14 {
  import opened Util

  const PANIC: string := "panic"

  const TOTAL_CYCLES: nat := 1_000_000_000
  const WIDTH: nat := 100
  const HEIGHT: nat := 100

  /** The number of bits in a `u128` row. */
  const BITS: nat := 128

  /** A `u128` as its bits, least significant first: entry `x` is column `x`. */
  type Bits = seq<bool>

  // ------------------------------------------------------- u128 as bits

  /** `0`. */
  function Zero(): (r: Bits)
    ensures |r| == BITS && true !in r
  {
    seq(BITS, _ => false)
  }

  /** `1 << i`, for `i` below 128. */
  function Bit(i: nat): (r: Bits)
    ensures |r| == BITS
  {
    seq(BITS, j => j == i)
  }

  /** `FIRST_COL`: the bit of column 0. */
  function FirstCol(): Bits
  {
    Bit(0)
  }

  /** `LAST_COL`: the bit of column `WIDTH - 1`. */
  function LastCol(): Bits
  {
    Bit(WIDTH - 1)
  }

  /** `a & b` */
  function And(a: Bits, b: Bits): (r: Bits)
    requires |a| == |b|
    ensures |r| == |a|
  {
    seq(|a|, i requires 0 <= i < |a| => a[i] && b[i])
  }

  /** `a | b` */
  function Or(a: Bits, b: Bits): (r: Bits)
    requires |a| == |b|
    ensures |r| == |a|
  {
    seq(|a|, i requires 0 <= i < |a| => a[i] || b[i])
  }

  /** `!a` */
  function Not(a: Bits): (r: Bits)
    ensures |r| == |a|
  {
    seq(|a|, i requires 0 <= i < |a| => !a[i])
  }

  /** `a << 1`: every bit one column east; the top bit falls off. */
  function Shl(a: Bits): (r: Bits)
    ensures |r| == |a|
  {
    seq(|a|, i requires 0 <= i < |a| => 0 < i && a[i - 1])
  }

  /** `a >> 1`: every bit one column west; bit 0 falls off. */
  function Shr(a: Bits): (r: Bits)
    ensures |r| == |a|
  {
    seq(|a|, i requires 0 <= i < |a| => i + 1 < |a| && a[i + 1])
  }

  /** Every bit of `m` is set in `a`. */
  predicate Within(m: Bits, a: Bits)
    requires |m| == |a|
  {
    forall i :: 0 <= i < |m| ==> m[i] ==> a[i]
  }

  /** No bit is set in both. */
  predicate Apart(a: Bits, b: Bits)
    requires |a| == |b|
  {
    forall i :: 0 <= i < |a| ==> !(a[i] && b[i])
  }

  // ------------------------------------------------- weighted bit counts

  /** The weights of the set bits added up. */
  function Dot(a: Bits, w: seq<nat>): nat
    requires |a| == |w|
  {
    if a == [] then 0 else (if a[0] then w[0] else 0) + Dot(a[1..], w[1..])
  }

  function Ones(n: nat): (r: seq<nat>)
    ensures |r| == n
  {
    seq(n, _ => 1)
  }

  /** 0, 1, ..., n - 1 */
  function Ascending(n: nat): (r: seq<nat>)
    ensures |r| == n
  {
    seq(n, i => i)
  }

  /** n, n - 1, ..., 1 */
  function Descending(n: nat): (r: seq<nat>)
    ensures |r| == n
  {
    seq(n, i requires 0 <= i < n => n - i)
  }

  /** `count_ones` */
  function CountOnes(a: Bits): nat
  {
    Dot(a, Ones(|a|))
  }

  lemma {:induction false} DotZero(a: Bits, w: seq<nat>)
    requires |a| == |w|
    ensures true !in a ==> Dot(a, w) == 0
    ensures true in a && (forall i :: 0 <= i < |w| ==> w[i] > 0) ==> Dot(a, w) > 0
  {
    if a != [] {
      DotZero(a[1..], w[1..]);
      if true in a && a[0] == false {
        assert true in a[1..];
      }
    }
  }

  /** Clearing the bits of `m` from `a` takes their weights away. */
  lemma {:induction false} DotAndNot(a: Bits, m: Bits, w: seq<nat>)
    requires |a| == |m| == |w| && Within(m, a)
    ensures Dot(And(a, Not(m)), w) + Dot(m, w) == Dot(a, w)
  {
    if a != [] {
      assert And(a, Not(m))[1..] == And(a[1..], Not(m[1..]));
      DotAndNot(a[1..], m[1..], w[1..]);
    }
  }

  /** Setting bits that were clear adds their weights. */
  lemma {:induction false} DotOr(a: Bits, b: Bits, w: seq<nat>)
    requires |a| == |b| == |w| && Apart(a, b)
    ensures Dot(Or(a, b), w) == Dot(a, w) + Dot(b, w)
  {
    if a != [] {
      assert Or(a, b)[1..] == Or(a[1..], b[1..]);
      DotOr(a[1..], b[1..], w[1..]);
    }
  }

  /** Raising every weight by one adds one per set bit. */
  lemma {:induction false} DotSlide(a: Bits, u: seq<nat>, v: seq<nat>)
    requires |a| == |u| == |v|
    requires forall i :: 0 <= i < |u| ==> u[i] == v[i] + 1
    ensures Dot(a, u) == Dot(a, v) + CountOnes(a)
  {
    if a != [] {
      assert Ones(|a|)[1..] == Ones(|a| - 1);
      DotSlide(a[1..], u[1..], v[1..]);
    }
  }

  /** The weight of the last bit, taken off the end. */
  lemma {:induction false} DotSnoc(a: Bits, w: seq<nat>)
    requires |a| == |w| > 0
    ensures Dot(a, w) == Dot(a[..|a| - 1], w[..|w| - 1]) + (if a[|a| - 1] then w[|w| - 1] else 0)
  {
    if |a| > 1 {
      assert a[1..][..|a| - 2] == a[..|a| - 1][1..];
      assert w[1..][..|w| - 2] == w[..|w| - 1][1..];
      DotSnoc(a[1..], w[1..]);
    }
  }

  /** A west shift of bits clear of column 0 keeps their number and takes
      one from the weight of each under ascending weights. */
  lemma WestShift(m: Bits)
    requires |m| > 0 && !m[0]
    ensures CountOnes(Shr(m)) == CountOnes(m)
    ensures Dot(Shr(m), Ascending(|m|)) + CountOnes(m) == Dot(m, Ascending(|m|))
  {
    var n := |m|;
    var tail := m[1..];
    assert Shr(m)[..n - 1] == tail;
    DotSnoc(Shr(m), Ones(n));
    DotSnoc(Shr(m), Ascending(n));
    assert Ones(n)[..n - 1] == Ones(n)[1..] == Ones(n - 1);
    DotSlide(tail, Ascending(n)[1..], Ascending(n)[..n - 1]);
  }

  /** An east shift keeps the number of bits except the top one, which
      falls off, and takes one from the weight of each under descending
      weights (the top bit's whole weight when it falls off). */
  lemma EastShift(m: Bits)
    requires |m| > 0
    ensures CountOnes(Shl(m)) + (if m[|m| - 1] then 1 else 0) == CountOnes(m)
    ensures Dot(Shl(m), Descending(|m|)) + CountOnes(m) == Dot(m, Descending(|m|))
  {
    var n := |m|;
    var init := m[..n - 1];
    assert Shl(m)[1..] == init;
    assert CountOnes(Shl(m)) == CountOnes(init) by {
      assert Ones(n)[1..] == Ones(n - 1);
    }
    assert CountOnes(m) == CountOnes(init) + (if m[n - 1] then 1 else 0) by {
      DotSnoc(m, Ones(n));
      assert Ones(n)[..n - 1] == Ones(n - 1);
    }
    EastWeight(m);
  }

  lemma EastWeight(m: Bits)
    requires |m| > 0
    ensures Dot(Shl(m), Descending(|m|)) + CountOnes(m) == Dot(m, Descending(|m|))
  {
    var n := |m|;
    var init := m[..n - 1];
    var d := Descending(n);
    assert Shl(m)[1..] == init;
    assert Dot(Shl(m), d) == Dot(init, d[1..]);
    DotSnoc(m, d);
    DotSnoc(m, Ones(n));
    assert Ones(n)[..n - 1] == Ones(n - 1);
    DotSlide(init, d[..n - 1], d[1..]);
  }

  // ------------------------------------------------------------ platform

  /** Every row is a `u128`. */
  predicate IsGrid(rs: seq<Bits>)
  {
    forall y :: 0 <= y < |rs| ==> |rs[y]| == BITS
  }

  /** The rollers and the blocks of a platform of `HEIGHT` rows. */
  predicate Shape(rs: seq<Bits>, bs: seq<Bits>)
  {
    |rs| == HEIGHT && |bs| == HEIGHT && IsGrid(rs) && IsGrid(bs)
  }

  /** No roller shares a cell with a block. */
  predicate Disjoint(rs: seq<Bits>, bs: seq<Bits>)
    requires Shape(rs, bs)
  {
    forall y :: 0 <= y < HEIGHT ==> Apart(rs[y], bs[y])
  }

  /** No bit is set at column `WIDTH` or beyond. */
  predicate NarrowRow(r: Bits)
    requires |r| == BITS
  {
    forall x :: WIDTH <= x < BITS ==> !r[x]
  }

  /** No roller lies at column `WIDTH` or beyond. */
  predicate Narrow(rs: seq<Bits>)
    requires IsGrid(rs)
  {
    forall y :: 0 <= y < |rs| ==> NarrowRow(rs[y])
  }

  /** The rollers of each row counted and weighted by the row's weight. */
  function RowsDot(rs: seq<Bits>, w: seq<nat>): nat
    requires |rs| == |w|
  {
    if rs == [] then 0 else CountOnes(rs[0]) * w[0] + RowsDot(rs[1..], w[1..])
  }

  /** `total_load`: a roller in row `y` weighs `HEIGHT - y`, its distance
      from the south edge counted in rows. */
  function TotalLoad(rs: seq<Bits>): nat
  {
    RowsDot(rs, Descending(|rs|))
  }

  /** The number of rollers. */
  function Rollers(rs: seq<Bits>): nat
  {
    RowsDot(rs, Ones(|rs|))
  }

  /** The rollers' row numbers added up: a north move lowers it. */
  function Depth(rs: seq<Bits>): nat
  {
    RowsDot(rs, Ascending(|rs|))
  }

  lemma {:induction false} RowsUpdate(rs: seq<Bits>, w: seq<nat>, i: nat, a: Bits)
    requires |rs| == |w| && i < |rs|
    ensures RowsDot(rs[i := a], w) + CountOnes(rs[i]) * w[i] == RowsDot(rs, w) + CountOnes(a) * w[i]
  {
    if i > 0 {
      assert rs[i := a][1..] == rs[1..][i - 1 := a];
      RowsUpdate(rs[1..], w[1..], i - 1, a);
    } else {
      assert rs[i := a][1..] == rs[1..];
    }
  }

  lemma Distribute(a: nat, c: nat, w: nat)
    ensures (a + c) * w == a * w + c * w
  {
  }

  /** `c` rollers leave row `i` for row `j`: the weighted count moves by
      their weight in the new row less their weight in the old one. */
  lemma RowsMove(rs: seq<Bits>, w: seq<nat>, i: nat, j: nat, a: Bits, b: Bits, c: nat)
    requires |rs| == |w| && i < |rs| && j < |rs| && i != j
    requires CountOnes(a) + c == CountOnes(rs[i]) && CountOnes(b) == CountOnes(rs[j]) + c
    ensures RowsDot(rs[i := a][j := b], w) + c * w[i] == RowsDot(rs, w) + c * w[j]
  {
    var mid := rs[i := a];
    RowsUpdate(rs, w, i, a);
    Distribute(CountOnes(a), c, w[i]);
    RowsUpdate(mid, w, j, b);
    Distribute(CountOnes(rs[j]), c, w[j]);
  }

  /** The rollers of row `from` whose neighbour cell in row `to` holds
      neither a roller nor a block: `rollers[from] & !blockers`. */
  function Movers(rs: seq<Bits>, bs: seq<Bits>, from: nat, to: nat): (m: Bits)
    requires Shape(rs, bs) && from < HEIGHT && to < HEIGHT
    ensures |m| == BITS
  {
    And(rs[from], Not(Or(rs[to], bs[to])))
  }

  /** One step of a vertical tilt: the free rollers of row `from` move to
      row `to`, when there are any. */
  function Move(rs: seq<Bits>, bs: seq<Bits>, from: nat, to: nat): (r: seq<Bits>)
    requires Shape(rs, bs) && from < HEIGHT && to < HEIGHT
    ensures Shape(r, bs)
  {
    var m := Movers(rs, bs, from, to);
    if true in m then rs[from := And(rs[from], Not(m))][to := Or(rs[to], m)] else rs
  }

  /** A move shifts the weighted count by the weight of the rows the
      free rollers cross; under equal weights it keeps every roller. */
  lemma MoveWeights(rs: seq<Bits>, bs: seq<Bits>, from: nat, to: nat, w: seq<nat>)
    requires Shape(rs, bs) && from < HEIGHT && to < HEIGHT && from != to && |w| == HEIGHT
    ensures var c := CountOnes(Movers(rs, bs, from, to));
      RowsDot(Move(rs, bs, from, to), w) + c * w[from] == RowsDot(rs, w) + c * w[to]
  {
    var m := Movers(rs, bs, from, to);
    if true in m {
      DotAndNot(rs[from], m, Ones(BITS));
      DotOr(rs[to], m, Ones(BITS));
      RowsMove(rs, w, from, to, And(rs[from], Not(m)), Or(rs[to], m), CountOnes(m));
    } else {
      DotZero(m, Ones(BITS));
    }
  }

  /** A move changes something exactly when some roller is free. */
  lemma MoveChanges(rs: seq<Bits>, bs: seq<Bits>, from: nat, to: nat)
    requires Shape(rs, bs) && from < HEIGHT && to < HEIGHT && from != to
    ensures Move(rs, bs, from, to) != rs <==> CountOnes(Movers(rs, bs, from, to)) > 0
  {
    var m := Movers(rs, bs, from, to);
    DotZero(m, Ones(BITS));
    if true in m {
      var x :| 0 <= x < BITS && m[x];
      assert Move(rs, bs, from, to)[from][x] != rs[from][x];
    }
  }

  /** A move keeps rollers off blocks and within the first `WIDTH` columns. */
  lemma MoveKeeps(rs: seq<Bits>, bs: seq<Bits>, from: nat, to: nat)
    requires Shape(rs, bs) && from < HEIGHT && to < HEIGHT && from != to
    ensures Disjoint(rs, bs) ==> Disjoint(Move(rs, bs, from, to), bs)
    ensures Narrow(rs) ==> Narrow(Move(rs, bs, from, to))
  {
  }

  /** The cell holds a roller or a block. */
  predicate Occupied(rs: seq<Bits>, bs: seq<Bits>, y: nat, x: nat)
    requires Shape(rs, bs) && y < HEIGHT && x < BITS
  {
    rs[y][x] || bs[y][x]
  }

  /** No roller of row `y` is free to move north. */
  predicate NorthStuck(rs: seq<Bits>, bs: seq<Bits>, y: nat)
    requires Shape(rs, bs) && 0 < y < HEIGHT
  {
    true !in Movers(rs, bs, y, y - 1)
  }

  /** No roller of row `y` is free to move south. */
  predicate SouthStuck(rs: seq<Bits>, bs: seq<Bits>, y: nat)
    requires Shape(rs, bs) && y + 1 < HEIGHT
  {
    true !in Movers(rs, bs, y, y + 1)
  }

  lemma NoneFree(m: Bits)
    ensures true !in m <==> CountOnes(m) == 0
  {
    DotZero(m, Ones(|m|));
  }

  // ------------------------------------------------------- tilt north

  /** One pass of `tilt_north`'s loop: rows `y`, `y - 1`, ..., 1 in turn
      move their free rollers one row north. */
  function NorthPass(rs: seq<Bits>, bs: seq<Bits>, y: nat): (r: seq<Bits>)
    requires Shape(rs, bs) && y < HEIGHT
    ensures Shape(r, bs)
    decreases y
  {
    if y == 0 then rs else NorthPass(Move(rs, bs, y, y - 1), bs, y - 1)
  }

  /** A pass keeps the rollers, keeps them off blocks and narrow, never
      raises the depth and lowers it whenever it changes something. */
  lemma {:induction false} NorthPassFacts(rs: seq<Bits>, bs: seq<Bits>, y: nat)
    requires Shape(rs, bs) && y < HEIGHT
    ensures var p := NorthPass(rs, bs, y);
      Rollers(p) == Rollers(rs) && Depth(p) <= Depth(rs) && (p != rs ==> Depth(p) < Depth(rs)) &&
      (Disjoint(rs, bs) ==> Disjoint(p, bs)) && (Narrow(rs) ==> Narrow(p))
    decreases y
  {
    if y > 0 {
      var s := Move(rs, bs, y, y - 1);
      var c := CountOnes(Movers(rs, bs, y, y - 1));
      MoveWeights(rs, bs, y, y - 1, Ones(HEIGHT));
      MoveWeights(rs, bs, y, y - 1, Ascending(HEIGHT));
      assert c * y == c * (y - 1) + c;
      MoveChanges(rs, bs, y, y - 1);
      MoveKeeps(rs, bs, y, y - 1);
      NorthPassFacts(s, bs, y - 1);
    }
  }

  /** A pass leaves the rollers where they are exactly when no row it
      visits has a free roller. */
  lemma {:induction false} NorthPassStill(rs: seq<Bits>, bs: seq<Bits>, y: nat)
    requires Shape(rs, bs) && y < HEIGHT
    ensures NorthPass(rs, bs, y) == rs <==> forall k :: 0 < k <= y ==> NorthStuck(rs, bs, k)
    decreases y
  {
    if y > 0 {
      if NorthStuck(rs, bs, y) {
        NoneFree(Movers(rs, bs, y, y - 1));
        MoveChanges(rs, bs, y, y - 1);
        assert Move(rs, bs, y, y - 1) == rs;
        NorthPassStill(rs, bs, y - 1);
      } else {
        NorthPassMoves(rs, bs, y);
      }
    }
  }

  /** Moving free rollers one row north lowers the depth. */
  lemma NorthMoveLowers(rs: seq<Bits>, bs: seq<Bits>, y: nat)
    requires Shape(rs, bs) && 0 < y < HEIGHT && true in Movers(rs, bs, y, y - 1)
    ensures Depth(Move(rs, bs, y, y - 1)) < Depth(rs)
  {
    NoneFree(Movers(rs, bs, y, y - 1));
    MoveWeights(rs, bs, y, y - 1, Ascending(HEIGHT));
    var c := CountOnes(Movers(rs, bs, y, y - 1));
    assert c * y == c * (y - 1) + c;
  }

  /** A pass that starts at a row with a free roller changes something. */
  lemma NorthPassMoves(rs: seq<Bits>, bs: seq<Bits>, y: nat)
    requires Shape(rs, bs) && 0 < y < HEIGHT && !NorthStuck(rs, bs, y)
    ensures NorthPass(rs, bs, y) != rs
  {
    var s := Move(rs, bs, y, y - 1);
    NoneFree(Movers(rs, bs, y, y - 1));
    MoveChanges(rs, bs, y, y - 1);
    NorthPassFacts(s, bs, y - 1);
    MoveWeights(rs, bs, y, y - 1, Ascending(HEIGHT));
    var c := CountOnes(Movers(rs, bs, y, y - 1));
    assert c * y == c * (y - 1) + c;
  }

  lemma NorthStuckMeans(rs: seq<Bits>, bs: seq<Bits>, y: nat)
    requires Shape(rs, bs) && 0 < y < HEIGHT
    ensures NorthStuck(rs, bs, y) <==> forall x :: 0 <= x < BITS && rs[y][x] ==> Occupied(rs, bs, y - 1, x)
  {
    var m := Movers(rs, bs, y, y - 1);
    assert forall x :: 0 <= x < BITS ==> m[x] == (rs[y][x] && !Occupied(rs, bs, y - 1, x));
  }

  /** No roller has an empty cell to its north. */
  ghost predicate NorthSettled(rs: seq<Bits>, bs: seq<Bits>)
    requires Shape(rs, bs)
  {
    forall y, x :: 0 < y < HEIGHT && 0 <= x < BITS && rs[y][x] ==> Occupied(rs, bs, y - 1, x)
  }

  lemma NorthSettledStill(rs: seq<Bits>, bs: seq<Bits>)
    requires Shape(rs, bs)
    ensures NorthSettled(rs, bs) <==> NorthPass(rs, bs, HEIGHT - 1) == rs
  {
    NorthPassStill(rs, bs, HEIGHT - 1);
    forall y | 0 < y < HEIGHT {
      NorthStuckMeans(rs, bs, y);
    }
  }

  /** `tilt_north`: passes repeat until one moves nothing. */
  function NorthTilt(rs: seq<Bits>, bs: seq<Bits>): (r: seq<Bits>)
    requires Shape(rs, bs)
    ensures Shape(r, bs)
    decreases Depth(rs)
  {
    var p := NorthPass(rs, bs, HEIGHT - 1);
    NorthPassFacts(rs, bs, HEIGHT - 1);
    if p == rs then rs else NorthTilt(p, bs)
  }

  /** After a north tilt every roller rests against a roller, a block or
      the north edge; no roller is lost or put on a block, and none
      leaves the first `WIDTH` columns. */
  lemma {:induction false} NorthTiltFacts(rs: seq<Bits>, bs: seq<Bits>)
    requires Shape(rs, bs)
    ensures var r := NorthTilt(rs, bs);
      NorthSettled(r, bs) && Rollers(r) == Rollers(rs) &&
      (Disjoint(rs, bs) ==> Disjoint(r, bs)) && (Narrow(rs) ==> Narrow(r))
    decreases Depth(rs)
  {
    var p := NorthPass(rs, bs, HEIGHT - 1);
    NorthPassFacts(rs, bs, HEIGHT - 1);
    if p == rs {
      NorthSettledStill(rs, bs);
    } else {
      NorthTiltFacts(p, bs);
    }
  }

  /** A settled platform does not change, so tilting twice is tilting once. */
  lemma NorthTiltIdempotent(rs: seq<Bits>, bs: seq<Bits>)
    requires Shape(rs, bs)
    ensures NorthSettled(rs, bs) ==> NorthTilt(rs, bs) == rs
    ensures NorthTilt(NorthTilt(rs, bs), bs) == NorthTilt(rs, bs)
  {
    NorthSettledStill(rs, bs);
    NorthTiltFacts(rs, bs);
    NorthSettledStill(NorthTilt(rs, bs), bs);
  }

  // ------------------------------------------------------- tilt south

  /** One pass of `tilt_south`'s loop: rows `y`, `y + 1`, ..., `HEIGHT - 2`
      in turn move their free rollers one row south. */
  function SouthPass(rs: seq<Bits>, bs: seq<Bits>, y: nat): (r: seq<Bits>)
    requires Shape(rs, bs) && y < HEIGHT
    ensures Shape(r, bs)
    decreases HEIGHT - y
  {
    if y + 1 >= HEIGHT then rs else SouthPass(Move(rs, bs, y, y + 1), bs, y + 1)
  }

  /** A pass keeps the rollers, keeps them off blocks and narrow, never
      raises the load and lowers it whenever it changes something. */
  lemma {:induction false} SouthPassFacts(rs: seq<Bits>, bs: seq<Bits>, y: nat)
    requires Shape(rs, bs) && y < HEIGHT
    ensures var p := SouthPass(rs, bs, y);
      Rollers(p) == Rollers(rs) && TotalLoad(p) <= TotalLoad(rs) && (p != rs ==> TotalLoad(p) < TotalLoad(rs)) &&
      (Disjoint(rs, bs) ==> Disjoint(p, bs)) && (Narrow(rs) ==> Narrow(p))
    decreases HEIGHT - y
  {
    if y + 1 < HEIGHT {
      var s := Move(rs, bs, y, y + 1);
      SouthMoveCounts(rs, bs, y);
      MoveChanges(rs, bs, y, y + 1);
      MoveKeeps(rs, bs, y, y + 1);
      SouthPassFacts(s, bs, y + 1);
    }
  }

  lemma {:induction false} SouthPassStill(rs: seq<Bits>, bs: seq<Bits>, y: nat)
    requires Shape(rs, bs) && y < HEIGHT
    ensures SouthPass(rs, bs, y) == rs <==> forall k :: y <= k < HEIGHT - 1 ==> SouthStuck(rs, bs, k)
    decreases HEIGHT - y
  {
    if y + 1 < HEIGHT {
      if SouthStuck(rs, bs, y) {
        NoneFree(Movers(rs, bs, y, y + 1));
        MoveChanges(rs, bs, y, y + 1);
        assert Move(rs, bs, y, y + 1) == rs;
        SouthPassStill(rs, bs, y + 1);
      } else {
        SouthPassMoves(rs, bs, y);
      }
    }
  }

  /** Moving free rollers one row south lowers the load. */
  lemma SouthMoveLowers(rs: seq<Bits>, bs: seq<Bits>, y: nat)
    requires Shape(rs, bs) && y + 1 < HEIGHT && true in Movers(rs, bs, y, y + 1)
    ensures TotalLoad(Move(rs, bs, y, y + 1)) < TotalLoad(rs)
  {
    NoneFree(Movers(rs, bs, y, y + 1));
    SouthMoveCounts(rs, bs, y);
  }

  /** One row's move south keeps the rollers and lowers the load by one per
      roller moved. */
  lemma SouthMoveCounts(rs: seq<Bits>, bs: seq<Bits>, y: nat)
    requires Shape(rs, bs) && y + 1 < HEIGHT
    ensures Rollers(Move(rs, bs, y, y + 1)) == Rollers(rs)
    ensures TotalLoad(Move(rs, bs, y, y + 1)) + CountOnes(Movers(rs, bs, y, y + 1)) == TotalLoad(rs)
  {
    MoveWeights(rs, bs, y, y + 1, Ones(HEIGHT));
    SouthMoveLoad(rs, bs, y);
  }

  lemma SouthMoveLoad(rs: seq<Bits>, bs: seq<Bits>, y: nat)
    requires Shape(rs, bs) && y + 1 < HEIGHT
    ensures TotalLoad(Move(rs, bs, y, y + 1)) + CountOnes(Movers(rs, bs, y, y + 1)) == TotalLoad(rs)
  {
    var c := CountOnes(Movers(rs, bs, y, y + 1));
    var d := Descending(HEIGHT);
    var after, before := RowsDot(Move(rs, bs, y, y + 1), d), RowsDot(rs, d);
    MoveWeights(rs, bs, y, y + 1, d);
    assert d[y] == d[y + 1] + 1;
    OneRowLower(after, before, c, d[y + 1]);
  }

  lemma OneRowLower(after: int, before: int, c: int, w: int)
    requires after + c * (w + 1) == before + c * w
    ensures after + c == before
  {
    assert c * (w + 1) == c * w + c;
  }

  /** A pass that starts at a row with a free roller changes something. */
  lemma SouthPassMoves(rs: seq<Bits>, bs: seq<Bits>, y: nat)
    requires Shape(rs, bs) && y + 1 < HEIGHT && !SouthStuck(rs, bs, y)
    ensures SouthPass(rs, bs, y) != rs
  {
    var s := Move(rs, bs, y, y + 1);
    SouthMoveLowers(rs, bs, y);
    SouthPassFacts(s, bs, y + 1);
    assert SouthPass(rs, bs, y) == SouthPass(s, bs, y + 1);
  }

  lemma SouthStuckMeans(rs: seq<Bits>, bs: seq<Bits>, y: nat)
    requires Shape(rs, bs) && y + 1 < HEIGHT
    ensures SouthStuck(rs, bs, y) <==> forall x :: 0 <= x < BITS && rs[y][x] ==> Occupied(rs, bs, y + 1, x)
  {
    var m := Movers(rs, bs, y, y + 1);
    assert forall x :: 0 <= x < BITS ==> m[x] == (rs[y][x] && !Occupied(rs, bs, y + 1, x));
  }

  /** No roller has an empty cell to its south. */
  ghost predicate SouthSettled(rs: seq<Bits>, bs: seq<Bits>)
    requires Shape(rs, bs)
  {
    forall y, x :: 0 <= y < HEIGHT - 1 && 0 <= x < BITS && rs[y][x] ==> Occupied(rs, bs, y + 1, x)
  }

  lemma SouthSettledStill(rs: seq<Bits>, bs: seq<Bits>)
    requires Shape(rs, bs)
    ensures SouthSettled(rs, bs) <==> SouthPass(rs, bs, 0) == rs
  {
    SouthPassStill(rs, bs, 0);
    forall y | 0 <= y < HEIGHT - 1 {
      SouthStuckMeans(rs, bs, y);
    }
  }

  /** `tilt_south`: passes repeat until one moves nothing. */
  function SouthTilt(rs: seq<Bits>, bs: seq<Bits>): (r: seq<Bits>)
    requires Shape(rs, bs)
    ensures Shape(r, bs)
    decreases TotalLoad(rs)
  {
    var p := SouthPass(rs, bs, 0);
    SouthPassFacts(rs, bs, 0);
    if p == rs then rs else SouthTilt(p, bs)
  }

  lemma {:induction false} SouthTiltFacts(rs: seq<Bits>, bs: seq<Bits>)
    requires Shape(rs, bs)
    ensures var r := SouthTilt(rs, bs);
      SouthSettled(r, bs) && Rollers(r) == Rollers(rs) &&
      (Disjoint(rs, bs) ==> Disjoint(r, bs)) && (Narrow(rs) ==> Narrow(r))
    decreases TotalLoad(rs)
  {
    var p := SouthPass(rs, bs, 0);
    SouthPassFacts(rs, bs, 0);
    if p == rs {
      SouthSettledStill(rs, bs);
    } else {
      SouthTiltFacts(p, bs);
    }
  }

  lemma SouthTiltIdempotent(rs: seq<Bits>, bs: seq<Bits>)
    requires Shape(rs, bs)
    ensures SouthSettled(rs, bs) ==> SouthTilt(rs, bs) == rs
    ensures SouthTilt(SouthTilt(rs, bs), bs) == SouthTilt(rs, bs)
  {
    SouthSettledStill(rs, bs);
    SouthTiltFacts(rs, bs);
    SouthSettledStill(SouthTilt(rs, bs), bs);
  }

  lemma {:induction false} RowsDotSame(rs: seq<Bits>, ts: seq<Bits>, w: seq<nat>)
    requires |rs| == |ts| == |w|
    requires forall y :: 0 <= y < |rs| ==> CountOnes(rs[y]) == CountOnes(ts[y])
    ensures RowsDot(rs, w) == RowsDot(ts, w)
  {
    if rs != [] {
      RowsDotSame(rs[1..], ts[1..], w[1..]);
    }
  }

  /** The cell at column `x` of a row holds a roller or a block. */
  predicate Filled(r: Bits, b: Bits, x: nat)
    requires |r| == |b| == BITS && x < BITS
  {
    r[x] || b[x]
  }

  // -------------------------------------------------------- tilt west

  /** The rollers free to move one column west:
      `rollers & !(blockers << 1) & !FIRST_COL`. */
  function WestMovers(r: Bits, b: Bits): (m: Bits)
    requires |r| == |b| == BITS
    ensures |m| == BITS
  {
    And(And(r, Not(Shl(Or(r, b)))), Not(FirstCol()))
  }

  /** One round of `tilt_west`'s inner loop: the free rollers are cleared
      and set again one column west. */
  function WestMove(r: Bits, b: Bits): (t: Bits)
    requires |r| == |b| == BITS
    ensures |t| == BITS
  {
    var m := WestMovers(r, b);
    Or(And(r, Not(m)), Shr(m))
  }

  /** A round keeps every roller of the row, lowers the column sum by one
      per roller moved, and keeps rollers off blocks and narrow. */
  lemma WestMoveFacts(r: Bits, b: Bits)
    requires |r| == |b| == BITS
    ensures CountOnes(WestMove(r, b)) == CountOnes(r)
    ensures Dot(WestMove(r, b), Ascending(BITS)) + CountOnes(WestMovers(r, b)) == Dot(r, Ascending(BITS))
    ensures Apart(r, b) ==> Apart(WestMove(r, b), b)
    ensures NarrowRow(r) ==> NarrowRow(WestMove(r, b))
  {
    WestMoveCounts(r, b);
    WestMoveApart(r, b);
    WestMoveNarrow(r, b);
  }

  lemma WestMoveCounts(r: Bits, b: Bits)
    requires |r| == |b| == BITS
    ensures CountOnes(WestMove(r, b)) == CountOnes(r)
    ensures Dot(WestMove(r, b), Ascending(BITS)) + CountOnes(WestMovers(r, b)) == Dot(r, Ascending(BITS))
  {
    var m := WestMovers(r, b);
    WestShift(m);
    WestMoveDot(r, b, Ones(BITS));
    WestMoveDot(r, b, Ascending(BITS));
  }

  lemma WestMoveDot(r: Bits, b: Bits, w: seq<nat>)
    requires |r| == |b| == |w| == BITS
    ensures Dot(WestMove(r, b), w) + Dot(WestMovers(r, b), w) == Dot(r, w) + Dot(Shr(WestMovers(r, b)), w)
  {
    var m := WestMovers(r, b);
    var kept := And(r, Not(m));
    var moved := Shr(m);
    assert Apart(kept, moved);
    DotAndNot(r, m, w);
    DotOr(kept, moved, w);
  }

  lemma WestMoveApart(r: Bits, b: Bits)
    requires |r| == |b| == BITS
    ensures Apart(r, b) ==> Apart(WestMove(r, b), b)
  {
  }

  lemma WestMoveNarrow(r: Bits, b: Bits)
    requires |r| == |b| == BITS
    ensures NarrowRow(r) ==> NarrowRow(WestMove(r, b))
  {
  }

  /** `tilt_west` on one row: rounds repeat until no roller is free. */
  function WestRow(r: Bits, b: Bits): (t: Bits)
    requires |r| == |b| == BITS
    ensures |t| == BITS
    decreases Dot(r, Ascending(BITS))
  {
    var m := WestMovers(r, b);
    WestMoveFacts(r, b);
    NoneFree(m);
    if true in m then WestRow(WestMove(r, b), b) else r
  }

  /** Every roller of the row rests against a roller, a block or the west edge. */
  predicate WestRowSettled(r: Bits, b: Bits)
    requires |r| == |b| == BITS
  {
    forall x :: 0 < x < BITS && r[x] ==> Filled(r, b, x - 1)
  }

  lemma WestStill(r: Bits, b: Bits)
    requires |r| == |b| == BITS
    ensures WestRowSettled(r, b) <==> true !in WestMovers(r, b)
  {
    var m := WestMovers(r, b);
    assert forall x :: 0 <= x < BITS ==> m[x] == (0 < x && r[x] && !Filled(r, b, x - 1));
  }

  lemma {:induction false} WestRowFacts(r: Bits, b: Bits)
    requires |r| == |b| == BITS
    ensures var t := WestRow(r, b);
      WestRowSettled(t, b) && CountOnes(t) == CountOnes(r) &&
      (Apart(r, b) ==> Apart(t, b)) && (NarrowRow(r) ==> NarrowRow(t))
    decreases Dot(r, Ascending(BITS))
  {
    WestMoveFacts(r, b);
    NoneFree(WestMovers(r, b));
    if true in WestMovers(r, b) {
      WestRowFacts(WestMove(r, b), b);
    } else {
      WestStill(r, b);
    }
  }

  /** `tilt_west`: every row on its own. */
  function WestTilt(rs: seq<Bits>, bs: seq<Bits>): (r: seq<Bits>)
    requires Shape(rs, bs)
    ensures Shape(r, bs)
  {
    seq(HEIGHT, y requires 0 <= y < HEIGHT => WestRow(rs[y], bs[y]))
  }

  /** No roller has an empty cell to its west. */
  predicate WestSettled(rs: seq<Bits>, bs: seq<Bits>)
    requires Shape(rs, bs)
  {
    forall y :: 0 <= y < HEIGHT ==> WestRowSettled(rs[y], bs[y])
  }

  /** After a west tilt every roller rests against a roller, a block or the
      west edge; no roller is lost or put on a block, and none leaves the
      first `WIDTH` columns. */
  lemma WestTiltFacts(rs: seq<Bits>, bs: seq<Bits>)
    requires Shape(rs, bs)
    ensures var r := WestTilt(rs, bs);
      WestSettled(r, bs) && Rollers(r) == Rollers(rs) &&
      (Disjoint(rs, bs) ==> Disjoint(r, bs)) && (Narrow(rs) ==> Narrow(r))
  {
    var r := WestTilt(rs, bs);
    forall y | 0 <= y < HEIGHT
      ensures WestRowSettled(r[y], bs[y]) && CountOnes(r[y]) == CountOnes(rs[y])
      ensures Apart(rs[y], bs[y]) ==> Apart(r[y], bs[y])
      ensures NarrowRow(rs[y]) ==> NarrowRow(r[y])
    {
      WestRowFacts(rs[y], bs[y]);
    }
    RowsDotSame(r, rs, Ones(HEIGHT));
  }

  /** A settled row does not change, so tilting twice is tilting once. */
  lemma WestTiltIdempotent(rs: seq<Bits>, bs: seq<Bits>)
    requires Shape(rs, bs)
    ensures WestSettled(rs, bs) ==> WestTilt(rs, bs) == rs
    ensures WestTilt(WestTilt(rs, bs), bs) == WestTilt(rs, bs)
  {
    var r := WestTilt(rs, bs);
    WestTiltFacts(rs, bs);
    forall y | 0 <= y < HEIGHT
      ensures WestSettled(rs, bs) ==> WestRow(rs[y], bs[y]) == rs[y]
      ensures WestRow(r[y], bs[y]) == r[y]
    {
      WestStill(rs[y], bs[y]);
      WestStill(r[y], bs[y]);
    }
  }

  // -------------------------------------------------------- tilt east

  /** The rollers free to move one column east:
      `rollers & !(blockers >> 1) & !LAST_COL`. */
  function EastMovers(r: Bits, b: Bits): (m: Bits)
    requires |r| == |b| == BITS
    ensures |m| == BITS
  {
    And(And(r, Not(Shr(Or(r, b)))), Not(LastCol()))
  }

  /** One round of `tilt_east`'s inner loop: the free rollers are cleared
      and set again one column east. */
  function EastMove(r: Bits, b: Bits): (t: Bits)
    requires |r| == |b| == BITS
    ensures |t| == BITS
  {
    var m := EastMovers(r, b);
    Or(And(r, Not(m)), Shl(m))
  }

  /** A round lowers the reversed column sum by one per roller moved and
      keeps rollers off blocks; it keeps every roller of a narrow row and
      keeps the row narrow. */
  lemma EastMoveFacts(r: Bits, b: Bits)
    requires |r| == |b| == BITS
    ensures CountOnes(EastMove(r, b)) <= CountOnes(r)
    ensures NarrowRow(r) ==> CountOnes(EastMove(r, b)) == CountOnes(r) && NarrowRow(EastMove(r, b))
    ensures Dot(EastMove(r, b), Descending(BITS)) + CountOnes(EastMovers(r, b)) == Dot(r, Descending(BITS))
    ensures Apart(r, b) ==> Apart(EastMove(r, b), b)
  {
    EastMoveCounts(r, b);
    EastMoveApart(r, b);
    EastMoveNarrow(r, b);
  }

  lemma EastMoveCounts(r: Bits, b: Bits)
    requires |r| == |b| == BITS
    ensures CountOnes(EastMove(r, b)) + (if EastMovers(r, b)[BITS - 1] then 1 else 0) == CountOnes(r)
    ensures Dot(EastMove(r, b), Descending(BITS)) + CountOnes(EastMovers(r, b)) == Dot(r, Descending(BITS))
  {
    var m := EastMovers(r, b);
    EastShift(m);
    EastMoveDot(r, b, Ones(BITS));
    EastMoveDot(r, b, Descending(BITS));
  }

  lemma EastMoveDot(r: Bits, b: Bits, w: seq<nat>)
    requires |r| == |b| == |w| == BITS
    ensures Dot(EastMove(r, b), w) + Dot(EastMovers(r, b), w) == Dot(r, w) + Dot(Shl(EastMovers(r, b)), w)
  {
    var m := EastMovers(r, b);
    var kept := And(r, Not(m));
    var moved := Shl(m);
    assert Apart(kept, moved);
    DotAndNot(r, m, w);
    DotOr(kept, moved, w);
  }

  lemma EastMoveApart(r: Bits, b: Bits)
    requires |r| == |b| == BITS
    ensures Apart(r, b) ==> Apart(EastMove(r, b), b)
  {
  }

  lemma EastMoveNarrow(r: Bits, b: Bits)
    requires |r| == |b| == BITS
    ensures NarrowRow(r) ==> CountOnes(EastMove(r, b)) == CountOnes(r) && NarrowRow(EastMove(r, b))
  {
    EastMoveCounts(r, b);
  }

  /** `tilt_east` on one row: rounds repeat until no roller is free. */
  function EastRow(r: Bits, b: Bits): (t: Bits)
    requires |r| == |b| == BITS
    ensures |t| == BITS
    decreases Dot(r, Descending(BITS))
  {
    var m := EastMovers(r, b);
    EastMoveFacts(r, b);
    NoneFree(m);
    if true in m then EastRow(EastMove(r, b), b) else r
  }

  /** Every roller of the row short of column `WIDTH - 1` rests against a
      roller or a block. */
  predicate EastRowSettled(r: Bits, b: Bits)
    requires |r| == |b| == BITS
  {
    forall x :: 0 <= x < BITS && x != WIDTH - 1 && r[x] ==> x + 1 < BITS && Filled(r, b, x + 1)
  }

  lemma EastStill(r: Bits, b: Bits)
    requires |r| == |b| == BITS
    ensures EastRowSettled(r, b) <==> true !in EastMovers(r, b)
  {
    var m := EastMovers(r, b);
    assert forall x :: 0 <= x < BITS ==> m[x] == (x != WIDTH - 1 && r[x] && !(x + 1 < BITS && Filled(r, b, x + 1)));
  }

  lemma {:induction false} EastRowFacts(r: Bits, b: Bits)
    requires |r| == |b| == BITS
    ensures var t := EastRow(r, b);
      EastRowSettled(t, b) && CountOnes(t) <= CountOnes(r) &&
      (NarrowRow(r) ==> NarrowRow(t) && CountOnes(t) == CountOnes(r)) && (Apart(r, b) ==> Apart(t, b))
    decreases Dot(r, Descending(BITS))
  {
    EastMoveFacts(r, b);
    NoneFree(EastMovers(r, b));
    if true in EastMovers(r, b) {
      EastRowFacts(EastMove(r, b), b);
    } else {
      EastStill(r, b);
    }
  }

  /** `tilt_east`: every row on its own. */
  function EastTilt(rs: seq<Bits>, bs: seq<Bits>): (r: seq<Bits>)
    requires Shape(rs, bs)
    ensures Shape(r, bs)
  {
    seq(HEIGHT, y requires 0 <= y < HEIGHT => EastRow(rs[y], bs[y]))
  }

  /** No roller short of column `WIDTH - 1` has an empty cell to its east. */
  predicate EastSettled(rs: seq<Bits>, bs: seq<Bits>)
    requires Shape(rs, bs)
  {
    forall y :: 0 <= y < HEIGHT ==> EastRowSettled(rs[y], bs[y])
  }

  /** After an east tilt every roller short of column `WIDTH - 1` rests
      against a roller or a block and none is put on a block; on a narrow
      platform none is lost and the platform stays narrow. */
  lemma EastTiltFacts(rs: seq<Bits>, bs: seq<Bits>)
    requires Shape(rs, bs)
    ensures var r := EastTilt(rs, bs);
      EastSettled(r, bs) && (Disjoint(rs, bs) ==> Disjoint(r, bs)) &&
      (Narrow(rs) ==> Narrow(r) && Rollers(r) == Rollers(rs))
  {
    var r := EastTilt(rs, bs);
    forall y | 0 <= y < HEIGHT
      ensures EastRowSettled(r[y], bs[y])
      ensures NarrowRow(rs[y]) ==> NarrowRow(r[y]) && CountOnes(r[y]) == CountOnes(rs[y])
      ensures Apart(rs[y], bs[y]) ==> Apart(r[y], bs[y])
    {
      EastRowFacts(rs[y], bs[y]);
    }
    if Narrow(rs) {
      RowsDotSame(r, rs, Ones(HEIGHT));
    }
  }

  lemma EastTiltIdempotent(rs: seq<Bits>, bs: seq<Bits>)
    requires Shape(rs, bs)
    ensures EastSettled(rs, bs) ==> EastTilt(rs, bs) == rs
    ensures EastTilt(EastTilt(rs, bs), bs) == EastTilt(rs, bs)
  {
    var r := EastTilt(rs, bs);
    EastTiltFacts(rs, bs);
    forall y | 0 <= y < HEIGHT
      ensures EastSettled(rs, bs) ==> EastRow(rs[y], bs[y]) == rs[y]
      ensures EastRow(r[y], bs[y]) == r[y]
    {
      EastStill(rs[y], bs[y]);
      EastStill(r[y], bs[y]);
    }
  }

  // -------------------------------------------------------- spin cycle

  /** `spin_cycle`: tilt north, west, south, then east. */
  function Spin(rs: seq<Bits>, bs: seq<Bits>): (r: seq<Bits>)
    requires Shape(rs, bs)
    ensures Shape(r, bs)
  {
    EastTilt(SouthTilt(WestTilt(NorthTilt(rs, bs), bs), bs), bs)
  }

  /** A spin ends settled to the east, keeps rollers off blocks, and on a
      narrow platform keeps every roller and stays narrow. */
  lemma SpinFacts(rs: seq<Bits>, bs: seq<Bits>)
    requires Shape(rs, bs)
    ensures EastSettled(Spin(rs, bs), bs)
    ensures Disjoint(rs, bs) ==> Disjoint(Spin(rs, bs), bs)
    ensures Narrow(rs) ==> Narrow(Spin(rs, bs)) && Rollers(Spin(rs, bs)) == Rollers(rs)
  {
    var n := NorthTilt(rs, bs);
    var w := WestTilt(n, bs);
    var s := SouthTilt(w, bs);
    NorthTiltFacts(rs, bs);
    WestTiltFacts(n, bs);
    SouthTiltFacts(w, bs);
    EastTiltFacts(s, bs);
  }

  /** `f` applied `k` times. */
  function Iterate<T>(f: T -> T, x: T, k: nat): T
  {
    if k == 0 then x else f(Iterate(f, x, k - 1))
  }

  lemma {:induction false} IterateAdd<T>(f: T -> T, x: T, a: nat, b: nat)
    ensures Iterate(f, x, a + b) == Iterate(f, Iterate(f, x, a), b)
    decreases b
  {
    if b > 0 {
      IterateAdd(f, x, a, b - 1);
    }
  }

  /** Once the sequence comes back to an earlier value it repeats with that
      period: `q` more periods lead back to the same value. */
  lemma {:induction false} IteratePeriodic<T>(f: T -> T, x: T, m: nat, len: nat, q: nat)
    requires Iterate(f, x, m) == Iterate(f, x, m + len)
    ensures Iterate(f, x, m + q * len) == Iterate(f, x, m)
    decreases q
  {
    if q > 0 {
      IteratePeriodic(f, x, m, len, q - 1);
      assert m + q * len == (m + len) + (q - 1) * len;
      IterateAdd(f, x, m + len, (q - 1) * len);
      IterateAdd(f, x, m, (q - 1) * len);
    }
  }

  /** A spin of the platform with blocks `bs`, as a step to iterate. */
  function SpinOf(bs: seq<Bits>): seq<Bits> -> seq<Bits>
  {
    rs => if Shape(rs, bs) then Spin(rs, bs) else rs
  }

  /** The platform after `k` spins. */
  function Spins(rs: seq<Bits>, bs: seq<Bits>, k: nat): seq<Bits>
  {
    Iterate(SpinOf(bs), rs, k)
  }

  lemma {:induction false} SpinsShape(rs: seq<Bits>, bs: seq<Bits>, k: nat)
    requires Shape(rs, bs)
    ensures Shape(Spins(rs, bs, k), bs)
    ensures Spins(rs, bs, k + 1) == Spin(Spins(rs, bs, k), bs)
    decreases k
  {
    if k > 0 {
      SpinsShape(rs, bs, k - 1);
    }
  }

  /** The spin `solve` skips to: the first repeat `n` plus the remaining
      spins modulo the distance `n - m` to the earlier one. */
  function Skip(n: nat, m: nat, total: nat): nat
    requires m < n <= total
  {
    n + (total - n) % (n - m)
  }

  /** `Skip` in the terms `solve` computes it: the first repeat and the
      cycle length. */
  lemma SkipFrom(n: nat, len: nat, total: nat)
    requires 1 <= len < n <= total
    ensures Skip(n, n - len, total) == n + (total - n) % len
  {
    assert n - (n - len) == len;
  }

  /** Spinning `(total - n) % len` more times from the state after `n`
      spins lands on the state after `Skip(n, n - len, total)` spins. */
  lemma SkipReached<T>(f: T -> T, x: T, n: nat, len: nat, total: nat, s: T, t: T)
    requires 1 <= len < n <= total
    requires s == Iterate(f, x, n) && t == Iterate(f, s, (total - n) % len)
    ensures t == Iterate(f, x, Skip(n, n - len, total))
  {
    SkipFrom(n, len, total);
    IterateAdd(f, x, n, (total - n) % len);
  }

  /** The skip ahead is sound for a true repeat: when spin `n` gives back
      the platform of spin `m`, spin number `total` gives the platform of
      spin `n + (total - n) % (n - m)`. */
  lemma CycleShortcut(rs: seq<Bits>, bs: seq<Bits>, m: nat, n: nat, total: nat)
    requires m < n <= total && Spins(rs, bs, m) == Spins(rs, bs, n)
    ensures Spins(rs, bs, total) == Spins(rs, bs, Skip(n, m, total))
  {
    var f := SpinOf(bs);
    var len := n - m;
    var q, r := (total - n) / len, (total - n) % len;
    assert total == m + (q + 1) * len + r;
    IteratePeriodic(f, rs, m, len, q + 1);
    IterateAdd(f, rs, m + (q + 1) * len, r);
    IterateAdd(f, rs, m, r);
    IteratePeriodic(f, rs, m, len, 1);
    IterateAdd(f, rs, m + len, r);
  }

  // ---------------------------------------------------- cycle detection

  /** The largest load a platform of `HEIGHT` rows of `BITS` bits can bear. */
  const LOAD_BOUND: nat := HEIGHT * HEIGHT * BITS

  lemma {:induction false} CountBound(a: Bits)
    ensures CountOnes(a) <= |a|
  {
    if a != [] {
      assert Ones(|a|)[1..] == Ones(|a| - 1);
      CountBound(a[1..]);
    }
  }

  lemma MulLe(a: nat, b: nat, c: nat, d: nat)
    requires a <= c && b <= d
    ensures a * b <= c * d
  {
    MulMonotone(a, c, b);
    assert c * b <= c * d;
  }

  /** Each row weighs at most `top` times its bits, when no weight exceeds `top`. */
  lemma {:induction false} RowsDotBound(rs: seq<Bits>, w: seq<nat>, top: nat)
    requires |rs| == |w| && IsGrid(rs) && forall i :: 0 <= i < |w| ==> w[i] <= top
    ensures RowsDot(rs, w) <= |rs| * (BITS * top)
  {
    if rs != [] {
      CountBound(rs[0]);
      MulLe(CountOnes(rs[0]), w[0], BITS, top);
      RowsDotBound(rs[1..], w[1..], top);
      assert |rs| * (BITS * top) == BITS * top + (|rs| - 1) * (BITS * top);
    }
  }

  /** `total_load` of any platform is at most `LOAD_BOUND`: each roller
      weighs at most `HEIGHT`. */
  lemma LoadBound(rs: seq<Bits>)
    requires |rs| == HEIGHT && IsGrid(rs)
    ensures TotalLoad(rs) <= LOAD_BOUND
  {
    RowsDotBound(rs, Descending(HEIGHT), HEIGHT);
  }

  /** The key `solve` records after spin `k`: that spin's load and the
      load before it, 0 before the first spin. The spin is a parameter
      `step` (`SpinOf(bs)` in `solve`), so that what follows reasons about
      iterations only. */
  function Key(step: seq<Bits> -> seq<Bits>, rs: seq<Bits>, k: nat): (nat, nat)
    requires k >= 1
  {
    (TotalLoad(Iterate(step, rs, k)), if k == 1 then 0 else TotalLoad(Iterate(step, rs, k - 1)))
  }

  /** Spin `n` is the first whose key was seen before, at spin `m`. */
  ghost predicate FirstRepeat(step: seq<Bits> -> seq<Bits>, rs: seq<Bits>, n: nat, m: nat)
  {
    1 <= m < n && Key(step, rs, m) == Key(step, rs, n) &&
    forall i, j :: 1 <= i < j < n ==> Key(step, rs, i) != Key(step, rs, j)
  }

  /** There is only one first repeat. */
  lemma FirstRepeatUnique(step: seq<Bits> -> seq<Bits>, rs: seq<Bits>, n: nat, m: nat, n': nat, m': nat)
    requires FirstRepeat(step, rs, n, m) && FirstRepeat(step, rs, n', m')
    ensures n == n' && m == m'
  {
  }

  /** Every pair of loads a platform can show. */
  ghost function Box(): set<(nat, nat)>
  {
    set a: nat, b: nat | a <= LOAD_BOUND && b <= LOAD_BOUND :: (a, b)
  }

  // ------------------------------------------------------------ parsing

  /** A byte of a row is `.`, or `O` or `#` below column 128, where
      `1 << i` still fits a `u128`; anything else panics. */
  predicate CellOk(line: string, i: nat)
    requires i < |line|
  {
    line[i] == '.' || ((line[i] == 'O' || line[i] == '#') && i < BITS)
  }

  predicate RowOk(line: string)
  {
    forall i :: 0 <= i < |line| ==> CellOk(line, i)
  }

  /** The row with a bit set at each column holding `c`. */
  function RowOf(line: string, c: char): (r: Bits)
    ensures |r| == BITS
  {
    seq(BITS, x requires 0 <= x < BITS => x < |line| && line[x] == c)
  }

  /** The platform read from the first `HEIGHT` lines; missing lines are empty rows. */
  function GridOf(lines: seq<string>, c: char): (r: seq<Bits>)
    ensures |r| == HEIGHT && IsGrid(r)
  {
    seq(HEIGHT, y requires 0 <= y < HEIGHT => RowOf(if y < |lines| then lines[y] else "", c))
  }

  /** Every line read is a valid row. */
  predicate LinesOk(lines: seq<string>)
  {
    forall y :: 0 <= y < |lines| && y < HEIGHT ==> RowOk(lines[y])
  }

  /** An empty platform. */
  function Empties(): (r: seq<Bits>)
    ensures |r| == HEIGHT && IsGrid(r)
  {
    seq(HEIGHT, _ => Zero())
  }

  /** The rocks read from a row cannot share a cell. */
  lemma GridDisjoint(lines: seq<string>)
    ensures Disjoint(GridOf(lines, 'O'), GridOf(lines, '#'))
  {
  }

  /** The inner `for_each` of `solve`: bit `i` of the rollers for each `O`,
      of the blocks for each `#`. */
  method ReadRow(line: string) returns (r: Result<(Bits, Bits)>)
    ensures r.Ok? <==> RowOk(line)
    ensures r.Ok? ==> r.value == (RowOf(line, '#'), RowOf(line, 'O'))
  {
    var blocks, rollers := Zero(), Zero();
    for i := 0 to |line|
      invariant |blocks| == |rollers| == BITS
      invariant forall k :: 0 <= k < i ==> CellOk(line, k)
      invariant forall x :: 0 <= x < BITS ==> (blocks[x] <==> x < i && line[x] == '#')
      invariant forall x :: 0 <= x < BITS ==> (rollers[x] <==> x < i && line[x] == 'O')
    {
      match line[i]
      case 'O' =>
        if i >= BITS {
          assert !CellOk(line, i);
          return Err(PANIC);
        }
        rollers := Or(rollers, Bit(i));
      case '#' =>
        if i >= BITS {
          assert !CellOk(line, i);
          return Err(PANIC);
        }
        blocks := Or(blocks, Bit(i));
      case '.' =>
      case _ =>
        assert !CellOk(line, i);
        return Err(PANIC);
    }
    assert blocks == RowOf(line, '#');
    assert rollers == RowOf(line, 'O');
    return Ok((blocks, rollers));
  }

  // ------------------------------------------------------- the platform

  /** `Map`: the blocks and the rollers, one `u128` per row. */
  class Map {
    var blocks: array<Bits>
    var rollers: array<Bits>

    ghost predicate Valid()
      reads this, blocks, rollers
    {
      blocks != rollers && blocks.Length == HEIGHT && rollers.Length == HEIGHT &&
      Shape(rollers[..], blocks[..])
    }

    /** A platform holding the given rows. */
    constructor Of(rs: seq<Bits>, bs: seq<Bits>)
      requires Shape(rs, bs)
      ensures Valid() && fresh(blocks) && fresh(rollers)
      ensures rollers[..] == rs && blocks[..] == bs
    {
      blocks := new Bits[HEIGHT](y requires 0 <= y < HEIGHT => bs[y]);
      rollers := new Bits[HEIGHT](y requires 0 <= y < HEIGHT => rs[y]);
      new;
      assert rollers[..] == rs;
      assert blocks[..] == bs;
    }

    /** `Map` is `Copy`: a platform with the same rows in new arrays. */
    method Copy() returns (m: Map)
      requires Valid()
      ensures fresh(m) && fresh(m.blocks) && fresh(m.rollers) && m.Valid()
      ensures m.rollers[..] == rollers[..] && m.blocks[..] == blocks[..]
    {
      m := new Map.Of(rollers[..], blocks[..]);
    }

    /** The outer `for_each` of `solve`: the first `HEIGHT` lines fill the
        rows in order, and the first bad row panics. */
    method Read(lines: seq<string>) returns (r: Result<()>)
      requires Valid() && rollers[..] == Empties() && blocks[..] == Empties()
      modifies blocks, rollers
      ensures Valid()
      ensures r.Ok? <==> LinesOk(lines)
      ensures r.Ok? ==> rollers[..] == GridOf(lines, 'O') && blocks[..] == GridOf(lines, '#')
    {
      var n := if |lines| < HEIGHT then |lines| else HEIGHT;
      for y := 0 to n
        invariant Valid()
        invariant forall k :: 0 <= k < y ==> RowOk(lines[k])
        invariant forall k :: 0 <= k < y ==> rollers[k] == RowOf(lines[k], 'O') && blocks[k] == RowOf(lines[k], '#')
        invariant forall k :: y <= k < HEIGHT ==> rollers[k] == Zero() && blocks[k] == Zero()
      {
        var row := ReadRow(lines[y]);
        if row.Err? {
          return Err(row.reason);
        }
        blocks[y] := row.value.0;
        rollers[y] := row.value.1;
      }
      assert RowOf("", 'O') == Zero() && RowOf("", '#') == Zero();
      assert rollers[..] == GridOf(lines, 'O');
      assert blocks[..] == GridOf(lines, '#');
      return Ok(());
    }

    /** The body of `tilt_north`'s and `tilt_south`'s inner loops: the
        rollers of row `from` with nothing in row `to` move there. */
    method MoveFree(from: nat, to: nat) returns (moved: bool)
      requires Valid() && from < HEIGHT && to < HEIGHT
      modifies rollers
      ensures Valid() && blocks[..] == old(blocks[..])
      ensures moved == (true in Movers(old(rollers[..]), blocks[..], from, to))
      ensures rollers[..] == Move(old(rollers[..]), blocks[..], from, to)
    {
      ghost var before := rollers[..];
      var blockers := Or(rollers[to], blocks[to]);
      var free := And(rollers[from], Not(blockers));
      moved := (true in free);
      if moved {
        rollers[from] := And(rollers[from], Not(free));
        rollers[to] := Or(rollers[to], free);
        assert rollers[..] == before[from := And(before[from], Not(free))][to := Or(before[to], free)];
      }
    }

    /** One pass of `tilt_north`'s outer loop: the inner `for` over rows
        `HEIGHT - 1` down to 1, reporting whether anything moved. */
    method NorthSweep() returns (moved: bool)
      requires Valid()
      modifies rollers
      ensures Valid() && blocks[..] == old(blocks[..])
      ensures rollers[..] == NorthPass(old(rollers[..]), blocks[..], HEIGHT - 1)
      ensures moved <==> rollers[..] != old(rollers[..])
    {
      ghost var start := rollers[..];
      ghost var bs := blocks[..];
      moved := false;
      var y := HEIGHT - 1;
      while y > 0
        invariant 0 <= y < HEIGHT
        invariant Valid() && blocks[..] == bs
        invariant NorthPass(rollers[..], bs, y) == NorthPass(start, bs, HEIGHT - 1)
        invariant moved ==> Depth(rollers[..]) < Depth(start)
        invariant !moved ==> rollers[..] == start
      {
        ghost var before := rollers[..];
        var north := MoveFree(y, y - 1);
        if north {
          NorthMoveLowers(before, bs, y);
          moved := true;
        }
        y := y - 1;
      }
    }

    /** `tilt_north`: passes repeat until one moves nothing. */
    method TiltNorth()
      requires Valid()
      modifies rollers
      ensures Valid() && rollers[..] == NorthTilt(old(rollers[..]), blocks[..])
    {
      ghost var bs := blocks[..];
      while true
        invariant Valid() && blocks[..] == bs
        invariant NorthTilt(rollers[..], bs) == NorthTilt(old(rollers[..]), bs)
        decreases Depth(rollers[..])
      {
        ghost var start := rollers[..];
        var moved := NorthSweep();
        NorthPassFacts(start, bs, HEIGHT - 1);
        if !moved {
          break;
        }
      }
    }

    /** One pass of `tilt_south`'s outer loop: the inner `for` over rows
        0 up to `HEIGHT - 2`, reporting whether anything moved. */
    method SouthSweep() returns (moved: bool)
      requires Valid()
      modifies rollers
      ensures Valid() && blocks[..] == old(blocks[..])
      ensures rollers[..] == SouthPass(old(rollers[..]), blocks[..], 0)
      ensures moved <==> rollers[..] != old(rollers[..])
    {
      ghost var start := rollers[..];
      ghost var bs := blocks[..];
      moved := false;
      var y := 0;
      while y < HEIGHT - 1
        invariant 0 <= y < HEIGHT
        invariant Valid() && blocks[..] == bs
        invariant SouthPass(rollers[..], bs, y) == SouthPass(start, bs, 0)
        invariant moved ==> TotalLoad(rollers[..]) < TotalLoad(start)
        invariant !moved ==> rollers[..] == start
      {
        ghost var before := rollers[..];
        var south := MoveFree(y, y + 1);
        if south {
          SouthMoveLowers(before, bs, y);
          moved := true;
        }
        y := y + 1;
      }
    }

    /** `tilt_south`: passes repeat until one moves nothing. */
    method TiltSouth()
      requires Valid()
      modifies rollers
      ensures Valid() && rollers[..] == SouthTilt(old(rollers[..]), blocks[..])
    {
      ghost var bs := blocks[..];
      while true
        invariant Valid() && blocks[..] == bs
        invariant SouthTilt(rollers[..], bs) == SouthTilt(old(rollers[..]), bs)
        decreases TotalLoad(rollers[..])
      {
        ghost var start := rollers[..];
        var moved := SouthSweep();
        SouthPassFacts(start, bs, 0);
        if !moved {
          break;
        }
      }
    }

    /** `tilt_west`: each row's rollers shift west until none is free. */
    method TiltWest()
      requires Valid()
      modifies rollers
      ensures Valid() && rollers[..] == WestTilt(old(rollers[..]), blocks[..])
    {
      ghost var rs := rollers[..];
      ghost var bs := blocks[..];
      for y := 0 to HEIGHT
        invariant Valid() && blocks[..] == bs
        invariant forall k :: 0 <= k < y ==> rollers[k] == WestRow(rs[k], bs[k])
        invariant forall k :: y <= k < HEIGHT ==> rollers[k] == rs[k]
      {
        var r := rollers[y];
        var b := blocks[y];
        ghost var before := rollers[..];
        while true
          invariant |r| == BITS && rollers[..] == before
          invariant WestRow(r, b) == WestRow(rs[y], bs[y])
          decreases Dot(r, Ascending(BITS))
        {
          var blockers := Or(r, b);
          var west := And(And(r, Not(Shl(blockers))), Not(FirstCol()));
          if true in west {
            WestMoveFacts(r, b);
            NoneFree(west);
            r := And(r, Not(west));
            r := Or(r, Shr(west));
          } else {
            break;
          }
        }
        rollers[y] := r;
        assert rollers[..] == before[y := r];
      }
      assert rollers[..] == WestTilt(rs, bs);
    }

    /** `tilt_east`: each row's rollers shift east until none is free. */
    method TiltEast()
      requires Valid()
      modifies rollers
      ensures Valid() && rollers[..] == EastTilt(old(rollers[..]), blocks[..])
    {
      ghost var rs := rollers[..];
      ghost var bs := blocks[..];
      for y := 0 to HEIGHT
        invariant Valid() && blocks[..] == bs
        invariant forall k :: 0 <= k < y ==> rollers[k] == EastRow(rs[k], bs[k])
        invariant forall k :: y <= k < HEIGHT ==> rollers[k] == rs[k]
      {
        var r := rollers[y];
        var b := blocks[y];
        ghost var before := rollers[..];
        while true
          invariant |r| == BITS && rollers[..] == before
          invariant EastRow(r, b) == EastRow(rs[y], bs[y])
          decreases Dot(r, Descending(BITS))
        {
          var blockers := Or(r, b);
          var east := And(And(r, Not(Shr(blockers))), Not(LastCol()));
          if true in east {
            EastMoveFacts(r, b);
            NoneFree(east);
            r := And(r, Not(east));
            r := Or(r, Shl(east));
          } else {
            break;
          }
        }
        rollers[y] := r;
        assert rollers[..] == before[y := r];
      }
      assert rollers[..] == EastTilt(rs, bs);
    }

    /** `spin_cycle` */
    method SpinCycle()
      requires Valid()
      modifies rollers
      ensures Valid() && rollers[..] == Spin(old(rollers[..]), blocks[..])
    {
      TiltNorth();
      TiltWest();
      TiltSouth();
      TiltEast();
    }
  }

  // ------------------------------------------------------------- solve

  /** `trace` lists the platforms after 0, 1, 2, ... steps from `rs`. */
  ghost predicate Traced(step: seq<Bits> -> seq<Bits>, rs: seq<Bits>, trace: seq<seq<Bits>>)
    decreases |trace|
  {
    if |trace| <= 1 then trace == [rs]
    else Traced(step, rs, trace[..|trace| - 1]) && trace[|trace| - 1] == step(trace[|trace| - 2])
  }

  lemma {:induction false} TracedIterate(step: seq<Bits> -> seq<Bits>, rs: seq<Bits>, trace: seq<seq<Bits>>, k: nat)
    requires Traced(step, rs, trace) && k < |trace|
    ensures trace[k] == Iterate(step, rs, k)
    decreases |trace|
  {
    if k < |trace| - 1 {
      TracedIterate(step, rs, trace[..|trace| - 1], k);
    } else if k > 0 {
      TracedIterate(step, rs, trace[..|trace| - 1], k - 1);
    }
  }

  lemma TracedNext(step: seq<Bits> -> seq<Bits>, rs: seq<Bits>, trace: seq<seq<Bits>>, s: seq<Bits>)
    requires |trace| >= 1 && Traced(step, rs, trace) && s == step(trace[|trace| - 1])
    ensures Traced(step, rs, trace + [s])
  {
    assert (trace + [s])[..|trace|] == trace;
  }

  /** The key of spin `k` read off a trace. */
  function TraceKey(trace: seq<seq<Bits>>, k: nat): (nat, nat)
    requires 1 <= k < |trace|
  {
    (TotalLoad(trace[k]), if k == 1 then 0 else TotalLoad(trace[k - 1]))
  }

  /** `cycle_nums` after the spins of `trace`: it maps the key of each of
      them, all different, to the spin's number. */
  ghost predicate Recorded(trace: seq<seq<Bits>>, nums: map<(nat, nat), nat>)
  {
    (forall j :: 1 <= j < |trace| ==> TraceKey(trace, j) in nums && nums[TraceKey(trace, j)] == j) &&
    (forall k :: k in nums ==> 1 <= nums[k] < |trace| && TraceKey(trace, nums[k]) == k)
  }

  /** A key found in `cycle_nums` is the first repeat. */
  lemma RecordedFound(step: seq<Bits> -> seq<Bits>, rs: seq<Bits>, trace: seq<seq<Bits>>, nums: map<(nat, nat), nat>)
    requires |trace| >= 2 && Traced(step, rs, trace) && Recorded(trace[..|trace| - 1], nums)
    requires TraceKey(trace, |trace| - 1) in nums
    ensures FirstRepeat(step, rs, |trace| - 1, nums[TraceKey(trace, |trace| - 1)])
  {
    var n := |trace| - 1;
    var p := trace[..n];
    forall k | 1 <= k <= n
      ensures TraceKey(trace, k) == Key(step, rs, k)
    {
      TracedIterate(step, rs, trace, k);
      TracedIterate(step, rs, trace, k - 1);
    }
    forall k | 1 <= k < n
      ensures TraceKey(p, k) == TraceKey(trace, k)
    {
    }
    forall i, j | 1 <= i < j < n
      ensures Key(step, rs, i) != Key(step, rs, j)
    {
      assert nums[TraceKey(p, i)] == i && nums[TraceKey(p, j)] == j;
    }
  }

  /** Inserting a new key records one more spin. */
  lemma RecordedNext(trace: seq<seq<Bits>>, nums: map<(nat, nat), nat>, s: seq<Bits>)
    requires |trace| >= 1 && Recorded(trace, nums) && TraceKey(trace + [s], |trace|) !in nums
    ensures Recorded(trace + [s], nums[TraceKey(trace + [s], |trace|) := |trace|])
  {
    var t := trace + [s];
    forall k | 1 <= k < |trace|
      ensures TraceKey(t, k) == TraceKey(trace, k)
    {
    }
  }

  lemma InBox(a: nat, b: nat)
    requires a <= LOAD_BOUND && b <= LOAD_BOUND
    ensures (a, b) in Box()
  {
  }

  /** Recording a new key within the bounds shrinks what is left of the box. */
  lemma BoxShrinks(nums: map<(nat, nat), nat>, key: (nat, nat), n: nat)
    requires nums.Keys <= Box() && key in Box() && key !in nums
    ensures nums[key := n].Keys <= Box() && |Box() - nums[key := n].Keys| < |Box() - nums.Keys|
  {
    assert Box() - nums[key := n].Keys == (Box() - nums.Keys) - {key};
  }

  /** The `find_map` of `solve`: spins until the key of a spin was seen
      before; returns that spin's number and its distance to the earlier one. */
  method FindCycle(m: Map) returns (before: nat, len: nat)
    requires m.Valid()
    modifies m.rollers
    ensures m.Valid() && m.blocks[..] == old(m.blocks[..])
    ensures 1 <= len < before && FirstRepeat(SpinOf(m.blocks[..]), old(m.rollers[..]), before, before - len)
    ensures m.rollers[..] == Spins(old(m.rollers[..]), m.blocks[..], before)
  {
    ghost var rs, bs := m.rollers[..], m.blocks[..];
    ghost var trace := [rs];
    var cycleNums: map<(nat, nat), nat> := map[];
    var last: nat := 0;
    var cycleNum: nat := 1;
    while true
      invariant m.Valid() && m.blocks[..] == bs
      invariant |trace| == cycleNum >= 1 && Traced(SpinOf(bs), rs, trace) && m.rollers[..] == trace[cycleNum - 1]
      invariant last == (if cycleNum == 1 then 0 else TotalLoad(trace[cycleNum - 1])) && last <= LOAD_BOUND
      invariant Recorded(trace, cycleNums) && cycleNums.Keys <= Box()
      decreases |Box() - cycleNums.Keys|
    {
      m.SpinCycle();
      var load := TotalLoad(m.rollers[..]);
      var key: (nat, nat) := (load, last);
      TracedNext(SpinOf(bs), rs, trace, m.rollers[..]);
      ghost var next := trace + [m.rollers[..]];
      assert key == TraceKey(next, cycleNum);
      if key in cycleNums {
        assert next[..cycleNum] == trace;
        RecordedFound(SpinOf(bs), rs, next, cycleNums);
        TracedIterate(SpinOf(bs), rs, next, cycleNum);
        before, len := cycleNum, cycleNum - cycleNums[key];
        return;
      }
      LoadBound(m.rollers[..]);
      InBox(load, last);
      BoxShrinks(cycleNums, key, cycleNum);
      RecordedNext(trace, cycleNums, m.rollers[..]);
      trace := next;
      cycleNums := cycleNums[key := cycleNum];
      last := load;
      cycleNum := cycleNum + 1;
    }
  }

  /** The skip `solve` takes is exact when the repeated key comes from a
      repeated platform: the load after `TOTAL_CYCLES` spins. */
  lemma SkipExact(rs: seq<Bits>, bs: seq<Bits>, n: nat, m: nat)
    requires FirstRepeat(SpinOf(bs), rs, n, m) && n <= TOTAL_CYCLES && Spins(rs, bs, m) == Spins(rs, bs, n)
    ensures TotalLoad(Spins(rs, bs, Skip(n, m, TOTAL_CYCLES))) == TotalLoad(Spins(rs, bs, TOTAL_CYCLES))
  {
    CycleShortcut(rs, bs, m, n, TOTAL_CYCLES);
  }

  /** The second half of `solve`: spin to the first repeated key, then the
      remaining spins modulo the cycle length, and read the load. The
      subtraction `TOTAL_CYCLES - cycles_before_loop` panics on underflow. */
  method Part2(platform: Map) returns (r: Result<nat>, ghost n: nat, ghost m: nat)
    requires platform.Valid()
    modifies platform.rollers
    ensures FirstRepeat(SpinOf(platform.blocks[..]), old(platform.rollers[..]), n, m)
    ensures r.Ok? <==> n <= TOTAL_CYCLES
    ensures r.Ok? ==> r.value == TotalLoad(Spins(old(platform.rollers[..]), platform.blocks[..], Skip(n, m, TOTAL_CYCLES)))
  {
    ghost var rs, bs := platform.rollers[..], platform.blocks[..];
    var before, len := FindCycle(platform);
    assert platform.blocks[..] == bs;
    n, m := before, before - len;
    if before > TOTAL_CYCLES {
      return Err(PANIC), n, m;
    }
    var remaining := (TOTAL_CYCLES - before) % len;
    ghost var s := platform.rollers[..];
    ghost var trace := [s];
    for i := 0 to remaining
      invariant platform.Valid() && platform.blocks[..] == bs
      invariant |trace| == i + 1 && Traced(SpinOf(bs), s, trace) && platform.rollers[..] == trace[i]
    {
      platform.SpinCycle();
      TracedNext(SpinOf(bs), s, trace, platform.rollers[..]);
      trace := trace + [platform.rollers[..]];
    }
    TracedIterate(SpinOf(bs), s, trace, remaining);
    SkipReached(SpinOf(bs), rs, before, len, TOTAL_CYCLES, s, platform.rollers[..]);
    return Ok(TotalLoad(platform.rollers[..])), n, m;
  }

  /** `solve`: part 1 is the load after a north tilt; part 2 the load after
      the spins up to the first repeated key plus the remainder of the
      remaining spins modulo the cycle length. */
  method Solve(input: string) returns (r: Result<(nat, nat)>)
    ensures var lines := Lines(input);
      !LinesOk(lines) ==> r.Err?
    ensures var lines := Lines(input);
      var rs, bs := GridOf(lines, 'O'), GridOf(lines, '#');
      r.Ok? ==> (r.value.0 == TotalLoad(NorthTilt(rs, bs)) &&
        exists n: nat, m: nat :: FirstRepeat(SpinOf(bs), rs, n, m) && n <= TOTAL_CYCLES &&
          r.value.1 == TotalLoad(Spins(rs, bs, Skip(n, m, TOTAL_CYCLES))))
    ensures var lines := Lines(input);
      var rs, bs := GridOf(lines, 'O'), GridOf(lines, '#');
      LinesOk(lines) && r.Err? ==> exists n: nat, m: nat :: FirstRepeat(SpinOf(bs), rs, n, m) && n > TOTAL_CYCLES
  {
    var lines := Lines(input);
    var platform := new Map.Of(Empties(), Empties());
    var read := platform.Read(lines);
    if read.Err? {
      return Err(read.reason);
    }
    var p1 := platform.Copy();
    p1.TiltNorth();
    var part1 := TotalLoad(p1.rollers[..]);
    var part2;
    ghost var n, m;
    part2, n, m := Part2(platform);
    if part2.Err? {
      return Err(part2.reason);
    }
    return Ok((part1, part2.value));
  }
}
