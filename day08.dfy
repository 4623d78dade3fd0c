/** Day 8: Haunted Wasteland. A network maps each node to a left and a right
    node; a line of L/R instructions, repeated forever, says which to take.
    Part 1 counts the steps from `AAA` to `ZZZ`; part 2 counts, for every
    node ending in `A`, the steps to the first node ending in `Z`, and folds
    the counts with the least common multiple. */
module Day08 {
  import opened Util

  const START: string := "AAA"
  const GOAL: string := "ZZZ"

  /** Every `unwrap` on `None` and the `unreachable!()` on a bad instruction. */
  const PANIC: string := "panic"

  datatype Branch = Branch(left: string, right: string)

  type Network = map<string, Branch>

  // ---------------------------------------------------------------- parsing

  predicate IsParen(c: char)
  {
    c == '(' || c == ')'
  }

  /** Drops parentheses from the front. */
  function TrimStartParens(s: string): (r: string)
    ensures |r| <= |s| && r == s[|s| - |r|..]
    ensures forall i :: 0 <= i < |s| - |r| ==> IsParen(s[i])
    ensures r != [] ==> !IsParen(r[0])
  {
    if s != [] && IsParen(s[0]) then
      var r := TrimStartParens(s[1..]);
      assert s[1..][|s| - 1 - |r|..] == s[|s| - |r|..];
      assert forall i :: 1 <= i < |s| ==> s[i] == s[1..][i - 1];
      r
    else s
  }

  /** Drops parentheses from the back. */
  function TrimEndParens(s: string): (r: string)
    ensures |r| <= |s| && r == s[..|r|]
    ensures forall i :: |r| <= i < |s| ==> IsParen(s[i])
    ensures r != [] ==> !IsParen(r[|r| - 1])
  {
    if s != [] && IsParen(s[|s| - 1]) then TrimEndParens(s[..|s| - 1]) else s
  }

  /** `trim_matches(&['(', ')'])`. */
  function TrimParens(s: string): string
  {
    TrimEndParens(TrimStartParens(s))
  }

  /** A line "node = (left, right)"; a missing " = " or ", " panics. */
  function ParseNode(line: string): Result<(string, Branch)>
  {
    match SplitOnce(line, " = ")
    case None => Err(PANIC)
    case Some((node, branches)) =>
      match SplitOnce(TrimParens(branches), ", ")
      case None => Err(PANIC)
      case Some((left, right)) => Ok((node, Branch(left, right)))
  }

  /** Node names as the puzzle writes them: letters and digits. */
  predicate IsName(s: string)
  {
    s != [] && forall i :: 0 <= i < |s| ==> 'A' <= s[i] <= 'Z' || '0' <= s[i] <= '9'
  }

  function NodeText(node: string, b: Branch): string
  {
    node + " = (" + b.left + ", " + b.right + ")"
  }

  /** Parentheses around a text that neither starts nor ends with one are
      trimmed away exactly. */
  lemma TrimParensAround(inner: string)
    requires inner != [] && !IsParen(inner[0]) && !IsParen(inner[|inner| - 1])
    ensures TrimParens("(" + inner + ")") == inner
  {
    var closed := inner + ")";
    assert ("(" + inner + ")")[1..] == closed;
    assert TrimStartParens(closed) == closed by {
      assert closed[0] == inner[0];
    }
    assert closed[..|inner|] == inner;
  }

  /** A node line written out is read back. */
  lemma ParseNodeText(node: string, b: Branch)
    requires IsName(node) && IsName(b.left) && IsName(b.right)
    ensures ParseNode(NodeText(node, b)) == Ok((node, b))
  {
    var inner := b.left + ", " + b.right;
    var rest := "(" + inner + ")";
    assert NodeText(node, b) == node + " = " + rest;
    NameLacks(node, ' ');
    SplitOnceAtChar(node, " = ", rest);
    assert inner[0] == b.left[0] && inner[|inner| - 1] == b.right[|b.right| - 1];
    TrimParensAround(inner);
    NameLacks(b.left, ',');
    SplitOnceAtChar(b.left, ", ", b.right);
    ParseNodeParts(NodeText(node, b), node, rest, b);
  }

  lemma NameLacks(s: string, c: char)
    requires IsName(s) && !('A' <= c <= 'Z' || '0' <= c <= '9')
    ensures c !in s
  {
  }

  lemma ParseNodeParts(line: string, node: string, rest: string, b: Branch)
    requires SplitOnce(line, " = ") == Some((node, rest))
    requires SplitOnce(TrimParens(rest), ", ") == Some((b.left, b.right))
    ensures ParseNode(line) == Ok((node, b))
  {
  }

  /** The map built by inserting the entries in order: a later entry for the
      same node replaces an earlier one. */
  function Insertions(entries: seq<(string, Branch)>): (net: Network)
    ensures forall k :: k in net <==> exists i :: 0 <= i < |entries| && entries[i].0 == k
  {
    if entries == [] then map[]
    else
      var n := |entries| - 1;
      var net := Insertions(entries[..n]);
      assert forall i :: 0 <= i < n ==> entries[..n][i] == entries[i];
      net[entries[n].0 := entries[n].1]
  }

  /** Each node maps to the branch of its last entry. */
  lemma {:induction false} InsertionsLast(entries: seq<(string, Branch)>, i: nat)
    requires i < |entries|
    requires forall j :: i < j < |entries| ==> entries[j].0 != entries[i].0
    ensures Insertions(entries)[entries[i].0] == entries[i].1
  {
    var n := |entries| - 1;
    if i < n {
      InsertionsLast(entries[..n], i);
    }
  }

  /** `solve`'s parsing: the instruction line, a skipped line, then one node
      per line. A missing first line panics; instructions are decoded only
      when they are used. */
  function ParseInput(input: string): Result<(string, Network)>
  {
    var lines := Lines(input);
    if lines == [] then Err(PANIC)
    else
      var nodes := if |lines| >= 2 then lines[2..] else [];
      match MapResults(nodes, ParseNode)
      case Err(e) => Err(e)
      case Ok(entries) => Ok((lines[0], Insertions(entries)))
  }

  // ------------------------------------------------------------------ walks

  /** One step: the instruction picks the left or the right node. A missing
      node or an instruction other than L and R panics. */
  function Step(net: Network, node: string, instruction: char): Result<string>
  {
    if node !in net || (instruction != 'L' && instruction != 'R') then Err(PANIC)
    else if instruction == 'L' then Ok(net[node].left)
    else Ok(net[node].right)
  }

  /** The node after `k` steps from `node`; step i follows instruction
      i mod |dirs| of the repeated line, and an empty line panics. */
  function Walk(net: Network, dirs: string, node: string, k: nat): Result<string>
  {
    if k == 0 then Ok(node)
    else
      match Walk(net, dirs, node, k - 1)
      case Err(e) => Err(e)
      case Ok(current) =>
        if dirs == [] then Err(PANIC) else Step(net, current, dirs[(k - 1) % |dirs|])
  }

  /** The walk reaches no goal node in its first `n` positions. */
  ghost predicate Avoids(net: Network, dirs: string, start: string, goal: string -> bool, n: nat)
  {
    forall i :: 0 <= i < n ==> Walk(net, dirs, start, i).Ok? && !goal(Walk(net, dirs, start, i).value)
  }

  /** The walk panics at step `n`, before reaching any goal node. */
  ghost predicate PanicsAt(net: Network, dirs: string, start: string, goal: string -> bool, n: nat)
  {
    Avoids(net, dirs, start, goal, n) && Walk(net, dirs, start, n).Err?
  }

  /** `n` is the number of steps to the first goal node. */
  ghost predicate ArrivesFirst(net: Network, dirs: string, start: string, goal: string -> bool, n: nat)
  {
    Avoids(net, dirs, start, goal, n) && Walk(net, dirs, start, n).Ok? && goal(Walk(net, dirs, start, n).value)
  }

  lemma ModShift(q: nat, x: nat, len: nat)
    requires len > 0
    ensures (len * q + x) % len == x % len
  {
    DivModUnique(len * q + x, len, q + x / len, x % len);
  }

  /** Once a walk has used whole rounds of the instruction line, it goes on
      as a fresh walk from where it is. */
  lemma {:induction false} WalkRounds(net: Network, dirs: string, node: string, rounds: nat, b: nat)
    requires dirs != []
    requires Walk(net, dirs, node, |dirs| * rounds).Ok?
    ensures Walk(net, dirs, node, |dirs| * rounds + b) == Walk(net, dirs, Walk(net, dirs, node, |dirs| * rounds).value, b)
  {
    if b > 0 {
      WalkRounds(net, dirs, node, rounds, b - 1);
      ModShift(rounds, b - 1, |dirs|);
      assert |dirs| * rounds + b - 1 == |dirs| * rounds + (b - 1);
    }
  }

  lemma RoundsArithmetic(len: nat, q: nat, k: nat)
    ensures len * q * (k + 1) == len * (q * k) + len * q
    ensures len * q * k == len * (q * k)
  {
  }

  /** If a walk reaches `z` after `q` whole rounds of the instruction line,
      and `z` returns to itself after as many steps, the walk is at `z`
      after every multiple of that many steps. */
  lemma {:induction false} CycleRepeats(net: Network, dirs: string, start: string, z: string, q: nat, k: nat)
    requires dirs != []
    requires Walk(net, dirs, start, |dirs| * q) == Ok(z) && Walk(net, dirs, z, |dirs| * q) == Ok(z)
    ensures Walk(net, dirs, start, |dirs| * q * (k + 1)) == Ok(z)
  {
    if k > 0 {
      CycleRepeats(net, dirs, start, z, q, k - 1);
      RoundsArithmetic(|dirs|, q, k);
      WalkRounds(net, dirs, start, q * k, |dirs| * q);
    }
  }

  /** The reading behind part 2: when every start's first arrival `n` also
      closes a cycle back to its `Z` node, a common multiple of the arrivals
      puts every walk on its `Z` node at once. */
  lemma WalksMeet(net: Network, dirs: string, start: string, z: string, n: nat, m: nat)
    requires dirs != [] && n % |dirs| == 0 && n > 0
    requires Walk(net, dirs, start, n) == Ok(z) && Walk(net, dirs, z, n) == Ok(z)
    requires Divides(n, m) && m > 0
    ensures Walk(net, dirs, start, m) == Ok(z)
  {
    var q := n / |dirs|;
    assert n == |dirs| * q;
    var k := m / n;
    assert m == n * k;
    CycleRepeats(net, dirs, start, z, q, k - 1);
  }

  /** The `for n in 0..` of part 1 and the `while` of part 2: step until a
      goal node, counting the steps. A walk that neither panics nor arrives
      within `fuel` steps runs out of fuel instead of looping forever. */
  method StepsToGoal(net: Network, dirs: string, start: string, goal: string -> bool, fuel: nat) returns (r: Result<nat>)
    ensures r.Ok? ==> ArrivesFirst(net, dirs, start, goal, r.value)
    ensures r.Err? && r.reason == PANIC ==>
      exists n: nat :: 0 < n <= fuel + 1 && PanicsAt(net, dirs, start, goal, n)
    ensures r.Err? && r.reason != PANIC ==> Avoids(net, dirs, start, goal, fuel + 1)
  {
    var current := start;
    var n := 0;
    while !goal(current)
      invariant n <= fuel
      invariant Walk(net, dirs, start, n) == Ok(current)
      invariant Avoids(net, dirs, start, goal, n)
      decreases fuel - n
    {
      assert Avoids(net, dirs, start, goal, n + 1);
      if dirs == [] || current !in net || (dirs[n % |dirs|] != 'L' && dirs[n % |dirs|] != 'R') {
        assert PanicsAt(net, dirs, start, goal, n + 1);
        return Err(PANIC);
      }
      if n == fuel {
        return Err("out of fuel");
      }
      var branch := net[current];
      current := if dirs[n % |dirs|] == 'L' then branch.left else branch.right;
      n := n + 1;
    }
    return Ok(n);
  }

  // ---------------------------------------------------------------- numbers

  /** `d` divides `n`. */
  predicate Divides(d: nat, n: nat)
  {
    if d == 0 then n == 0 else n % d == 0
  }

  function Gcd(a: nat, b: nat): nat
    decreases b
  {
    if b == 0 then a else Gcd(b, a % b)
  }

  lemma MulMod(g: nat, m: nat)
    requires g > 0
    ensures (g * m) % g == 0 && (g * m) / g == m
  {
    DivModUnique(g * m, g, m, 0);
  }

  /** A divisor of two numbers divides every combination of them. */
  lemma DividesCombination(d: nat, x: nat, y: nat, k: nat)
    requires Divides(d, x) && Divides(d, y)
    ensures Divides(d, x * k + y)
  {
    if d > 0 {
      var p, q := x / d, y / d;
      assert x == d * p && y == d * q;
      assert x * k + y == d * (p * k + q);
      MulMod(d, p * k + q);
    }
  }

  lemma DividesDifference(d: nat, x: nat, y: nat, k: nat)
    requires Divides(d, x) && Divides(d, y) && x * k <= y
    ensures Divides(d, y - x * k)
  {
    if d > 0 {
      var p, q := x / d, y / d;
      assert x == d * p && y == d * q;
      assert y - x * k == d * (q - p * k);
      MulMod(d, q - p * k);
    }
  }

  /** `gcd` divides both its arguments. */
  lemma {:induction false} GcdDivides(a: nat, b: nat)
    ensures Divides(Gcd(a, b), a) && Divides(Gcd(a, b), b)
    decreases b
  {
    if b > 0 {
      GcdDivides(b, a % b);
      assert a == b * (a / b) + a % b;
      DividesCombination(Gcd(a, b), b, a % b, a / b);
    }
  }

  /** Every common divisor divides `gcd`. */
  lemma {:induction false} GcdGreatest(a: nat, b: nat, d: nat)
    requires Divides(d, a) && Divides(d, b)
    ensures Divides(d, Gcd(a, b))
    decreases b
  {
    if b > 0 {
      assert a % b == a - b * (a / b);
      DividesDifference(d, b, a, a / b);
      GcdGreatest(b, a % b, d);
    }
  }

  /** `gcd` is 0 only for two zeros. */
  lemma {:induction false} GcdZero(a: nat, b: nat)
    ensures Gcd(a, b) == 0 <==> a == 0 && b == 0
    decreases b
  {
    if b > 0 {
      GcdDivides(a, b);
    }
  }

  /** `lcm`: the larger argument is divided by the gcd before multiplying;
      two zeros divide by zero. */
  function Lcm(a: nat, b: nat): Result<nat>
  {
    var g := Gcd(a, b);
    if g == 0 then Err("attempt to divide by zero")
    else if a > b then Ok(Scaled(a, g, b))
    else Ok(Scaled(b, g, a))
  }

  /** `x / g * y` */
  function Scaled(x: nat, g: nat, y: nat): nat
    requires g > 0
  {
    (x / g) * y
  }

  /** `lcm` fails only on two zeros, and is otherwise a common multiple of its
      arguments: a·b / gcd(a, b). */
  lemma LcmCommonMultiple(a: nat, b: nat)
    ensures Lcm(a, b).Ok? <==> a != 0 || b != 0
    ensures Lcm(a, b).Ok? ==> Divides(a, Lcm(a, b).value) && Divides(b, Lcm(a, b).value)
    ensures Lcm(a, b).Ok? ==> Lcm(a, b).value * Gcd(a, b) == a * b
  {
    GcdZero(a, b);
    var g := Gcd(a, b);
    if g > 0 {
      GcdDivides(a, b);
      var p, q := a / g, b / g;
      CoFactors(a, b, g, p, q);
      DividesProduct(a, q);
      DividesProduct(b, p);
    }
  }

  lemma CoFactors(a: nat, b: nat, g: nat, p: nat, q: nat)
    requires g > 0 && a == g * p && b == g * q
    ensures p * b == a * q && (a * q) * g == a * b
  {
    assert p * b == p * (g * q) == (g * p) * q;
  }

  lemma DividesProduct(a: nat, k: nat)
    ensures Divides(a, a * k) && Divides(a, k * a)
  {
    if a > 0 {
      MulMod(a, k);
    }
  }

  /** 1 is the identity of the fold, on either side. */
  lemma LcmOne(x: nat)
    ensures Lcm(1, x) == Ok(x) && Lcm(x, 1) == Ok(x)
  {
    if x > 1 {
      assert Gcd(x, 1) == Gcd(1, 0) == 1;
      assert Gcd(1, x) == Gcd(x, 1);
    }
  }

  /** Scaling both arguments scales `gcd`. */
  lemma {:induction false} GcdScale(k: nat, a: nat, b: nat)
    ensures Gcd(k * a, k * b) == k * Gcd(a, b)
    decreases b
  {
    if b > 0 && k > 0 {
      DivModUnique(k * a, k * b, a / b, k * (a % b));
      GcdScale(k, b, a % b);
    }
  }

  /** `lcm` is the least common multiple: every common multiple of the two
      arguments is a multiple of it. */
  lemma LcmLeast(a: nat, b: nat, m: nat)
    requires Lcm(a, b).Ok? && Divides(a, m) && Divides(b, m)
    ensures Divides(Lcm(a, b).value, m)
  {
    LcmCommonMultiple(a, b);
    var l := Lcm(a, b).value;
    if a == 0 || b == 0 {
      DividesProduct(l, 0);
    } else {
      ScaledMultiples(a, b, m);
      GcdGreatest(m * a, m * b, a * b);
      GcdScale(m, a, b);
      GcdZero(a, b);
      CancelFactor(l, Gcd(a, b), m);
    }
  }

  lemma ScaledMultiples(a: nat, b: nat, m: nat)
    requires a > 0 && b > 0 && Divides(a, m) && Divides(b, m)
    ensures Divides(a * b, m * a) && Divides(a * b, m * b)
  {
    var s, t := m / a, m / b;
    assert m * b == (a * b) * s by {
      assert m == a * s;
    }
    assert m * a == (a * b) * t by {
      assert m == b * t;
    }
    DividesProduct(a * b, s);
    DividesProduct(a * b, t);
  }

  lemma CancelFactor(l: nat, g: nat, m: nat)
    requires g > 0 && Divides(l * g, m * g)
    ensures Divides(l, m)
  {
    if l == 0 {
      assert m * g == 0;
    } else {
      var c := (m * g) / (l * g);
      assert (m - l * c) * g == 0;
      assert m == l * c;
      DividesProduct(l, c);
    }
  }

  /** The first arrival is unique. */
  lemma ArrivesFirstUnique(net: Network, dirs: string, start: string, goal: string -> bool, n: nat, n': nat)
    requires ArrivesFirst(net, dirs, start, goal, n) && ArrivesFirst(net, dirs, start, goal, n')
    ensures n == n'
  {
  }

  lemma DividesTransitive(a: nat, b: nat, c: nat)
    requires Divides(a, b) && Divides(b, c)
    ensures Divides(a, c)
  {
    if a > 0 && b > 0 {
      var p, q := b / a, c / b;
      assert b == a * p && c == b * q;
      assert c == a * (p * q);
      MulMod(a, p * q);
    }
  }

  // ------------------------------------------------------------------ parts

  predicate IsGoal(node: string)
  {
    node == GOAL
  }

  predicate EndsWith(node: string, c: char)
  {
    node != [] && node[|node| - 1] == c
  }

  predicate EndsWithZ(node: string)
  {
    EndsWith(node, 'Z')
  }

  /** The nodes part 2 starts from. */
  function Starts(net: Network): set<string>
  {
    set node | node in net && EndsWith(node, 'A')
  }

  /** The walk from `start` first reaches a node ending in `Z` after a number
      of steps that divides `m`. */
  ghost predicate ArrivesDividing(net: Network, dirs: string, start: string, m: nat)
  {
    exists n :: ArrivesFirst(net, dirs, start, EndsWithZ, n) && Divides(n, m)
  }

  lemma ArrivesDividingMultiple(net: Network, dirs: string, start: string, m: nat, k: nat)
    requires ArrivesDividing(net, dirs, start, m) && Divides(m, k)
    ensures ArrivesDividing(net, dirs, start, k)
  {
    var n :| ArrivesFirst(net, dirs, start, EndsWithZ, n) && Divides(n, m);
    DividesTransitive(n, m, k);
  }

  /** Every start in `starts` first reaches a `Z` node after a number of
      steps dividing `m`: `m` is a common multiple of their arrival counts. */
  ghost predicate CommonMultiple(net: Network, dirs: string, starts: set<string>, m: nat)
  {
    forall s :: s in starts ==> ArrivesDividing(net, dirs, s, m)
  }

  /** Folding one more arrival count `n` into `acc` with `lcm` keeps `acc`
      the least common multiple of the counts folded so far. */
  lemma FoldStep(net: Network, dirs: string, done: set<string>, s: string, acc: nat, n: nat, l: nat)
    requires ArrivesFirst(net, dirs, s, EndsWithZ, n) && Lcm(acc, n) == Ok(l)
    requires CommonMultiple(net, dirs, done, acc)
    requires forall m: nat :: CommonMultiple(net, dirs, done, m) ==> Divides(acc, m)
    ensures CommonMultiple(net, dirs, done + {s}, l)
    ensures forall m: nat :: CommonMultiple(net, dirs, done + {s}, m) ==> Divides(l, m)
  {
    LcmCommonMultiple(acc, n);
    forall t | t in done + {s}
      ensures ArrivesDividing(net, dirs, t, l)
    {
      if t == s {
        assert ArrivesFirst(net, dirs, t, EndsWithZ, n) && Divides(n, l);
      } else {
        ArrivesDividingMultiple(net, dirs, t, acc, l);
      }
    }
    forall m: nat | CommonMultiple(net, dirs, done + {s}, m)
      ensures Divides(l, m)
    {
      assert CommonMultiple(net, dirs, done, m);
      assert ArrivesDividing(net, dirs, s, m);
      var n' :| ArrivesFirst(net, dirs, s, EndsWithZ, n') && Divides(n', m);
      ArrivesFirstUnique(net, dirs, s, EndsWithZ, n, n');
      LcmLeast(acc, n, m);
    }
  }

  /** `part1`: the steps from `AAA` to `ZZZ`. */
  method Part1(net: Network, dirs: string, fuel: nat) returns (r: Result<nat>)
    ensures r.Ok? ==> ArrivesFirst(net, dirs, START, IsGoal, r.value)
    ensures r.Err? && r.reason == PANIC ==>
      exists n: nat :: 0 < n <= fuel + 1 && PanicsAt(net, dirs, START, IsGoal, n)
    ensures r.Err? && r.reason != PANIC ==> Avoids(net, dirs, START, IsGoal, fuel + 1)
  {
    r := StepsToGoal(net, dirs, START, IsGoal, fuel);
  }

  /** `part2`: the steps of every start, in the map's iteration order,
      folded with `lcm`. No start is a goal, so every count is positive and
      the fold never divides by zero; the answer is a multiple of every
      start's count. */
  method Part2(net: Network, dirs: string, fuel: nat) returns (r: Result<nat>)
    ensures r.Ok? ==> r.value > 0 && CommonMultiple(net, dirs, Starts(net), r.value)
    ensures r.Ok? ==> forall m: nat :: CommonMultiple(net, dirs, Starts(net), m) ==> Divides(r.value, m)
    ensures r.Err? ==> exists s :: s in Starts(net) && forall n: nat :: n <= fuel ==> !ArrivesFirst(net, dirs, s, EndsWithZ, n)
  {
    var remaining := Starts(net);
    var acc := 1;
    while remaining != {}
      invariant remaining <= Starts(net)
      invariant acc > 0
      invariant CommonMultiple(net, dirs, Starts(net) - remaining, acc)
      invariant forall m: nat :: CommonMultiple(net, dirs, Starts(net) - remaining, m) ==> Divides(acc, m)
      decreases remaining
    {
      var s :| s in remaining;
      var steps := StepsToGoal(net, dirs, s, EndsWithZ, fuel);
      if steps.Err? {
        NoArrival(net, dirs, s, EndsWithZ, fuel, steps.reason);
        return Err(steps.reason);
      }
      var next := Lcm(acc, steps.value);
      FoldNext(net, dirs, Starts(net) - remaining, s, acc, steps.value);
      assert Starts(net) - remaining + {s} == Starts(net) - (remaining - {s});
      acc := next.value;
      remaining := remaining - {s};
    }
    assert Starts(net) - remaining == Starts(net);
    return Ok(acc);
  }

  /** One round of the fold: a start's count is positive, so `lcm` succeeds
      with a positive value that is the least common multiple so far. */
  lemma FoldNext(net: Network, dirs: string, done: set<string>, s: string, acc: nat, n: nat)
    requires s in Starts(net) && ArrivesFirst(net, dirs, s, EndsWithZ, n) && acc > 0
    requires CommonMultiple(net, dirs, done, acc)
    requires forall m: nat :: CommonMultiple(net, dirs, done, m) ==> Divides(acc, m)
    ensures Lcm(acc, n).Ok? && Lcm(acc, n).value > 0
    ensures CommonMultiple(net, dirs, done + {s}, Lcm(acc, n).value)
    ensures forall m: nat :: CommonMultiple(net, dirs, done + {s}, m) ==> Divides(Lcm(acc, n).value, m)
  {
    assert n > 0 by {
      assert Walk(net, dirs, s, 0) == Ok(s);
    }
    LcmCommonMultiple(acc, n);
    GcdZero(acc, n);
    FoldStep(net, dirs, done, s, acc, n, Lcm(acc, n).value);
  }

  /** What `StepsToGoal` reports on failure rules out every arrival within
      the fuel. */
  lemma NoArrival(net: Network, dirs: string, start: string, goal: string -> bool, fuel: nat, reason: string)
    requires reason == PANIC ==>
      exists n: nat :: 0 < n <= fuel + 1 && PanicsAt(net, dirs, start, goal, n)
    requires reason != PANIC ==> Avoids(net, dirs, start, goal, fuel + 1)
    ensures forall n: nat :: n <= fuel ==> !ArrivesFirst(net, dirs, start, goal, n)
  {
    forall n: nat | n <= fuel ensures !ArrivesFirst(net, dirs, start, goal, n) {
      if reason == PANIC {
        var m: nat :| 0 < m <= fuel + 1 && PanicsAt(net, dirs, start, goal, m);
        if n >= m {
          WalkErrStays(net, dirs, start, m, n);
        }
      }
    }
  }

  /** A walk that has panicked stays panicked. */
  lemma {:induction false} WalkErrStays(net: Network, dirs: string, node: string, m: nat, n: nat)
    requires m <= n && Walk(net, dirs, node, m).Err?
    ensures Walk(net, dirs, node, n).Err?
    decreases n - m
  {
    if m < n {
      WalkErrStays(net, dirs, node, m, n - 1);
    }
  }

  /** `solve`: parse, then both parts; a panic in either is a panic. */
  method Solve(input: string, fuel: nat) returns (r: Result<(nat, nat)>)
    ensures ParseInput(input).Err? ==> r.Err?
    ensures r.Ok? ==> ParseInput(input).Ok?
    ensures r.Ok? ==>
      var (dirs, net) := ParseInput(input).value;
      ArrivesFirst(net, dirs, START, IsGoal, r.value.0) &&
      r.value.1 > 0 && CommonMultiple(net, dirs, Starts(net), r.value.1) &&
      forall m: nat :: CommonMultiple(net, dirs, Starts(net), m) ==> Divides(r.value.1, m)
  {
    var parsed := ParseInput(input);
    if parsed.Err? {
      return Err(parsed.reason);
    }
    var (dirs, net) := parsed.value;
    var p1 := Part1(net, dirs, fuel);
    var p2 := Part2(net, dirs, fuel);
    if p1.Err? {
      return Err(p1.reason);
    }
    if p2.Err? {
      return Err(p2.reason);
    }
    return Ok((p1.value, p2.value));
  }
}
