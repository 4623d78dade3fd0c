/** Day 12: Hot Springs. Each line lists springs (`#` damaged, `.`
    operational, `?` unknown) and the sizes of the runs of damaged springs.
    The count of arrangements is a dynamic programme over states (group
    index, length of the current run) kept in a map from state to the
    number of ways to reach it, pruned after every spring of the states
    that can no longer finish. Part 2 first unfolds every line five times. */
module Day12 {
  import opened Util

  const PANIC: string := "panic"
  const USIZE_BOUND: nat := 0x1_0000_0000_0000_0000

  /** Part 2 repeats springs and groups this many times. */
  const COPIES: nat := 5

  /** (index of the group being matched, length of the current run of `#`) */
  type State = (nat, nat)

  /** A state and the number of ways to reach it. */
  type States = map<State, nat>

  // --------------------------------------------------------------- unfold

  function Copies(s: string): seq<string>
  {
    seq(COPIES, _ => s)
  }

  lemma {:induction false} JoinSnoc(parts: seq<string>, sep: string, p: string)
    requires parts != []
    ensures Join(parts + [p], sep) == Join(parts, sep) + sep + p
  {
    if |parts| > 1 {
      assert (parts + [p])[1..] == parts[1..] + [p];
      JoinSnoc(parts[1..], sep, p);
    } else {
      assert (parts + [p])[1..] == [p];
    }
  }

  lemma {:induction false} JoinAvoids(parts: seq<string>, sep: string, c: char)
    requires c !in sep && forall k :: 0 <= k < |parts| ==> c !in parts[k]
    ensures c !in Join(parts, sep)
  {
    if |parts| > 1 {
      JoinAvoids(parts[1..], sep, c);
    }
  }

  /** `unfold`: five copies of the springs joined by `?` and five copies of
      the groups joined by `,`; a line without a space panics. */
  method Unfold(line: string) returns (r: Result<string>)
    ensures SplitOnce(line, " ").None? ==> r == Err(PANIC)
    ensures SplitOnce(line, " ").Some? ==>
      r == Ok(Join(Copies(SplitOnce(line, " ").value.0), "?") + " " + Join(Copies(SplitOnce(line, " ").value.1), ","))
  {
    var parts := SplitOnce(line, " ");
    if parts.None? {
      return Err(PANIC);
    }
    var (springs, config) := parts.value;
    var unfoldedSprings := "";
    var unfoldedConfig := "";
    for i := 0 to COPIES
      invariant i == 0 ==> unfoldedSprings == "" && unfoldedConfig == ""
      invariant i > 0 ==> unfoldedSprings == Join(seq(i, _ => springs), "?")
      invariant i > 0 ==> unfoldedConfig == Join(seq(i, _ => config), ",")
    {
      if i != 0 {
        unfoldedSprings := unfoldedSprings + "?";
        unfoldedConfig := unfoldedConfig + ",";
        JoinSnoc(seq(i, _ => springs), "?", springs);
        JoinSnoc(seq(i, _ => config), ",", config);
      }
      unfoldedSprings := unfoldedSprings + springs;
      unfoldedConfig := unfoldedConfig + config;
      assert seq(i, _ => springs) + [springs] == seq(i + 1, _ => springs);
      assert seq(i, _ => config) + [config] == seq(i + 1, _ => config);
    }
    return Ok(unfoldedSprings + " " + unfoldedConfig);
  }

  /** An unfolded line splits back at its space into the five-fold springs
      and the five-fold groups. */
  lemma UnfoldSplits(line: string)
    requires SplitOnce(line, " ").Some?
    ensures var (springs, config) := SplitOnce(line, " ").value;
      SplitOnce(Join(Copies(springs), "?") + " " + Join(Copies(config), ","), " ") ==
        Some((Join(Copies(springs), "?"), Join(Copies(config), ",")))
  {
    var (springs, config) := SplitOnce(line, " ").value;
    SplitOnceFirst(line, " ");
    forall i | 0 <= i < |springs| ensures springs[i] != ' ' {
      assert !OccursAt(line, " ", i) && line[i] == springs[i];
    }
    JoinAvoids(Copies(springs), "?", ' ');
    SplitOnceAtChar(Join(Copies(springs), "?"), " ", Join(Copies(config), ","));
  }

  // -------------------------------------------------------- state machine

  /** The `#` still needed from group `g` on: `groups.iter().skip(g).sum()`. */
  function Needed(groups: seq<nat>, g: nat): nat
    decreases |groups| - g
  {
    if g >= |groups| then 0 else groups[g] + Needed(groups, g + 1)
  }

  /** No more groups are done than exist, and a run in progress belongs to
      a group and fits in it. */
  predicate Safe(groups: seq<nat>, s: State)
  {
    s.0 <= |groups| && (s.1 > 0 ==> s.0 < |groups| && s.1 <= groups[s.0])
  }

  /** Reading `#`: the run grows while a group is open and not yet full. */
  function Damaged(groups: seq<nat>, s: State): Option<State>
  {
    if s.0 < |groups| && s.1 < groups[s.0] then Some((s.0, s.1 + 1)) else None
  }

  /** Reading `.`: outside a run nothing changes, a full run closes its
      group, and a partial run is dropped. The source reads `groups[g]`
      here unchecked; `Safe` is what keeps that read in bounds. */
  function Operational(groups: seq<nat>, s: State): Option<State>
    requires Safe(groups, s)
  {
    if s.1 == 0 then Some(s)
    else if s.1 == groups[s.0] then Some((s.0 + 1, 0))
    else None
  }

  function AsList(o: Option<State>): seq<State>
  {
    if o.Some? then [o.value] else []
  }

  predicate IsSpring(c: char)
  {
    c == '#' || c == '.' || c == '?'
  }

  /** The states one spring leads to: `?` tries `#` then `.`; any other
      character panics in the source and leads nowhere here. */
  function Successors(groups: seq<nat>, c: char, s: State): (r: seq<State>)
    requires Safe(groups, s)
    ensures forall t :: t in r ==> Safe(groups, t)
  {
    var damaged := AsList(Damaged(groups, s));
    var operational := AsList(Operational(groups, s));
    if c == '#' then damaged
    else if c == '.' then operational
    else if c == '?' then damaged + operational
    else []
  }

  /** The `retain` test with `left` springs still to read: past the last
      group only a closed run survives, and otherwise the springs left
      plus the current run must cover every `#` still needed. */
  predicate Keep(groups: seq<nat>, left: nat, s: State)
  {
    if s.0 >= |groups| then s.1 == 0 else left + s.1 >= Needed(groups, s.0)
  }

  /** Pruning only drops states with no future: every successor of a
      dropped state would be dropped one spring later. */
  lemma PrunedStaysPruned(groups: seq<nat>, left: nat, c: char, s: State)
    requires Safe(groups, s) && !Keep(groups, left + 1, s)
    ensures forall t :: t in Successors(groups, c, s) ==> !Keep(groups, left, t)
  {
    if s.1 > 0 && s.1 == groups[s.0] && s.0 + 1 < |groups| {
      assert Needed(groups, s.0) == groups[s.0] + Needed(groups, s.0 + 1);
    }
  }

  // --------------------------------------------------- reference counting

  /** The number of ways to fill in the springs from `i` on, starting in
      state `s`: every `?` is tried as `#` and as `.`, and a way counts when
      the last state passes the final `retain` test. */
  function Ways(groups: seq<nat>, springs: string, i: nat, s: State): nat
    requires i <= |springs| && Safe(groups, s)
    decreases |springs| - i, 0, 0
  {
    if i == |springs| then (if Keep(groups, 0, s) then 1 else 0)
    else SumWays(groups, springs, i + 1, Successors(groups, springs[i], s))
  }

  function SumWays(groups: seq<nat>, springs: string, i: nat, ks: seq<State>): nat
    requires i <= |springs| && forall t :: t in ks ==> Safe(groups, t)
    decreases |springs| - i, 1, |ks|
  {
    if ks == [] then 0 else Ways(groups, springs, i, ks[0]) + SumWays(groups, springs, i, ks[1..])
  }

  lemma {:induction false} SumWaysZero(groups: seq<nat>, springs: string, i: nat, ks: seq<State>)
    requires i <= |springs| && forall t :: t in ks ==> Safe(groups, t)
    requires forall t :: t in ks ==> Ways(groups, springs, i, t) == 0
    ensures SumWays(groups, springs, i, ks) == 0
  {
    if ks != [] {
      assert ks[0] in ks;
      SumWaysZero(groups, springs, i, ks[1..]);
    }
  }

  /** A state the `retain` drops has no way to finish. */
  lemma {:induction false} DroppedHasNoWays(groups: seq<nat>, springs: string, i: nat, s: State)
    requires i <= |springs| && Safe(groups, s) && !Keep(groups, |springs| - i, s)
    ensures Ways(groups, springs, i, s) == 0
    decreases |springs| - i
  {
    if i < |springs| {
      var next := Successors(groups, springs[i], s);
      PrunedStaysPruned(groups, |springs| - i - 1, springs[i], s);
      forall t | t in next ensures Ways(groups, springs, i + 1, t) == 0 {
        DroppedHasNoWays(groups, springs, i + 1, t);
      }
      SumWaysZero(groups, springs, i + 1, next);
    }
  }

  /** The number of arrangements of a whole row of springs. */
  function Arrangements(groups: seq<nat>, springs: string): nat
  {
    Ways(groups, springs, 0, (0, 0))
  }

  /** Without an unknown spring there is one way at most: every known
      spring leads to one state or none. */
  lemma {:induction false} KnownAtMostOne(groups: seq<nat>, springs: string, i: nat, s: State)
    requires i <= |springs| && Safe(groups, s)
    requires forall j :: i <= j < |springs| ==> springs[j] != '?'
    ensures Ways(groups, springs, i, s) <= 1
    decreases |springs| - i
  {
    if i < |springs| {
      var next := Successors(groups, springs[i], s);
      assert |next| <= 1;
      if |next| == 1 {
        assert next[0] in next;
        KnownAtMostOne(groups, springs, i + 1, next[0]);
        assert SumWays(groups, springs, i + 1, next[1..]) == 0;
      }
    }
  }

  // ---------------------------------------------- arrangements by brute force

  /** What a spring may be: `?` is `#` or `.`, a known spring is itself, and
      any other character nothing. */
  function Choices(c: char): seq<char>
  {
    if c == '?' then ['#', '.'] else if c == '#' || c == '.' then [c] else []
  }

  /** Every row obtained by filling in each `?` of `springs` with `#` or `.`. */
  function Completions(springs: string): seq<string>
    decreases |springs|
  {
    if springs == [] then [[]]
    else Prefixed(Choices(springs[0]), Completions(springs[1..]))
  }

  /** `[x] + row` for every choice `x` and every row of `rows`. */
  function Prefixed(xs: seq<char>, rows: seq<string>): seq<string>
  {
    if xs == [] then [] else Prefix(xs[0], rows) + Prefixed(xs[1..], rows)
  }

  function Prefix(x: char, rows: seq<string>): (r: seq<string>)
    ensures |r| == |rows| && forall k :: 0 <= k < |rows| ==> r[k] == [x] + rows[k]
  {
    seq(|rows|, k requires 0 <= k < |rows| => [x] + rows[k])
  }

  /** A finished run of `run` damaged springs, if there is one. */
  function Closed(run: nat): seq<nat>
  {
    if run > 0 then [run] else []
  }

  /** The lengths of the maximal runs of `#` in a row of known springs,
      when `run` damaged springs come just before the row. */
  function RunsFrom(run: nat, row: string): seq<nat>
    decreases |row|
  {
    if row == [] then Closed(run)
    else if row[0] == '#' then RunsFrom(run + 1, row[1..])
    else Closed(run) + RunsFrom(0, row[1..])
  }

  /** The lengths of the maximal runs of `#` in a row, left to right. */
  function Runs(row: string): seq<nat>
  {
    RunsFrom(0, row)
  }

  /** How many rows of `rows` have the runs `groups` after `run` damaged springs. */
  function CountRuns(rows: seq<string>, run: nat, groups: seq<nat>): nat
  {
    if rows == [] then 0
    else (if RunsFrom(run, rows[0]) == groups then 1 else 0) + CountRuns(rows[1..], run, groups)
  }

  /** The number of ways to fill in the `?` of a row so that its runs of
      damaged springs are exactly `groups`: what the puzzle asks for. */
  function Matches(springs: string, groups: seq<nat>): nat
  {
    CountRuns(Completions(springs), 0, groups)
  }

  /** Every group is positive, as in every puzzle line. */
  predicate Positive(groups: seq<nat>)
  {
    forall k :: 0 <= k < |groups| ==> groups[k] > 0
  }

  /** The completions are exactly the rows of the same length that keep
      every known spring and put `#` or `.` at every `?`. */
  lemma {:induction false} CompletionsSpec(springs: string, row: string)
    ensures row in Completions(springs) <==>
      |row| == |springs| && forall k :: 0 <= k < |row| ==> row[k] in Choices(springs[k])
    decreases |springs|
  {
    if springs != [] {
      var rest := Completions(springs[1..]);
      PrefixedSpec(Choices(springs[0]), rest, row);
      if row != [] {
        CompletionsSpec(springs[1..], row[1..]);
        assert row == [row[0]] + row[1..];
        if |row| == |springs| && forall k :: 0 <= k < |row| ==> row[k] in Choices(springs[k]) {
          assert row[0] in Choices(springs[0]);
          forall k | 0 <= k < |row| - 1 ensures row[1..][k] in Choices(springs[1..][k]) {
            assert row[k + 1] in Choices(springs[k + 1]);
          }
        }
      }
    }
  }

  lemma {:induction false} PrefixedSpec(xs: seq<char>, rows: seq<string>, row: string)
    ensures row in Prefixed(xs, rows) <==> row != [] && row[0] in xs && row[1..] in rows
  {
    if xs != [] {
      PrefixedSpec(xs[1..], rows, row);
      if row in Prefix(xs[0], rows) {
        var k :| 0 <= k < |rows| && Prefix(xs[0], rows)[k] == row;
        assert row[1..] == rows[k];
      }
      if row != [] && row[0] == xs[0] && row[1..] in rows {
        var k :| 0 <= k < |rows| && rows[k] == row[1..];
        assert Prefix(xs[0], rows)[k] == row;
      }
    }
  }

  lemma {:induction false} CountRunsAppend(a: seq<string>, b: seq<string>, run: nat, groups: seq<nat>)
    ensures CountRuns(a + b, run, groups) == CountRuns(a, run, groups) + CountRuns(b, run, groups)
  {
    if a != [] {
      assert (a + b)[1..] == a[1..] + b;
      CountRunsAppend(a[1..], b, run, groups);
    } else {
      assert a + b == b;
    }
  }

  /** A damaged spring in front extends the run. */
  lemma {:induction false} CountDamaged(rows: seq<string>, run: nat, groups: seq<nat>)
    ensures CountRuns(Prefix('#', rows), run, groups) == CountRuns(rows, run + 1, groups)
  {
    if rows != [] {
      assert Prefix('#', rows)[1..] == Prefix('#', rows[1..]);
      assert ([ '#' ] + rows[0])[1..] == rows[0];
      CountDamaged(rows[1..], run, groups);
    }
  }

  /** An operational spring in front closes the run. */
  lemma {:induction false} CountOperational(rows: seq<string>, run: nat, groups: seq<nat>)
    ensures CountRuns(Prefix('.', rows), run, groups) ==
      if run == 0 then CountRuns(rows, 0, groups)
      else if groups != [] && groups[0] == run then CountRuns(rows, 0, groups[1..])
      else 0
  {
    if rows != [] {
      assert Prefix('.', rows)[1..] == Prefix('.', rows[1..]);
      assert (['.'] + rows[0])[1..] == rows[0];
      CountOperational(rows[1..], run, groups);
      if run > 0 && groups != [] {
        assert groups == [groups[0]] + groups[1..];
      }
    }
  }

  /** A run in progress is the first run, at least as long as it is already. */
  lemma {:induction false} RunsFromHead(run: nat, row: string)
    requires run > 0
    ensures RunsFrom(run, row) != [] && RunsFrom(run, row)[0] >= run
    decreases |row|
  {
    if row != [] && row[0] == '#' {
      RunsFromHead(run + 1, row[1..]);
    }
  }

  /** No row fits when the run in progress is longer than the group, or
      when no group is left for it. */
  lemma {:induction false} CountOverlong(rows: seq<string>, run: nat, groups: seq<nat>)
    requires run > 0 && (groups == [] || groups[0] < run)
    ensures CountRuns(rows, run, groups) == 0
  {
    if rows != [] {
      RunsFromHead(run, rows[0]);
      CountOverlong(rows[1..], run, groups);
    }
  }

  lemma {:induction false} SumWaysAppend(groups: seq<nat>, springs: string, i: nat, a: seq<State>, b: seq<State>)
    requires i <= |springs| && forall t :: t in a + b ==> Safe(groups, t)
    ensures SumWays(groups, springs, i, a + b) == SumWays(groups, springs, i, a) + SumWays(groups, springs, i, b)
  {
    if a != [] {
      assert (a + b)[1..] == a[1..] + b;
      SumWaysAppend(groups, springs, i, a[1..], b);
    } else {
      assert a + b == b;
    }
  }

  /** With positive groups, what is still needed exceeds the group in
      progress exactly when a later group is left. */
  lemma {:induction false} NeededBeyond(groups: seq<nat>, g: nat)
    requires Positive(groups) && g < |groups|
    ensures Needed(groups, g) >= groups[g]
    ensures Needed(groups, g) == groups[g] <==> g + 1 == |groups|
    decreases |groups| - g
  {
    if g + 1 < |groups| {
      NeededBeyond(groups, g + 1);
    }
  }

  /** At the end of the row, the final `retain` test accepts a state exactly
      when the empty rest completes the groups. */
  lemma KeepAtEnd(groups: seq<nat>, g: nat, run: nat)
    requires Positive(groups) && Safe(groups, (g, run))
    ensures (if Keep(groups, 0, (g, run)) then 1 else 0) == CountRuns([[]], run, groups[g..])
  {
    if g < |groups| {
      NeededBeyond(groups, g);
      assert groups[g..] == [groups[g]] + groups[g + 1..];
    }
  }

  /** The reference count of the dynamic programme is the puzzle's count:
      from state (g, run) the ways to finish the row from spring `i` are the
      completions of the rest whose runs, after the `run` damaged springs
      already read, are the groups from `g` on. */
  lemma {:induction false} WaysCountMatches(groups: seq<nat>, springs: string, i: nat, g: nat, run: nat)
    requires i <= |springs| && Positive(groups) && Safe(groups, (g, run))
    ensures Ways(groups, springs, i, (g, run)) == CountRuns(Completions(springs[i..]), run, groups[g..])
    decreases |springs| - i, 0
  {
    if i == |springs| {
      KeepAtEnd(groups, g, run);
    } else {
      var c := springs[i];
      var rest := Completions(springs[i + 1..]);
      assert springs[i..][1..] == springs[i + 1..];
      var damaged := AsList(Damaged(groups, (g, run)));
      var operational := AsList(Operational(groups, (g, run)));
      DamagedWays(groups, springs, i, g, run);
      OperationalWays(groups, springs, i, g, run);
      if c == '?' {
        SumWaysAppend(groups, springs, i + 1, damaged, operational);
        assert ['#', '.'][1..] == ['.'] && ['.'][1..] == [];
        assert Prefixed(['.'], rest) == Prefix('.', rest) + [] == Prefix('.', rest);
        CountRunsAppend(Prefix('#', rest), Prefix('.', rest), run, groups[g..]);
      } else if c == '#' || c == '.' {
        assert [c][1..] == [];
        assert Prefixed([c], rest) == Prefix(c, rest) + [] == Prefix(c, rest);
      }
    }
  }

  lemma {:induction false} DamagedWays(groups: seq<nat>, springs: string, i: nat, g: nat, run: nat)
    requires i < |springs| && Positive(groups) && Safe(groups, (g, run))
    ensures SumWays(groups, springs, i + 1, AsList(Damaged(groups, (g, run)))) ==
      CountRuns(Prefix('#', Completions(springs[i + 1..])), run, groups[g..])
    decreases |springs| - i - 1, 1
  {
    var rest := Completions(springs[i + 1..]);
    CountDamaged(rest, run, groups[g..]);
    if g < |groups| && run < groups[g] {
      WaysCountMatches(groups, springs, i + 1, g, run + 1);
      assert AsList(Damaged(groups, (g, run)))[1..] == [];
    } else {
      CountOverlong(rest, run + 1, groups[g..]);
    }
  }

  lemma {:induction false} OperationalWays(groups: seq<nat>, springs: string, i: nat, g: nat, run: nat)
    requires i < |springs| && Positive(groups) && Safe(groups, (g, run))
    ensures SumWays(groups, springs, i + 1, AsList(Operational(groups, (g, run)))) ==
      CountRuns(Prefix('.', Completions(springs[i + 1..])), run, groups[g..])
    decreases |springs| - i - 1, 1
  {
    var rest := Completions(springs[i + 1..]);
    CountOperational(rest, run, groups[g..]);
    if run == 0 {
      WaysCountMatches(groups, springs, i + 1, g, 0);
    } else if run == groups[g] {
      WaysCountMatches(groups, springs, i + 1, g + 1, 0);
      assert groups[g..][1..] == groups[g + 1..];
    }
  }

  /** The dynamic programme's reference count is the number of ways to fill
      in the `?` so that the runs of `#` are exactly the groups. */
  lemma ArrangementsAreMatches(groups: seq<nat>, springs: string)
    requires Positive(groups)
    ensures Arrangements(groups, springs) == Matches(springs, groups)
  {
    WaysCountMatches(groups, springs, 0, 0, 0);
    assert springs[0..] == springs;
  }

  // ------------------------------------------------------------- map sums

  function Get(m: States, k: State): nat
  {
    if k in m then m[k] else 0
  }

  /** `*new_states.entry(k).or_default() += v` for every `k` of `ks`. */
  function AddAll(m: States, ks: seq<State>, v: nat): States
    decreases |ks|
  {
    if ks == [] then m else AddAll(m[ks[0] := Get(m, ks[0]) + v], ks[1..], v)
  }

  /** What `AddAll` adds at `k`. */
  function Added(ks: seq<State>, k: State, v: nat): nat
  {
    if ks == [] then 0 else (if ks[0] == k then v else 0) + Added(ks[1..], k, v)
  }

  lemma {:induction false} AddAllSpec(m: States, ks: seq<State>, v: nat)
    ensures AddAll(m, ks, v).Keys == m.Keys + set k | k in ks
    ensures forall k :: Get(AddAll(m, ks, v), k) == Get(m, k) + Added(ks, k, v)
    decreases |ks|
  {
    if ks != [] {
      AddAllSpec(m[ks[0] := Get(m, ks[0]) + v], ks[1..], v);
      assert (set k | k in ks) == {ks[0]} + set k | k in ks[1..];
    }
  }

  lemma MapsEqual(a: States, b: States)
    requires a.Keys == b.Keys && forall k :: Get(a, k) == Get(b, k)
    ensures a == b
  {
    forall k | k in a ensures a[k] == b[k] {
      assert Get(a, k) == Get(b, k);
    }
  }

  lemma AddAllCommute(m: States, a: seq<State>, v: nat, b: seq<State>, w: nat)
    ensures AddAll(AddAll(m, a, v), b, w) == AddAll(AddAll(m, b, w), a, v)
  {
    AddAllSpec(m, a, v);
    AddAllSpec(AddAll(m, a, v), b, w);
    AddAllSpec(m, b, w);
    AddAllSpec(AddAll(m, b, w), a, v);
    MapsEqual(AddAll(AddAll(m, a, v), b, w), AddAll(AddAll(m, b, w), a, v));
  }

  predicate AllSafe(groups: seq<nat>, m: States)
  {
    forall k :: k in m ==> Safe(groups, k)
  }

  /** The drain of `states` into `new_states`, over the entries in `keys`
      taken in any order. */
  ghost function Spread(groups: seq<nat>, c: char, m: States, keys: set<State>): States
    requires keys <= m.Keys && AllSafe(groups, m)
    decreases keys
  {
    if keys == {} then map[]
    else
      var s :| s in keys;
      AddAll(Spread(groups, c, m, keys - {s}), Successors(groups, c, s), m[s])
  }

  /** The order of the drain does not matter: any entry may come last. */
  lemma {:induction false} SpreadAny(groups: seq<nat>, c: char, m: States, keys: set<State>, x: State)
    requires keys <= m.Keys && AllSafe(groups, m) && x in keys
    ensures Spread(groups, c, m, keys) == AddAll(Spread(groups, c, m, keys - {x}), Successors(groups, c, x), m[x])
    decreases keys
  {
    var s :| s in keys && Spread(groups, c, m, keys) ==
      AddAll(Spread(groups, c, m, keys - {s}), Successors(groups, c, s), m[s]);
    if s != x {
      SpreadAny(groups, c, m, keys - {s}, x);
      SpreadAny(groups, c, m, keys - {x}, s);
      assert keys - {s} - {x} == keys - {x} - {s};
      AddAllCommute(Spread(groups, c, m, keys - {s} - {x}), Successors(groups, c, x), m[x], Successors(groups, c, s), m[s]);
    }
  }

  /** Σ m[k] * w(k) over the keys in `keys`, in any order. */
  ghost function Weighted(m: States, keys: set<State>, w: State -> nat): nat
    requires keys <= m.Keys
    decreases keys
  {
    if keys == {} then 0
    else
      var s :| s in keys;
      Weighted(m, keys - {s}, w) + m[s] * w(s)
  }

  lemma {:induction false} WeightedAny(m: States, keys: set<State>, w: State -> nat, x: State)
    requires keys <= m.Keys && x in keys
    ensures Weighted(m, keys, w) == Weighted(m, keys - {x}, w) + m[x] * w(x)
    decreases keys
  {
    var s :| s in keys && Weighted(m, keys, w) == Weighted(m, keys - {s}, w) + m[s] * w(s);
    if s != x {
      WeightedAny(m, keys - {s}, w, x);
      WeightedAny(m, keys - {x}, w, s);
      assert keys - {s} - {x} == keys - {x} - {s};
    }
  }

  lemma {:induction false} WeightedAgree(a: States, b: States, keys: set<State>, w: State -> nat)
    requires keys <= a.Keys && keys <= b.Keys && forall k :: k in keys ==> a[k] == b[k]
    ensures Weighted(a, keys, w) == Weighted(b, keys, w)
    decreases keys
  {
    if keys != {} {
      var s :| s in keys;
      WeightedAny(a, keys, w, s);
      WeightedAny(b, keys, w, s);
      WeightedAgree(a, b, keys - {s}, w);
    }
  }

  /** Keys of weight zero add nothing. */
  lemma {:induction false} WeightedDrop(m: States, keys: set<State>, kept: set<State>, w: State -> nat)
    requires kept <= keys <= m.Keys && forall k :: k in keys - kept ==> w(k) == 0
    ensures Weighted(m, keys, w) == Weighted(m, kept, w)
    decreases keys
  {
    if exists s :: s in keys && s !in kept {
      var s :| s in keys && s !in kept;
      WeightedAny(m, keys, w, s);
      WeightedDrop(m, keys - {s}, kept, w);
    } else {
      assert keys == kept;
    }
  }

  lemma Distribute(a: nat, b: nat, c: nat)
    ensures (a + b) * c == a * c + b * c
  {
  }

  lemma Scale(c: nat, a: nat, b: nat)
    ensures c * (a + b) == c * a + c * b
  {
  }

  /** The ways to finish from each state, as a total weight. */
  function WaysFrom(groups: seq<nat>, springs: string, i: nat): State -> nat
  {
    s => if i <= |springs| && Safe(groups, s) then Ways(groups, springs, i, s) else 0
  }

  /** Σ over the states of the ways to reach them times the ways to
      finish from them: the number of complete arrangements they carry. */
  ghost function Potential(groups: seq<nat>, springs: string, i: nat, m: States): nat
  {
    Weighted(m, m.Keys, WaysFrom(groups, springs, i))
  }

  /** Adding `v` at `k` adds `v` times the weight of `k`. */
  lemma WeightedAdd(m: States, k: State, v: nat, w: State -> nat)
    ensures Weighted(m[k := Get(m, k) + v], m.Keys + {k}, w) == Weighted(m, m.Keys, w) + v * w(k)
  {
    WeightedUpdated(m, k, v, w);
    WeightedBefore(m, k, w);
    Distribute(Get(m, k), v, w(k));
  }

  lemma WeightedUpdated(m: States, k: State, v: nat, w: State -> nat)
    ensures Weighted(m[k := Get(m, k) + v], m.Keys + {k}, w) == Weighted(m, m.Keys - {k}, w) + (Get(m, k) + v) * w(k)
  {
    var m2 := m[k := Get(m, k) + v];
    var rest := m.Keys - {k};
    assert m2.Keys == m.Keys + {k};
    assert (m.Keys + {k}) - {k} == rest;
    WeightedAny(m2, m.Keys + {k}, w, k);
    WeightedAgree(m, m2, rest, w);
  }

  lemma WeightedBefore(m: States, k: State, w: State -> nat)
    ensures Weighted(m, m.Keys, w) == Weighted(m, m.Keys - {k}, w) + Get(m, k) * w(k)
  {
    if k in m {
      WeightedAny(m, m.Keys, w, k);
    } else {
      assert m.Keys - {k} == m.Keys;
    }
  }

  lemma AddOnePotential(groups: seq<nat>, springs: string, i: nat, m: States, k: State, v: nat)
    ensures Potential(groups, springs, i, m[k := Get(m, k) + v]) ==
      Potential(groups, springs, i, m) + v * WaysFrom(groups, springs, i)(k)
  {
    WeightedAdd(m, k, v, WaysFrom(groups, springs, i));
    assert m[k := Get(m, k) + v].Keys == m.Keys + {k};
  }

  lemma {:induction false} AddAllPotential(groups: seq<nat>, springs: string, i: nat, m: States, ks: seq<State>, v: nat)
    requires i <= |springs| && forall t :: t in ks ==> Safe(groups, t)
    ensures Potential(groups, springs, i, AddAll(m, ks, v)) ==
      Potential(groups, springs, i, m) + v * SumWays(groups, springs, i, ks)
    decreases |ks|
  {
    if ks != [] {
      var m2 := m[ks[0] := Get(m, ks[0]) + v];
      AddOnePotential(groups, springs, i, m, ks[0], v);
      AddAllPotential(groups, springs, i, m2, ks[1..], v);
      var first := Ways(groups, springs, i, ks[0]);
      var rest := SumWays(groups, springs, i, ks[1..]);
      assert SumWays(groups, springs, i, ks) == first + rest;
      assert WaysFrom(groups, springs, i)(ks[0]) == first;
      Scale(v, first, rest);
    }
  }

  /** Reading spring `i` keeps the number of complete arrangements: each
      entry's ways to finish are the ways of its successors one spring on. */
  lemma {:induction false} SpreadPotential(groups: seq<nat>, springs: string, i: nat, m: States, keys: set<State>)
    requires i < |springs| && keys <= m.Keys && AllSafe(groups, m)
    ensures Potential(groups, springs, i + 1, Spread(groups, springs[i], m, keys)) ==
      Weighted(m, keys, WaysFrom(groups, springs, i))
    decreases keys
  {
    if keys != {} {
      var s :| s in keys && Spread(groups, springs[i], m, keys) ==
        AddAll(Spread(groups, springs[i], m, keys - {s}), Successors(groups, springs[i], s), m[s]);
      var before := Spread(groups, springs[i], m, keys - {s});
      var next := Successors(groups, springs[i], s);
      SpreadPotential(groups, springs, i, m, keys - {s});
      AddAllPotential(groups, springs, i + 1, before, next, m[s]);
      WeightedAny(m, keys, WaysFrom(groups, springs, i), s);
      WaysStep(groups, springs, i, s);
    }
  }

  lemma WaysStep(groups: seq<nat>, springs: string, i: nat, s: State)
    requires i < |springs| && Safe(groups, s)
    ensures WaysFrom(groups, springs, i)(s) == SumWays(groups, springs, i + 1, Successors(groups, springs[i], s))
  {
  }

  /** The `retain` after spring `i`: the states that can still finish. */
  function Retain(groups: seq<nat>, left: nat, m: States): (r: States)
    ensures forall k :: k in r <==> k in m && Keep(groups, left, k)
  {
    map k | k in m && Keep(groups, left, k) :: m[k]
  }

  lemma RetainPotential(groups: seq<nat>, springs: string, i: nat, left: nat, m: States)
    requires i + left == |springs| && AllSafe(groups, m)
    ensures Potential(groups, springs, i, Retain(groups, left, m)) == Potential(groups, springs, i, m)
  {
    var r := Retain(groups, left, m);
    var w := WaysFrom(groups, springs, i);
    forall k | k in m.Keys - r.Keys ensures w(k) == 0 {
      DroppedHasNoWays(groups, springs, i, k);
    }
    WeightedDrop(m, m.Keys, r.Keys, w);
    WeightedAgree(m, r, r.Keys, w);
  }

  // -------------------------------------------------------------- counting

  /** One drain of `states` into `new_states` for the spring `c`, in
      whatever order the map yields its entries. */
  method Step(groups: seq<nat>, c: char, states: States) returns (next: States)
    requires AllSafe(groups, states)
    ensures next == Spread(groups, c, states, states.Keys)
  {
    next := map[];
    var remaining := states.Keys;
    while remaining != {}
      invariant remaining <= states.Keys
      invariant next == Spread(groups, c, states, states.Keys - remaining)
      decreases remaining
    {
      var s :| s in remaining;
      next := AddAll(next, Successors(groups, c, s), states[s]);
      assert states.Keys - (remaining - {s}) - {s} == states.Keys - remaining;
      SpreadAny(groups, c, states, states.Keys - (remaining - {s}), s);
      remaining := remaining - {s};
    }
    assert states.Keys - remaining == states.Keys;
  }

  function One(): State -> nat
  {
    _ => 1
  }

  /** `states.values().sum()`. */
  method SumValues(states: States) returns (total: nat)
    ensures total == Weighted(states, states.Keys, One())
  {
    total := 0;
    var remaining := states.Keys;
    while remaining != {}
      invariant remaining <= states.Keys
      invariant total + Weighted(states, remaining, One()) == Weighted(states, states.Keys, One())
      decreases remaining
    {
      var s :| s in remaining;
      WeightedAny(states, remaining, One(), s);
      total := total + states[s];
      remaining := remaining - {s};
    }
  }

  /** The counting loop of `create_permutations`: start from state (0, 0)
      once, then for every spring drain the map into a fresh one and keep
      the states that can still finish. The answer is the number of ways
      to fill in the `?`; with no springs at all the single start state is
      counted whatever the groups. A character other than `#`, `.` and `?`
      panics when some state is still alive. */
  method CountArrangements(springs: string, groups: seq<nat>) returns (r: Result<nat>)
    ensures r.Ok? && |springs| > 0 ==> r.value == Arrangements(groups, springs)
    ensures r.Ok? && |springs| == 0 ==> r.value == 1
    ensures r.Ok? && |springs| > 0 && Positive(groups) ==> r.value == Matches(springs, groups)
    ensures r.Err? ==> exists i :: 0 <= i < |springs| && !IsSpring(springs[i])
    ensures r == if Panics(groups, springs) then Err(PANIC) else Ok(Expected(springs, groups))
  {
    var states: States := map[(0, 0) := 1];
    ghost var arrangements := Arrangements(groups, springs);
    CountStarts(groups, springs, arrangements);
    var read := ReadSprings(springs, groups, states, arrangements);
    if read.Err? {
      return Err(read.reason);
    }
    var total := SumValues(read.value);
    CountEnds(groups, springs, read.value, arrangements);
    if Positive(groups) {
      ArrangementsAreMatches(groups, springs);
    }
    return Ok(total);
  }

  /** The loop over the springs, each paired with the number of springs
      after it: drain the states through the spring, then prune. */
  method ReadSprings(springs: string, groups: seq<nat>, start: States, ghost total: nat) returns (r: Result<States>)
    requires start == map[(0, 0) := 1]
    requires Counting(groups, springs, 0, start, total)
    ensures r.Ok? ==> Counting(groups, springs, |springs|, r.value, total)
    ensures r.Ok? ==> r.value == StatesAfter(groups, springs, |springs|)
    ensures r.Err? ==> exists i :: 0 <= i < |springs| && !IsSpring(springs[i])
    ensures r.Err? <==> Panics(groups, springs)
    ensures r.Err? ==> r.reason == PANIC
  {
    var states := start;
    for i := 0 to |springs|
      invariant Counting(groups, springs, i, states, total)
      invariant states == StatesAfter(groups, springs, i)
      invariant CalmBefore(groups, springs, i)
    {
      var read := ReadSpring(springs, groups, i, states, total);
      if read.Err? {
        return read;
      }
      states := read.value;
    }
    return Ok(states);
  }

  /** One round of the loop: the spring `springs[i]`, with `|springs| - 1 - i`
      springs after it. */
  method ReadSpring(springs: string, groups: seq<nat>, i: nat, states: States, ghost total: nat) returns (r: Result<States>)
    requires i < |springs| && Counting(groups, springs, i, states, total)
    requires states == StatesAfter(groups, springs, i) && CalmBefore(groups, springs, i)
    ensures r.Ok? ==> Counting(groups, springs, i + 1, r.value, total)
    ensures r.Ok? ==> r.value == StatesAfter(groups, springs, i + 1) && CalmBefore(groups, springs, i + 1)
    ensures r.Err? ==> r == Err(PANIC) && !IsSpring(springs[i]) && Panics(groups, springs)
  {
    var springsLeft := |springs| - 1 - i;
    if !IsSpring(springs[i]) && states != map[] {
      return Err(PANIC);
    }
    var next := Step(groups, springs[i], states);
    CountSteps(groups, springs, i, springsLeft, states, next, total);
    AfterStep(groups, springs, i, states, next);
    return Ok(Retain(groups, springsLeft, next));
  }

  /** The states alive after the first `i` springs: each spring drains the
      states through it, then the ones that cannot finish are pruned. */
  ghost function StatesAfter(groups: seq<nat>, springs: string, i: nat): (r: States)
    requires i <= |springs|
    ensures AllSafe(groups, r)
  {
    if i == 0 then map[(0, 0) := 1]
    else
      var prev := StatesAfter(groups, springs, i - 1);
      NextSafe(groups, springs[i - 1], prev, prev.Keys);
      Retain(groups, |springs| - i, Spread(groups, springs[i - 1], prev, prev.Keys))
  }

  /** `unreachable!()` is reached: a character other than `#`, `.` and `?`
      meets a state that is still alive. */
  ghost predicate Panics(groups: seq<nat>, springs: string)
  {
    PanicsFrom(groups, springs, 0)
  }

  /** Some spring from `i` on panics. */
  ghost predicate PanicsFrom(groups: seq<nat>, springs: string, i: nat)
    requires i <= |springs|
    decreases |springs| - i
  {
    i < |springs| &&
    ((!IsSpring(springs[i]) && StatesAfter(groups, springs, i) != map[]) || PanicsFrom(groups, springs, i + 1))
  }

  /** A panic is reached exactly when some spring panics, at the first such
      spring the loop stops. */
  lemma {:induction false} PanicsIff(groups: seq<nat>, springs: string, i: nat)
    requires i <= |springs|
    ensures PanicsFrom(groups, springs, i) <==>
      exists j :: i <= j < |springs| && !IsSpring(springs[j]) && StatesAfter(groups, springs, j) != map[]
    decreases |springs| - i
  {
    if i < |springs| {
      PanicsIff(groups, springs, i + 1);
    }
  }

  /** No spring before `i` panics, so the panic, if any, is still ahead. */
  ghost predicate CalmBefore(groups: seq<nat>, springs: string, i: nat)
    requires i <= |springs|
  {
    Panics(groups, springs) == PanicsFrom(groups, springs, i)
  }

  /** One spring drained and pruned gives the states after it. */
  lemma AfterStep(groups: seq<nat>, springs: string, i: nat, states: States, next: States)
    requires i < |springs| && states == StatesAfter(groups, springs, i)
    requires next == Spread(groups, springs[i], states, states.Keys)
    ensures Retain(groups, |springs| - 1 - i, next) == StatesAfter(groups, springs, i + 1)
  {
  }

  /** The loop invariant of the counting: every state is safe, the states
      carry every arrangement, and after the first spring every state can
      still finish. */
  ghost predicate Counting(groups: seq<nat>, springs: string, i: nat, states: States, total: nat)
  {
    i <= |springs| &&
    AllSafe(groups, states) &&
    Potential(groups, springs, i, states) == total &&
    (i > 0 ==> forall k :: k in states ==> Keep(groups, |springs| - i, k)) &&
    (i == 0 ==> Weighted(states, states.Keys, One()) == 1)
  }

  lemma CountStarts(groups: seq<nat>, springs: string, total: nat)
    requires total == Arrangements(groups, springs)
    ensures Counting(groups, springs, 0, map[(0, 0) := 1], total)
  {
    var states: States := map[(0, 0) := 1];
    WeightedAny(states, states.Keys, WaysFrom(groups, springs, 0), (0, 0));
    WeightedAny(states, states.Keys, One(), (0, 0));
    assert states.Keys - {(0, 0)} == {};
  }

  /** One spring read and pruned keeps the loop invariant. */
  lemma CountSteps(groups: seq<nat>, springs: string, i: nat, left: nat, states: States, next: States, total: nat)
    requires i + 1 + left == |springs| && AllSafe(groups, states)
    requires Potential(groups, springs, i, states) == total
    requires next == Spread(groups, springs[i], states, states.Keys)
    ensures Counting(groups, springs, i + 1, Retain(groups, left, next), total)
  {
    SpreadPotential(groups, springs, i, states, states.Keys);
    NextSafe(groups, springs[i], states, states.Keys);
    CountPrunes(groups, springs, i + 1, left, next, total);
  }

  lemma CountPrunes(groups: seq<nat>, springs: string, i: nat, left: nat, next: States, total: nat)
    requires 0 < i && i + left == |springs| && AllSafe(groups, next)
    requires Potential(groups, springs, i, next) == total
    ensures Counting(groups, springs, i, Retain(groups, left, next), total)
  {
    RetainPotential(groups, springs, i, left, next);
  }

  lemma CountEnds(groups: seq<nat>, springs: string, states: States, total: nat)
    requires Counting(groups, springs, |springs|, states, total)
    ensures |springs| > 0 ==> Weighted(states, states.Keys, One()) == total
    ensures |springs| == 0 ==> Weighted(states, states.Keys, One()) == 1
  {
    if |springs| > 0 {
      forall k | k in states ensures WaysFrom(groups, springs, |springs|)(k) == One()(k) {
      }
      WeightsEqual(states, states.Keys, WaysFrom(groups, springs, |springs|), One());
    }
  }

  lemma {:induction false} NextSafe(groups: seq<nat>, c: char, m: States, keys: set<State>)
    requires keys <= m.Keys && AllSafe(groups, m)
    ensures AllSafe(groups, Spread(groups, c, m, keys))
    decreases keys
  {
    if keys != {} {
      var s :| s in keys && Spread(groups, c, m, keys) ==
        AddAll(Spread(groups, c, m, keys - {s}), Successors(groups, c, s), m[s]);
      NextSafe(groups, c, m, keys - {s});
      AddAllSpec(Spread(groups, c, m, keys - {s}), Successors(groups, c, s), m[s]);
    }
  }

  lemma {:induction false} WeightsEqual(m: States, keys: set<State>, v: State -> nat, w: State -> nat)
    requires keys <= m.Keys && forall k :: k in keys ==> v(k) == w(k)
    ensures Weighted(m, keys, v) == Weighted(m, keys, w)
    decreases keys
  {
    if keys != {} {
      var s :| s in keys;
      WeightedAny(m, keys, v, s);
      WeightedAny(m, keys, w, s);
      WeightsEqual(m, keys - {s}, v, w);
    }
  }

  // ---------------------------------------------------------------- lines

  function ParseGroup(s: string): Result<nat>
  {
    match ParseUnsigned(s, USIZE_BOUND)
    case Some(n) => Ok(n)
    case None => Err(PANIC)
  }

  /** The springs and the groups of a line; a missing space or a group that
      is not a `usize` panics. */
  function ParseLine(line: string): Result<(string, seq<nat>)>
  {
    match SplitOnce(line, " ")
    case None => Err(PANIC)
    case Some((springs, config)) =>
      match MapResults(Split(config, ","), ParseGroup)
      case Err(e) => Err(e)
      case Ok(groups) => Ok((springs, groups))
  }

  /** The count a line yields when nothing panics. */
  function Expected(springs: string, groups: seq<nat>): nat
  {
    if |springs| == 0 then 1 else Arrangements(groups, springs)
  }

  /** A line with springs and positive groups yields the number of ways to
      fill in its `?` so that its runs of `#` are its groups. */
  lemma ExpectedMatches(springs: string, groups: seq<nat>)
    requires |springs| > 0 && Positive(groups)
    ensures Expected(springs, groups) == Matches(springs, groups)
  {
    ArrangementsAreMatches(groups, springs);
  }

  /** `create_permutations` for one line. */
  method CreatePermutations(line: string) returns (r: Result<nat>)
    ensures ParseLine(line).Err? ==> r.Err?
    ensures r.Ok? ==> ParseLine(line).Ok? && r.value == Expected(ParseLine(line).value.0, ParseLine(line).value.1)
    ensures r.Err? && ParseLine(line).Ok? ==> exists i :: 0 <= i < |ParseLine(line).value.0| && !IsSpring(ParseLine(line).value.0[i])
    ensures r == LineOutcome(line)
  {
    var parsed := ParseLine(line);
    if parsed.Err? {
      return Err(parsed.reason);
    }
    var (springs, groups) := parsed.value;
    r := CountArrangements(springs, groups);
  }

  /** What `create_permutations` gives for one line: a panic when the line
      does not parse or an unknown character meets a live state, and
      otherwise the line's expected count. */
  ghost function LineOutcome(line: string): Result<nat>
  {
    match ParseLine(line)
    case Err(e) => Err(e)
    case Ok((springs, groups)) => if Panics(groups, springs) then Err(PANIC) else Ok(Expected(springs, groups))
  }

  /** The outcome of one line in part 1 (as given) or part 2 (unfolded; a
      line without a space panics in `unfold`). */
  ghost function Outcome(line: string, unfold: bool): Result<nat>
  {
    if !unfold then LineOutcome(line)
    else match SplitOnce(line, " ")
      case None => Err(PANIC)
      case Some((springs, config)) => LineOutcome(Join(Copies(springs), "?") + " " + Join(Copies(config), ","))
  }

  /** The outcomes of all lines, in order. */
  ghost function Outcomes(lines: seq<string>, unfold: bool): (r: seq<Result<nat>>)
    ensures |r| == |lines|
  {
    seq(|lines|, k requires 0 <= k < |lines| => Outcome(lines[k], unfold))
  }

  lemma OutcomeAt(lines: seq<string>, unfold: bool, k: nat, c: Result<nat>)
    requires k < |lines| && c == Outcome(lines[k], unfold)
    ensures Outcomes(lines, unfold)[k] == c
  {
  }

  /** A part: the sum of the outcomes of the input's lines, or the first panic. */
  ghost function PartSpec(input: string, unfold: bool): Result<nat>
  {
    SumResults(Outcomes(Lines(input), unfold))
  }

  method CountLine(line: string, unfold: bool) returns (r: Result<nat>)
    ensures r == Outcome(line, unfold)
  {
    if !unfold {
      r := CreatePermutations(line);
      return;
    }
    var unfolded := Unfold(line);
    if unfolded.Err? {
      return Err(unfolded.reason);
    }
    r := CreatePermutations(unfolded.value);
  }

  /** Part 1 (`unfold` false) and part 2 (`unfold` true): the counts of all
      lines added up; a panic in any line is the answer's panic. */
  method Part(input: string, unfold: bool) returns (r: Result<nat>)
    ensures r == PartSpec(input, unfold)
  {
    var lines := Lines(input);
    ghost var outcomes := Outcomes(lines, unfold);
    var total: nat := 0;
    for k := 0 to |lines|
      invariant SumResults(outcomes[..k]) == Ok(total)
    {
      var sum := AddLine(lines, unfold, k, total, outcomes);
      if sum.Err? {
        return sum;
      }
      total := sum.value;
    }
    PrefixOkIsWhole(outcomes, total);
    return Ok(total);
  }

  /** One round of the sum: line `k` is counted and added to `total`. */
  method AddLine(lines: seq<string>, unfold: bool, k: nat, total: nat, ghost outcomes: seq<Result<nat>>) returns (r: Result<nat>)
    requires k < |lines| && outcomes == Outcomes(lines, unfold) && SumResults(outcomes[..k]) == Ok(total)
    ensures r.Ok? ==> SumResults(outcomes[..k + 1]) == r
    ensures r.Err? ==> SumResults(outcomes) == r
  {
    var c := CountLine(lines[k], unfold);
    OutcomeAt(lines, unfold, k, c);
    SumResultsNext(outcomes, k, total, c);
    if c.Err? {
      return c;
    }
    return Ok(total + c.value);
  }

  /** `solve`: both parts over the same input. */
  method Solve(input: string) returns (r: Result<(nat, nat)>)
    ensures r.Ok? <==> PartSpec(input, false).Ok? && PartSpec(input, true).Ok?
    ensures r.Ok? ==> r.value == (PartSpec(input, false).value, PartSpec(input, true).value)
  {
    var part1 := Part(input, false);
    if part1.Err? {
      return Err(part1.reason);
    }
    var part2 := Part(input, true);
    if part2.Err? {
      return Err(part2.reason);
    }
    return Ok((part1.value, part2.value));
  }
}
