/** Day 23: A Long Walk, the Python solver. The longest path is found by a
    dynamic programme over a frontier of vertices: a state is a set of
    pairs, each pair the two ends of a path piece through the vertices
    seen so far (a vertex not yet joined to anything is the pair `(v, v)`),
    and its value is the longest total length of pieces of that shape.
    Vertices come in, edges join pieces, and a vertex whose edges are all
    seen leaves the frontier. */
module Day23Frontier {
  import opened Util

  // ------------------------------------------------------------ states

  /** The two ends of a path piece, the smaller first. */
  type Pair = (nat, nat)

  /** A pairing of the frontier vertices: a `frozenset` of pairs. */
  type State = set<Pair>

  /** `v in edge` for a tuple: `v` is one of the two ends. */
  predicate Holds(p: Pair, v: nat)
  {
    p.0 == v || p.1 == v
  }

  /** Every pair lists its smaller end first. */
  ghost predicate Ordered(s: State)
  {
    forall p :: p in s ==> p.0 <= p.1
  }

  /** No vertex is an end of two different pairs. */
  ghost predicate Disjoint(s: State)
  {
    forall p, q :: p in s && q in s && p != q ==> !Holds(q, p.0) && !Holds(q, p.1)
  }

  /** The shape every state of the solver keeps. */
  ghost predicate WellPaired(s: State)
  {
    Ordered(s) && Disjoint(s)
  }

  ghost predicate AllWellPaired(states: map<State, nat>)
  {
    forall s :: s in states ==> WellPaired(s)
  }

  lemma OfferWellPaired(states: map<State, nat>, key: Option<State>, value: nat)
    requires AllWellPaired(states) && (key.Some? ==> WellPaired(key.value))
    ensures AllWellPaired(Offer(states, key, value))
  {
  }

  lemma JoinWellPaired(states: map<State, nat>, s: State, u: nat, v: nat, value: nat)
    requires AllWellPaired(states) && WellPaired(s)
    ensures AllWellPaired(Offer(states, Apply(Join(u, v), s), value))
  {
    if Merge(s, u, v).Some? {
      MergeWellPaired(s, u, v);
    }
    OfferWellPaired(states, Merge(s, u, v), value);
  }

  /** No pair of any state has `v` as an end. */
  ghost predicate Fresh(states: map<State, nat>, v: nat)
  {
    forall s, p :: s in states && p in s ==> !Holds(p, v)
  }

  /** The pair of `s` with `v` as an end, if there is one. In a state of
      disjoint pairs there is at most one (`PairOfUnique`). */
  ghost function PairOf(s: State, v: nat): (r: Option<Pair>)
    ensures r.Some? ==> r.value in s && Holds(r.value, v)
    ensures r.None? ==> forall p :: p in s ==> !Holds(p, v)
  {
    if exists p :: p in s && Holds(p, v) then
      var p :| p in s && Holds(p, v);
      Some(p)
    else
      None
  }

  lemma PairOfUnique(s: State, v: nat, p: Pair)
    requires Disjoint(s) && p in s && Holds(p, v)
    ensures PairOf(s, v) == Some(p)
  {
    var q := PairOf(s, v).value;
    assert q != p ==> !Holds(q, p.0) && !Holds(q, p.1);
  }

  /** The other end of a pair that has `u` as an end. */
  function Other(p: Pair, u: nat): nat
  {
    if p.0 != u then p.0 else p.1
  }

  /** What `remove_vertex` makes of one state: a state without `v` stays,
      a state where `v` is alone loses `(v, v)`, and a state where `v` ends
      a longer piece is dropped, since that piece could never be closed. */
  ghost function Retire(s: State, v: nat): Option<State>
  {
    match PairOf(s, v)
    case None => Some(s)
    case Some(p) => if p == (v, v) then Some(s - {p}) else None
  }

  /** What `add_edge` makes of one state: when `u` and `v` end two
      different pieces `(u, x)` and `(v, y)`, the edge joins them into one
      piece `(x, y)`; otherwise the state gains nothing. */
  ghost function Merge(s: State, u: nat, v: nat): Option<State>
  {
    var pu, pv := PairOf(s, u), PairOf(s, v);
    if pu.None? || pv.None? || pu == pv then None
    else
      var x, y := Other(pu.value, u), Other(pv.value, v);
      Some(s - {pu.value, pv.value} + {(if x < y then x else y, if x < y then y else x)})
  }

  /** Retiring a vertex keeps a state well paired and leaves no pair with
      that vertex as an end. */
  lemma RetireWellPaired(s: State, v: nat)
    requires WellPaired(s) && Retire(s, v).Some?
    ensures WellPaired(Retire(s, v).value)
    ensures forall p :: p in Retire(s, v).value ==> !Holds(p, v)
  {
    if PairOf(s, v).Some? {
      var p := PairOf(s, v).value;
      forall q | q in s - {p}
        ensures !Holds(q, v)
      {
        assert !Holds(q, p.0) && !Holds(q, p.1);
      }
    }
  }

  /** Joining two pieces keeps a state well paired, and the state has one
      pair fewer. */
  lemma MergeWellPaired(s: State, u: nat, v: nat)
    requires WellPaired(s) && Merge(s, u, v).Some?
    ensures WellPaired(Merge(s, u, v).value)
    ensures |Merge(s, u, v).value| == |s| - 1
  {
    var pu, pv := PairOf(s, u).value, PairOf(s, v).value;
    var x, y := Other(pu, u), Other(pv, v);
    var joined := (if x < y then x else y, if x < y then y else x);
    var rest := s - {pu, pv};
    assert Merge(s, u, v).value == rest + {joined};
    RestFree(s, pu, pv, x, y);
    AddPair(rest, joined);
    assert |rest| == |s| - 2;
  }

  /** The pairs other than the two joined ones hold neither far end. */
  lemma RestFree(s: State, pu: Pair, pv: Pair, x: nat, y: nat)
    requires Disjoint(s) && pu in s && pv in s && Holds(pu, x) && Holds(pv, y)
    ensures forall q :: q in s - {pu, pv} ==> !Holds(q, x) && !Holds(q, y)
  {
    forall q | q in s - {pu, pv}
      ensures !Holds(q, x) && !Holds(q, y)
    {
      assert !Holds(q, pu.0) && !Holds(q, pu.1);
      assert !Holds(q, pv.0) && !Holds(q, pv.1);
    }
  }

  /** A new ordered pair whose ends no pair holds keeps a state well paired. */
  lemma AddPair(rest: State, joined: Pair)
    requires WellPaired(rest) && joined.0 <= joined.1
    requires forall q :: q in rest ==> !Holds(q, joined.0) && !Holds(q, joined.1)
    ensures WellPaired(rest + {joined}) && joined !in rest && |rest + {joined}| == |rest| + 1
  {
  }

  // ------------------------------------------------------------ tables

  /** `dict.get(key, 0)`. */
  function Get(m: map<State, nat>, key: State): nat
  {
    if key in m then m[key] else 0
  }

  /** `if value > table.get(key, 0): table[key] = value`, for a key that
      may be missing. */
  function Offer(m: map<State, nat>, key: Option<State>, value: nat): (r: map<State, nat>)
  {
    if key.Some? && value > Get(m, key.value) then m[key.value := value] else m
  }

  /** The two ways the solver rebuilds its states from old ones. */
  datatype Op = Leave(v: nat) | Join(u: nat, v: nat)

  ghost function Apply(op: Op, s: State): Option<State>
  {
    match op
    case Leave(v) => Retire(s, v)
    case Join(u, v) => Merge(s, u, v)
  }

  /** Nothing of `base` is lost or lowered in `cur`. */
  ghost predicate Kept(base: map<State, nat>, cur: map<State, nat>)
  {
    forall s :: s in base ==> s in cur && base[s] <= cur[s]
  }

  /** Each walked state's image, at its value plus `w`, is stored when
      that is positive, and is stored with at least that value. */
  ghost predicate Covers(from: map<State, nat>, done: set<State>, op: Op, w: nat, cur: map<State, nat>)
  {
    forall s :: s in done && s in from && Apply(op, s).Some? ==>
      (from[s] + w > 0 ==> Apply(op, s).value in cur) &&
      (Apply(op, s).value in cur ==> from[s] + w <= cur[Apply(op, s).value])
  }

  /** Each stored value is the one from `base` or a walked state's image
      value. */
  ghost predicate Origins(base: map<State, nat>, from: map<State, nat>, done: set<State>, op: Op, w: nat, cur: map<State, nat>)
  {
    forall t :: t in cur ==>
      (t in base && cur[t] == base[t]) ||
      (exists s :: s in done && s in from && Apply(op, s) == Some(t) && 0 < from[s] + w == cur[t])
  }

  /** `cur` is `base` after the states of `from` in `done` have offered
      their images at their values plus `w`. */
  ghost predicate OfferedFrom(base: map<State, nat>, from: map<State, nat>, done: set<State>, op: Op, w: nat, cur: map<State, nat>)
  {
    Kept(base, cur) && Covers(from, done, op, w, cur) && Origins(base, from, done, op, w, cur)
  }

  /** `remove_vertex`: `next` holds, for each retired form of a state of
      `from`, the largest value that lands on it, when that is positive. */
  ghost predicate Retired(from: map<State, nat>, v: nat, next: map<State, nat>)
  {
    OfferedFrom(map[], from, from.Keys, Leave(v), 0, next)
  }

  /** `add_edge`: `cur` is `base` with each join offered the joined
      state's value plus `w`. */
  ghost predicate Improved(base: map<State, nat>, u: nat, v: nat, w: nat, cur: map<State, nat>)
  {
    OfferedFrom(base, base, base.Keys, Join(u, v), w, cur)
  }

  lemma KeptStep(base: map<State, nat>, cur: map<State, nat>, key: Option<State>, value: nat)
    requires Kept(base, cur)
    ensures Kept(base, Offer(cur, key, value))
  {
  }

  lemma CoversStep(from: map<State, nat>, done: set<State>, op: Op, w: nat, cur: map<State, nat>, s: State)
    requires Covers(from, done, op, w, cur) && s in from
    ensures Covers(from, done + {s}, op, w, Offer(cur, Apply(op, s), from[s] + w))
  {
  }

  lemma OriginsStep(base: map<State, nat>, from: map<State, nat>, done: set<State>, op: Op, w: nat, cur: map<State, nat>, s: State)
    requires Origins(base, from, done, op, w, cur) && s in from
    ensures Origins(base, from, done + {s}, op, w, Offer(cur, Apply(op, s), from[s] + w))
  {
    var after := Offer(cur, Apply(op, s), from[s] + w);
    forall t | t in after
      ensures (t in base && after[t] == base[t]) ||
        exists s' :: s' in done + {s} && s' in from && Apply(op, s') == Some(t) && 0 < from[s'] + w == after[t]
    {
      if t !in cur || after[t] != cur[t] {
        assert Apply(op, s) == Some(t) && 0 < from[s] + w == after[t];
      } else if !(t in base && cur[t] == base[t]) {
        var s' :| s' in done && s' in from && Apply(op, s') == Some(t) && 0 < from[s'] + w == cur[t];
      }
    }
  }

  /** One more state of `from` walked. */
  lemma OfferedStep(base: map<State, nat>, from: map<State, nat>, done: set<State>, op: Op, w: nat, cur: map<State, nat>, s: State)
    requires OfferedFrom(base, from, done, op, w, cur) && s in from
    ensures OfferedFrom(base, from, done + {s}, op, w, Offer(cur, Apply(op, s), from[s] + w))
  {
    KeptStep(base, cur, Apply(op, s), from[s] + w);
    CoversStep(from, done, op, w, cur, s);
    OriginsStep(base, from, done, op, w, cur, s);
  }

  /** Once every state of `from` is walked, the result is fixed: the order
      of the walk does not matter. */
  lemma OfferedUnique(base: map<State, nat>, from: map<State, nat>, op: Op, w: nat, cur1: map<State, nat>, cur2: map<State, nat>)
    requires OfferedFrom(base, from, from.Keys, op, w, cur1) && OfferedFrom(base, from, from.Keys, op, w, cur2)
    ensures cur1 == cur2
  {
    forall t | t in cur1
      ensures t in cur2 && cur1[t] <= cur2[t]
    {
      if !(t in base && cur1[t] == base[t]) {
        var s :| s in from && Apply(op, s) == Some(t) && 0 < from[s] + w == cur1[t];
      }
    }
    forall t | t in cur2
      ensures t in cur1 && cur2[t] <= cur1[t]
    {
      if !(t in base && cur2[t] == base[t]) {
        var s :| s in from && Apply(op, s) == Some(t) && 0 < from[s] + w == cur2[t];
      }
    }
  }

  /** What `remove_vertex` keeps is fixed by the states before it. */
  lemma RetiredUnique(from: map<State, nat>, v: nat, next1: map<State, nat>, next2: map<State, nat>)
    requires Retired(from, v, next1) && Retired(from, v, next2)
    ensures next1 == next2
  {
    OfferedUnique(map[], from, Leave(v), 0, next1, next2);
  }

  /** What `add_edge` leaves is fixed by the states before it. */
  lemma ImprovedUnique(base: map<State, nat>, u: nat, v: nat, w: nat, cur1: map<State, nat>, cur2: map<State, nat>)
    requires Improved(base, u, v, w, cur1) && Improved(base, u, v, w, cur2)
    ensures cur1 == cur2
  {
    OfferedUnique(base, base, Join(u, v), w, cur1, cur2);
  }

  // ------------------------------------------------------------ solver

  /** The first pair met that has `v` as an end (`for edge in state: if v
      in edge: ... break`). */
  method FindPair(s: State, v: nat) returns (r: Option<Pair>)
    requires Disjoint(s)
    ensures r == PairOf(s, v)
  {
    var rest := s;
    while rest != {}
      invariant rest <= s
      invariant forall p :: p in s - rest ==> !Holds(p, v)
      decreases |rest|
    {
      var p :| p in rest;
      if Holds(p, v) {
        PairOfUnique(s, v, p);
        return Some(p);
      }
      rest := rest - {p};
    }
    return None;
  }

  /** The last pairs met with `u` and with `v` as an end, in one walk over
      the state. */
  method FindPairs(s: State, u: nat, v: nat) returns (ue: Option<Pair>, ve: Option<Pair>)
    requires Disjoint(s)
    ensures ue == PairOf(s, u) && ve == PairOf(s, v)
  {
    ue, ve := None, None;
    var rest := s;
    while rest != {}
      invariant rest <= s
      invariant ue.None? ==> forall p :: p in s - rest ==> !Holds(p, u)
      invariant ue.Some? ==> ue.value in s && Holds(ue.value, u)
      invariant ve.None? ==> forall p :: p in s - rest ==> !Holds(p, v)
      invariant ve.Some? ==> ve.value in s && Holds(ve.value, v)
      decreases |rest|
    {
      var p :| p in rest;
      if Holds(p, u) {
        ue := Some(p);
      }
      if Holds(p, v) {
        ve := Some(p);
      }
      rest := rest - {p};
    }
    if ue.Some? {
      PairOfUnique(s, u, ue.value);
    }
    if ve.Some? {
      PairOfUnique(s, v, ve.value);
    }
  }

  /** Adding `(v, v)` to one state. */
  lemma AddFresh(s: State, v: nat)
    requires WellPaired(s) && forall p :: p in s ==> !Holds(p, v)
    ensures WellPaired(s + {(v, v)})
  {
  }

  /** Two states without `(v, v)` that are equal once it is added. */
  lemma AddInjective(s1: State, s2: State, v: nat)
    requires (v, v) !in s1 && (v, v) !in s2 && s1 + {(v, v)} == s2 + {(v, v)}
    ensures s1 == s2
  {
    assert s1 == (s1 + {(v, v)}) - {(v, v)};
    assert s2 == (s2 + {(v, v)}) - {(v, v)};
  }

  class Solver {
    /** Each pairing with the longest length of pieces of that shape. */
    var states: map<State, nat>
    const startIdx: nat
    const endIdx: nat

    /** Every state is well paired. */
    ghost predicate Valid()
      reads this
    {
      AllWellPaired(states)
    }

    /** `Solver.__init__`: only the empty pairing, of length 0. */
    constructor (startIdx: nat, endIdx: nat)
      ensures states == map[{} := 0] && this.startIdx == startIdx && this.endIdx == endIdx
      ensures Valid()
    {
      states := map[{} := 0];
      this.startIdx := startIdx;
      this.endIdx := endIdx;
    }

    /** `add_vertex`: every state gains `(v, v)` and keeps its value. When
        `v` is already in some state, two states can land on the same key
        and the one written last wins; the model leaves that order open.
        For a fresh vertex the result is exact and stays well paired. */
    method AddVertex(v: nat)
      modifies this
      ensures states.Keys == set s | s in old(states) :: s + {(v, v)}
      ensures forall t :: t in states ==> exists s :: s in old(states) && t == s + {(v, v)} && states[t] == old(states)[s]
      ensures Fresh(old(states), v) ==> forall s :: s in old(states) ==> states[s + {(v, v)}] == old(states)[s]
      ensures Fresh(old(states), v) && old(Valid()) ==> Valid()
    {
      var next: map<State, nat> := map[];
      var rest := states.Keys;
      while rest != {}
        invariant rest <= states.Keys
        invariant next.Keys == set s | s in states && s !in rest :: s + {(v, v)}
        invariant forall t :: t in next ==> exists s :: s in states && s !in rest && t == s + {(v, v)} && next[t] == states[s]
        decreases |rest|
      {
        var s :| s in rest;
        next := next[s + {(v, v)} := states[s]];
        rest := rest - {s};
      }
      if Fresh(states, v) {
        forall s | s in states
          ensures next[s + {(v, v)}] == states[s]
        {
          var s' :| s' in states && s + {(v, v)} == s' + {(v, v)} && next[s + {(v, v)}] == states[s'];
          AddInjective(s, s', v);
        }
        forall t | t in next
          ensures Valid() ==> WellPaired(t)
        {
          var s :| s in states && t == s + {(v, v)};
          if Valid() {
            AddFresh(s, v);
          }
        }
      }
      states := next;
    }

    /** `remove_vertex`: nothing happens to the start or the end vertex;
        otherwise every state is retired, a new key keeps the largest
        value that lands on it, and values of 0 are not stored. */
    method RemoveVertex(v: nat)
      requires Valid()
      modifies this
      ensures v == startIdx || v == endIdx ==> states == old(states)
      ensures v != startIdx && v != endIdx ==> Retired(old(states), v, states)
      ensures v != startIdx && v != endIdx ==> forall t, p :: t in states && p in t ==> !Holds(p, v)
      ensures Valid()
    {
      if v == startIdx || v == endIdx {
        return;
      }
      var from := states;
      var newStates: map<State, nat> := map[];
      var rest := from.Keys;
      while rest != {}
        invariant rest <= from.Keys
        invariant OfferedFrom(map[], from, from.Keys - rest, Leave(v), 0, newStates)
        decreases |rest|
      {
        var s :| s in rest;
        var kept := RetireState(s, v);
        OfferedStep(map[], from, from.Keys - rest, Leave(v), 0, newStates, s);
        newStates := Store(newStates, kept, from[s]);
        assert from.Keys - (rest - {s}) == from.Keys - rest + {s};
        rest := rest - {s};
      }
      assert from.Keys - rest == from.Keys;
      forall t | t in newStates
        ensures WellPaired(t) && forall p :: p in t ==> !Holds(p, v)
      {
        var s :| s in from && Apply(Leave(v), s) == Some(t);
        RetireWellPaired(s, v);
      }
      states := newStates;
    }

    /** `add_edge`: for each state as it was before the call, when `u`
        and `v` end two different pieces the joined state is offered the
        value plus `weight`, which is kept only if it beats the value
        stored now. Every earlier state stays. */
    method AddEdge(u: nat, v: nat, weight: nat)
      requires Valid()
      modifies this
      ensures Improved(old(states), u, v, weight, states)
      ensures Valid()
    {
      var oldDp := states;
      var table := states;
      var rest := oldDp.Keys;
      while rest != {}
        invariant rest <= oldDp.Keys
        invariant OfferedFrom(oldDp, oldDp, oldDp.Keys - rest, Join(u, v), weight, table)
        invariant AllWellPaired(table)
        decreases |rest|
      {
        var s :| s in rest;
        var joined := MergeState(s, u, v);
        OfferedStep(oldDp, oldDp, oldDp.Keys - rest, Join(u, v), weight, table, s);
        JoinWellPaired(table, s, u, v, oldDp[s] + weight);
        table := Store(table, joined, oldDp[s] + weight);
        assert oldDp.Keys - (rest - {s}) == oldDp.Keys - rest + {s};
        rest := rest - {s};
      }
      assert oldDp.Keys - rest == oldDp.Keys;
      states := table;
    }
  }

  /** `previous_best = table.get(key, 0)` and `if value > previous_best:
      table[key] = value`, skipped when there is no key. */
  method Store(table: map<State, nat>, key: Option<State>, value: nat) returns (r: map<State, nat>)
    ensures r == Offer(table, key, value)
  {
    r := table;
    if key.Some? {
      var previousBest := if key.value in table then table[key.value] else 0;
      if value > previousBest {
        r := table[key.value := value];
      }
    }
  }

  /** The inner loop of `remove_vertex` for one state: the first pair with
      `v` as an end decides whether the state is kept, stripped of
      `(v, v)`, or dropped. */
  method RetireState(s: State, v: nat) returns (r: Option<State>)
    requires WellPaired(s)
    ensures r == Retire(s, v)
  {
    var edge := FindPair(s, v);
    if edge.None? {
      return Some(s);
    } else if edge.value == (v, v) {
      return Some(s - {(v, v)});
    }
    return None;
  }

  /** The inner part of `add_edge` for one state: the pieces ending at `u`
      and at `v`, and when they differ, the state with them joined. */
  method MergeState(s: State, u: nat, v: nat) returns (r: Option<State>)
    requires WellPaired(s)
    ensures r == Merge(s, u, v)
  {
    var uEdge, vEdge := FindPairs(s, u, v);
    if uEdge.None? || vEdge.None? || uEdge == vEdge {
      return None;
    }
    var x := if uEdge.value.0 != u then uEdge.value.0 else uEdge.value.1;
    var y := if vEdge.value.0 != v then vEdge.value.0 else vEdge.value.1;
    var newEdge := (if x < y then x else y, if x < y then y else x);
    return Some(s - {uEdge.value, vEdge.value} + {newEdge});
  }

  // ------------------------------------------------------------ input

  const PANIC: string := "panic"

  /** `DIRECTIONS`: left, up, right and down, as (row, column) offsets. */
  const DIRECTIONS: seq<(int, int)> := [(0, -1), (-1, 0), (0, 1), (1, 0)]

  /** The map read by `Input`: one flag per cell, true unless the cell is
      forest, row after row; the width of the first line; the number of
      whole rows. */
  datatype Input = Input(isEmpty: seq<bool>, width: nat, height: nat)

  /** `char != "#"` for each character of each stripped line. */
  function Flags(lines: seq<string>): (r: seq<bool>)
    ensures |lines| > 0 ==> |r| >= |Trim(lines[0])|
  {
    if lines == [] then []
    else
      var row := Trim(lines[0]);
      seq(|row|, k requires 0 <= k < |row| => row[k] != '#') + Flags(lines[1..])
  }

  /** At least one row, and every row in range. */
  predicate Shaped(inp: Input)
  {
    inp.width > 0 && inp.height > 0 && inp.height * inp.width <= |inp.isEmpty|
  }

  /** `Input.__init__` over the lines of the file: the width is the length
      of the first stripped line and the height is the number of flags
      divided by it, which fails on an empty first line. */
  function ReadInput(lines: seq<string>): (r: Result<Input>)
    ensures r.Ok? <==> lines != [] && |Trim(lines[0])| > 0
    ensures r.Ok? ==> Shaped(r.value) && r.value.isEmpty == Flags(lines) && r.value.width == |Trim(lines[0])|
  {
    var width := if lines == [] then 0 else |Trim(lines[0])|;
    if width == 0 then Err(PANIC)
    else
      var flags := Flags(lines);
      WholeRows(|flags|, width);
      Ok(Input(flags, width, |flags| / width))
  }

  lemma WholeRows(n: nat, width: nat)
    requires 0 < width <= n
    ensures 0 < n / width && n / width * width <= n
  {
    DivModUnique(n, width, n / width, n % width);
  }

  /** Cell (i, j) lies on the map and is not forest. */
  predicate Open(inp: Input, i: int, j: int)
    requires Shaped(inp)
  {
    0 <= i < inp.height && 0 <= j < inp.width && i * inp.width + j < |inp.isEmpty| && inp.isEmpty[i * inp.width + j]
  }

  /** The flat index of an in-range cell, and the row and column it gives
      back. */
  lemma Cell(inp: Input, i: nat, j: nat)
    requires Shaped(inp) && i < inp.height && j < inp.width
    ensures i * inp.width + j < inp.height * inp.width <= |inp.isEmpty|
    ensures (i * inp.width + j) / inp.width == i && (i * inp.width + j) % inp.width == j
  {
    MulMonotone(i + 1, inp.height, inp.width);
    DivModUnique(i * inp.width + j, inp.width, i, j);
  }

  /** The flat indices of the open cells one step from (i, j) in `dirs`,
      in that order. */
  function Neighbours(inp: Input, i: nat, j: nat, dirs: seq<(int, int)>): (r: seq<nat>)
    requires Shaped(inp)
  {
    if dirs == [] then []
    else
      var ni, nj := i + dirs[0].0, j + dirs[0].1;
      (if Open(inp, ni, nj) then [ni * inp.width + nj] else []) + Neighbours(inp, i, j, dirs[1..])
  }

  /** `Input.adjacency`: for each cell in row-major order, its open
      neighbours in `DIRECTIONS` order, or nothing for forest. */
  function Adjacency(inp: Input): (r: seq<seq<nat>>)
    requires Shaped(inp)
    ensures |r| == inp.height * inp.width
  {
    seq(inp.height * inp.width, k requires 0 <= k < inp.height * inp.width =>
      if inp.isEmpty[k] then Neighbours(inp, k / inp.width, k % inp.width, DIRECTIONS) else [])
  }

  /** Cells `k` and `m` are next to each other in a row or a column. */
  predicate Beside(k: nat, m: nat, width: nat)
    requires width > 0
  {
    (k / width == m / width && (k % width + 1 == m % width || m % width + 1 == k % width)) ||
    (k % width == m % width && (k / width + 1 == m / width || m / width + 1 == k / width))
  }

  lemma {:induction false} NeighboursRule(inp: Input, i: nat, j: nat, dirs: seq<(int, int)>, m: nat)
    requires Shaped(inp)
    ensures m in Neighbours(inp, i, j, dirs) <==>
      exists d :: d in dirs && Open(inp, i + d.0, j + d.1) && m == (i + d.0) * inp.width + (j + d.1)
  {
    if dirs != [] {
      NeighboursRule(inp, i, j, dirs[1..], m);
      assert forall d :: d in dirs <==> d == dirs[0] || d in dirs[1..];
    }
  }

  /** A cell lists exactly the open cells beside it, and forest lists
      nothing. */
  lemma AdjacencyRule(inp: Input, k: nat, m: nat)
    requires Shaped(inp) && k < inp.height * inp.width
    ensures m in Adjacency(inp)[k] <==>
      inp.isEmpty[k] && m < inp.height * inp.width && inp.isEmpty[m] && Beside(k, m, inp.width)
  {
    AdjacencyAt(inp, k);
    if inp.isEmpty[k] {
      NeighbourIff(inp, k, m);
    }
  }

  lemma NeighbourIff(inp: Input, k: nat, m: nat)
    requires Shaped(inp) && k < inp.height * inp.width
    ensures m in Neighbours(inp, k / inp.width, k % inp.width, DIRECTIONS) <==>
      m < inp.height * inp.width && inp.isEmpty[m] && Beside(k, m, inp.width)
  {
    if m in Neighbours(inp, k / inp.width, k % inp.width, DIRECTIONS) {
      NeighbourBeside(inp, k, m);
    }
    if m < inp.height * inp.width && inp.isEmpty[m] && Beside(k, m, inp.width) {
      BesideNeighbour(inp, k, m);
    }
  }

  lemma AdjacencyAt(inp: Input, k: nat)
    requires Shaped(inp) && k < inp.height * inp.width
    ensures Adjacency(inp)[k] ==
      if inp.isEmpty[k] then Neighbours(inp, k / inp.width, k % inp.width, DIRECTIONS) else []
  {
  }

  lemma NeighbourBeside(inp: Input, k: nat, m: nat)
    requires Shaped(inp) && k < inp.height * inp.width
    requires m in Neighbours(inp, k / inp.width, k % inp.width, DIRECTIONS)
    ensures m < inp.height * inp.width && inp.isEmpty[m] && Beside(k, m, inp.width)
  {
    var w := inp.width;
    var i, j := k / w, k % w;
    NeighboursRule(inp, i, j, DIRECTIONS, m);
    var d :| d in DIRECTIONS && Open(inp, i + d.0, j + d.1) && m == (i + d.0) * w + (j + d.1);
    OpenStep(inp, k, i, j, d, m);
  }

  /** The open cell one step from cell `k` in a direction is beside it. */
  lemma OpenStep(inp: Input, k: nat, i: nat, j: nat, d: (int, int), m: nat)
    requires Shaped(inp) && i == k / inp.width && j == k % inp.width
    requires d in DIRECTIONS && Open(inp, i + d.0, j + d.1) && m == (i + d.0) * inp.width + (j + d.1)
    ensures m < inp.height * inp.width && inp.isEmpty[m] && Beside(k, m, inp.width)
  {
    OpenCell(inp, i + d.0, j + d.1, m);
    BesideStep(k, m, inp.width, d);
  }

  /** The flat index of an open cell, and the row and column it gives back. */
  lemma OpenCell(inp: Input, a: int, b: int, m: int)
    requires Shaped(inp) && Open(inp, a, b) && m == a * inp.width + b
    ensures 0 <= m < inp.height * inp.width && inp.isEmpty[m] && m / inp.width == a && m % inp.width == b
  {
    Cell(inp, a, b);
  }

  /** A step in one of the four directions is a step to a cell beside. */
  lemma BesideStep(k: nat, m: nat, w: nat, d: (int, int))
    requires w > 0 && d in DIRECTIONS && m / w == k / w + d.0 && m % w == k % w + d.1
    ensures Beside(k, m, w)
  {
  }

  lemma BesideNeighbour(inp: Input, k: nat, m: nat)
    requires Shaped(inp) && k < inp.height * inp.width && m < inp.height * inp.width
    requires inp.isEmpty[m] && Beside(k, m, inp.width)
    ensures m in Neighbours(inp, k / inp.width, k % inp.width, DIRECTIONS)
  {
    var w := inp.width;
    var i, j := k / w, k % w;
    var d := Direction(inp, k, m);
    OpenAt(inp, m);
    NeighbourOf(inp, i, j, d, m);
  }

  /** An open cell, read back from its flat index. */
  lemma OpenAt(inp: Input, m: nat)
    requires Shaped(inp) && m < inp.height * inp.width && inp.isEmpty[m]
    ensures Open(inp, m / inp.width, m % inp.width)
  {
    var w := inp.width;
    DivModUnique(m, w, m / w, m % w);
    Cell(inp, m / w, m % w);
  }

  lemma NeighbourOf(inp: Input, i: nat, j: nat, d: (int, int), m: nat)
    requires Shaped(inp) && d in DIRECTIONS && Open(inp, i + d.0, j + d.1)
    requires m == (i + d.0) * inp.width + (j + d.1)
    ensures m in Neighbours(inp, i, j, DIRECTIONS)
  {
    NeighboursRule(inp, i, j, DIRECTIONS, m);
  }

  /** The direction that leads from cell `k` to the cell `m` beside it. */
  lemma Direction(inp: Input, k: nat, m: nat) returns (d: (int, int))
    requires Shaped(inp) && k < inp.height * inp.width && m < inp.height * inp.width
    requires Beside(k, m, inp.width)
    ensures d in DIRECTIONS && 0 <= k / inp.width + d.0 && 0 <= k % inp.width + d.1
    ensures m / inp.width == k / inp.width + d.0 && m % inp.width == k % inp.width + d.1
    ensures m == (k / inp.width + d.0) * inp.width + (k % inp.width + d.1)
  {
    var w := inp.width;
    d := (m / w - k / w, m % w - k % w);
    DivModUnique(m, w, m / w, m % w);
  }

  /** Adjacency is symmetric: the map is an undirected graph. */
  lemma AdjacencySymmetric(inp: Input, k: nat, m: nat)
    requires Shaped(inp) && k < inp.height * inp.width && m in Adjacency(inp)[k]
    ensures m < inp.height * inp.width && k in Adjacency(inp)[m]
  {
    AdjacencyRule(inp, k, m);
    AdjacencyRule(inp, m, k);
  }

  /** The last open column before `k` in row `row`. */
  function LastOpen(inp: Input, row: nat, k: nat): (r: Option<nat>)
    requires Shaped(inp) && row < inp.height && k <= inp.width
    ensures r.Some? ==> r.value < k && Open(inp, row, r.value) && forall j :: r.value < j < k ==> !Open(inp, row, j)
    ensures r.None? ==> forall j :: 0 <= j < k ==> !Open(inp, row, j)
  {
    if k == 0 then None
    else if Open(inp, row, k - 1) then Some(k - 1)
    else LastOpen(inp, row, k - 1)
  }

  /** `find_start_and_end`: the last open cell of the top row and of the
      bottom row; a row without one fails the `assert`. */
  method FindStartAndEnd(inp: Input) returns (r: Result<(nat, nat)>)
    requires Shaped(inp)
    ensures r.Ok? <==> LastOpen(inp, 0, inp.width).Some? && LastOpen(inp, inp.height - 1, inp.width).Some?
    ensures r.Ok? ==> r.value == (LastOpen(inp, 0, inp.width).value,
      (inp.height - 1) * inp.width + LastOpen(inp, inp.height - 1, inp.width).value)
  {
    var w, h := inp.width, inp.height;
    var startIdx: Option<nat> := None;
    var endIdx: Option<nat> := None;
    for next := 0 to w
      invariant startIdx == LastOpen(inp, 0, next)
      invariant endIdx.None? <==> LastOpen(inp, h - 1, next).None?
      invariant endIdx.Some? ==> endIdx.value == (h - 1) * w + LastOpen(inp, h - 1, next).value
    {
      Cell(inp, 0, next);
      if inp.isEmpty[0 + next] {
        startIdx := Some(next);
      }
      Cell(inp, h - 1, next);
      if inp.isEmpty[(h - 1) * w + next] {
        endIdx := Some((h - 1) * w + next);
      }
    }
    if startIdx.None? || endIdx.None? {
      return Err(PANIC);
    }
    return Ok((startIdx.value, endIdx.value));
  }
}
