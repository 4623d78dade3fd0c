/** Day 19: Aplenty. Workflows route machine parts by rules on their four
    ratings x, m, a and s. Part 1 sums the ratings of the parts that end at
    `A`; part 2 counts the rating combinations in [1, 4000]^4 that do, by
    splitting boxes of combinations rule by rule. */
module Day19 {
  import opened Util

  const PANIC: string := "panic"
  const OUT_OF_FUEL: string := "out of fuel"

  /** `u64::parse` accepts values below 2^64. */
  const U64_LIMIT: nat := 0x1_0000_0000_0000_0000

  /** The workflow every part starts at. */
  const START: string := "in"

  /** The largest rating part 2 considers. */
  const MAX_RATING: nat := 4000

  datatype Property = X | M | A | S

  /** The position of a property in a part's ratings, as `property as usize`. */
  function Index(p: Property): (k: nat)
    ensures k < 4
  {
    match p
    case X => 0
    case M => 1
    case A => 2
    case S => 3
  }

  datatype Comparison = LessThan | GreaterThan

  datatype Rule = Rule(property: Property, comparison: Comparison, threshold: nat, sendTo: string)

  datatype Workflow = Workflow(rules: seq<Rule>, finalDestination: string)

  type Workflows = map<string, Workflow>

  /** A part's ratings in the order x, m, a, s. */
  type Part = seq<nat>

  predicate IsAccept(id: string)
  {
    |id| == 1 && id[0] == 'A'
  }

  predicate IsReject(id: string)
  {
    |id| == 1 && id[0] == 'R'
  }

  // ------------------------------------------------------------- routing

  /** `Rule::matches`: the rating is strictly below or strictly above the threshold. */
  function Matches(rule: Rule, part: Part): bool
    requires |part| == 4
  {
    var value := part[Index(rule.property)];
    match rule.comparison
    case LessThan => value < rule.threshold
    case GreaterThan => value > rule.threshold
  }

  /** The destination of the first matching rule, or the fallback when none matches. */
  function Route(rules: seq<Rule>, final: string, part: Part): string
    requires |part| == 4
  {
    if rules == [] then final
    else if Matches(rules[0], part) then rules[0].sendTo
    else Route(rules[1..], final, part)
  }

  /** A part that no rule matches goes to the fallback. */
  lemma {:induction false} RouteFallback(rules: seq<Rule>, final: string, part: Part)
    requires |part| == 4 && forall i :: 0 <= i < |rules| ==> !Matches(rules[i], part)
    ensures Route(rules, final, part) == final
  {
    if rules != [] {
      assert forall i :: 0 <= i < |rules| - 1 ==> rules[1..][i] == rules[i + 1];
      RouteFallback(rules[1..], final, part);
    }
  }

  /** Otherwise it goes to the destination of the first rule that matches it. */
  lemma {:induction false} RouteFirst(rules: seq<Rule>, final: string, part: Part, i: nat)
    requires |part| == 4 && i < |rules| && Matches(rules[i], part)
    requires forall j :: 0 <= j < i ==> !Matches(rules[j], part)
    ensures Route(rules, final, part) == rules[i].sendTo
  {
    if i > 0 {
      assert !Matches(rules[0], part);
      assert forall j :: 0 <= j < i - 1 ==> rules[1..][j] == rules[j + 1];
      RouteFirst(rules[1..], final, part, i - 1);
    }
  }

  /** Dropping rules that all lead to the fallback does not change where any part goes. */
  lemma {:induction false} UniformRulesRoute(rules: seq<Rule>, final: string, part: Part)
    requires |part| == 4
    requires forall i :: 0 <= i < |rules| ==> rules[i].sendTo == final
    ensures Route(rules, final, part) == Route([], final, part)
  {
    if rules != [] && !Matches(rules[0], part) {
      UniformRulesRoute(rules[1..], final, part);
    }
  }

  /** The outcome of a part at workflow `wf`, following at most `fuel` further
      workflows: `true` at `A`, `false` at `R`, a panic at an unknown name. */
  function Follow(wfs: Workflows, wf: Workflow, part: Part, fuel: nat): Result<bool>
    requires |part| == 4
    decreases fuel
  {
    var destination := Route(wf.rules, wf.finalDestination, part);
    if IsAccept(destination) then Ok(true)
    else if IsReject(destination) then Ok(false)
    else if destination !in wfs then Err(PANIC)
    else if fuel == 0 then Err(OUT_OF_FUEL)
    else Follow(wfs, wfs[destination], part, fuel - 1)
  }

  /** `is_accepted`: the outcome from workflow `in`, which must exist. */
  function Accepted(wfs: Workflows, part: Part, fuel: nat): Result<bool>
    requires |part| == 4
  {
    if START !in wfs then Err(PANIC) else Follow(wfs, wfs[START], part, fuel)
  }

  /** Once a route ends, a larger budget ends it the same way. */
  lemma {:induction false} FollowFuel(wfs: Workflows, wf: Workflow, part: Part, fuel: nat, more: nat)
    requires |part| == 4 && fuel <= more
    requires Follow(wfs, wf, part, fuel) != Err(OUT_OF_FUEL)
    ensures Follow(wfs, wf, part, more) == Follow(wfs, wf, part, fuel)
    decreases fuel
  {
    var destination := Route(wf.rules, wf.finalDestination, part);
    if !IsAccept(destination) && !IsReject(destination) && destination in wfs {
      FollowFuel(wfs, wfs[destination], part, fuel - 1, more - 1);
    }
  }

  lemma AcceptedFuel(wfs: Workflows, part: Part, fuel: nat, more: nat)
    requires |part| == 4 && fuel <= more
    requires Accepted(wfs, part, fuel) != Err(OUT_OF_FUEL)
    ensures Accepted(wfs, part, more) == Accepted(wfs, part, fuel)
  {
    if START in wfs {
      FollowFuel(wfs, wfs[START], part, fuel, more);
    }
  }

  /** `is_accepted` as a loop rebinding the current workflow; the loop
      gets a budget of `fuel` workflow changes. */
  method IsAccepted(wfs: Workflows, part: Part, fuel: nat) returns (r: Result<bool>)
    requires |part| == 4
    ensures r == Accepted(wfs, part, fuel)
  {
    if START !in wfs {
      return Err(PANIC);
    }
    var workflow := wfs[START];
    var n := 0;
    while true
      invariant n <= fuel
      invariant Follow(wfs, workflow, part, fuel - n) == Accepted(wfs, part, fuel)
      decreases fuel - n
    {
      var destination := Route(workflow.rules, workflow.finalDestination, part);
      if IsAccept(destination) {
        return Ok(true);
      } else if IsReject(destination) {
        return Ok(false);
      } else if destination !in wfs {
        return Err(PANIC);
      } else if n == fuel {
        return Err(OUT_OF_FUEL);
      }
      workflow := wfs[destination];
      n := n + 1;
    }
  }

  // ------------------------------------------------------- boxes of parts

  /** `HypotheticalPart`: the ratings from `lo[k]` to `hi[k]` in each property. */
  datatype Box = Box(lo: seq<nat>, hi: seq<nat>)
  {
    predicate Valid()
    {
      |lo| == 4 && |hi| == 4 && lo[0] <= hi[0] && lo[1] <= hi[1] && lo[2] <= hi[2] && lo[3] <= hi[3]
    }
  }

  predicate Contains(box: Box, part: Part)
    requires box.Valid()
  {
    |part| == 4 && forall k :: 0 <= k < 4 ==> box.lo[k] <= part[k] <= box.hi[k]
  }

  predicate In(b: Option<Box>, part: Part)
  {
    b.Some? && b.value.Valid() && Contains(b.value, part)
  }

  /** The number of rating combinations in the box. */
  function Volume(box: Box): nat
    requires box.Valid()
  {
    (box.hi[0] - box.lo[0] + 1) * (box.hi[1] - box.lo[1] + 1) * (box.hi[2] - box.lo[2] + 1) * (box.hi[3] - box.lo[3] + 1)
  }

  function Min(a: nat, b: nat): nat
  {
    if a < b then a else b
  }

  function Max(a: nat, b: nat): nat
  {
    if a < b then b else a
  }

  /** The program as written, or with the fixes of the findings. */
  datatype Version = AsWritten | Fixed

  /** A rule cuts a box into the part it matches and the remainder, either
      possibly empty. As written, the remainder's bound is set to the
      threshold even where that widens the box; fixed, it is only narrowed. */
  function Cut(version: Version, rule: Rule, box: Box): (r: (Option<Box>, Option<Box>))
    requires box.Valid()
    ensures r.0.Some? ==> r.0.value.Valid()
    ensures r.1.Some? ==> r.1.value.Valid()
  {
    var k := Index(rule.property);
    var t := rule.threshold;
    match rule.comparison
    case LessThan =>
      var matching := if box.lo[k] < t then Some(Box(box.lo, box.hi[k := Min(box.hi[k], t - 1)])) else None;
      var lo := if version == Fixed then Max(box.lo[k], t) else t;
      var rest := if box.hi[k] >= t then Some(Box(box.lo[k := lo], box.hi)) else None;
      (matching, rest)
    case GreaterThan =>
      var matching := if box.hi[k] > t then Some(Box(box.lo[k := Max(box.lo[k], t + 1)], box.hi)) else None;
      var hi := if version == Fixed then Min(box.hi[k], t) else t;
      var rest := if box.lo[k] <= t then Some(Box(box.lo, box.hi[k := hi])) else None;
      (matching, rest)
  }

  /** Fixed, the matched box holds exactly the parts of the box the rule
      matches, and the remainder exactly the others. */
  lemma CutExact(rule: Rule, box: Box, part: Part)
    requires box.Valid() && |part| == 4
    ensures In(Cut(Fixed, rule, box).0, part) <==> Contains(box, part) && Matches(rule, part)
    ensures In(Cut(Fixed, rule, box).1, part) <==> Contains(box, part) && !Matches(rule, part)
  {
    CutMatching(rule, box, part);
    CutRemainder(rule, box, part);
  }

  lemma CutMatching(rule: Rule, box: Box, part: Part)
    requires box.Valid() && |part| == 4
    ensures In(Cut(Fixed, rule, box).0, part) <==> Contains(box, part) && Matches(rule, part)
  {
    var k := Index(rule.property);
    var m := Cut(Fixed, rule, box).0;
    if m.Some? {
      assert forall j :: 0 <= j < 4 && j != k ==> m.value.lo[j] == box.lo[j] && m.value.hi[j] == box.hi[j];
    }
  }

  lemma CutRemainder(rule: Rule, box: Box, part: Part)
    requires box.Valid() && |part| == 4
    ensures In(Cut(Fixed, rule, box).1, part) <==> Contains(box, part) && !Matches(rule, part)
  {
    var k := Index(rule.property);
    var rest := Cut(Fixed, rule, box).1;
    if rest.Some? {
      assert forall j :: 0 <= j < 4 && j != k ==> rest.value.lo[j] == box.lo[j] && rest.value.hi[j] == box.hi[j];
    }
  }

  /** The destinations and boxes `do_part2` recurses on for one workflow, in
      order: the matched box of each rule, then the remainder for the
      fallback. As written, a rule that leaves no remainder stops the rule
      loop with `break`, after which the fallback still receives the box the
      rule consumed; fixed, the fallback is skipped. */
  function Pieces(version: Version, rules: seq<Rule>, final: string, box: Box): (ps: seq<(string, Box)>)
    requires box.Valid()
    ensures forall i :: 0 <= i < |ps| ==> ps[i].1.Valid()
  {
    if rules == [] then [(final, box)]
    else
      var (matching, rest) := Cut(version, rules[0], box);
      var head := if matching.Some? then [(rules[0].sendTo, matching.value)] else [];
      if rest.None? then
        if version == Fixed then head else head + [(final, box)]
      else head + Pieces(version, rules[1..], final, rest.value)
  }

  /** The destinations of the pieces that hold `part`, in order. */
  function Holders(ps: seq<(string, Box)>, part: Part): seq<string>
    requires forall i :: 0 <= i < |ps| ==> ps[i].1.Valid()
  {
    if ps == [] then []
    else (if Contains(ps[0].1, part) then [ps[0].0] else []) + Holders(ps[1..], part)
  }

  lemma {:induction false} HoldersAppend(ps: seq<(string, Box)>, qs: seq<(string, Box)>, part: Part)
    requires forall i :: 0 <= i < |ps| ==> ps[i].1.Valid()
    requires forall i :: 0 <= i < |qs| ==> qs[i].1.Valid()
    ensures Holders(ps + qs, part) == Holders(ps, part) + Holders(qs, part)
  {
    if ps != [] {
      var head := if Contains(ps[0].1, part) then [ps[0].0] else [];
      assert (ps + qs)[0] == ps[0] && (ps + qs)[1..] == ps[1..] + qs;
      assert Holders(ps + qs, part) == head + Holders(ps[1..] + qs, part);
      HoldersAppend(ps[1..], qs, part);
      assert Holders(ps, part) == head + Holders(ps[1..], part);
    } else {
      assert ps + qs == qs;
    }
  }

  /** Fixed, the pieces partition the box: a part of the box lies in exactly
      one piece, whose destination is where the workflow routes the part, and
      a part outside the box lies in none. */
  lemma {:induction false} PiecesPartition(rules: seq<Rule>, final: string, box: Box, part: Part)
    requires box.Valid() && |part| == 4
    ensures Holders(Pieces(Fixed, rules, final, box), part) ==
      if Contains(box, part) then [Route(rules, final, part)] else []
  {
    var ps := Pieces(Fixed, rules, final, box);
    if rules == [] {
      assert ps[1..] == [];
    } else {
      var (matching, rest) := Cut(Fixed, rules[0], box);
      CutExact(rules[0], box, part);
      var head := if matching.Some? then [(rules[0].sendTo, matching.value)] else [];
      assert Holders(head, part) == if In(matching, part) then [rules[0].sendTo] else [] by {
        if matching.Some? {
          assert head[1..] == [];
        }
      }
      if rest.None? {
        assert ps == head + [];
        HoldersAppend(head, [], part);
      } else {
        var tail := Pieces(Fixed, rules[1..], final, rest.value);
        HoldersAppend(head, tail, part);
        PiecesPartition(rules[1..], final, rest.value, part);
      }
    }
  }

  // ---------------------------------------------------------------- part 2

  /** `do_part2`: the volume of the box at `A`, 0 at `R`, otherwise the sum
      over the workflow's pieces, with a budget of `fuel` nested workflows. */
  function Part2(version: Version, wfs: Workflows, id: string, box: Box, fuel: nat): Result<nat>
    requires box.Valid()
    decreases fuel, 0, 0
  {
    if IsAccept(id) then Ok(Volume(box))
    else if IsReject(id) then Ok(0)
    else if id !in wfs then Err(PANIC)
    else if fuel == 0 then Err(OUT_OF_FUEL)
    else SumPieces(version, wfs, Pieces(version, wfs[id].rules, wfs[id].finalDestination, box), fuel - 1)
  }

  /** The answers of the pieces added from the first; the first failure is the result. */
  function SumPieces(version: Version, wfs: Workflows, ps: seq<(string, Box)>, fuel: nat): Result<nat>
    requires forall i :: 0 <= i < |ps| ==> ps[i].1.Valid()
    decreases fuel, 1, |ps|
  {
    if ps == [] then Ok(0)
    else match Part2(version, wfs, ps[0].0, ps[0].1, fuel)
      case Err(e) => Err(e)
      case Ok(n) => Plus(n, SumPieces(version, wfs, ps[1..], fuel))
  }

  /** The loop state of `do_part2` between two rules: the workflow's answer
      is `answer` plus that of the pieces of the box still to route. */
  ghost predicate Progress(wfs: Workflows, wf: Workflow, box: Box, fuel: nat, i: nat, part: Box, answer: nat)
    requires box.Valid()
  {
    i <= |wf.rules| && part.Valid() &&
    SumPieces(Fixed, wfs, Pieces(Fixed, wf.rules, wf.finalDestination, box), fuel) ==
      Plus(answer, SumPieces(Fixed, wfs, Pieces(Fixed, wf.rules[i..], wf.finalDestination, part), fuel))
  }

  /** The pieces of the rules from `i` on: those of rule `i`, then those of the rest. */
  lemma PiecesStep(rules: seq<Rule>, final: string, i: nat, part: Box)
    requires i < |rules| && part.Valid()
    ensures var (matching, rest) := Cut(Fixed, rules[i], part);
      var head := if matching.Some? then [(rules[i].sendTo, matching.value)] else [];
      Pieces(Fixed, rules[i..], final, part) ==
        if rest.None? then head else head + Pieces(Fixed, rules[i + 1..], final, rest.value)
  {
    assert rules[i..][0] == rules[i] && rules[i..][1..] == rules[i + 1..];
  }

  /** A first piece that is answered adds its answer to those of the others. */
  lemma SumPiecesCons(version: Version, wfs: Workflows, piece: (string, Box), ps: seq<(string, Box)>, fuel: nat, n: nat)
    requires piece.1.Valid() && forall i :: 0 <= i < |ps| ==> ps[i].1.Valid()
    requires Part2(version, wfs, piece.0, piece.1, fuel) == Ok(n)
    ensures SumPieces(version, wfs, [piece] + ps, fuel) == Plus(n, SumPieces(version, wfs, ps, fuel))
  {
    assert ([piece] + ps)[0] == piece && ([piece] + ps)[1..] == ps;
  }

  /** The answer a rule's matched box adds: that of its destination, or
      nothing when the rule matches no part of the box. */
  ghost predicate Gained(wfs: Workflows, rule: Rule, matching: Option<Box>, fuel: nat, gained: nat)
  {
    if matching.Some? then matching.value.Valid() && Part2(Fixed, wfs, rule.sendTo, matching.value, fuel) == Ok(gained)
    else gained == 0
  }

  /** The answer of the pieces from rule `i` on: what rule `i` adds, plus
      the answer of the pieces of the remainder, if any. */
  lemma RuleSum(wfs: Workflows, wf: Workflow, fuel: nat, i: nat, part: Box,
                matching: Option<Box>, rest: Option<Box>, gained: nat)
    requires part.Valid() && i < |wf.rules|
    requires matching == Cut(Fixed, wf.rules[i], part).0 && rest == Cut(Fixed, wf.rules[i], part).1
    requires Gained(wfs, wf.rules[i], matching, fuel, gained)
    ensures SumPieces(Fixed, wfs, Pieces(Fixed, wf.rules[i..], wf.finalDestination, part), fuel) ==
      Plus(gained, if rest.Some? then SumPieces(Fixed, wfs, Pieces(Fixed, wf.rules[i + 1..], wf.finalDestination, rest.value), fuel) else Ok(0))
  {
    PiecesStep(wf.rules, wf.finalDestination, i, part);
    var later := if rest.Some? then Pieces(Fixed, wf.rules[i + 1..], wf.finalDestination, rest.value) else [];
    if matching.Some? {
      var piece := (wf.rules[i].sendTo, matching.value);
      assert rest.None? ==> [piece] + later == [piece];
      SumPiecesCons(Fixed, wfs, piece, later, fuel, gained);
    } else {
      assert [] + later == later;
    }
  }

  /** Adding `a` and then `b` to a count adds `a + b`. */
  lemma PlusPlus(whole: Result<nat>, here: Result<nat>, later: Result<nat>, a: nat, b: nat)
    requires whole == Plus(a, here) && here == Plus(b, later)
    ensures whole == Plus(a + b, later)
  {
  }

  /** After rule `i` the answer so far has grown by what its matched box
      adds, and the loop goes on with the remainder... */
  lemma Advance(wfs: Workflows, wf: Workflow, box: Box, fuel: nat, i: nat, part: Box, answer: nat,
                matching: Option<Box>, rest: Option<Box>, gained: nat, next: nat)
    requires box.Valid() && Progress(wfs, wf, box, fuel, i, part, answer) && i < |wf.rules|
    requires matching == Cut(Fixed, wf.rules[i], part).0 && rest == Cut(Fixed, wf.rules[i], part).1
    requires Gained(wfs, wf.rules[i], matching, fuel, gained) && rest.Some? && next == answer + gained
    ensures Progress(wfs, wf, box, fuel, i + 1, rest.value, next)
  {
    RuleSum(wfs, wf, fuel, i, part, matching, rest, gained);
    PlusPlus(SumPieces(Fixed, wfs, Pieces(Fixed, wf.rules, wf.finalDestination, box), fuel),
             SumPieces(Fixed, wfs, Pieces(Fixed, wf.rules[i..], wf.finalDestination, part), fuel),
             SumPieces(Fixed, wfs, Pieces(Fixed, wf.rules[i + 1..], wf.finalDestination, rest.value), fuel),
             answer, gained);
  }

  /** ... or, when no remainder is left, the workflow's answer is complete. */
  lemma Finish(wfs: Workflows, wf: Workflow, box: Box, fuel: nat, i: nat, part: Box, answer: nat,
               matching: Option<Box>, rest: Option<Box>, gained: nat)
    requires box.Valid() && Progress(wfs, wf, box, fuel, i, part, answer) && i < |wf.rules|
    requires matching == Cut(Fixed, wf.rules[i], part).0 && rest == Cut(Fixed, wf.rules[i], part).1
    requires Gained(wfs, wf.rules[i], matching, fuel, gained) && rest.None?
    ensures SumPieces(Fixed, wfs, Pieces(Fixed, wf.rules, wf.finalDestination, box), fuel) == Ok(answer + gained)
  {
    RuleSum(wfs, wf, fuel, i, part, matching, rest, gained);
    PlusPlus(SumPieces(Fixed, wfs, Pieces(Fixed, wf.rules, wf.finalDestination, box), fuel),
             SumPieces(Fixed, wfs, Pieces(Fixed, wf.rules[i..], wf.finalDestination, part), fuel),
             Ok(0), answer, gained);
  }

  /** A rule whose matched box fails makes the whole workflow fail that way. */
  lemma AdvanceFailed(wfs: Workflows, wf: Workflow, box: Box, fuel: nat, i: nat, part: Box, answer: nat,
                      matching: Option<Box>, failure: Result<nat>)
    requires box.Valid() && Progress(wfs, wf, box, fuel, i, part, answer) && i < |wf.rules|
    requires matching == Cut(Fixed, wf.rules[i], part).0 && matching.Some?
    requires failure == Part2(Fixed, wfs, wf.rules[i].sendTo, matching.value, fuel) && failure.Err?
    ensures SumPieces(Fixed, wfs, Pieces(Fixed, wf.rules, wf.finalDestination, box), fuel) == failure
  {
    PiecesStep(wf.rules, wf.finalDestination, i, part);
    var here := Pieces(Fixed, wf.rules[i..], wf.finalDestination, part);
    assert here[0] == (wf.rules[i].sendTo, matching.value);
    assert SumPieces(Fixed, wfs, here, fuel) == failure;
  }

  /** After the last rule the remainder goes to the fallback. */
  lemma AdvanceFallback(wfs: Workflows, wf: Workflow, box: Box, fuel: nat, part: Box, answer: nat, last: Result<nat>)
    requires box.Valid() && Progress(wfs, wf, box, fuel, |wf.rules|, part, answer)
    requires last == Part2(Fixed, wfs, wf.finalDestination, part, fuel)
    ensures SumPieces(Fixed, wfs, Pieces(Fixed, wf.rules, wf.finalDestination, box), fuel) == Plus(answer, last)
  {
    assert wf.rules[|wf.rules|..] == [];
    var pieces := [(wf.finalDestination, part)];
    assert Pieces(Fixed, wf.rules[|wf.rules|..], wf.finalDestination, part) == pieces;
    assert pieces[0] == (wf.finalDestination, part) && pieces[1..] == [];
    assert SumPieces(Fixed, wfs, pieces, fuel) == Plus(0, last);
  }

  /** `do_part2` with the fixes of the findings: the volume of the box at
      `A`, 0 at `R`, otherwise the rules of the workflow run by `RunRules`. */
  method DoPart2(wfs: Workflows, id: string, box: Box, fuel: nat) returns (r: Result<nat>)
    requires box.Valid()
    ensures IsAccept(id) ==> r == Ok(Volume(box))
    ensures IsReject(id) ==> r == Ok(0)
    ensures r == Part2(Fixed, wfs, id, box, fuel)
    decreases fuel, 0
  {
    if IsAccept(id) {
      return Ok((box.hi[0] - box.lo[0] + 1) * (box.hi[1] - box.lo[1] + 1) * (box.hi[2] - box.lo[2] + 1) * (box.hi[3] - box.lo[3] + 1));
    } else if IsReject(id) {
      return Ok(0);
    } else if id !in wfs {
      return Err(PANIC);
    } else if fuel == 0 {
      return Err(OUT_OF_FUEL);
    }
    r := RunRules(wfs, wfs[id], box, fuel - 1);
  }

  /** The rule loop of `do_part2`: it recurses on the matched box of each
      rule, narrowing the remainder as it goes, and hands the last remainder
      to the fallback. */
  method RunRules(wfs: Workflows, workflow: Workflow, box: Box, fuel: nat) returns (r: Result<nat>)
    requires box.Valid()
    ensures r == SumPieces(Fixed, wfs, Pieces(Fixed, workflow.rules, workflow.finalDestination, box), fuel)
    decreases fuel, 1
  {
    var answer: nat := 0;
    var part := box;
    var i := 0;
    assert workflow.rules[0..] == workflow.rules;
    while i < |workflow.rules|
      invariant Progress(wfs, workflow, box, fuel, i, part, answer)
      decreases |workflow.rules| - i
    {
      var (matching, rest) := Cut(Fixed, workflow.rules[i], part);
      var gained := 0;
      if matching.Some? {
        var sub := DoPart2(wfs, workflow.rules[i].sendTo, matching.value, fuel);
        if sub.Err? {
          AdvanceFailed(wfs, workflow, box, fuel, i, part, answer, matching, sub);
          return Err(sub.reason);
        }
        gained := sub.value;
      }
      if rest.None? {
        Finish(wfs, workflow, box, fuel, i, part, answer, matching, rest, gained);
        return Ok(answer + gained);
      }
      var next := answer + gained;
      Advance(wfs, workflow, box, fuel, i, part, answer, matching, rest, gained, next);
      answer := next;
      part := rest.value;
      i := i + 1;
    }
    var sub := DoPart2(wfs, workflow.finalDestination, part, fuel);
    AdvanceFallback(wfs, workflow, box, fuel, part, answer, sub);
    if sub.Err? {
      return Err(sub.reason);
    }
    return Ok(answer + sub.value);
  }

  /** The box of every rating combination part 2 counts. */
  const FULL: Box := Box([1, 1, 1, 1], [MAX_RATING, MAX_RATING, MAX_RATING, MAX_RATING])

  /** A workflow `in` that sends everything to `R` by its only rule and
      falls back to `A`: `in{x<5000:R,A}`. */
  const SWALLOWED: Workflows := map[START := Workflow([Rule(X, LessThan, 5000, "R")], "A")]

  /** The rule consumes the whole box, so no part is accepted; as written,
      the fallback still counts all 4000^4 combinations. */
  lemma FallbackAfterBreak()
    ensures Holders(Pieces(AsWritten, SWALLOWED[START].rules, "A", FULL), [1, 1, 1, 1]) == ["R", "A"]
    ensures Part2(AsWritten, SWALLOWED, START, FULL, 1) == Ok(256_000_000_000_000)
    ensures Part2(Fixed, SWALLOWED, START, FULL, 1) == Ok(0)
  {
    var wf := SWALLOWED[START];
    assert FULL.hi[0 := Min(FULL.hi[0], 4999)] == FULL.hi;
    var cut := Cut(AsWritten, wf.rules[0], FULL);
    assert cut.0 == Some(FULL) && cut.1 == None;
    assert Pieces(AsWritten, wf.rules, "A", FULL) == [("R", FULL), ("A", FULL)];
    assert Pieces(Fixed, wf.rules, "A", FULL) == [("R", FULL)];
    var p: Part := [1, 1, 1, 1];
    assert Contains(FULL, p);
    var ps := [("R", FULL), ("A", FULL)];
    assert ps[1..] == [("A", FULL)] && ps[1..][1..] == [];
    assert Holders(ps[1..][1..], p) == [];
    assert Holders(ps[1..], p) == ["A"];
    assert Holders(ps, p) == ["R", "A"];
    var one := [("R", FULL)];
    assert one[1..] == [];
    assert Volume(FULL) == 256_000_000_000_000;
    assert SumPieces(AsWritten, SWALLOWED, ps[1..], 0) == Ok(Volume(FULL));
    assert SumPieces(Fixed, SWALLOWED, one, 0) == Ok(0);
  }

  /** `in{x<2000:R,x<1000:R,A}`: the parts with x below 2000 are rejected. */
  const WIDENED: Workflows :=
    map[START := Workflow([Rule(X, LessThan, 2000, "R"), Rule(X, LessThan, 1000, "R")], "A")]

  /** The boxes of x below 2000, x from 1000 and x from 2000. */
  const BELOW_2000: Box := Box([1, 1, 1, 1], [1999, MAX_RATING, MAX_RATING, MAX_RATING])
  const FROM_1000: Box := Box([1000, 1, 1, 1], [MAX_RATING, MAX_RATING, MAX_RATING, MAX_RATING])
  const FROM_2000: Box := Box([2000, 1, 1, 1], [MAX_RATING, MAX_RATING, MAX_RATING, MAX_RATING])

  /** After the first rule the remainder starts at x = 2000; as written, the
      second rule resets its start to 1000. */
  lemma WideningPieces()
    ensures Pieces(AsWritten, WIDENED[START].rules, "A", FULL) == [("R", BELOW_2000), ("A", FROM_1000)]
    ensures Pieces(Fixed, WIDENED[START].rules, "A", FULL) == [("R", BELOW_2000), ("A", FROM_2000)]
  {
    var rules := WIDENED[START].rules;
    assert FULL.hi[0 := Min(FULL.hi[0], 1999)] == BELOW_2000.hi;
    assert FULL.lo[0 := 2000] == FROM_2000.lo && FULL.lo[0 := Max(FULL.lo[0], 2000)] == FROM_2000.lo;
    assert FROM_2000.lo[0 := 1000] == FROM_1000.lo && FROM_2000.lo[0 := Max(FROM_2000.lo[0], 1000)] == FROM_2000.lo;
    assert Cut(AsWritten, rules[0], FULL) == (Some(BELOW_2000), Some(FROM_2000));
    assert Cut(Fixed, rules[0], FULL) == (Some(BELOW_2000), Some(FROM_2000));
    assert Cut(AsWritten, rules[1], FROM_2000) == (None, Some(FROM_1000));
    assert Cut(Fixed, rules[1], FROM_2000) == (None, Some(FROM_2000));
    assert rules[1..][1..] == [];
    assert Pieces(AsWritten, rules[1..], "A", FROM_2000) == [("A", FROM_1000)];
    assert Pieces(Fixed, rules[1..], "A", FROM_2000) == [("A", FROM_2000)];
  }

  /** So, as written, the fallback also receives the parts with x from 1000
      to 1999, which the first rule already rejected. */
  lemma WideningRemainder()
    ensures Route(WIDENED[START].rules, "A", [1500, 1, 1, 1]) == "R"
    ensures Holders(Pieces(AsWritten, WIDENED[START].rules, "A", FULL), [1500, 1, 1, 1]) == ["R", "A"]
  {
    WideningPieces();
    var p: Part := [1500, 1, 1, 1];
    var ps := [("R", BELOW_2000), ("A", FROM_1000)];
    assert Matches(WIDENED[START].rules[0], p);
    assert Contains(BELOW_2000, p) && Contains(FROM_1000, p);
    assert ps[1..] == [("A", FROM_1000)] && ps[1..][1..] == [];
    assert Holders(ps[1..][1..], p) == [];
    assert Holders(ps[1..], p) == ["A"];
  }

  /** And part 2 counts 1000 * 4000^3 combinations too many. */
  lemma WideningCount()
    ensures Part2(AsWritten, WIDENED, START, FULL, 1) == Ok(3001 * 64_000_000_000)
    ensures Part2(Fixed, WIDENED, START, FULL, 1) == Ok(2001 * 64_000_000_000)
  {
    WideningPieces();
    var asWritten := [("R", BELOW_2000), ("A", FROM_1000)];
    var corrected := [("R", BELOW_2000), ("A", FROM_2000)];
    assert asWritten[1..][1..] == [] && corrected[1..][1..] == [];
    assert SumPieces(AsWritten, WIDENED, asWritten[1..], 0) == Ok(Volume(FROM_1000));
    assert SumPieces(Fixed, WIDENED, corrected[1..], 0) == Ok(Volume(FROM_2000));
    assert Volume(FROM_1000) == 3001 * 64_000_000_000;
    assert Volume(FROM_2000) == 2001 * 64_000_000_000;
  }

  // --------------------------------------------------------------- parsing

  /** One `name=value` field of a part; the name is not looked at. */
  function ParseRating(field: string): (r: Result<nat>)
    ensures r.Ok? ==> r.value < U64_LIMIT
  {
    match SplitOnce(field, "=")
    case None => Err(PANIC)
    case Some((_, value)) =>
      match ParseUnsigned(value, U64_LIMIT)
      case None => Err(PANIC)
      case Some(n) => Ok(n)
  }

  /** `Part::parse`: the text between `{` and `}` split at commas; the first
      four fields fill x, m, a and s in order, missing ones stay 0, and
      further fields are not read. */
  function ParsePart(s: string): (r: Result<Part>)
    ensures r.Ok? ==> |s| >= 2 && s[0] == '{' && s[|s| - 1] == '}' && |r.value| == 4
  {
    if |s| < 2 || s[0] != '{' || s[|s| - 1] != '}' then Err(PANIC)
    else
      var fields := Split(s[1..|s| - 1], ",");
      var n := Min(|fields|, 4);
      match MapResults(fields[..n], ParseRating)
      case Err(e) => Err(e)
      case Ok(values) => Ok(values + seq(4 - n, _ => 0))
  }

  /** The first four fields give the ratings in order; missing ones are 0. */
  lemma ParsePartFields(s: string)
    requires ParsePart(s).Ok?
    ensures var fields := Split(s[1..|s| - 1], ",");
      var n := Min(|fields|, 4);
      (forall k :: 0 <= k < n ==> ParseRating(fields[k]) == Ok(ParsePart(s).value[k])) &&
      (forall k :: n <= k < 4 ==> ParsePart(s).value[k] == 0)
  {
    var fields := Split(s[1..|s| - 1], ",");
    var n := Min(|fields|, 4);
    MapResultsSpec(fields[..n], ParseRating);
  }

  function ParseProperty(c: char): Result<Property>
  {
    match c
    case 'x' => Ok(X)
    case 'm' => Ok(M)
    case 'a' => Ok(A)
    case 's' => Ok(S)
    case _ => Err(PANIC)
  }

  function ParseComparison(c: char): Result<Comparison>
  {
    match c
    case '<' => Ok(LessThan)
    case '>' => Ok(GreaterThan)
    case _ => Err(PANIC)
  }

  /** A rule `<property><comparison><threshold>:<destination>`. */
  function ParseRule(text: string): (r: Result<Rule>)
    ensures r.Ok? ==> r.value.threshold < U64_LIMIT
  {
    match SplitOnce(text, ":")
    case None => Err(PANIC)
    case Some((condition, destination)) =>
      if |condition| < 2 then Err(PANIC)
      else match ParseUnsigned(condition[2..], U64_LIMIT)
        case None => Err(PANIC)
        case Some(threshold) =>
          match ParseProperty(condition[0])
          case Err(e) => Err(e)
          case Ok(property) =>
            match ParseComparison(condition[1])
            case Err(e) => Err(e)
            case Ok(comparison) => Ok(Rule(property, comparison, threshold, destination))
  }

  function AllSendTo(rules: seq<Rule>, destination: string): (b: bool)
    ensures b <==> forall i :: 0 <= i < |rules| ==> rules[i].sendTo == destination
  {
    if rules == [] then true
    else
      assert forall i :: 1 <= i < |rules| ==> rules[1..][i - 1] == rules[i];
      rules[0].sendTo == destination && AllSendTo(rules[1..], destination)
  }

  /** `Workflow::parse`: `name{rule,...,fallback}`. The fallback is trimmed;
      when every rule leads to it, the rules are dropped. */
  function ParseWorkflow(s: string): (r: Result<(string, Workflow)>)
    ensures r.Ok? ==> r.value.1.rules == [] || exists i :: 0 <= i < |r.value.1.rules| && r.value.1.rules[i].sendTo != r.value.1.finalDestination
  {
    if s == [] || s[|s| - 1] != '}' then Err(PANIC)
    else match SplitOnce(s[..|s| - 1], "{")
      case None => Err(PANIC)
      case Some((id, body)) =>
        var pieces := Split(body, ",");
        var final := Trim(pieces[|pieces| - 1]);
        match MapResults(pieces[..|pieces| - 1], ParseRule)
        case Err(e) => Err(e)
        case Ok(rules) => Ok((id, Workflow(if AllSendTo(rules, final) then [] else rules, final)))
  }

  // ---------------------------------------------------------------- text

  function PropertyLetter(p: Property): char
  {
    match p
    case X => 'x'
    case M => 'm'
    case A => 'a'
    case S => 's'
  }

  function ComparisonSign(c: Comparison): char
  {
    match c
    case LessThan => '<'
    case GreaterThan => '>'
  }

  /** A rule as the puzzle writes it, e.g. `a<2006:qkq`. */
  function RuleText(rule: Rule): string
  {
    [PropertyLetter(rule.property), ComparisonSign(rule.comparison)] + DecimalText(rule.threshold) + ":" + rule.sendTo
  }

  lemma DigitsHaveNo(n: nat, c: char)
    requires !IsDigit(c)
    ensures c !in DecimalText(n)
  {
    var t := DecimalText(n);
    AllDigitsChars(t);
    forall i | 0 <= i < |t| ensures t[i] != c {
      assert IsDigit(t[i]);
    }
  }

  /** A printed rule parses back to itself. */
  lemma ParseRuleText(rule: Rule)
    requires rule.threshold < U64_LIMIT
    ensures ParseRule(RuleText(rule)) == Ok(rule)
  {
    var condition := [PropertyLetter(rule.property), ComparisonSign(rule.comparison)] + DecimalText(rule.threshold);
    DigitsHaveNo(rule.threshold, ':');
    assert ':' !in condition;
    SplitOnceAtChar(condition, ":", rule.sendTo);
    assert condition[2..] == DecimalText(rule.threshold);
    assert IsDigit(DecimalText(rule.threshold)[0]) by {
      AllDigitsChars(DecimalText(rule.threshold));
    }
    ParseDecimalText(rule.threshold, U64_LIMIT);
  }

  /** A part as the puzzle writes it, e.g. `{x=787,m=2655,a=1222,s=2876}`. */
  function PartText(part: Part): string
    requires |part| == 4
  {
    "{" + RatingsText(part) + "}"
  }

  /** One rating as `name=value`. */
  function RatingText(name: char, n: nat): string
  {
    [name, '='] + DecimalText(n)
  }

  /** The four ratings joined by commas. */
  function RatingsText(part: Part): string
    requires |part| == 4
  {
    RatingText('x', part[0]) + [','] + (RatingText('m', part[1]) + [','] + (RatingText('a', part[2]) + [','] + RatingText('s', part[3])))
  }

  lemma ParseRatingText(name: char, n: nat)
    requires n < U64_LIMIT && name != '='
    ensures ParseRating(RatingText(name, n)) == Ok(n)
  {
    SplitOnceAtChar([name], "=", DecimalText(n));
    assert [name, '='] + DecimalText(n) == [name] + "=" + DecimalText(n);
    assert IsDigit(DecimalText(n)[0]) by {
      AllDigitsChars(DecimalText(n));
    }
    ParseDecimalText(n, U64_LIMIT);
  }

  /** Four comma-free fields joined by commas split back into themselves. */
  lemma SplitFour(f0: string, f1: string, f2: string, f3: string)
    requires ',' !in f0 && ',' !in f1 && ',' !in f2 && ',' !in f3
    ensures Split(f0 + [','] + (f1 + [','] + (f2 + [','] + f3)), [',']) == [f0, f1, f2, f3]
  {
    var t2 := f2 + [','] + f3;
    var t1 := f1 + [','] + t2;
    SplitWithout(f3, ',');
    SplitAtFirst(f2, ',', f3);
    assert Split(t2, [',']) == [f2, f3];
    SplitAtFirst(f1, ',', t2);
    assert Split(t1, [',']) == [f1, f2, f3];
    SplitAtFirst(f0, ',', t1);
  }

  /** The four ratings of a printed part split at its commas. */
  lemma RatingFields(part: Part)
    requires |part| == 4
    ensures Split(RatingsText(part), ",") ==
      [RatingText('x', part[0]), RatingText('m', part[1]), RatingText('a', part[2]), RatingText('s', part[3])]
  {
    NoComma('x', part[0]);
    NoComma('m', part[1]);
    NoComma('a', part[2]);
    NoComma('s', part[3]);
    SplitFour(RatingText('x', part[0]), RatingText('m', part[1]), RatingText('a', part[2]), RatingText('s', part[3]));
  }

  lemma NoComma(name: char, n: nat)
    requires name != ','
    ensures ',' !in RatingText(name, n)
  {
    DigitsHaveNo(n, ',');
  }

  /** A printed part parses back to itself. */
  lemma ParsePartText(part: Part)
    requires |part| == 4 && forall k :: 0 <= k < 4 ==> part[k] < U64_LIMIT
    ensures ParsePart(PartText(part)) == Ok(part)
  {
    var s := PartText(part);
    assert s[1..|s| - 1] == RatingsText(part);
    RatingFields(part);
    var fields := [RatingText('x', part[0]), RatingText('m', part[1]), RatingText('a', part[2]), RatingText('s', part[3])];
    RatingsParse(part, fields);
    assert fields[..4] == fields;
    assert part + seq(0, _ => 0) == part;
  }

  /** The four printed ratings read back as the part's values. */
  lemma RatingsParse(part: Part, fields: seq<string>)
    requires |part| == 4 && forall k :: 0 <= k < 4 ==> part[k] < U64_LIMIT
    requires fields == [RatingText('x', part[0]), RatingText('m', part[1]), RatingText('a', part[2]), RatingText('s', part[3])]
    ensures MapResults(fields, ParseRating) == Ok(part)
  {
    ParseRatingText('x', part[0]);
    ParseRatingText('m', part[1]);
    ParseRatingText('a', part[2]);
    ParseRatingText('s', part[3]);
    assert forall k :: 0 <= k < 4 ==> ParseRating(fields[k]) == Ok(part[k]);
    MapResultsAll(fields, ParseRating, part);
  }

  // ------------------------------------------------------------ the answers

  /** The sum of a part's four ratings. */
  function Rating(part: Part): nat
    requires |part| == 4
  {
    part[0] + part[1] + part[2] + part[3]
  }

  /** `n` added to a count, or the failure that stopped it. */
  function Plus(n: nat, r: Result<nat>): Result<nat>
  {
    match r
    case Err(e) => Err(e)
    case Ok(m) => Ok(n + m)
  }

  /** What one part line adds to part 1: its rating when the part is
      accepted, 0 when it is rejected, or the failure to read or route it. */
  function Outcome(wfs: Workflows, line: string, fuel: nat): Result<nat>
  {
    match ParsePart(line)
    case Err(e) => Err(e)
    case Ok(part) =>
      match Accepted(wfs, part, fuel)
      case Err(e) => Err(e)
      case Ok(accepted) => Ok(if accepted then Rating(part) else 0)
  }

  /** Part 1 over the part lines, read and routed one after another: the
      total rating of the accepted parts, or the first failure. */
  function Part1(wfs: Workflows, lines: seq<string>, fuel: nat): Result<nat>
  {
    if lines == [] then Ok(0)
    else match Part1(wfs, lines[..|lines| - 1], fuel)
      case Err(e) => Err(e)
      case Ok(total) => Plus(total, Outcome(wfs, lines[|lines| - 1], fuel))
  }

  /** The two blocks of the input: the workflows, collected by name, and
      the part lines. */
  function ParseInput(input: string): (r: Result<(Workflows, seq<string>)>)
    ensures r.Ok? ==> SplitOnce(input, "\n\n").Some?
  {
    match SplitOnce(input, "\n\n")
    case None => Err(PANIC)
    case Some((top, bottom)) =>
      match MapResults(Lines(top), ParseWorkflow)
      case Err(e) => Err(e)
      case Ok(entries) => Ok((Collect(entries), Lines(bottom)))
  }

  /** `solve`: both answers for the input, part 2 with the fixes of the
      findings; part 2 is computed by `DoPart2`. */
  function Solve(input: string, fuel: nat): Result<(nat, nat)>
  {
    match ParseInput(input)
    case Err(e) => Err(e)
    case Ok((wfs, lines)) =>
      match Part1(wfs, lines, fuel)
      case Err(e) => Err(e)
      case Ok(a) =>
        match Part2(Fixed, wfs, START, FULL, fuel)
        case Err(e) => Err(e)
        case Ok(b) => Ok((a, b))
  }

  /** The first line that cannot be read or routed decides part 1. */
  lemma {:induction false} Part1Fails(wfs: Workflows, lines: seq<string>, fuel: nat, n: nat)
    requires n <= |lines| && Part1(wfs, lines[..n], fuel).Err?
    ensures Part1(wfs, lines, fuel) == Part1(wfs, lines[..n], fuel)
    decreases |lines| - n
  {
    if n < |lines| {
      assert lines[..n + 1][..n] == lines[..n];
      Part1Fails(wfs, lines, fuel, n + 1);
    } else {
      assert lines[..n] == lines;
    }
  }
}
