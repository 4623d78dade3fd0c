/** Day 20: Pulse Propagation. Modules pass high and low pulses: the
    broadcaster repeats what it receives, a flip-flop toggles on a low pulse
    and reports its new state, and a NAND gate remembers the last pulse of
    each input and sends low only when all of them were high. Part 1 counts
    the pulses of 1000 button presses; part 2 reads the period of each
    counter chain hanging off the broadcaster and multiplies them. */
module Day20 {
  import opened Util

  const PANIC: string := "panic"
  const OUT_OF_FUEL: string := "out of fuel"

  const BROADCASTER: string := "broadcaster"
  const BUTTON: string := "button"

  /** The number of button presses of part 1. */
  const PRESSES: nat := 1000

  /** `u64` arithmetic wraps modulo 2^64 in a release build. */
  const U64_LIMIT: nat := 0x1_0000_0000_0000_0000

  datatype ModuleType = Broadcaster | FlipFlop(on: bool) | Nand(memory: map<string, bool>)

  datatype Module = Module(ty: ModuleType, destinations: seq<string>)

  type Modules = map<string, Module>

  // --------------------------------------------------------------- parsing

  /** A module as it comes out of parsing: a flip-flop is off, a NAND gate
      remembers nothing yet, and only `broadcaster` is the broadcaster. */
  predicate Fresh(name: string, m: Module)
  {
    (m.ty.FlipFlop? ==> !m.ty.on) && (m.ty.Nand? ==> m.ty.memory == map[]) &&
    (m.ty.Broadcaster? ==> name == BROADCASTER)
  }

  /** `Module::parse`: `<kind><name> -> <destination>, ...`, where the left
      side is `broadcaster` or starts with `%` (flip-flop) or `&` (NAND). */
  function ParseModule(s: string): (r: Result<(string, Module)>)
    ensures r.Ok? ==> Fresh(r.value.0, r.value.1)
    ensures r.Ok? ==> SplitOnce(s, " -> ").Some? && r.value.1.destinations == Split(SplitOnce(s, " -> ").value.1, ", ")
  {
    match SplitOnce(s, " -> ")
    case None => Err(PANIC)
    case Some((lhs, rhs)) =>
      var destinations := Split(rhs, ", ");
      if lhs == BROADCASTER then Ok((BROADCASTER, Module(Broadcaster, destinations)))
      else if |lhs| < 1 then Err(PANIC)
      else if lhs[0] == '%' then Ok((lhs[1..], Module(FlipFlop(false), destinations)))
      else if lhs[0] == '&' then Ok((lhs[1..], Module(Nand(map[]), destinations)))
      else Err(PANIC)
  }

  /** The text of a module line with the given left side. */
  function ModuleText(lhs: string, rhs: string): string
  {
    lhs + " -> " + rhs
  }

  /** A flip-flop line names the flip-flop after its `%`; it starts off. */
  lemma ParseFlipFlop(name: string, rhs: string)
    requires ' ' !in name
    ensures ParseModule(ModuleText("%" + name, rhs)) == Ok((name, Module(FlipFlop(false), Split(rhs, ", "))))
  {
    SplitOnceAtChar("%" + name, " -> ", rhs);
    assert ("%" + name)[1..] == name;
  }

  /** A NAND line names the gate after its `&`; it remembers no input yet. */
  lemma ParseNand(name: string, rhs: string)
    requires ' ' !in name
    ensures ParseModule(ModuleText("&" + name, rhs)) == Ok((name, Module(Nand(map[]), Split(rhs, ", "))))
  {
    SplitOnceAtChar("&" + name, " -> ", rhs);
    assert ("&" + name)[1..] == name;
  }

  lemma ParseBroadcaster(rhs: string)
    ensures ParseModule(ModuleText(BROADCASTER, rhs)) == Ok((BROADCASTER, Module(Broadcaster, Split(rhs, ", "))))
  {
    SplitOnceAtChar(BROADCASTER, " -> ", rhs);
  }

  /** Any other left side panics. */
  lemma ParseUnknown(lhs: string, rhs: string)
    requires ' ' !in lhs && lhs != BROADCASTER
    requires lhs == [] || (lhs[0] != '%' && lhs[0] != '&')
    ensures ParseModule(ModuleText(lhs, rhs)).Err?
  {
    SplitOnceAtChar(lhs, " -> ", rhs);
  }

  /** The modules that list `name` among their destinations. */
  function Inputs(modules: Modules, name: string): set<string>
  {
    set src | src in modules && name in modules[src].destinations
  }

  /** The wiring pass of `solve`: every NAND gate remembers a low pulse from
      each module that lists it as a destination; other modules are kept. */
  function WireNands(modules: Modules): (r: Modules)
    ensures r.Keys == modules.Keys
    ensures forall name :: name in modules ==> r[name].destinations == modules[name].destinations
    ensures forall name :: name in modules && !modules[name].ty.Nand? ==> r[name] == modules[name]
    ensures forall name :: name in modules && modules[name].ty.Nand? ==>
      r[name].ty.Nand? && r[name].ty.memory.Keys == modules[name].ty.memory.Keys + Inputs(modules, name) &&
      forall src :: src in Inputs(modules, name) ==> !r[name].ty.memory[src]
  {
    map name | name in modules ::
      var m := modules[name];
      if m.ty.Nand? then Module(Nand(m.ty.memory + map src | src in Inputs(modules, name) :: false), m.destinations)
      else m
  }

  // ------------------------------------------------------------ the pulses

  datatype Pulse = Pulse(to: string, high: bool, from: string)

  /** The same pulse from `from` to every destination, in order. */
  function Send(destinations: seq<string>, high: bool, from: string): (ps: seq<Pulse>)
    ensures |ps| == |destinations|
    ensures forall i :: 0 <= i < |ps| ==> ps[i] == Pulse(destinations[i], high, from)
  {
    seq(|destinations|, i requires 0 <= i < |destinations| => Pulse(destinations[i], high, from))
  }

  predicate AllHigh(memory: map<string, bool>)
  {
    forall src :: src in memory ==> memory[src]
  }

  /** One pulse delivered: the modules afterwards and the pulses sent, in order.
      A pulse to a name that is no module changes nothing. */
  function Deliver(modules: Modules, p: Pulse): (Modules, seq<Pulse>)
  {
    if p.to !in modules then (modules, [])
    else
      var m := modules[p.to];
      match m.ty
      case Broadcaster => (modules, Send(m.destinations, p.high, BROADCASTER))
      case FlipFlop(on) =>
        if p.high then (modules, [])
        else (modules[p.to := Module(FlipFlop(!on), m.destinations)], Send(m.destinations, !on, p.to))
      case Nand(memory) =>
        var remembered := memory[p.from := p.high];
        (modules[p.to := Module(Nand(remembered), m.destinations)], Send(m.destinations, !AllHigh(remembered), p.to))
  }

  /** The modules with the number of high and low pulses counted so far. */
  datatype Tally = Tally(modules: Modules, high: nat, low: nat)

  /** The pulses of the queue handled first in, first out, each counted
      when it is taken, with a budget of `fuel` pulses. */
  function Drain(t: Tally, queue: seq<Pulse>, fuel: nat): Result<Tally>
    decreases fuel
  {
    if queue == [] then Ok(t)
    else if fuel == 0 then Err(OUT_OF_FUEL)
    else
      var p := queue[0];
      var (modules, sent) := Deliver(t.modules, p);
      var counted := if p.high then Tally(modules, t.high + 1, t.low) else Tally(modules, t.high, t.low + 1);
      Drain(counted, queue[1..] + sent, fuel - 1)
  }

  /** One button press: a low pulse from the button to the broadcaster. */
  function Press(t: Tally, fuel: nat): Result<Tally>
  {
    Drain(t, [Pulse(BROADCASTER, false, BUTTON)], fuel)
  }

  /** `k` presses one after another, each with a budget of `fuel` pulses. */
  function Presses(t: Tally, k: nat, fuel: nat): Result<Tally>
  {
    if k == 0 then Ok(t)
    else match Presses(t, k - 1, fuel)
      case Err(e) => Err(e)
      case Ok(u) => Press(u, fuel)
  }

  /** Part 1: the product of the high and the low pulses of 1000 presses. */
  function Part1(modules: Modules, fuel: nat): Result<nat>
  {
    match Presses(Tally(modules, 0, 0), PRESSES, fuel)
    case Err(e) => Err(e)
    case Ok(t) => Ok(t.high * t.low)
  }

  /** Every pulse taken from the queue is counted, even one to a name that
      is no module. */
  lemma {:induction false} DrainCounts(t: Tally, queue: seq<Pulse>, fuel: nat)
    requires Drain(t, queue, fuel).Ok?
    ensures Drain(t, queue, fuel).value.high + Drain(t, queue, fuel).value.low >= t.high + t.low + |queue|
    decreases fuel
  {
    if queue != [] {
      var p := queue[0];
      var (modules, sent) := Deliver(t.modules, p);
      var counted := if p.high then Tally(modules, t.high + 1, t.low) else Tally(modules, t.high, t.low + 1);
      DrainCounts(counted, queue[1..] + sent, fuel - 1);
    }
  }

  /** A press that ends counts at least the button's pulse. */
  lemma PressCounts(t: Tally, fuel: nat)
    requires Press(t, fuel).Ok?
    ensures Press(t, fuel).value.low + Press(t, fuel).value.high > t.high + t.low
  {
    DrainCounts(t, [Pulse(BROADCASTER, false, BUTTON)], fuel);
  }

  /** Once a press fails, every later count of presses fails the same way. */
  lemma {:induction false} PressesFail(t: Tally, j: nat, k: nat, fuel: nat)
    requires j <= k && Presses(t, j, fuel).Err?
    ensures Presses(t, k, fuel) == Presses(t, j, fuel)
    decreases k
  {
    if j < k {
      PressesFail(t, j, k - 1, fuel);
    }
  }

  // ----------------------------------------------- what the gates remember

  /** Every NAND gate remembers exactly its inputs, and the broadcaster is
      the module named `broadcaster`. */
  ghost predicate Remembers(modules: Modules)
  {
    forall name :: name in modules ==>
      (modules[name].ty.Nand? ==> modules[name].ty.memory.Keys == Inputs(modules, name)) &&
      (modules[name].ty.Broadcaster? ==> name == BROADCASTER)
  }

  /** A pulse to a NAND gate comes from one of its inputs. */
  ghost predicate WiredPulse(modules: Modules, p: Pulse)
  {
    p.to in modules && modules[p.to].ty.Nand? ==> p.from in Inputs(modules, p.to)
  }

  ghost predicate Wired(modules: Modules, queue: seq<Pulse>)
  {
    forall i :: 0 <= i < |queue| ==> WiredPulse(modules, queue[i])
  }

  /** The same names, destinations and kinds of module. */
  ghost predicate SameWiring(a: Modules, b: Modules)
  {
    a.Keys == b.Keys &&
    forall name :: name in a ==>
      b[name].destinations == a[name].destinations && b[name].ty.Nand? == a[name].ty.Nand? &&
      b[name].ty.Broadcaster? == a[name].ty.Broadcaster?
  }

  lemma SameInputs(a: Modules, b: Modules, name: string)
    requires SameWiring(a, b)
    ensures Inputs(a, name) == Inputs(b, name)
  {
  }

  /** Parsed modules, once wired, remember exactly their inputs. */
  lemma WiredRemembers(modules: Modules)
    requires forall name :: name in modules ==> Fresh(name, modules[name])
    ensures Remembers(WireNands(modules))
  {
    var r := WireNands(modules);
    assert SameWiring(modules, r);
    forall name | name in r
      ensures r[name].ty.Nand? ==> r[name].ty.memory.Keys == Inputs(r, name)
    {
      SameInputs(modules, r, name);
    }
  }

  /** The modules collected from parsed lines are as parsing leaves them. */
  lemma CollectFresh(entries: seq<(string, Module)>)
    requires forall i :: 0 <= i < |entries| ==> Fresh(entries[i].0, entries[i].1)
    ensures forall name :: name in Collect(entries) ==> Fresh(name, Collect(entries)[name])
  {
    CollectKeeps(entries, (e: (string, Module)) => Fresh(e.0, e.1));
  }

  /** Delivering a pulse keeps the wiring, what the gates remember, and
      sends only pulses from an input of their destination. */
  lemma DeliverKeeps(modules: Modules, p: Pulse, rest: seq<Pulse>)
    requires Remembers(modules) && WiredPulse(modules, p) && Wired(modules, rest)
    ensures SameWiring(modules, Deliver(modules, p).0)
    ensures Remembers(Deliver(modules, p).0)
    ensures Wired(Deliver(modules, p).0, rest + Deliver(modules, p).1)
  {
    var (after, sent) := Deliver(modules, p);
    assert SameWiring(modules, after);
    forall name | name in after
      ensures after[name].ty.Nand? ==> after[name].ty.memory.Keys == Inputs(after, name)
    {
      SameInputs(modules, after, name);
    }
    var queue := rest + sent;
    forall i | 0 <= i < |queue| ensures WiredPulse(after, queue[i]) {
      SameInputs(modules, after, queue[i].to);
      if i >= |rest| {
        assert sent[i - |rest|] == queue[i];
      }
    }
  }

  /** Draining a queue of pulses from inputs keeps what the gates remember. */
  lemma {:induction false} DrainRemembers(t: Tally, queue: seq<Pulse>, fuel: nat)
    requires Remembers(t.modules) && Wired(t.modules, queue)
    ensures Drain(t, queue, fuel).Ok? ==> Remembers(Drain(t, queue, fuel).value.modules)
    decreases fuel
  {
    if queue != [] && fuel > 0 {
      var p := queue[0];
      DeliverKeeps(t.modules, p, queue[1..]);
      var (modules, sent) := Deliver(t.modules, p);
      var counted := if p.high then Tally(modules, t.high + 1, t.low) else Tally(modules, t.high, t.low + 1);
      DrainRemembers(counted, queue[1..] + sent, fuel - 1);
    }
  }

  /** So, unless the broadcaster's name belongs to a NAND gate, presses keep
      every NAND gate remembering exactly its inputs. */
  lemma {:induction false} PressesRemember(t: Tally, k: nat, fuel: nat)
    requires Remembers(t.modules)
    requires BROADCASTER !in t.modules || !t.modules[BROADCASTER].ty.Nand?
    ensures Presses(t, k, fuel).Ok? ==> Remembers(Presses(t, k, fuel).value.modules)
  {
    if k > 0 {
      PressesRemember(t, k - 1, fuel);
      match Presses(t, k - 1, fuel)
      case Err(_) =>
      case Ok(u) =>
        DrainKeepsKinds(t, k - 1, fuel);
        DrainRemembers(u, [Pulse(BROADCASTER, false, BUTTON)], fuel);
    }
  }

  /** Presses keep the kind of every module. */
  lemma {:induction false} DrainKeepsKinds(t: Tally, k: nat, fuel: nat)
    requires Remembers(t.modules)
    requires BROADCASTER !in t.modules || !t.modules[BROADCASTER].ty.Nand?
    requires Presses(t, k, fuel).Ok?
    ensures SameWiring(t.modules, Presses(t, k, fuel).value.modules)
  {
    if k > 0 {
      DrainKeepsKinds(t, k - 1, fuel);
      PressesRemember(t, k - 1, fuel);
      var u := Presses(t, k - 1, fuel).value;
      DrainWiring(u, [Pulse(BROADCASTER, false, BUTTON)], fuel);
    }
  }

  lemma {:induction false} DrainWiring(t: Tally, queue: seq<Pulse>, fuel: nat)
    requires Drain(t, queue, fuel).Ok?
    ensures SameWiring(t.modules, Drain(t, queue, fuel).value.modules)
    decreases fuel
  {
    if queue != [] {
      var p := queue[0];
      var (modules, sent) := Deliver(t.modules, p);
      assert SameWiring(t.modules, modules);
      var counted := if p.high then Tally(modules, t.high + 1, t.low) else Tally(modules, t.high, t.low + 1);
      DrainWiring(counted, queue[1..] + sent, fuel - 1);
    }
  }

  // ------------------------------------------------------ the simulation

  /** `solve_part1`: 1000 presses, each draining its queue of pulses. */
  method SolvePart1(modules: Modules, fuel: nat) returns (r: Result<nat>)
    ensures r == Part1(modules, fuel)
  {
    var t := Tally(modules, 0, 0);
    for step := 0 to PRESSES
      invariant Presses(Tally(modules, 0, 0), step, fuel) == Ok(t)
    {
      var next := PressButton(t, fuel);
      if next.Err? {
        PressesFail(Tally(modules, 0, 0), step + 1, PRESSES, fuel);
        return Err(next.reason);
      }
      t := next.value;
    }
    return Ok(t.high * t.low);
  }

  /** Taking the first pulse of the queue, counting and delivering it,
      leaves the same result to drain. */
  lemma DrainTakes(t: Tally, queue: seq<Pulse>, fuel: nat, modules: Modules, high: nat, low: nat, rest: seq<Pulse>)
    requires queue != [] && fuel > 0 && |rest| >= |queue| - 1
    requires (modules, rest[|queue| - 1..]) == Deliver(t.modules, queue[0]) && rest[..|queue| - 1] == queue[1..]
    requires high == t.high + Bit(queue[0].high) && low == t.low + 1 - Bit(queue[0].high)
    ensures Drain(Tally(modules, high, low), rest, fuel - 1) == Drain(t, queue, fuel)
  {
    assert rest == queue[1..] + rest[|queue| - 1..];
  }

  /** One press: the pulses taken from the front of the queue, counted, and
      delivered, the module's state updated in place. */
  method PressButton(t: Tally, fuel: nat) returns (r: Result<Tally>)
    ensures r == Press(t, fuel)
  {
    var modules := t.modules;
    var high, low := t.high, t.low;
    var queue := [Pulse(BROADCASTER, false, BUTTON)];
    var n := 0;
    while queue != []
      invariant n <= fuel
      invariant Drain(Tally(modules, high, low), queue, fuel - n) == Press(t, fuel)
      decreases fuel - n
    {
      if n == fuel {
        return Err(OUT_OF_FUEL);
      }
      ghost var before := Tally(modules, high, low);
      ghost var pending := queue;
      var p := queue[0];
      queue := queue[1..];
      if p.high {
        high := high + 1;
      } else {
        low := low + 1;
      }
      n := n + 1;
      if p.to !in modules {
        assert queue == queue + [];
        DrainTakes(before, pending, fuel - n + 1, modules, high, low, queue);
        continue;
      }
      var m := modules[p.to];
      match m.ty {
        case Broadcaster =>
          queue := queue + Send(m.destinations, p.high, BROADCASTER);
        case FlipFlop(on) =>
          if !p.high {
            modules := modules[p.to := Module(FlipFlop(!on), m.destinations)];
            queue := queue + Send(m.destinations, !on, p.to);
          }
        case Nand(memory) =>
          var remembered := memory[p.from := p.high];
          modules := modules[p.to := Module(Nand(remembered), m.destinations)];
          queue := queue + Send(m.destinations, !AllHigh(remembered), p.to);
      }
      DrainTakes(before, pending, fuel - n + 1, modules, high, low, queue);
    }
    return Ok(Tally(modules, high, low));
  }

  // ------------------------------------------------------ counter periods

  function Bit(b: bool): nat
  {
    if b then 1 else 0
  }

  /** The number whose bits, least significant first, are `bs`. */
  function Value(bs: seq<bool>): nat
  {
    if bs == [] then 0 else Bit(bs[0]) + 2 * Value(bs[1..])
  }

  /** The number whose bits, most significant first, are `bs`. */
  function Msb(bs: seq<bool>): nat
  {
    if bs == [] then 0 else 2 * Msb(bs[..|bs| - 1]) + Bit(bs[|bs| - 1])
  }

  /** The lowest `n` bits of `p`, least significant first. */
  function Bits(p: nat, n: nat): (bs: seq<bool>)
    ensures |bs| == n
  {
    if n == 0 then [] else [p % 2 == 1] + Bits(p / 2, n - 1)
  }

  function Zeros(k: nat): (z: seq<bool>)
    ensures |z| == k && forall i :: 0 <= i < k ==> !z[i]
  {
    seq(k, _ => false)
  }

  /** The number of `false` at the front of `bs`. */
  function LeadingFalse(bs: seq<bool>): (n: nat)
    ensures n <= |bs|
  {
    if bs == [] || bs[0] then 0 else 1 + LeadingFalse(bs[1..])
  }

  /** `reverse_bits` on a `width`-bit integer. */
  function ReverseBits(p: nat, width: nat): nat
  {
    Value(Reverse(Bits(p, width)))
  }

  /** `leading_zeros` on a `width`-bit integer. */
  function LeadingZeros(p: nat, width: nat): nat
  {
    LeadingFalse(Reverse(Bits(p, width)))
  }

  /** `period.reverse_bits() >> period.leading_zeros()` on a `u64`; in a
      release build the shift amount is taken modulo 64, so a period of 0
      gives 0. */
  function Reversed(period: nat): nat
  {
    ReverseBits(period, 64) / Pow(2, LeadingZeros(period, 64) % 64)
  }

  /** `period |= 1`. */
  function SetLowBit(p: nat): nat
  {
    if p % 2 == 1 then p else p + 1
  }

  lemma {:induction false} MsbIsReversedValue(bs: seq<bool>)
    ensures Msb(bs) == Value(Reverse(bs))
  {
    if bs != [] {
      var n := |bs| - 1;
      MsbIsReversedValue(bs[..n]);
      var r := Reverse(bs);
      assert r[0] == bs[n];
      assert r[1..] == Reverse(bs[..n]);
    }
  }

  lemma {:induction false} BitsOfValue(bs: seq<bool>)
    ensures Bits(Value(bs), |bs|) == bs
  {
    if bs != [] {
      var v := Value(bs);
      assert v % 2 == Bit(bs[0]) && v / 2 == Value(bs[1..]) by {
        DivModUnique(v, 2, Value(bs[1..]), Bit(bs[0]));
      }
      BitsOfValue(bs[1..]);
    }
  }

  lemma {:induction false} ValueOfZeros(k: nat)
    ensures Value(Zeros(k)) == 0
  {
    if k > 0 {
      assert Zeros(k)[1..] == Zeros(k - 1);
      ValueOfZeros(k - 1);
    }
  }

  /** Zeros above the top bit add nothing. */
  lemma {:induction false} ValueHighZeros(bs: seq<bool>, k: nat)
    ensures Value(bs + Zeros(k)) == Value(bs)
  {
    if bs == [] {
      assert bs + Zeros(k) == Zeros(k);
      ValueOfZeros(k);
    } else {
      assert (bs + Zeros(k))[1..] == bs[1..] + Zeros(k);
      ValueHighZeros(bs[1..], k);
    }
  }

  /** Zeros below the bottom bit shift the value up. */
  lemma {:induction false} ValueLowZeros(k: nat, bs: seq<bool>)
    ensures Value(Zeros(k) + bs) == Pow(2, k) * Value(bs)
  {
    if k > 0 {
      assert (Zeros(k) + bs)[1..] == Zeros(k - 1) + bs;
      ValueLowZeros(k - 1, bs);
    } else {
      assert Zeros(k) + bs == bs;
    }
  }

  lemma {:induction false} LeadingFalseOfZeros(k: nat, bs: seq<bool>)
    requires bs != [] && bs[0]
    ensures LeadingFalse(Zeros(k) + bs) == k
  {
    if k > 0 {
      assert (Zeros(k) + bs)[1..] == Zeros(k - 1) + bs;
      LeadingFalseOfZeros(k - 1, bs);
    } else {
      assert Zeros(k) + bs == bs;
    }
  }

  lemma ReverseWithZeros(cs: seq<bool>, k: nat)
    ensures Reverse(Reverse(cs) + Zeros(k)) == Zeros(k) + cs
  {
    var a := Reverse(Reverse(cs) + Zeros(k));
    var b := Zeros(k) + cs;
    assert |a| == |b|;
    forall i | 0 <= i < |a| ensures a[i] == b[i] {
      var j := |cs| + k - 1 - i;
      assert a[i] == (Reverse(cs) + Zeros(k))[j];
      if i >= k {
        assert Reverse(cs)[j] == cs[i - k];
      }
    }
  }

  /** The bits of a chain read most significant first, least significant
      first: the chain reversed, then zeros up to the width. */
  lemma ChainBits(cs: seq<bool>, width: nat)
    requires |cs| <= width
    ensures Bits(Msb(cs), width) == Reverse(cs) + Zeros(width - |cs|)
  {
    var k := width - |cs|;
    MsbIsReversedValue(cs);
    ValueHighZeros(Reverse(cs), k);
    BitsOfValue(Reverse(cs) + Zeros(k));
  }

  lemma ChainReverseBits(cs: seq<bool>, width: nat)
    requires |cs| <= width
    ensures ReverseBits(Msb(cs), width) == Pow(2, width - |cs|) * Value(cs)
  {
    var k := width - |cs|;
    ChainBits(cs, width);
    ReverseWithZeros(cs, k);
    ValueLowZeros(k, cs);
  }

  lemma ChainLeadingZeros(cs: seq<bool>, width: nat)
    requires 0 < |cs| <= width && cs[0]
    ensures LeadingZeros(Msb(cs), width) == width - |cs|
  {
    var k := width - |cs|;
    ChainBits(cs, width);
    ReverseWithZeros(cs, k);
    LeadingFalseOfZeros(k, cs);
  }

  lemma DivExact(a: nat, b: nat)
    requires b > 0
    ensures b * a / b == a
  {
    DivModUnique(b * a, b, a, 0);
  }

  /** The flip-flops of a chain, most significant first, read back least
      significant first: when the chain fits in 64 bits and its first
      flip-flop feeds the gate, the reversal gives the counter value whose
      bit `i` is set exactly when flip-flop `i` feeds the gate. */
  lemma ReversedChain(cs: seq<bool>)
    requires 0 < |cs| <= 64 && cs[0]
    ensures Reversed(Msb(cs)) == Value(cs)
  {
    ChainReverseBits(cs, 64);
    ChainLeadingZeros(cs, 64);
    ReversedOfShift(Msb(cs), Value(cs), 64 - |cs|);
  }

  /** Reversing a word whose `k` leading zeros come back as `k` low zeros
      and shifting them out leaves the value above them. */
  lemma ReversedOfShift(m: nat, v: nat, k: nat)
    requires k < 64
    requires ReverseBits(m, 64) == Pow(2, k) * v
    requires LeadingZeros(m, 64) == k
    ensures Reversed(m) == v
  {
    DivModUnique(k, 64, 0, k);
    DivExact(v, Pow(2, k));
  }

  /** `modules[c].is_nand()` over the children, stopping at the first NAND
      gate; a child that is no module panics once it is reached. */
  function AnyNand(modules: Modules, children: seq<string>): Result<bool>
  {
    if children == [] then Ok(false)
    else if children[0] !in modules then Err(PANIC)
    else if modules[children[0]].ty.Nand? then Ok(true)
    else AnyNand(modules, children[1..])
  }

  /** The first child that is a flip-flop, with the same panics. */
  function FindFlipFlop(modules: Modules, children: seq<string>): Result<Option<string>>
  {
    if children == [] then Ok(None)
    else if children[0] !in modules then Err(PANIC)
    else if modules[children[0]].ty.FlipFlop? then Ok(Some(children[0]))
    else FindFlipFlop(modules, children[1..])
  }

  /** The chain of flip-flops from `bit`: for each, whether one of its
      destinations is a NAND gate, following its first flip-flop
      destination until none is left, within `fuel` steps. */
  function Chain(modules: Modules, bit: string, fuel: nat): Result<seq<bool>>
    decreases fuel
  {
    if bit !in modules then Err(PANIC)
    else
      var children := modules[bit].destinations;
      match AnyNand(modules, children)
      case Err(e) => Err(e)
      case Ok(count) =>
        match FindFlipFlop(modules, children)
        case Err(e) => Err(e)
        case Ok(None) => Ok([count])
        case Ok(Some(next)) =>
          if fuel == 0 then Err(OUT_OF_FUEL)
          else match Chain(modules, next, fuel - 1)
            case Err(e) => Err(e)
            case Ok(rest) => Ok([count] + rest)
  }

  /** The period of the branch from `bit`: its chain read as a `u64`, most
      significant first, then reversed. */
  function Period(modules: Modules, bit: string, fuel: nat): Result<nat>
  {
    match Chain(modules, bit, fuel)
    case Err(e) => Err(e)
    case Ok(cs) => Ok(Reversed(Msb(cs) % U64_LIMIT))
  }

  /** A chain that fits in 64 bits and whose first flip-flop feeds the gate
      has as period the counter value its gate watches for. */
  lemma PeriodOfChain(modules: Modules, bit: string, fuel: nat)
    requires Chain(modules, bit, fuel).Ok?
    requires 0 < |Chain(modules, bit, fuel).value| <= 64 && Chain(modules, bit, fuel).value[0]
    ensures Period(modules, bit, fuel) == Ok(Value(Chain(modules, bit, fuel).value))
  {
    var cs := Chain(modules, bit, fuel).value;
    var m := Msb(cs);
    MsbFits(cs);
    assert m % U64_LIMIT == m by {
      DivModUnique(m, U64_LIMIT, 0, m);
    }
    ReversedChain(cs);
  }

  lemma {:induction false} MsbBound(bs: seq<bool>)
    ensures Msb(bs) < Pow(2, |bs|)
  {
    if bs != [] {
      MsbBound(bs[..|bs| - 1]);
    }
  }

  lemma PowWord()
    ensures Pow(2, 64) == U64_LIMIT
  {
    assert Pow(2, 2) == 4;
    PowAdd(2, 2);
    assert Pow(2, 4) == 16;
    PowAdd(4, 4);
    assert Pow(2, 8) == 256;
    PowAdd(8, 8);
    assert Pow(2, 16) == 65536;
    PowAdd(16, 16);
    assert Pow(2, 32) == 0x1_0000_0000;
    PowAdd(32, 32);
  }

  lemma {:induction false} PowAdd(a: nat, b: nat)
    ensures Pow(2, a + b) == Pow(2, a) * Pow(2, b)
  {
    if b > 0 {
      PowAdd(a, b - 1);
    }
  }

  /** A chain of at most 64 flip-flops fits in a `u64`. */
  lemma MsbFits(bs: seq<bool>)
    requires |bs| <= 64
    ensures Msb(bs) < U64_LIMIT
  {
    MsbBound(bs);
    PowMonotone(|bs|, 64);
    PowWord();
  }

  lemma {:induction false} PowMonotone(a: nat, b: nat)
    requires a <= b
    ensures Pow(2, a) <= Pow(2, b)
    decreases b
  {
    if a < b {
      PowMonotone(a, b - 1);
    }
  }

  /** The period of `[]` followed by `bs` is 0 followed by more bits. */
  lemma MsbSnoc(bs: seq<bool>, b: bool)
    ensures Msb(bs + [b]) == 2 * Msb(bs) + Bit(b)
  {
    assert (bs + [b])[..|bs|] == bs;
  }

  /** Wrapping after each step gives the wrapped value. */
  lemma WrapStep(x: nat, b: bool)
    ensures (2 * (x % U64_LIMIT) + Bit(b)) % U64_LIMIT == (2 * x + Bit(b)) % U64_LIMIT
  {
    var q := x / U64_LIMIT;
    var r := x % U64_LIMIT;
    assert 2 * x + Bit(b) == 2 * q * U64_LIMIT + (2 * r + Bit(b));
    DivModUnique(2 * x + Bit(b), U64_LIMIT, 2 * q + (2 * r + Bit(b)) / U64_LIMIT, (2 * r + Bit(b)) % U64_LIMIT);
  }

  /** `period |= 1` when the flip-flop feeds the gate appends its bit. */
  lemma RegisterCount(seen: seq<bool>, count: bool, period: nat)
    requires period == Msb(seen + [false]) % U64_LIMIT
    ensures (if count then SetLowBit(period) else period) == Msb(seen + [count]) % U64_LIMIT
  {
    MsbSnoc(seen, false);
    MsbSnoc(seen, count);
    WrapStep(Msb(seen), false);
    WrapStep(Msb(seen), count);
  }

  /** `period <<= 1` appends a zero bit, wrapping at 64 bits. */
  lemma RegisterShift(seen: seq<bool>, period: nat)
    requires period == Msb(seen) % U64_LIMIT
    ensures period * 2 % U64_LIMIT == Msb(seen + [false]) % U64_LIMIT
  {
    MsbSnoc(seen, false);
    WrapStep(Msb(seen), false);
  }

  /** The loop of one branch of `solve_part2`: set the low bit when a child
      is a NAND gate, then move to the first flip-flop child, shifting the
      period left, or stop. */
  method WalkBranch(modules: Modules, bit: string, fuel: nat) returns (r: Result<nat>)
    ensures r == Period(modules, bit, fuel)
  {
    var node := bit;
    var period: nat := 0;
    var n := 0;
    ghost var seen: seq<bool> := [];
    ContinueStart(modules, bit, fuel);
    while true
      invariant n <= fuel
      invariant period == Msb(seen + [false]) % U64_LIMIT
      invariant Period(modules, bit, fuel) == Continue(seen, modules, node, fuel - n)
      decreases fuel - n
    {
      if node !in modules {
        return Err(PANIC);
      }
      var children := modules[node].destinations;
      var count := AnyNand(modules, children);
      if count.Err? {
        return Err(count.reason);
      }
      RegisterCount(seen, count.value, period);
      if count.value {
        period := SetLowBit(period);
      }
      var next := FindFlipFlop(modules, children);
      if next.Err? {
        return Err(next.reason);
      }
      if next.value.None? {
        return Ok(Reversed(period));
      }
      if n == fuel {
        return Err(OUT_OF_FUEL);
      }
      RegisterShift(seen + [count.value], period);
      period := period * 2 % U64_LIMIT;
      ContinueStep(seen, modules, node, count.value, next.value.value, fuel - n);
      seen := seen + [count.value];
      node := next.value.value;
      n := n + 1;
    }
  }

  /** The period of a branch whose chain so far is `seen` and goes on from `node`. */
  ghost function Continue(seen: seq<bool>, modules: Modules, node: string, fuel: nat): Result<nat>
  {
    match Chain(modules, node, fuel)
    case Err(e) => Err(e)
    case Ok(cs) => Ok(Reversed(Msb(seen + cs) % U64_LIMIT))
  }

  lemma ContinueStart(modules: Modules, bit: string, fuel: nat)
    ensures Continue([], modules, bit, fuel) == Period(modules, bit, fuel)
  {
    if Chain(modules, bit, fuel).Ok? {
      assert [] + Chain(modules, bit, fuel).value == Chain(modules, bit, fuel).value;
    }
  }

  /** One more flip-flop of the chain moves from `seen` into the bits read. */
  lemma ContinueStep(seen: seq<bool>, modules: Modules, node: string, count: bool, next: string, fuel: nat)
    requires node in modules && fuel > 0
    requires AnyNand(modules, modules[node].destinations) == Ok(count)
    requires FindFlipFlop(modules, modules[node].destinations) == Ok(Some(next))
    ensures Continue(seen + [count], modules, next, fuel - 1) == Continue(seen, modules, node, fuel)
  {
    if Chain(modules, next, fuel - 1).Ok? {
      var cs := Chain(modules, next, fuel - 1).value;
      assert seen + [count] + cs == seen + ([count] + cs);
    }
  }

  /** Part 2: the product of the periods of the broadcaster's branches,
      wrapping modulo 2^64; a missing broadcaster panics. */
  function Part2(modules: Modules, fuel: nat): Result<nat>
  {
    if BROADCASTER !in modules then Err(PANIC)
    else Product(modules, modules[BROADCASTER].destinations, fuel)
  }

  /** The periods of the branches multiplied from the first; the first
      failure is the result. */
  function Product(modules: Modules, bits: seq<string>, fuel: nat): Result<nat>
  {
    if bits == [] then Ok(1)
    else match Product(modules, bits[..|bits| - 1], fuel)
      case Err(e) => Err(e)
      case Ok(acc) =>
        match Period(modules, bits[|bits| - 1], fuel)
        case Err(e) => Err(e)
        case Ok(p) => Ok(acc * p % U64_LIMIT)
  }

  lemma {:induction false} ProductFails(modules: Modules, bits: seq<string>, fuel: nat, n: nat)
    requires n <= |bits| && Product(modules, bits[..n], fuel).Err?
    ensures Product(modules, bits, fuel) == Product(modules, bits[..n], fuel)
    decreases |bits| - n
  {
    if n < |bits| {
      assert bits[..n + 1][..n] == bits[..n];
      ProductFails(modules, bits, fuel, n + 1);
    } else {
      assert bits[..n] == bits;
    }
  }

  /** `solve_part2`: the branch walks one after another, multiplied. */
  method SolvePart2(modules: Modules, fuel: nat) returns (r: Result<nat>)
    ensures r == Part2(modules, fuel)
  {
    if BROADCASTER !in modules {
      return Err(PANIC);
    }
    var bits := modules[BROADCASTER].destinations;
    var product := 1;
    for i := 0 to |bits|
      invariant Product(modules, bits[..i], fuel) == Ok(product)
    {
      var period := WalkBranch(modules, bits[i], fuel);
      assert bits[..i + 1][..i] == bits[..i];
      if period.Err? {
        ProductFails(modules, bits, fuel, i + 1);
        return Err(period.reason);
      }
      product := product * period.value % U64_LIMIT;
    }
    assert bits[..|bits|] == bits;
    return Ok(product);
  }

  // ------------------------------------------------------------ the answers

  /** The modules of the input, parsed, collected by name and wired. */
  function ReadModules(input: string): (r: Result<Modules>)
    ensures r.Ok? ==> Remembers(r.value)
  {
    match MapResults(Lines(input), ParseModule)
    case Err(e) => Err(e)
    case Ok(entries) =>
      MapResultsSpec(Lines(input), ParseModule);
      CollectFresh(entries);
      WiredRemembers(Collect(entries));
      Ok(WireNands(Collect(entries)))
  }

  /** `solve`: part 2 is computed first, then part 1 on the wired modules. */
  function Solve(input: string, fuel: nat): Result<(nat, nat)>
  {
    match ReadModules(input)
    case Err(e) => Err(e)
    case Ok(modules) =>
      match Part2(modules, fuel)
      case Err(e) => Err(e)
      case Ok(b) =>
        match Part1(modules, fuel)
        case Err(e) => Err(e)
        case Ok(a) => Ok((a, b))
  }
}
