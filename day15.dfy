/** Day 15: Lens Library. The initialisation sequence is a comma-separated
    list of steps. Part 1 adds up the HASH of every step. Part 2 runs the
    steps on 256 boxes of lenses: `label=f` puts a lens of focal length `f`
    into box `HASH(label)`, replacing the focal length of a lens with the
    same label in its slot, and `label-` takes that lens out, the others
    closing up behind it. The answer is the focusing power of the boxes. */
module Day15 {
  import opened Util

  const PANIC: string := "panic"

  /** The number of boxes, one per hash value. */
  const BOXES: nat := 256

  // ---------------------------------------------------------------- HASH

  /** The byte a character of the (ASCII) sequence stands for. */
  function Byte(c: char): (b: nat)
    ensures b < 256
  {
    c as int % 256
  }

  /** One step of the fold: `acc.wrapping_add(b).wrapping_mul(17)` on `u8`. */
  function Mix(acc: nat, b: nat): nat
  {
    (acc + b) % 256 * 17 % 256
  }

  /** `reindeer_hash`: `Mix` folded over the bytes from the left, from 0. */
  function Hash(s: string): (h: nat)
    ensures h < 256
  {
    if s == [] then 0 else Mix(Hash(s[..|s| - 1]), Byte(s[|s| - 1]))
  }

  /** The fold written from the front, with the accumulator carried along. */
  function HashFrom(acc: nat, s: string): nat
    decreases |s|
  {
    if s == [] then acc else HashFrom(Mix(acc, Byte(s[0])), s[1..])
  }

  /** Folding over two pieces is folding over the second from where the
      first left off. */
  lemma {:induction false} HashFromSplit(acc: nat, a: string, b: string)
    ensures HashFrom(acc, a + b) == HashFrom(HashFrom(acc, a), b)
    decreases |a|
  {
    if a != [] {
      assert (a + b)[1..] == a[1..] + b;
      HashFromSplit(Mix(acc, Byte(a[0])), a[1..], b);
    } else {
      assert a + b == b;
    }
  }

  /** `Hash` is the fold from 0 over the whole string. */
  lemma {:induction false} HashIsFold(s: string)
    ensures Hash(s) == HashFrom(0, s)
    decreases |s|
  {
    if s != [] {
      var init, last := s[..|s| - 1], s[|s| - 1];
      HashIsFold(init);
      assert s == init + [last];
      HashFromSplit(0, init, [last]);
      assert [last][1..] == [];
    }
  }

  /** The hash of a concatenation continues from the hash of its first part. */
  lemma HashAppend(a: string, b: string)
    ensures Hash(a + b) == HashFrom(Hash(a), b)
  {
    HashIsFold(a + b);
    HashIsFold(a);
    HashFromSplit(0, a, b);
  }

  /** Part 1: the hashes of the steps added up in `u64`. */
  function Part1(words: seq<string>): nat
  {
    if words == [] then 0 else Part1(words[..|words| - 1]) + Hash(words[|words| - 1])
  }

  /** Each step adds at most 255, so the `u64` sum cannot overflow for any
      sequence that fits in memory. */
  lemma {:induction false} Part1Bound(words: seq<string>)
    ensures Part1(words) <= 255 * |words|
  {
    if words != [] {
      Part1Bound(words[..|words| - 1]);
    }
  }

  // --------------------------------------------------------------- steps

  predicate IsOp(c: char)
  {
    c == '=' || c == '-'
  }

  /** No `=` and no `-` in `s`. */
  predicate NoOp(s: string)
  {
    forall i :: 0 <= i < |s| ==> !IsOp(s[i])
  }

  /** `step.find(&['=', '-'][..])`: the first `=` or `-`. */
  function FindOp(s: string): (r: Option<nat>)
    ensures r.Some? ==> r.value < |s| && IsOp(s[r.value]) && NoOp(s[..r.value])
    ensures r.None? ==> NoOp(s)
  {
    if s == [] then None
    else if IsOp(s[0]) then Some(0)
    else match FindOp(s[1..])
      case None => None
      case Some(i) =>
        assert s[..i + 1] == [s[0]] + s[1..][..i];
        Some(i + 1)
  }

  datatype Op = Put(focal: nat) | Take

  /** A parsed step: the label and what to do with its lens. */
  datatype Step = Step(name: string, op: Op)

  /** One step of the loop before the box is touched: split at the first
      `=` or `-` (none panics); `=` takes a `u8` focal length from the rest
      (a bad number panics), `-` ignores whatever follows it. */
  function ParseStep(s: string): (r: Result<Step>)
    ensures r.Ok? ==> NoOp(r.value.name)
    ensures r.Ok? && r.value.op.Put? ==> r.value.op.focal < 256
  {
    match FindOp(s)
    case None => Err(PANIC)
    case Some(i) =>
      if s[i] == '=' then
        match ParseUnsigned(s[i + 1..], 256)
        case None => Err(PANIC)
        case Some(f) => Ok(Step(s[..i], Put(f)))
      else Ok(Step(s[..i], Take))
  }

  /** A step without `=` or `-` panics. */
  lemma ParseNoOp(s: string)
    requires NoOp(s)
    ensures ParseStep(s).Err?
  {
  }

  /** `name=text` puts a lens exactly when `text` is a `u8`. */
  lemma ParsePut(name: string, text: string)
    requires NoOp(name)
    ensures ParseStep(name + "=" + text) ==
      match ParseUnsigned(text, 256)
      case Some(f) => Ok(Step(name, Put(f)))
      case None => Err(PANIC)
  {
    var s := name + "=" + text;
    FindOpAt(name, "=" + text);
    assert s == name + ("=" + text);
    assert s[|name| + 1..] == text;
  }

  /** `name-rest` takes the lens out, whatever `rest` is. */
  lemma ParseTake(name: string, rest: string)
    requires NoOp(name)
    ensures ParseStep(name + "-" + rest) == Ok(Step(name, Take))
  {
    var s := name + "-" + rest;
    FindOpAt(name, "-" + rest);
    assert s == name + ("-" + rest);
  }

  lemma {:induction false} FindOpAt(name: string, rest: string)
    requires NoOp(name) && rest != [] && IsOp(rest[0])
    ensures FindOp(name + rest) == Some(|name|)
    decreases |name|
  {
    if name != [] {
      assert (name + rest)[1..] == name[1..] + rest;
      FindOpAt(name[1..], rest);
    } else {
      assert name + rest == rest;
    }
  }

  /** The text of a step as the puzzle writes it. */
  function Render(st: Step): string
  {
    match st.op
    case Put(f) => st.name + "=" + DecimalText(f)
    case Take => st.name + "-"
  }

  /** Every well-formed step reads back from its text. */
  lemma ParseRender(st: Step)
    requires NoOp(st.name) && (st.op.Put? ==> st.op.focal < 256)
    ensures ParseStep(Render(st)) == Ok(st)
  {
    match st.op
    case Put(f) =>
      ParsePut(st.name, DecimalText(f));
      ParseDecimalText(f, 256);
      AllDigitsChars(DecimalText(f));
      assert DecimalText(f)[0] != '+';
    case Take =>
      ParseTake(st.name, "");
      assert st.name + "-" + "" == st.name + "-";
  }

  // --------------------------------------------------------------- boxes

  datatype Lens = Lens(name: string, focal: nat)

  /** An `IndexMap` from label to focal length, as its entries in order. */
  type Box = seq<Lens>

  /** The slot of the lens with `name`, if any. */
  function Find(b: Box, name: string): (r: Option<nat>)
    ensures r.Some? ==> r.value < |b| && b[r.value].name == name
    ensures r.Some? ==> forall k :: 0 <= k < r.value ==> b[k].name != name
    ensures r.None? ==> forall k :: 0 <= k < |b| ==> b[k].name != name
  {
    if b == [] then None
    else if b[0].name == name then Some(0)
    else match Find(b[1..], name)
      case None => None
      case Some(i) => Some(i + 1)
  }

  /** The labels of a box, in order. */
  function Labels(b: Box): seq<string>
  {
    seq(|b|, k requires 0 <= k < |b| => b[k].name)
  }

  /** No label occurs twice: a map has one entry per key. */
  predicate Distinct(b: Box)
  {
    forall i, j :: 0 <= i < j < |b| ==> b[i].name != b[j].name
  }

  /** The map's value for `name`. */
  function Lookup(b: Box, name: string): Option<nat>
  {
    match Find(b, name)
    case None => None
    case Some(i) => Some(b[i].focal)
  }

  /** `IndexMap::insert`: a present label keeps its slot and takes the new
      focal length; a new one is appended. */
  function Insert(b: Box, name: string, f: nat): Box
  {
    match Find(b, name)
    case Some(i) => b[i := Lens(name, f)]
    case None => b + [Lens(name, f)]
  }

  /** `IndexMap::shift_remove`: the entry is taken out and the ones after
      it move up a slot; an absent label changes nothing. */
  function Remove(b: Box, name: string): Box
  {
    match Find(b, name)
    case Some(i) => b[..i] + b[i + 1..]
    case None => b
  }

  /** The lenses with other labels, in their order. */
  function Without(b: Box, name: string): Box
  {
    if b == [] then []
    else (if b[0].name == name then [] else [b[0]]) + Without(b[1..], name)
  }

  /** The first lens with `name` is in slot `j`. */
  lemma FindAt(b: Box, name: string, j: nat)
    requires j < |b| && b[j].name == name && forall k :: 0 <= k < j ==> b[k].name != name
    ensures Find(b, name) == Some(j)
  {
  }

  /** Every lens after an insert is the new one or was there before. */
  lemma InsertMembers(b: Box, name: string, f: nat)
    ensures forall k :: 0 <= k < |Insert(b, name, f)| ==>
      Insert(b, name, f)[k] == Lens(name, f) || Insert(b, name, f)[k] in b
  {
  }

  /** Every lens after a remove was there before. */
  lemma RemoveMembers(b: Box, name: string)
    ensures forall k :: 0 <= k < |Remove(b, name)| ==> Remove(b, name)[k] in b
  {
    match Find(b, name)
    case None =>
    case Some(i) =>
      var r := Remove(b, name);
      forall k | 0 <= k < |r| ensures r[k] in b {
        assert r[k] == if k < i then b[k] else b[k + 1];
      }
  }

  /** Inserting maps `name` to `f`, keeps every other entry and keeps the
      labels distinct. */
  lemma InsertLookup(b: Box, name: string, f: nat, other: string)
    requires Distinct(b)
    ensures Distinct(Insert(b, name, f))
    ensures Lookup(Insert(b, name, f), name) == Some(f)
    ensures other != name ==> Lookup(Insert(b, name, f), other) == Lookup(b, other)
  {
    var r := Insert(b, name, f);
    match Find(b, name)
    case Some(i) =>
      FindAt(r, name, i);
      if other != name {
        match Find(b, other)
        case None =>
        case Some(j) => FindAt(r, other, j);
      }
    case None =>
      FindAt(r, name, |b|);
      if other != name {
        match Find(b, other)
        case None =>
        case Some(j) => FindAt(r, other, j);
      }
  }

  /** The order of the labels after an insert: unchanged for a present
      label, which keeps its slot, and the new label last otherwise. */
  lemma InsertLabels(b: Box, name: string, f: nat)
    ensures Labels(Insert(b, name, f)) == if name in Labels(b) then Labels(b) else Labels(b) + [name]
  {
    match Find(b, name)
    case Some(i) =>
      assert Labels(b)[i] == name;
    case None =>
      assert name !in Labels(b);
  }

  /** Removing leaves `name` unmapped, keeps every other entry and keeps
      the labels distinct. */
  lemma RemoveLookup(b: Box, name: string, other: string)
    requires Distinct(b)
    ensures Distinct(Remove(b, name))
    ensures Lookup(Remove(b, name), name) == None
    ensures other != name ==> Lookup(Remove(b, name), other) == Lookup(b, other)
  {
    match Find(b, name)
    case None =>
    case Some(i) =>
      var r := Remove(b, name);
      assert forall k :: 0 <= k < |r| ==> r[k] == if k < i then b[k] else b[k + 1];
      if other != name {
        match Find(b, other)
        case None =>
        case Some(j) =>
          FindAt(r, other, if j < i then j else j - 1);
      }
  }

  /** With distinct labels, removing is filtering: the other lenses stay
      in their order. */
  lemma {:induction false} RemoveIsFilter(b: Box, name: string)
    requires Distinct(b)
    ensures Remove(b, name) == Without(b, name)
    decreases |b|
  {
    if b != [] {
      RemoveIsFilter(b[1..], name);
      if b[0].name == name {
        WithoutAbsent(b[1..], name);
      }
    }
  }

  lemma {:induction false} WithoutAbsent(b: Box, name: string)
    requires forall k :: 0 <= k < |b| ==> b[k].name != name
    ensures Without(b, name) == b
    decreases |b|
  {
    if b != [] {
      WithoutAbsent(b[1..], name);
    }
  }

  // ------------------------------------------------------ the 256 boxes

  function Empty(): (r: seq<Box>)
    ensures |r| == BOXES
  {
    seq(BOXES, _ => [])
  }

  /** One step of the loop on the boxes. */
  function Apply(boxes: seq<Box>, st: Step): (r: seq<Box>)
    requires |boxes| == BOXES
    ensures |r| == BOXES
  {
    var i := Hash(st.name);
    match st.op
    case Put(f) => boxes[i := Insert(boxes[i], st.name, f)]
    case Take => boxes[i := Remove(boxes[i], st.name)]
  }

  /** The boxes after the steps, from empty boxes. */
  function Arranged(steps: seq<Step>): (r: seq<Box>)
    ensures |r| == BOXES
  {
    if steps == [] then Empty() else Apply(Arranged(steps[..|steps| - 1]), steps[|steps| - 1])
  }

  /** What the puzzle says a label ends up with: the focal length of its
      last `=` step, unless a `-` step came after it. */
  function LastFocal(steps: seq<Step>, name: string): Option<nat>
  {
    if steps == [] then None
    else
      var st := steps[|steps| - 1];
      if st.name != name then LastFocal(steps[..|steps| - 1], name)
      else match st.op
        case Put(f) => Some(f)
        case Take => None
  }

  /** Every box is a map, and holds only lenses whose label hashes to it. */
  predicate WellKept(boxes: seq<Box>)
  {
    |boxes| == BOXES &&
    forall i :: 0 <= i < BOXES ==>
      Distinct(boxes[i]) && forall k :: 0 <= k < |boxes[i]| ==> Hash(boxes[i][k].name) == i
  }

  /** One step keeps the boxes well kept and changes only its own label:
      a `=` maps it to the new focal length, a `-` unmaps it. */
  lemma ApplyLookup(boxes: seq<Box>, st: Step, name: string)
    requires WellKept(boxes)
    ensures WellKept(Apply(boxes, st))
    ensures Lookup(Apply(boxes, st)[Hash(name)], name) ==
      if st.name == name then (match st.op case Put(f) => Some(f) case Take => None)
      else Lookup(boxes[Hash(name)], name)
  {
    var i := Hash(st.name);
    var r: seq<Box> := Apply(boxes, st);
    match st.op
    case Put(f) =>
      InsertLookup(boxes[i], st.name, f, name);
      InsertMembers(boxes[i], st.name, f);
    case Take =>
      RemoveLookup(boxes[i], st.name, name);
      RemoveMembers(boxes[i], st.name);
  }

  /** After any steps, each label's lens is in the box its hash names, with
      the focal length of its last `=` step, unless a `-` step came after. */
  lemma {:induction false} ArrangedLookup(steps: seq<Step>, name: string)
    ensures WellKept(Arranged(steps))
    ensures Lookup(Arranged(steps)[Hash(name)], name) == LastFocal(steps, name)
    decreases |steps|
  {
    if steps == [] {
    } else {
      var init := steps[..|steps| - 1];
      ArrangedLookup(init, name);
      ApplyLookup(Arranged(init), steps[|steps| - 1], name);
    }
  }

  /** The loop of `solve`: the steps are parsed and run one at a time on a
      vector of 256 boxes; the first bad step panics. */
  method Arrange(words: seq<string>) returns (r: Result<seq<Box>>)
    ensures r.Ok? <==> MapResults(words, ParseStep).Ok?
    ensures r.Ok? ==> r.value == Arranged(MapResults(words, ParseStep).value)
  {
    var boxes := new Box[BOXES](_ => []);
    ghost var steps: seq<Step> := [];
    for n := 0 to |words|
      invariant MapResults(words[..n], ParseStep) == Ok(steps)
      invariant boxes[..] == Arranged(steps)
    {
      var step := ParseStep(words[n]);
      if step.Err? {
        MapResultsFirstError(words, ParseStep, n);
        return Err(step.reason);
      }
      var st := step.value;
      var i := Hash(st.name);
      match st.op {
        case Put(f) => boxes[i] := Insert(boxes[i], st.name, f);
        case Take => boxes[i] := Remove(boxes[i], st.name);
      }
      MapResultsSnoc(words, ParseStep, n, steps, st);
      steps := steps + [st];
      assert steps[..|steps| - 1] == steps[..n];
    }
    assert words[..|words|] == words;
    return Ok(boxes[..]);
  }

  // ----------------------------------------------------- focusing power

  /** A box's lenses weighted by their 1-based slot. */
  function BoxPower(b: Box): nat
  {
    if b == [] then 0 else BoxPower(b[..|b| - 1]) + b[|b| - 1].focal * |b|
  }

  /** As written, `focal_length * slot` is a `u8` product, which wraps. */
  function BoxPowerAsWritten(b: Box): nat
  {
    if b == [] then 0 else BoxPowerAsWritten(b[..|b| - 1]) + b[|b| - 1].focal * |b| % 256
  }

  /** Part 2: the boxes' powers weighted by their 1-based box number. */
  function Power(boxes: seq<Box>): nat
  {
    if boxes == [] then 0 else Power(boxes[..|boxes| - 1]) + |boxes| * BoxPower(boxes[|boxes| - 1])
  }

  /** Part 2 with the wrapping product. */
  function PowerAsWritten(boxes: seq<Box>): nat
  {
    if boxes == [] then 0 else PowerAsWritten(boxes[..|boxes| - 1]) + |boxes| * BoxPowerAsWritten(boxes[|boxes| - 1])
  }

  /** Changing the focal length of the lens in slot `i + 1` changes the
      box's power by the difference times the slot. */
  lemma {:induction false} BoxPowerUpdate(b: Box, i: nat, f: nat)
    requires i < |b|
    ensures BoxPower(b[i := Lens(b[i].name, f)]) + (i + 1) * b[i].focal == BoxPower(b) + (i + 1) * f
    decreases |b|
  {
    var r := b[i := Lens(b[i].name, f)];
    if i < |b| - 1 {
      assert r[..|r| - 1] == b[..|b| - 1][i := Lens(b[i].name, f)];
      BoxPowerUpdate(b[..|b| - 1], i, f);
    } else {
      assert r[..|r| - 1] == b[..|b| - 1];
    }
  }

  /** An insert that finds its label in slot `i + 1` changes the power
      through that slot alone. */
  lemma InsertPowerFound(b: Box, name: string, f: nat, i: nat)
    requires Find(b, name) == Some(i)
    ensures BoxPower(Insert(b, name, f)) + (i + 1) * b[i].focal == BoxPower(b) + (i + 1) * f
  {
    BoxPowerUpdate(b, i, f);
  }

  /** A new lens adds its focal length times the new last slot. */
  lemma InsertPowerNew(b: Box, name: string, f: nat)
    requires Find(b, name).None?
    ensures BoxPower(Insert(b, name, f)) == BoxPower(b) + (|b| + 1) * f
  {
    assert Insert(b, name, f) == b + [Lens(name, f)];
    BoxPowerSnoc(b, Lens(name, f));
  }

  lemma BoxPowerSnoc(b: Box, l: Lens)
    ensures BoxPower(b + [l]) == BoxPower(b) + l.focal * (|b| + 1)
  {
    var nb := b + [l];
    assert nb[..|b|] == b;
    assert nb[|nb| - 1] == l;
  }

  /** When no product reaches 256, the wrapping product changes nothing. */
  lemma {:induction false} AsWrittenAgrees(b: Box)
    requires forall k :: 0 <= k < |b| ==> b[k].focal * (k + 1) < 256
    ensures BoxPowerAsWritten(b) == BoxPower(b)
    decreases |b|
  {
    if b != [] {
      AsWrittenAgrees(b[..|b| - 1]);
    }
  }

  /** `rn` and `cm` both hash to box 0. */
  lemma HashesCollide()
    ensures Hash("rn") == 0 && Hash("cm") == 0
  {
    HashRn();
    HashCm();
  }

  lemma HashRn()
    ensures Hash("rn") == 0
  {
    assert Hash("r") == 146 by {
      assert "r"[..0] == [];
      assert Byte('r') == 114 && Mix(0, 114) == 146;
    }
    assert "rn"[..1] == "r";
    assert Byte('n') == 110 && Mix(146, 110) == 0;
  }

  lemma HashCm()
    ensures Hash("cm") == 0
  {
    assert Hash("c") == 147 by {
      assert "c"[..0] == [];
      assert Byte('c') == 99 && Mix(0, 99) == 147;
    }
    assert "cm"[..1] == "c";
    assert Byte('m') == 109 && Mix(147, 109) == 0;
  }

  /** `rn=1,cm=200` puts both lenses into box 0, in that order. */
  lemma BothInBoxZero()
    ensures Arranged([Step("rn", Put(1)), Step("cm", Put(200))])[0] == [Lens("rn", 1), Lens("cm", 200)]
  {
    HashesCollide();
    var steps := [Step("rn", Put(1)), Step("cm", Put(200))];
    assert steps[..1] == [steps[0]] && steps[..1][..0] == [];
    var first := Arranged(steps[..1]);
    assert Arranged(steps[..1][..0]) == Empty();
    assert first == Apply(Empty(), steps[0]);
    assert Find([], "rn") == None;
    assert first[0] == [Lens("rn", 1)];
    assert Arranged(steps) == Apply(first, steps[1]);
    assert "rn" != "cm";
    assert Find([Lens("rn", 1)], "cm") == None;
  }

  /** With the lenses of `rn=1,cm=200` in box 0, the second lens's product
      400 wraps to 144 in `u8`: the as-written power of the box is 145
      where the intended one is 401. */
  lemma PowerOverflows()
    ensures BoxPowerAsWritten([Lens("rn", 1), Lens("cm", 200)]) == 145
    ensures BoxPower([Lens("rn", 1), Lens("cm", 200)]) == 401
  {
    var b := [Lens("rn", 1), Lens("cm", 200)];
    assert b[..1] == [Lens("rn", 1)];
    assert b[..1][..0] == [];
  }

  /** The steps run exactly when every one of them parses. */
  lemma AllParse(words: seq<string>)
    ensures MapResults(words, ParseStep).Ok? <==> forall k :: 0 <= k < |words| ==> ParseStep(words[k]).Ok?
  {
    MapResultsSpec(words, ParseStep);
  }

  /** `solve`: the trimmed text split at commas; part 1 hashes every step,
      part 2 runs them and reads the focusing power. */
  method Solve(input: string) returns (r: Result<(nat, nat)>)
    ensures var words := Split(Trim(input), ",");
      r.Ok? <==> forall k :: 0 <= k < |words| ==> ParseStep(words[k]).Ok?
    ensures var words := Split(Trim(input), ",");
      r.Ok? ==> (MapResults(words, ParseStep).Ok? &&
        r.value == (Part1(words), Power(Arranged(MapResults(words, ParseStep).value))))
  {
    var words := Split(Trim(input), ",");
    var part1 := Part1(words);
    var boxes := Arrange(words);
    AllParse(words);
    assert words == Split(Trim(input), ",");
    if boxes.Err? {
      return Err(boxes.reason);
    }
    return Ok((part1, Power(boxes.value)));
  }
}
