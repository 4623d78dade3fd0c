/** Day 18: Lavish Lavaducts. A dig plan walks a trench around a lagoon;
    the lagoon's size follows from the shoelace area of the trench's corners
    and Pick's theorem. Part 1 reads each line's letter and decimal length,
    part 2 the hexadecimal length and direction hidden in its colour. */
module Day18 {
  import opened Util

  const PANIC: string := "panic"

  /** `i64::parse` accepts values in [-2^63, 2^63). */
  const I64_HALF: nat := 0x8000_0000_0000_0000
  /** `u32::from_str_radix` accepts values below 2^32. */
  const U32_LIMIT: nat := 0x1_0000_0000

  datatype Direction = Up | Down | Left | Right

  datatype Instruction = Instruction(direction: Direction, length: int)

  /** A corner of the trench as (x, y); `Up` increases y, `Right` increases x. */
  type Point = (int, int)

  // ------------------------------------------------------------ the trench

  /** The point `ins.length` away from `p` in the instruction's direction. */
  function Move(p: Point, ins: Instruction): (q: Point)
    ensures ins.direction in {Up, Down} ==> q.0 == p.0
    ensures ins.direction in {Left, Right} ==> q.1 == p.1
    ensures (q.0 - p.0) + (q.1 - p.1) == (if ins.direction in {Up, Right} then ins.length else -ins.length)
  {
    match ins.direction
    case Up => (p.0, p.1 + ins.length)
    case Down => (p.0, p.1 - ins.length)
    case Left => (p.0 - ins.length, p.1)
    case Right => (p.0 + ins.length, p.1)
  }

  /** The corners of the trench: the origin, then the point each instruction reaches. */
  function Vertices(plan: seq<Instruction>): (vs: seq<Point>)
    ensures |vs| == |plan| + 1 && vs[0] == (0, 0)
    ensures forall i :: 0 <= i < |plan| ==> vs[i + 1] == Move(vs[i], plan[i])
  {
    if plan == [] then [(0, 0)]
    else
      var vs := Vertices(plan[..|plan| - 1]);
      vs + [Move(vs[|vs| - 1], plan[|plan| - 1])]
  }

  function Lengths(plan: seq<Instruction>): (ls: seq<int>)
    ensures |ls| == |plan| && forall i :: 0 <= i < |plan| ==> ls[i] == plan[i].length
  {
    seq(|plan|, i requires 0 <= i < |plan| => plan[i].length)
  }

  /** The length of the trench: the sum of all instruction lengths. */
  function Perimeter(plan: seq<Instruction>): int
  {
    Sum(Lengths(plan))
  }

  /** The cross product of two corners, one term of the shoelace formula. */
  function Cross(p: Point, q: Point): int
  {
    p.0 * q.1 - q.0 * p.1
  }

  /** Twice the signed area enclosed by the corners, summed over each pair
      of consecutive corners. It is positive for a counter-clockwise trench. */
  function Shoelace(vs: seq<Point>): int
  {
    if |vs| < 2 then 0 else Shoelace(vs[..|vs| - 1]) + Cross(vs[|vs| - 2], vs[|vs| - 1])
  }

  /** Integer division truncating toward zero, as Rust's `/` on `i64`. */
  function Quot(a: int, d: nat): (q: int)
    requires d > 0
  {
    if a >= 0 then a / d else -((-a) / d)
  }

  function Abs(a: int): nat
  {
    if a < 0 then -a else a
  }

  /** The answer as the program computes it: with A the halved shoelace sum
      and B the perimeter, the interior count A - B/2 + 1 is subtracted from
      2. This equals the lagoon's size only when the trench runs clockwise. */
  function AnswerAsWritten(plan: seq<Instruction>): int
  {
    var area := Quot(Shoelace(Vertices(plan)), 2);
    var interior := area - Quot(Perimeter(plan), 2) + 1;
    2 - interior
  }

  /** The lagoon's size by Pick's theorem: the interior points |A| - B/2 + 1
      plus the B trench points, that is |A| + B/2 + 1, whichever way the
      trench runs. */
  function Lagoon(plan: seq<Instruction>): int
  {
    Abs(Quot(Shoelace(Vertices(plan)), 2)) + Quot(Perimeter(plan), 2) + 1
  }

  /** `do_solve` with the area taken without its sign: walks the plan
      collecting the corners and the perimeter, then applies the shoelace
      formula and Pick's theorem. */
  method DoSolve(plan: seq<Instruction>) returns (answer: int)
    ensures answer == Lagoon(plan)
  {
    var x, y := 0, 0;
    var vertices := [(0, 0)];
    var perimeter := 0;
    for i := 0 to |plan|
      invariant vertices == Vertices(plan[..i])
      invariant (x, y) == vertices[|vertices| - 1]
      invariant perimeter == Perimeter(plan[..i])
    {
      var length := plan[i].length;
      var destination := match plan[i].direction
        case Up => (x, y + length)
        case Down => (x, y - length)
        case Left => (x - length, y)
        case Right => (x + length, y);
      assert destination == Move((x, y), plan[i]);
      WalkStep(plan, i);
      x, y := destination.0, destination.1;
      vertices := vertices + [destination];
      perimeter := perimeter + length;
    }
    assert plan[..|plan|] == plan;
    var area := Quot(Shoelace(vertices), 2);
    // Pick: the interior points and the trench points together.
    answer := Abs(area) + Quot(perimeter, 2) + 1;
  }

  /** One more instruction adds its end point to the corners and its
      length to the perimeter. */
  lemma WalkStep(plan: seq<Instruction>, i: nat)
    requires i < |plan|
    ensures Vertices(plan[..i + 1]) == Vertices(plan[..i]) + [Move(Vertices(plan[..i])[i], plan[i])]
    ensures Perimeter(plan[..i + 1]) == Perimeter(plan[..i]) + plan[i].length
  {
    assert plan[..i + 1][..i] == plan[..i];
    assert Lengths(plan[..i + 1]) == Lengths(plan[..i]) + [plan[i].length];
    SumAppend(Lengths(plan[..i]), [plan[i].length]);
  }

  // --------------------------------------------- orientation and the fix

  /** The program's answer is the lagoon's size exactly when the halved
      shoelace sum is not positive, that is when the trench does not run
      counter-clockwise. */
  lemma AsWrittenAgrees(plan: seq<Instruction>)
    ensures AnswerAsWritten(plan) == Lagoon(plan) <==> Quot(Shoelace(Vertices(plan)), 2) <= 0
    ensures Quot(Shoelace(Vertices(plan)), 2) > 0 ==> AnswerAsWritten(plan) < Lagoon(plan)
  {
  }

  /** The unit square walked right, up, left, down. */
  const SQUARE: seq<Instruction> :=
    [Instruction(Right, 1), Instruction(Up, 1), Instruction(Left, 1), Instruction(Down, 1)]

  /** A trench around a single cell digs a 2 by 2 lagoon of 4 cubes; walked
      counter-clockwise the program reports 2. */
  lemma CounterClockwiseSquare()
    ensures Lagoon(SQUARE) == 4
    ensures AnswerAsWritten(SQUARE) == 2
  {
    var vs := Vertices(SQUARE);
    assert vs == [(0, 0), (1, 0), (1, 1), (0, 1), (0, 0)];
    assert Shoelace(vs[..2]) == 0;
    assert vs[..4][..3] == vs[..3] && vs[..3][..2] == vs[..2];
    assert Shoelace(vs[..3]) == 1;
    assert Shoelace(vs[..4]) == 2;
    assert Shoelace(vs) == 2;
    var ls := Lengths(SQUARE);
    assert ls == [1, 1, 1, 1];
    assert ls[..3] == [1, 1, 1] && ls[..3][..2] == [1, 1] && ls[..3][..2][..1] == [1];
    assert Sum([1]) == 1 && Sum([1, 1]) == 2 && Sum([1, 1, 1]) == 3;
    assert Sum(ls) == 4;
  }

  /** An instruction reflected top to bottom: `Up` and `Down` swap. */
  function MirrorOne(ins: Instruction): Instruction
  {
    match ins.direction
    case Up => Instruction(Down, ins.length)
    case Down => Instruction(Up, ins.length)
    case _ => ins
  }

  /** A reflected instruction moves the reflected point to the reflection
      of where the instruction moves the point. */
  lemma MoveMirrored(p: Point, ins: Instruction)
    ensures Move((p.0, -p.1), MirrorOne(ins)) == (Move(p, ins).0, -Move(p, ins).1)
  {
  }

  function Mirror(plan: seq<Instruction>): (m: seq<Instruction>)
    ensures |m| == |plan|
    ensures forall i :: 0 <= i < |plan| ==> m[i] == MirrorOne(plan[i])
  {
    seq(|plan|, i requires 0 <= i < |plan| => MirrorOne(plan[i]))
  }

  /** Reflection negates every y coordinate. */
  lemma {:induction false} MirrorVertices(plan: seq<Instruction>)
    ensures forall i :: 0 <= i <= |plan| ==>
      Vertices(Mirror(plan))[i] == (Vertices(plan)[i].0, -Vertices(plan)[i].1)
  {
    var vs, ms := Vertices(plan), Vertices(Mirror(plan));
    forall i | 0 <= i <= |plan| ensures ms[i] == (vs[i].0, -vs[i].1) {
      MirrorVertex(plan, i);
    }
  }

  lemma {:induction false} MirrorVertex(plan: seq<Instruction>, i: nat)
    requires i <= |plan|
    ensures Vertices(Mirror(plan))[i] == (Vertices(plan)[i].0, -Vertices(plan)[i].1)
  {
    if i > 0 {
      MirrorVertex(plan, i - 1);
      var vs, ws := Vertices(plan), Vertices(Mirror(plan));
      var p, ins := vs[i - 1], plan[i - 1];
      assert vs[i] == Move(p, ins);
      assert ws[i] == Move((p.0, -p.1), MirrorOne(ins));
      MoveMirrored(p, ins);
    }
  }

  /** Reflection negates every cross product, hence the shoelace sum. */
  lemma {:induction false} ShoelaceReflected(vs: seq<Point>, ws: seq<Point>)
    requires |vs| == |ws|
    requires forall i :: 0 <= i < |vs| ==> ws[i] == (vs[i].0, -vs[i].1)
    ensures Shoelace(ws) == -Shoelace(vs)
  {
    if |vs| >= 2 {
      var n := |vs|;
      ShoelaceReflected(vs[..n - 1], ws[..n - 1]);
      var p, q := vs[n - 2], vs[n - 1];
      assert Cross(ws[n - 2], ws[n - 1]) == p.0 * -q.1 - q.0 * -p.1;
    }
  }

  /** The mirror image of a lagoon is as large as the lagoon, and its
      trench turns the other way round. */
  lemma MirrorKeepsLagoon(plan: seq<Instruction>)
    ensures Shoelace(Vertices(Mirror(plan))) == -Shoelace(Vertices(plan))
    ensures Lagoon(Mirror(plan)) == Lagoon(plan)
  {
    MirrorVertices(plan);
    ShoelaceReflected(Vertices(plan), Vertices(Mirror(plan)));
    assert Lengths(Mirror(plan)) == Lengths(plan);
  }

  /** The program's answer changes under reflection: the clockwise square
      (the mirror image of `SQUARE`) gives 4. */
  lemma MirroredSquare()
    ensures AnswerAsWritten(Mirror(SQUARE)) == 4
    ensures AnswerAsWritten(Mirror(SQUARE)) != AnswerAsWritten(SQUARE)
  {
    CounterClockwiseSquare();
    MirrorKeepsLagoon(SQUARE);
    assert Lengths(Mirror(SQUARE)) == Lengths(SQUARE);
  }

  /** An instruction turned a quarter counter-clockwise: `Right` becomes
      `Up`, `Up` becomes `Left`, `Left` becomes `Down` and `Down` becomes `Right`. */
  function RotateOne(ins: Instruction): Instruction
  {
    match ins.direction
    case Right => Instruction(Up, ins.length)
    case Up => Instruction(Left, ins.length)
    case Left => Instruction(Down, ins.length)
    case Down => Instruction(Right, ins.length)
  }

  /** A turned instruction moves the turned point to the turn of where the
      instruction moves the point. */
  lemma MoveRotated(p: Point, ins: Instruction)
    ensures Move((-p.1, p.0), RotateOne(ins)) == (-Move(p, ins).1, Move(p, ins).0)
  {
  }

  function Rotate(plan: seq<Instruction>): (m: seq<Instruction>)
    ensures |m| == |plan|
    ensures forall i :: 0 <= i < |plan| ==> m[i] == RotateOne(plan[i])
  {
    seq(|plan|, i requires 0 <= i < |plan| => RotateOne(plan[i]))
  }

  lemma {:induction false} RotateVertex(plan: seq<Instruction>, i: nat)
    requires i <= |plan|
    ensures Vertices(Rotate(plan))[i] == (-Vertices(plan)[i].1, Vertices(plan)[i].0)
  {
    if i > 0 {
      RotateVertex(plan, i - 1);
      var vs, ws := Vertices(plan), Vertices(Rotate(plan));
      var p, ins := vs[i - 1], plan[i - 1];
      assert vs[i] == Move(p, ins);
      assert ws[i] == Move((-p.1, p.0), RotateOne(ins));
      MoveRotated(p, ins);
    }
  }

  /** A quarter turn keeps every cross product, hence the shoelace sum. */
  lemma {:induction false} ShoelaceRotated(vs: seq<Point>, ws: seq<Point>)
    requires |vs| == |ws|
    requires forall i :: 0 <= i < |vs| ==> ws[i] == (-vs[i].1, vs[i].0)
    ensures Shoelace(ws) == Shoelace(vs)
  {
    if |vs| >= 2 {
      var n := |vs|;
      ShoelaceRotated(vs[..n - 1], ws[..n - 1]);
      var p, q := vs[n - 2], vs[n - 1];
      assert Cross(ws[n - 2], ws[n - 1]) == -p.1 * q.0 - -q.1 * p.0;
    }
  }

  /** Turning the plan a quarter keeps both the program's answer and the
      lagoon's size: the area's sign depends only on the sense of the walk. */
  lemma RotateKeepsAnswer(plan: seq<Instruction>)
    ensures Shoelace(Vertices(Rotate(plan))) == Shoelace(Vertices(plan))
    ensures Lagoon(Rotate(plan)) == Lagoon(plan)
    ensures AnswerAsWritten(Rotate(plan)) == AnswerAsWritten(plan)
  {
    var vs, ws := Vertices(plan), Vertices(Rotate(plan));
    forall i | 0 <= i < |vs| ensures ws[i] == (-vs[i].1, vs[i].0) {
      RotateVertex(plan, i);
    }
    ShoelaceRotated(vs, ws);
    assert Lengths(Rotate(plan)) == Lengths(plan);
  }

  // --------------------------------------------------------------- parsing

  /** The part 1 direction: one of the letters U, D, L and R. */
  function ParseLetter(s: string): (r: Result<Direction>)
    ensures r.Ok? <==> |s| == 1 && s[0] in "UDLR"
  {
    if |s| != 1 then Err(PANIC)
    else match s[0]
      case 'U' => Ok(Up)
      case 'D' => Ok(Down)
      case 'L' => Ok(Left)
      case 'R' => Ok(Right)
      case _ => Err(PANIC)
  }

  /** The part 2 direction: the last hexadecimal digit, 0 right, 1 down,
      2 left and 3 up. */
  function ParseCode(s: string): (r: Result<Direction>)
    ensures r.Ok? <==> |s| == 1 && s[0] in "0123"
  {
    if |s| != 1 then Err(PANIC)
    else match s[0]
      case '0' => Ok(Right)
      case '1' => Ok(Down)
      case '2' => Ok(Left)
      case '3' => Ok(Up)
      case _ => Err(PANIC)
  }

  /** A digit of base 16, in either case. */
  function HexDigit(c: char): (d: Option<nat>)
    ensures d.Some? ==> d.value < 16
  {
    if '0' <= c <= '9' then Some(c as nat - '0' as nat)
    else if 'a' <= c <= 'f' then Some(c as nat - 'a' as nat + 10)
    else if 'A' <= c <= 'F' then Some(c as nat - 'A' as nat + 10)
    else None
  }

  ghost predicate AllHex(s: string)
  {
    forall i :: 0 <= i < |s| ==> HexDigit(s[i]).Some?
  }

  /** The value of hexadecimal digits, most significant first. */
  function HexValue(s: string): nat
    requires AllHex(s)
  {
    if s == [] then 0 else HexValue(s[..|s| - 1]) * 16 + HexDigit(s[|s| - 1]).value
  }

  function IsHex(s: string): (b: bool)
    ensures b <==> AllHex(s)
  {
    if s == [] then true
    else
      var b := IsHex(s[..|s| - 1]);
      assert forall i :: 0 <= i < |s| - 1 ==> s[..|s| - 1][i] == s[i];
      b && HexDigit(s[|s| - 1]).Some?
  }

  /** `u32::from_str_radix(s, 16)` with `bound == 2^32`: an optional `+`,
      then at least one hexadecimal digit, with the value below `bound`. */
  function ParseHex(s: string, bound: nat): (r: Option<nat>)
    ensures r.Some? ==> r.value < bound
  {
    var digits := if |s| > 0 && s[0] == '+' then s[1..] else s;
    if digits != [] && IsHex(digits) && HexValue(digits) < bound then Some(HexValue(digits)) else None
  }

  /** The part 2 instruction in a colour token `(#rrggbb)`: the six
      characters from index 2 on are five hexadecimal digits of length and
      one direction code. */
  function ParseColour(token: string): (r: Result<Instruction>)
    ensures r.Ok? ==> 0 <= r.value.length < U32_LIMIT
  {
    if |token| < 8 then Err(PANIC)
    else
      var colour := token[2..8];
      match ParseHex(colour[..5], U32_LIMIT)
      case None => Err(PANIC)
      case Some(length) =>
        match ParseCode(colour[5..])
        case Err(e) => Err(e)
        case Ok(direction) => Ok(Instruction(direction, length))
  }

  /** One line of the plan: letter, decimal length and colour, separated by
      single spaces; a missing field is fatal, and later fields are ignored. */
  function ParseLine(line: string): (r: Result<(Instruction, Instruction)>)
  {
    var fields := Split(line, " ");
    match ParseLetter(fields[0])
    case Err(e) => Err(e)
    case Ok(direction) =>
      if |fields| < 2 then Err(PANIC)
      else match ParseSigned(fields[1], I64_HALF)
        case None => Err(PANIC)
        case Some(amount) =>
          if |fields| < 3 then Err(PANIC)
          else match ParseColour(fields[2])
            case Err(e) => Err(e)
            case Ok(hidden) => Ok((Instruction(direction, amount), hidden))
  }

  // ------------------------------------------------------- printing back

  function Letter(d: Direction): char
  {
    match d
    case Up => 'U'
    case Down => 'D'
    case Left => 'L'
    case Right => 'R'
  }

  function Code(d: Direction): char
  {
    match d
    case Right => '0'
    case Down => '1'
    case Left => '2'
    case Up => '3'
  }

  function HexChar(d: nat): char
    requires d < 16
  {
    if d < 10 then '0' + d as char else 'a' + (d - 10) as char
  }

  /** `n` as `width` lowercase hexadecimal digits, most significant first. */
  function HexText(n: nat, width: nat): (t: string)
    ensures |t| == width && AllHex(t)
  {
    if width == 0 then [] else HexText(n / 16, width - 1) + [HexChar(n % 16)]
  }

  lemma {:induction false} HexTextValue(n: nat, width: nat)
    requires n < Pow(16, width)
    ensures HexValue(HexText(n, width)) == n
  {
    if width > 0 {
      var t := HexText(n, width);
      assert t[..|t| - 1] == HexText(n / 16, width - 1);
      HexTextValue(n / 16, width - 1);
    }
  }

  /** The line as the puzzle writes it, e.g. `R 6 (#70c710)`. */
  function LineText(shown: Instruction, hidden: Instruction): string
    requires shown.length >= 0 && hidden.length >= 0
  {
    [Letter(shown.direction)] + " " + DecimalText(shown.length) + " " + ColourText(hidden)
  }

  /** The colour token `(#rrrrrd)` of an instruction. */
  function ColourText(hidden: Instruction): string
    requires hidden.length >= 0
  {
    "(#" + HexText(hidden.length, 5) + [Code(hidden.direction), ')']
  }

  lemma ColourTextHasNoSpace(hidden: Instruction)
    requires hidden.length >= 0
    ensures ' ' !in ColourText(hidden)
  {
    var hex := HexText(hidden.length, 5);
    var token := ColourText(hidden);
    forall i | 0 <= i < |token| ensures token[i] != ' ' {
      if 2 <= i < 7 {
        assert token[i] == hex[i - 2];
        assert HexDigit(hex[i - 2]).Some?;
      }
    }
  }

  /** The colour token gives back the hidden instruction. */
  lemma ParseColourText(hidden: Instruction)
    requires 0 <= hidden.length < 0x10_0000
    ensures ParseColour(ColourText(hidden)) == Ok(hidden)
  {
    var hex := HexText(hidden.length, 5);
    var token := ColourText(hidden);
    assert token[2..8] == hex + [Code(hidden.direction)];
    assert (hex + [Code(hidden.direction)])[..5] == hex;
    assert Pow(16, 5) == 0x10_0000;
    HexTextValue(hidden.length, 5);
    assert HexDigit(hex[0]).Some?;
    assert ParseHex(hex, U32_LIMIT) == Some(hidden.length);
  }

  /** The decimal length has no space and parses back as an `i64`. */
  lemma ParseDecimalLength(n: nat)
    requires n < I64_HALF
    ensures ' ' !in DecimalText(n)
    ensures ParseSigned(DecimalText(n), I64_HALF) == Some(n)
  {
    var digits := DecimalText(n);
    AllDigitsChars(digits);
    forall i | 0 <= i < |digits| ensures digits[i] != ' ' {
      assert IsDigit(digits[i]);
    }
    assert IsDigit(digits[0]);
    ParseDecimalText(n, I64_HALF);
  }

  /** A printed line splits into its three fields. */
  lemma LineFields(shown: Instruction, hidden: Instruction)
    requires 0 <= shown.length < I64_HALF && hidden.length >= 0
    ensures Split(LineText(shown, hidden), " ") == [[Letter(shown.direction)], DecimalText(shown.length), ColourText(hidden)]
  {
    var digits := DecimalText(shown.length);
    var token := ColourText(hidden);
    ParseDecimalLength(shown.length);
    ColourTextHasNoSpace(hidden);
    assert LineText(shown, hidden) == [Letter(shown.direction)] + " " + (digits + " " + token);
    SplitAtFirst([Letter(shown.direction)], ' ', digits + " " + token);
    SplitAtFirst(digits, ' ', token);
    SplitWithout(token, ' ');
  }

  /** Parsing a printed line gives back both instructions, when the visible
      length fits an `i64` and the hidden one five hexadecimal digits. */
  lemma ParseLineText(shown: Instruction, hidden: Instruction)
    requires 0 <= shown.length < I64_HALF
    requires 0 <= hidden.length < 0x10_0000
    ensures ParseLine(LineText(shown, hidden)) == Ok((shown, hidden))
  {
    LineFields(shown, hidden);
    ParseDecimalLength(shown.length);
    ParseColourText(hidden);
    var fields := Split(LineText(shown, hidden), " ");
    assert ParseLetter(fields[0]) == Ok(shown.direction);
  }

  // ------------------------------------------------------------ the answers

  /** Both plans of the input: the visible instructions and the hidden ones. */
  function Plans(rows: seq<(Instruction, Instruction)>): (r: (seq<Instruction>, seq<Instruction>))
    ensures |r.0| == |rows| && |r.1| == |rows|
    ensures forall i :: 0 <= i < |rows| ==> r.0[i] == rows[i].0 && r.1[i] == rows[i].1
  {
    (seq(|rows|, i requires 0 <= i < |rows| => rows[i].0), seq(|rows|, i requires 0 <= i < |rows| => rows[i].1))
  }

  /** Reads every line, then sizes the lagoon of each plan. */
  method Solve(input: string) returns (r: Result<(int, int)>)
    ensures var rows := MapResults(Lines(input), ParseLine);
      r.Ok? <==> rows.Ok?
    ensures var rows := MapResults(Lines(input), ParseLine);
      r.Ok? ==> r.value == (Lagoon(Plans(rows.value).0), Lagoon(Plans(rows.value).1))
  {
    var rows := MapResults(Lines(input), ParseLine);
    if rows.Err? {
      return Err(rows.reason);
    }
    var plans := Plans(rows.value);
    var part1 := DoSolve(plans.0);
    var part2 := DoSolve(plans.1);
    return Ok((part1, part2));
  }
}
