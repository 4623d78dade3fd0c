/** Cube games (day02/src/lib.rs). Each line is "Game <id>: <handful>; <handful>; ...",
    a handful is "<n> <colour>, <n> <colour>, ...". Part 1 sums the ids of the
    games possible with 12 red, 13 green and 14 blue cubes; part 2 sums the
    powers of the smallest bag each game allows. */
module Day02 {
  import opened Util

  datatype Colour = Red | Green | Blue

  /** Cube counts shown in one handful, or held in a bag. */
  datatype Rgb = Rgb(red: nat, green: nat, blue: nat)

  datatype Game = Game(id: nat, handfuls: seq<Rgb>)

  const U8: nat := 0x100
  const U32: nat := 0x1_0000_0000

  function ColourName(c: Colour): string
  {
    match c
    case Red => "red"
    case Green => "green"
    case Blue => "blue"
  }

  /** The colour a name denotes, if any. */
  function ParseColour(name: string): (c: Option<Colour>)
    ensures c.Some? ==> name == ColourName(c.value)
    ensures c.None? ==> forall col :: name != ColourName(col)
  {
    if |name| == 3 && name[0] == 'r' && name[1] == 'e' && name[2] == 'd' then Some(Red)
    else if |name| == 5 && name[0] == 'g' && name[1] == 'r' && name[2] == 'e' && name[3] == 'e' && name[4] == 'n' then Some(Green)
    else if |name| == 4 && name[0] == 'b' && name[1] == 'l' && name[2] == 'u' && name[3] == 'e' then Some(Blue)
    else None
  }

  /** One "<n> <colour>" item: a `u8` count and a known colour name, or a panic. */
  function ParseItem(s: string): (r: Result<(nat, Colour)>)
    ensures r.Ok? ==> r.value.0 < U8
  {
    match SplitOnce(s, " ")
    case None => Err("item without a space")
    case Some((n, name)) =>
      match ParseUnsigned(n, U8)
      case None => Err("count is not a u8")
      case Some(v) =>
        match ParseColour(name)
        case None => Err("unknown colour")
        case Some(c) => Ok((v, c))
  }

  /** An item parses exactly when it is a `u8` count, a space and a colour name. */
  lemma ParseItemShape(s: string)
    ensures ParseItem(s).Ok? ==>
      exists n :: s == n + " " + ColourName(ParseItem(s).value.1) && ParseUnsigned(n, U8) == Some(ParseItem(s).value.0)
  {
    if ParseItem(s).Ok? {
      var (n, colour) := SplitOnce(s, " ").value;
      assert colour == ColourName(ParseItem(s).value.1);
    }
  }

  lemma ParseItemWellFormed(n: string, c: Colour)
    requires ' ' !in n
    ensures ParseItem(n + " " + ColourName(c)).Ok? <==> ParseUnsigned(n, U8).Some?
    ensures ParseItem(n + " " + ColourName(c)).Ok? ==> ParseItem(n + " " + ColourName(c)).value == (ParseUnsigned(n, U8).value, c)
  {
    SplitOnceAtChar(n, " ", ColourName(c));
  }

  /** The count of the last item of colour `c`, or 0 when there is none. */
  function LastCount(ps: seq<(nat, Colour)>, c: Colour): nat
  {
    if ps == [] then 0
    else if ps[|ps| - 1].1 == c then ps[|ps| - 1].0
    else LastCount(ps[..|ps| - 1], c)
  }

  /** A colour never mentioned counts 0; otherwise its count is the one of
      its last mention, which overwrites every earlier one. */
  lemma {:induction false} LastCountIsLastMention(ps: seq<(nat, Colour)>, c: Colour)
    ensures (forall k :: 0 <= k < |ps| ==> ps[k].1 != c) ==> LastCount(ps, c) == 0
    ensures (exists k :: 0 <= k < |ps| && ps[k].1 == c) ==>
      exists k :: 0 <= k < |ps| && ps[k] == (LastCount(ps, c), c) && forall j :: k < j < |ps| ==> ps[j].1 != c
  {
    if ps != [] && ps[|ps| - 1].1 != c {
      var front := ps[..|ps| - 1];
      LastCountIsLastMention(front, c);
      assert LastCount(ps, c) == LastCount(front, c);
      if exists k :: 0 <= k < |ps| && ps[k].1 == c {
        var k :| 0 <= k < |ps| && ps[k].1 == c;
        assert front[k].1 == c;
        var m :| 0 <= m < |front| && front[m] == (LastCount(front, c), c) && forall j :: m < j < |front| ==> front[j].1 != c;
        assert ps[m] == front[m];
        forall j | m < j < |ps| ensures ps[j].1 != c {
          if j < |front| {
            assert ps[j] == front[j];
          }
        }
      }
    }
  }

  lemma LastCountSnoc(ps: seq<(nat, Colour)>, p: (nat, Colour))
    ensures forall c :: LastCount(ps + [p], c) == if p.1 == c then p.0 else LastCount(ps, c)
  {
    assert (ps + [p])[..|ps|] == ps;
  }

  function RevealItems(handful: string): seq<string>
  {
    Split(Trim(handful), ", ")
  }

  /** The counts of a sequence of items: each colour takes its last mention, 0 by default. */
  function ItemsValue(items: seq<string>): Result<Rgb>
  {
    match MapResults(items, ParseItem)
    case Err(e) => Err(e)
    case Ok(ps) => Ok(Rgb(LastCount(ps, Red), LastCount(ps, Green), LastCount(ps, Blue)))
  }

  /** The counts of one handful. */
  function RevealValue(handful: string): Result<Rgb>
  {
    ItemsValue(RevealItems(handful))
  }

  /** A handful succeeds exactly when every item parses, and then holds
      the last count given for each colour. */
  lemma ItemsValueIs(items: seq<string>)
    ensures ItemsValue(items).Ok? <==> forall k :: 0 <= k < |items| ==> ParseItem(items[k]).Ok?
    ensures ItemsValue(items).Ok? ==> var ps := MapResults(items, ParseItem).value;
      ItemsValue(items).value == Rgb(LastCount(ps, Red), LastCount(ps, Green), LastCount(ps, Blue))
  {
    MapResultsSpec(items, ParseItem);
  }

  /** The item loop of one handful: each item overwrites the count of its
      colour; a bad item stops the game with a panic. */
  method TallyItems(items: seq<string>) returns (r: Result<Rgb>)
    ensures r == ItemsValue(items)
    ensures r.Ok? <==> forall k :: 0 <= k < |items| ==> ParseItem(items[k]).Ok?
    ensures r.Ok? ==> var ps := MapResults(items, ParseItem).value;
      r.value == Rgb(LastCount(ps, Red), LastCount(ps, Green), LastCount(ps, Blue))
  {
    ItemsValueIs(items);
    var red, green, blue := 0, 0, 0;
    var k := 0;
    ghost var done: seq<(nat, Colour)> := [];
    while k < |items|
      invariant 0 <= k <= |items|
      invariant MapResults(items[..k], ParseItem) == Ok(done)
      invariant red == LastCount(done, Red) && green == LastCount(done, Green) && blue == LastCount(done, Blue)
    {
      var item := ParseItem(items[k]);
      if item.Err? {
        MapResultsFirstError(items, ParseItem, k);
        return Err(item.reason);
      }
      match item.value.1 {
        case Red => red := item.value.0;
        case Green => green := item.value.0;
        case Blue => blue := item.value.0;
      }
      MapResultsSnoc(items, ParseItem, k, done, item.value);
      LastCountSnoc(done, item.value);
      done := done + [item.value];
      k := k + 1;
    }
    assert items[..k] == items;
    r := Ok(Rgb(red, green, blue));
  }

  /** The id text and the handfuls text of a game line: the text after the
      first space of the header, and the text after the first ": ". */
  function GameFields(line: string): (r: Option<(string, string)>)
    ensures r.Some? <==> SplitOnce(line, ": ").Some? && ' ' in SplitOnce(line, ": ").value.0
    ensures r.Some? ==> exists head, word ::
      line == head + ": " + r.value.1 && head == word + " " + r.value.0 &&
      ' ' !in word && forall i :: 0 <= i < |head| ==> !OccursAt(line, ": ", i)
  {
    SplitOnceFirst(line, ": ");
    match SplitOnce(line, ": ")
    case None => None
    case Some((head, tail)) =>
      SplitOnceFirst(head, " ");
      SplitOnceFindsChar(head, ' ');
      match SplitOnce(head, " ")
      case None =>
        assert ' ' !in head by {
          forall i | 0 <= i < |head| ensures head[i] != ' ' {
            assert !OccursAt(head, " ", i);
            assert head[i..i + 1] == [head[i]];
          }
        }
        None
      case Some((word, idText)) =>
        assert ' ' !in word by {
          forall i | 0 <= i < |word| ensures word[i] != ' ' {
            assert !OccursAt(head, " ", i);
            assert head[i..i + 1] == [word[i]];
          }
        }
        Some((idText, tail))
  }

  /** "Game <id>: <handfuls>": the id is the `u32` after the first space of the
      text before the first ": ", the handfuls are separated by ';'. A missing
      ": " or space, an id that is not a `u32` and a bad handful panic. */
  function ParseGame(line: string): (r: Result<Game>)
    ensures r.Ok? <==> (GameFields(line).Some? && ParseUnsigned(GameFields(line).value.0, U32).Some? &&
      MapResults(Split(GameFields(line).value.1, ";"), RevealValue).Ok?)
    ensures r.Ok? ==> (Some(r.value.id) == ParseUnsigned(GameFields(line).value.0, U32) &&
      Ok(r.value.handfuls) == MapResults(Split(GameFields(line).value.1, ";"), RevealValue))
  {
    match SplitOnce(line, ": ")
    case None => Err("game without ': '")
    case Some((head, tail)) =>
      match SplitOnce(head, " ")
      case None => Err("game header without a space")
      case Some((_, idText)) =>
        match ParseUnsigned(idText, U32)
        case None => Err("game id is not a u32")
        case Some(id) =>
          match MapResults(Split(tail, ";"), RevealValue)
          case Err(e) => Err(e)
          case Ok(handfuls) => Ok(Game(id, handfuls))
  }

  /** The bag of part 1: 12 red, 13 green and 14 blue cubes. */
  const Bag := Rgb(12, 13, 14)

  /** Each count of `h` is at most the matching count of `bag`. */
  predicate Within(h: Rgb, bag: Rgb)
  {
    h.red <= bag.red && h.green <= bag.green && h.blue <= bag.blue
  }

  /** A game is possible when every handful fits in the bag of part 1. */
  predicate Possible(g: Game)
  {
    forall k :: 0 <= k < |g.handfuls| ==> Within(g.handfuls[k], Bag)
  }

  function MaxRgb(a: Rgb, b: Rgb): Rgb
  {
    Rgb(if a.red < b.red then b.red else a.red,
        if a.green < b.green then b.green else a.green,
        if a.blue < b.blue then b.blue else a.blue)
  }

  /** The component-wise maximum of the handfuls, folded from (0, 0, 0). */
  function MaxFold(hs: seq<Rgb>): Rgb
  {
    if hs == [] then Rgb(0, 0, 0) else MaxRgb(MaxFold(hs[..|hs| - 1]), hs[|hs| - 1])
  }

  /** The fold is the smallest bag that holds every handful: it holds each of
      them, and any bag holding each of them holds it. */
  lemma {:induction false} MaxFoldIsLeast(hs: seq<Rgb>)
    ensures forall k :: 0 <= k < |hs| ==> Within(hs[k], MaxFold(hs))
    ensures forall bag :: (forall k :: 0 <= k < |hs| ==> Within(hs[k], bag)) ==> Within(MaxFold(hs), bag)
  {
    if hs != [] {
      var init := hs[..|hs| - 1];
      MaxFoldIsLeast(init);
      assert forall k :: 0 <= k < |init| ==> hs[k] == init[k];
      forall bag | forall k :: 0 <= k < |hs| ==> Within(hs[k], bag)
        ensures Within(MaxFold(hs), bag)
      {
        assert forall k :: 0 <= k < |init| ==> Within(init[k], bag);
        assert Within(MaxFold(init), bag);
        assert Within(hs[|hs| - 1], bag);
      }
    }
  }

  /** Part 1's test on every handful is the same as testing the least bag of part 2. */
  lemma PossibleIffMaxWithin(g: Game)
    ensures Possible(g) <==> Within(MaxFold(g.handfuls), Bag)
  {
    MaxFoldIsLeast(g.handfuls);
  }

  /** The product of the three counts of the least bag. */
  function Power(g: Game): nat
  {
    var m := MaxFold(g.handfuls);
    m.red * m.green * m.blue
  }

  /** Every count of a parsed handful is a `u8`. */
  lemma {:induction false} HandfulCountsAreBytes(handful: string)
    ensures RevealValue(handful).Ok? ==> Within(RevealValue(handful).value, Rgb(U8 - 1, U8 - 1, U8 - 1))
  {
    var items := RevealItems(handful);
    MapResultsSpec(items, ParseItem);
    if RevealValue(handful).Ok? {
      var ps := MapResults(items, ParseItem).value;
      forall c ensures LastCount(ps, c) < U8 {
        LastCountIsLastMention(ps, c);
        if exists k :: 0 <= k < |ps| && ps[k].1 == c {
          var k :| 0 <= k < |ps| && ps[k] == (LastCount(ps, c), c);
          assert ps[k] == ParseItem(items[k]).value;
        }
      }
    }
  }

  /** The games of a puzzle input, one per line; the first bad line is fatal. */
  function ParseGames(input: string): Result<seq<Game>>
  {
    MapResults(Lines(input), ParseGame)
  }

  /** A parsed game holds only `u8` counts. */
  lemma GameCountsAreBytes(line: string)
    ensures ParseGame(line).Ok? ==>
      forall k :: 0 <= k < |ParseGame(line).value.handfuls| ==> Within(ParseGame(line).value.handfuls[k], Rgb(U8 - 1, U8 - 1, U8 - 1))
  {
    if ParseGame(line).Ok? {
      var handfuls := Split(SplitOnce(line, ": ").value.1, ";");
      var hs := MapResults(handfuls, RevealValue).value;
      assert hs == ParseGame(line).value.handfuls;
      MapResultsSpec(handfuls, RevealValue);
      forall k | 0 <= k < |hs| ensures Within(hs[k], Rgb(U8 - 1, U8 - 1, U8 - 1)) {
        HandfulCountsAreBytes(handfuls[k]);
      }
    }
  }

  /** With `u8` counts the power is below 2^24, so the `u32` product of part 2
      never overflows. */
  lemma PowerFitsU32(g: Game)
    requires forall k :: 0 <= k < |g.handfuls| ==> Within(g.handfuls[k], Rgb(U8 - 1, U8 - 1, U8 - 1))
    ensures Power(g) < U8 * U8 * U8 < U32
  {
    MaxFoldIsLeast(g.handfuls);
    var m := MaxFold(g.handfuls);
    assert Within(m, Rgb(U8 - 1, U8 - 1, U8 - 1));
    LeqMul(m.red, U8 - 1, m.green, U8 - 1);
    LeqMul(m.red * m.green, (U8 - 1) * (U8 - 1), m.blue, U8 - 1);
  }

  lemma LeqMul(a: nat, b: nat, c: nat, d: nat)
    requires a <= b && c <= d
    ensures a * c <= b * d
  {
    assert a * c <= b * c;
  }

  /** The sum of the ids of the possible games. */
  function PossibleIdSum(games: seq<Game>): nat
  {
    if games == [] then 0
    else PossibleIdSum(games[..|games| - 1]) + (if Possible(games[|games| - 1]) then games[|games| - 1].id else 0)
  }

  /** The sum of the powers of all games. */
  function PowerSum(games: seq<Game>): nat
  {
    if games == [] then 0 else PowerSum(games[..|games| - 1]) + Power(games[|games| - 1])
  }

  /** Only possible games contribute to part 1: when none is possible the
      answer is 0, and adding an impossible game changes nothing. */
  lemma ImpossibleGamesAddNothing(games: seq<Game>, g: Game)
    requires !Possible(g)
    ensures PossibleIdSum(games + [g]) == PossibleIdSum(games)
  {
    assert (games + [g])[..|games|] == games;
  }

  /** Both answers, as `u32` sums that wrap on overflow. */
  function Solve(input: string): (r: Result<(nat, nat)>)
    ensures r.Ok? ==> r.value.0 < U32 && r.value.1 < U32
  {
    match ParseGames(input)
    case Err(e) => Err(e)
    case Ok(games) => Ok((PossibleIdSum(games) % U32, PowerSum(games) % U32))
  }

  /** Every line of the input must be a well-formed game. */
  lemma SolveFailsOnlyOnBadLines(input: string)
    ensures Solve(input).Ok? <==> forall k :: 0 <= k < |Lines(input)| ==> ParseGame(Lines(input)[k]).Ok?
  {
    MapResultsSpec(Lines(input), ParseGame);
  }
}
