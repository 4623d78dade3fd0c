/** Day 7, part 1: Camel Cards. Each line is a hand of five cards and a bid;
    hands are ranked by their type and then card by card, and the winnings
    are the bids weighted by rank. */
module Day07Part1 {
  import opened Util

  /** The card labels, strongest first; a card is stored as its index here. */
  const CARDS: Table := "AKQJT98765432"

  /** A card, as its index in `CARDS`. */
  type Card = c: nat | c < 13

  /** The five cards of a hand. */
  type Cards = s: seq<Card> | |s| == 5 witness [0, 0, 0, 0, 0]

  datatype Hand = Hand(cards: Cards)

  datatype HandType = HighCard | Pair | TwoPair | ThreeOfAKind | FullHouse | FourOfAKind | FiveOfAKind

  // ---------------------------------------------------------------- parsing

  /** A table of the thirteen card labels, strongest first. */
  type Table = t: string | |t| == 13 witness "AKQJT98765432"

  /** No label appears twice. */
  predicate DistinctLabels(table: Table)
  {
    forall i, j :: 0 <= i < j < 13 ==> table[i] != table[j]
  }

  /** The position of a card label in the table; an unknown label panics. */
  function CardIndex(table: Table, b: char): (r: Result<Card>)
    ensures r.Ok? <==> b in table
    ensures r.Ok? ==> table[r.value] == b
  {
    match IndexOf(table, b)
    case None => Err("unknown card")
    case Some(i) => Ok(i)
  }

  /** `Hand::new`: the five slots are zipped with the characters, so slots
      past the end of a short string keep card 0 and characters past the
      fifth are never looked at. */
  function NewHand(table: Table, s: string): Result<Hand>
  {
    var n := if |s| < 5 then |s| else 5;
    match MapResults(s[..n], b => CardIndex(table, b))
    case Err(e) => Err(e)
    case Ok(idx) => Ok(Hand(idx + seq(5 - n, _ => 0)))
  }

  /** `Hand::new` panics exactly when one of the first five characters is
      not a card; otherwise slot i holds the index of character i, and 0
      where the string is shorter. */
  lemma NewHandSpec(table: Table, s: string)
    ensures NewHand(table, s).Ok? <==> forall i :: 0 <= i < 5 && i < |s| ==> s[i] in table
    ensures NewHand(table, s).Ok? ==> forall i :: 0 <= i < 5 ==>
      if i < |s| then table[NewHand(table, s).value.cards[i]] == s[i] else NewHand(table, s).value.cards[i] == 0
  {
    var n := if |s| < 5 then |s| else 5;
    var prefix := s[..n];
    MapResultsSpec(prefix, b => CardIndex(table, b));
    assert forall i :: 0 <= i < n ==> prefix[i] == s[i];
  }

  /** The labels of a hand. */
  function HandText(table: Table, h: Hand): (t: string)
    ensures |t| == 5
  {
    seq(5, i requires 0 <= i < 5 => table[h.cards[i]])
  }

  lemma CardIndexOfLabel(table: Table, k: Card)
    requires DistinctLabels(table)
    ensures CardIndex(table, table[k]) == Ok(k)
  {
  }

  /** With distinct labels, writing a hand's labels and reading them back
      gives the hand. */
  lemma NewHandOfText(table: Table, h: Hand)
    requires DistinctLabels(table)
    ensures NewHand(table, HandText(table, h)) == Ok(h)
  {
    var t := HandText(table, h);
    var f := b => CardIndex(table, b);
    forall i | 0 <= i < 5 ensures f(t[i]) == Ok(h.cards[i]) {
      CardIndexOfLabel(table, h.cards[i]);
    }
    MapResultsSpec(t[..5], f);
    assert t[..5] == t;
    var idx := MapResults(t, f).value;
    assert idx + seq(0, _ => 0) == idx;
    assert idx == h.cards;
  }

  lemma CardsDistinct()
    ensures DistinctLabels(CARDS)
  {
  }

  // ----------------------------------------------------------------- typing

  /** How many cards of the hand are `c`. */
  function Count(cards: seq<nat>, c: nat): nat
  {
    multiset(cards)[c]
  }

  /** The `counts` array: the count of every card. */
  function Counts(cards: seq<nat>): (r: seq<nat>)
    ensures |r| == 13
  {
    seq(13, c requires 0 <= c < 13 => Count(cards, c))
  }

  /** The scan for `most` and `second_most`, element by element. */
  function TopTwo(s: seq<nat>): (nat, nat)
  {
    if s == [] then (0, 0)
    else
      var (most, second) := TopTwo(s[..|s| - 1]);
      var count := s[|s| - 1];
      if count > most then (count, most)
      else if count > second then (most, count)
      else (most, second)
  }

  /** Where the scan found `most` and `second_most`, for two or more counts. */
  function TopTwoAt(s: seq<nat>): (r: (nat, nat))
    requires |s| >= 2
    ensures r.0 < |s| && r.1 < |s| && r.0 != r.1
  {
    if |s| == 2 then (if s[1] > s[0] then (1, 0) else (0, 1))
    else
      var n := |s| - 1;
      var (k, j) := TopTwoAt(s[..n]);
      if s[n] > s[k] then (n, k)
      else if s[n] > s[j] then (k, n)
      else (k, j)
  }

  /** The scan finds the largest count, at k, and, ties allowed, the largest
      count at any index other than k. */
  lemma {:induction false} TopTwoSpec(s: seq<nat>)
    requires |s| >= 2
    ensures var (k, j) := TopTwoAt(s);
      TopTwo(s) == (s[k], s[j]) &&
      (forall i :: 0 <= i < |s| ==> s[i] <= s[k]) &&
      (forall i :: 0 <= i < |s| && i != k ==> s[i] <= s[j])
  {
    var n := |s| - 1;
    if |s| == 2 {
      assert s[..1][..0] == [];
    } else {
      var p := s[..n];
      TopTwoSpec(p);
      var k, j := TopTwoAt(p).0, TopTwoAt(p).1;
      assert p[k] == s[k] && p[j] == s[j];
      assert forall i :: 0 <= i < n ==> p[i] == s[i];
    }
  }

  /** The `match most` table; `unreachable!()` panics. */
  function Classify(most: nat, second: nat): Result<HandType>
  {
    if most == 5 then Ok(FiveOfAKind)
    else if most == 4 then Ok(FourOfAKind)
    else if most == 3 then Ok(if second == 2 then FullHouse else ThreeOfAKind)
    else if most == 2 then Ok(if second == 2 then TwoPair else Pair)
    else if most == 1 then Ok(HighCard)
    else Err("unreachable")
  }

  /** `Hand::htype`. */
  function TypeOf(h: Hand): Result<HandType>
  {
    var (most, second) := TopTwo(Counts(h.cards));
    Classify(most, second)
  }

  /** The type read from the counts of a hand, independently of the scan. */
  function ShapeOf(cs: seq<nat>): HandType
  {
    if exists c :: 0 <= c < |cs| && cs[c] == 5 then FiveOfAKind
    else if exists c :: 0 <= c < |cs| && cs[c] == 4 then FourOfAKind
    else if exists c :: 0 <= c < |cs| && cs[c] == 3 then
      if exists d :: 0 <= d < |cs| && cs[d] == 2 then FullHouse else ThreeOfAKind
    else if exists c, d :: 0 <= c < |cs| && 0 <= d < |cs| && c != d && cs[c] == 2 && cs[d] == 2 then TwoPair
    else if exists c :: 0 <= c < |cs| && cs[c] == 2 then Pair
    else HighCard
  }

  /** Five of a kind: one card five times; four of a kind: one card four
      times; full house: one card three times and another twice; three of a
      kind: one card three times and no pair; two pair: two cards twice;
      pair: one card twice; high card: no card twice. */
  function ShapeType(cards: seq<nat>): HandType
  {
    ShapeOf(Counts(cards))
  }

  /** The counts of a hand add up to its size. */
  lemma {:induction false} CountsSum(cards: seq<nat>)
    requires forall i :: 0 <= i < |cards| ==> cards[i] < 13
    ensures Sum(Counts(cards)) == |cards|
  {
    if cards == [] {
      assert Counts(cards) == seq(13, _ => 0);
      SumZeros(13);
    } else {
      var init := cards[..|cards| - 1];
      var x := cards[|cards| - 1];
      assert cards == init + [x];
      CountsSum(init);
      assert Counts(cards) == Counts(init)[x := Counts(init)[x] + 1];
      SumUpdate(Counts(init), x, 1);
    }
  }

  lemma {:induction false} SumZeros(n: nat)
    ensures Sum(seq(n, _ => 0)) == 0
  {
    if n > 0 {
      assert seq(n, _ => 0)[..n - 1] == seq(n - 1, _ => 0);
      SumZeros(n - 1);
    }
  }

  /** On counts adding up to five, the scan's pair (largest, largest
      elsewhere) picks the shape's type. */
  lemma ClassifyCounts(cs: seq<nat>, k: nat, j: nat)
    requires k < |cs| && j < |cs| && k != j && Sum(cs) == 5
    requires forall i :: 0 <= i < |cs| ==> cs[i] <= cs[k]
    requires forall i :: 0 <= i < |cs| && i != k ==> cs[i] <= cs[j]
    ensures Classify(cs[k], cs[j]) == Ok(ShapeOf(cs))
  {
    SumPair(cs, k, j);
    if cs[k] == 0 {
      forall i | 0 <= i < |cs| ensures cs[i] == 0 { }
      assert cs == seq(|cs|, _ => 0);
      SumZeros(|cs|);
    }
    forall c, d | 0 <= c < |cs| && 0 <= d < |cs| && c != d
      ensures cs[c] + cs[d] <= 5
    {
      SumPair(cs, c, d);
    }
  }

  /** The scan classifies every hand: the `unreachable!()` arm is never taken,
      and the type is the one the shape of the hand gives. */
  lemma TypeIsShape(h: Hand)
    ensures TypeOf(h) == Ok(ShapeType(h.cards))
  {
    var cs := Counts(h.cards);
    TopTwoSpec(cs);
    CountsSum(h.cards);
    var (k, j) := TopTwoAt(cs);
    ClassifyCounts(cs, k, j);
  }

  /** The type never panics. */
  function Type(h: Hand): HandType
  {
    TypeIsShape(h);
    TypeOf(h).value
  }

  /** The derived order of `HandType`: declaration order. */
  function Rank(t: HandType): nat
  {
    match t
    case HighCard => 0
    case Pair => 1
    case TwoPair => 2
    case ThreeOfAKind => 3
    case FullHouse => 4
    case FourOfAKind => 5
    case FiveOfAKind => 6
  }

  /** `Hand::htype` with its counting loops. */
  method HandTypeOf(h: Hand) returns (t: Result<HandType>)
    ensures t == TypeOf(h)
  {
    var counts := new nat[13](_ => 0);
    for i := 0 to 5
      invariant forall c :: 0 <= c < 13 ==> counts[c] == Count(h.cards[..i], c)
    {
      assert h.cards[..i + 1] == h.cards[..i] + [h.cards[i]];
      counts[h.cards[i]] := counts[h.cards[i]] + 1;
    }
    assert h.cards[..5] == h.cards;
    assert counts[..] == Counts(h.cards);
    var most, second := 0, 0;
    for c := 0 to 13
      invariant (most, second) == TopTwo(counts[..c])
    {
      assert counts[..c + 1][..c] == counts[..c];
      if counts[c] > most {
        second := most;
        most := counts[c];
      } else if counts[c] > second {
        second := counts[c];
      }
    }
    assert counts[..13] == counts[..];
    t := Classify(most, second);
  }

  // --------------------------------------------------------------- ordering

  /** `Ord for Hand`: type first, then the card indices in reverse order,
      so that a lower index is a stronger card. */
  function Compare(a: Hand, b: Hand): Ordering
  {
    Then(Cmp(Rank(Type(a)), Rank(Type(b))), Reversed(CmpLex(a.cards, b.cards)))
  }

  /** The strength of each card: 12 for an ace down to 0 for a two. */
  function Strengths(h: Hand): seq<nat>
  {
    Complement(h.cards, 12)
  }

  /** The number whose base-13 digits are the type and the strengths. */
  function Key(h: Hand): int
  {
    Rank(Type(h)) * Pow(13, 5) + Positional(Strengths(h), 13)
  }

  /** Comparing hands is comparing their keys, so sorting by `Ord` is
      sorting by the key, and the order is total. */
  lemma CompareIsKey(a: Hand, b: Hand)
    ensures Compare(a, b) == Cmp(Key(a), Key(b))
  {
    LexComplement(a.cards, b.cards, 12);
    LexIsPositional(Strengths(a), Strengths(b), 13);
    PositionalBound(Strengths(a), 13);
    PositionalBound(Strengths(b), 13);
    LeadingDigitDecides(Rank(Type(a)), Rank(Type(b)), Positional(Strengths(a), 13), Positional(Strengths(b), 13), Pow(13, 5));
  }

  lemma {:induction false} LexEqual(a: seq<nat>, b: seq<nat>)
    requires |a| == |b| && CmpLex(a, b) == Equal
    ensures a == b
  {
    if a != [] {
      LexEqual(a[1..], b[1..]);
      assert a == [a[0]] + a[1..] && b == [b[0]] + b[1..];
    }
  }

  /** Two hands compare equal only when they are the same hand. */
  lemma CompareEqualIff(a: Hand, b: Hand)
    ensures Compare(a, b) == Equal <==> a == b
  {
    if Compare(a, b) == Equal {
      LexEqual(a.cards, b.cards);
    }
    if a == b {
      LexEqualSelf(a.cards);
    }
  }

  lemma {:induction false} LexEqualSelf(a: seq<nat>)
    ensures CmpLex(a, a) == Equal
  {
    if a != [] {
      LexEqualSelf(a[1..]);
    }
  }

  /** Swapping the operands reverses the comparison. */
  lemma CompareAntisymmetric(a: Hand, b: Hand)
    ensures Compare(b, a) == Reversed(Compare(a, b))
  {
    CompareIsKey(a, b);
    CompareIsKey(b, a);
  }

  // -------------------------------------------------------------- winnings

  datatype Entry = Entry(hand: Hand, bid: nat)

  const USIZE: nat := 0x1_0000_0000_0000_0000

  /** A line "hand bid"; a missing space, a bad card or a bad bid panics. */
  function ParseEntry(table: Table, line: string): Result<Entry>
  {
    match SplitOnce(line, " ")
    case None => Err("missing space")
    case Some((hand, bid)) =>
      match NewHand(table, hand)
      case Err(e) => Err(e)
      case Ok(h) =>
        match ParseUnsigned(bid, USIZE)
        case None => Err("invalid bid")
        case Some(b) => Ok(Entry(h, b))
  }

  function ParseEntries(table: Table, input: string): Result<seq<Entry>>
  {
    MapResults(Lines(input), line => ParseEntry(table, line))
  }

  function EntryKey(e: Entry): int
  {
    Key(e.hand)
  }

  /** The entries sorted by hand, in some order among equal hands. */
  predicate IsRanking(ranked: seq<Entry>, entries: seq<Entry>)
  {
    multiset(ranked) == multiset(entries) && SortedBy(ranked, EntryKey)
  }

  /** Σ (1 + position) × bid. */
  function Winnings(ranked: seq<Entry>): nat
  {
    if ranked == [] then 0
    else Winnings(ranked[..|ranked| - 1]) + |ranked| * ranked[|ranked| - 1].bid
  }

  /** Every ranking of the same entries earns the same winnings as long as
      equal hands carry equal bids; the unstable sort leaves only the order
      among equal entries open. */
  lemma RankingIsUnique(r1: seq<Entry>, r2: seq<Entry>, entries: seq<Entry>)
    requires IsRanking(r1, entries) && IsRanking(r2, entries)
    requires forall i, j :: 0 <= i < |entries| && 0 <= j < |entries| && entries[i].hand == entries[j].hand ==> entries[i].bid == entries[j].bid
    ensures r1 == r2 && Winnings(r1) == Winnings(r2)
  {
    forall i, j | 0 <= i < |r1| && 0 <= j < |r1| && EntryKey(r1[i]) == EntryKey(r1[j])
      ensures r1[i] == r1[j]
    {
      CompareIsKey(r1[i].hand, r1[j].hand);
      CompareEqualIff(r1[i].hand, r1[j].hand);
      assert r1[i] in multiset(entries) && r1[j] in multiset(entries);
      var p :| 0 <= p < |entries| && entries[p] == r1[i];
      var q :| 0 <= q < |entries| && entries[q] == r1[j];
    }
    SortedUnique(r1, r2, EntryKey);
  }

  /** `solve`: parse, sort the vector in place by hand, add the weighted bids. */
  method Solve(input: string) returns (r: Result<nat>)
    ensures r.Ok? <==> ParseEntries(CARDS, input).Ok?
    ensures r.Ok? ==> exists ranked :: IsRanking(ranked, ParseEntries(CARDS, input).value) && r.value == Winnings(ranked)
  {
    var parsed := ParseEntries(CARDS, input);
    if parsed.Err? {
      return Err(parsed.reason);
    }
    var entries := parsed.value;
    var a := new Entry[|entries|](i requires 0 <= i < |entries| => entries[i]);
    assert a[..] == entries;
    SortInPlace(a, EntryKey);
    assert IsRanking(a[..], entries);
    var answer := TotalWinnings(a);
    return Ok(answer);
  }

  /** The `enumerate().map().sum()` over the sorted vector. */
  method TotalWinnings(a: array<Entry>) returns (answer: nat)
    ensures answer == Winnings(a[..])
  {
    answer := 0;
    for i := 0 to a.Length
      invariant answer == Winnings(a[..i])
    {
      assert a[..i + 1][..i] == a[..i];
      answer := answer + (1 + i) * a[i].bid;
    }
    assert a[..a.Length] == a[..];
  }
}
