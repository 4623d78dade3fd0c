/** Day 7, part 2: Camel Cards with jokers. `J` is now the weakest card on
    its own, and for the hand's type every joker joins whichever card makes
    the type strongest. */
module Day07Part2 {
  import opened Util
  import P1 = Day07Part1

  /** The card labels, strongest first, the joker last. */
  const CARDS: P1.Table := "AKQT98765432J"

  /** The joker's index in `CARDS`. */
  const JOLLY: nat := 12

  lemma CardsDistinct()
    ensures P1.DistinctLabels(CARDS)
  {
  }

  // ----------------------------------------------------------------- typing

  /** The `counts` array: the count of every card but the joker. */
  function JokerlessCounts(cards: seq<nat>): (cs: seq<nat>)
    ensures |cs| == 12
  {
    P1.Counts(cards)[..12]
  }

  /** The `jollies` counter. */
  function Jollies(cards: seq<nat>): nat
  {
    P1.Count(cards, JOLLY)
  }

  function Id(x: nat): int
  {
    x
  }

  /** `sort_unstable` and then `reverse`: the counts, largest first. */
  function Descending(cs: seq<nat>): (d: seq<nat>)
    ensures |d| == |cs|
  {
    Reverse(SortByKey(cs, Id))
  }

  /** The `match counts[0] + jollies` table on the descending counts. Both
      subtractions of the source are written out; `remaining` is always 0,
      as `best - d[0]` is the number of jokers. */
  function TypeFromSorted(d: seq<nat>, jollies: nat): Result<P1.HandType>
    requires |d| >= 1
  {
    var best := d[0] + jollies;
    if best == 5 then Ok(P1.FiveOfAKind)
    else if best == 4 then Ok(P1.FourOfAKind)
    else if best == 3 || best == 2 then
      var remaining: int := jollies - (best - d[0]);
      var found := exists i :: 1 <= i < |d| && d[i] == 2 - remaining;
      if best == 3 then Ok(if found then P1.FullHouse else P1.ThreeOfAKind)
      else Ok(if found then P1.TwoPair else P1.Pair)
    else if best == 1 then Ok(P1.HighCard)
    else Err("unreachable")
  }

  /** `Hand::htype` of part 2. */
  function Type2Of(h: P1.Hand): Result<P1.HandType>
  {
    TypeFromSorted(Descending(JokerlessCounts(h.cards)), Jollies(h.cards))
  }

  /** The descending counts are the counts, rearranged, in order. */
  lemma DescendingSpec(cs: seq<nat>)
    ensures multiset(Descending(cs)) == multiset(cs)
    ensures forall i, j :: 0 <= i < j < |cs| ==> Descending(cs)[j] <= Descending(cs)[i]
  {
    var s := SortByKey(cs, Id);
    ReverseMultiset(s);
    var d := Descending(cs);
    forall i, j | 0 <= i < j < |cs| ensures d[j] <= d[i] {
      assert Id(s[|s| - 1 - j]) <= Id(s[|s| - 1 - i]);
    }
  }

  /** What the table looks at: the first count is the largest, and the
      second the largest of the rest. */
  lemma DescendingHeads(cs: seq<nat>)
    requires |cs| >= 2
    ensures multiset(Descending(cs)) == multiset(cs)
    ensures forall i :: 0 <= i < |cs| ==> Descending(cs)[i] <= Descending(cs)[0]
    ensures forall i :: 1 <= i < |cs| ==> Descending(cs)[i] <= Descending(cs)[1]
  {
    DescendingSpec(cs);
    var d := Descending(cs);
    forall i | 1 <= i < |cs| ensures d[i] <= d[0] && d[i] <= d[1] {
      if i > 1 {
        assert d[1] <= d[0];
      }
    }
  }

  /** The first two descending counts are the largest count and the largest
      count elsewhere, as the scan of part 1 finds them. */
  lemma DescendingTopTwo(cs: seq<nat>)
    requires |cs| >= 2
    ensures Descending(cs)[0] == cs[P1.TopTwoAt(cs).0]
    ensures Descending(cs)[1] == cs[P1.TopTwoAt(cs).1]
  {
    var d := Descending(cs);
    var k := P1.TopTwoAt(cs).0;
    var j := P1.TopTwoAt(cs).1;
    DescendingHeads(cs);
    P1.TopTwoSpec(cs);
    HeadIsLargest(d, cs, k);
    SecondIsLargestElsewhere(d, cs, k, j);
  }

  lemma HeadIsLargest(d: seq<nat>, cs: seq<nat>, k: nat)
    requires |d| == |cs| && multiset(d) == multiset(cs) && k < |cs|
    requires forall i :: 0 <= i < |cs| ==> cs[i] <= cs[k]
    requires forall i :: 0 <= i < |d| ==> d[i] <= d[0]
    ensures d[0] == cs[k]
  {
    assert cs[k] in multiset(d);
    assert d[0] in multiset(cs);
  }

  lemma SecondIsLargestElsewhere(d: seq<nat>, cs: seq<nat>, k: nat, j: nat)
    requires |d| == |cs| && multiset(d) == multiset(cs) && k < |cs| && j < |cs| && k != j
    requires d[0] == cs[k]
    requires forall i :: 0 <= i < |cs| && i != k ==> cs[i] <= cs[j]
    requires forall i :: 1 <= i < |d| ==> d[i] <= d[1]
    ensures d[1] == cs[j]
  {
    var rest := cs[..k] + cs[k + 1..];
    RemoveAt(cs, k);
    DropHead(d);
    assert multiset(d[1..]) == multiset(rest);
    InRest(cs, k, j);
    TailBelowSecond(d, cs[j]);
    assert d[1..][0] == d[1];
    RestBelow(cs, k, j, d[1]);
  }

  lemma RemoveAt(cs: seq<nat>, k: nat)
    requires k < |cs|
    ensures multiset(cs[..k] + cs[k + 1..]) == multiset(cs) - multiset{cs[k]}
  {
    assert cs == cs[..k] + [cs[k]] + cs[k + 1..];
  }

  lemma InRest(cs: seq<nat>, k: nat, j: nat)
    requires k < |cs| && j < |cs| && k != j
    ensures cs[j] in multiset(cs[..k] + cs[k + 1..])
  {
    var rest := cs[..k] + cs[k + 1..];
    if j < k {
      assert rest[j] == cs[j];
    } else {
      assert rest[j - 1] == cs[j];
    }
  }

  lemma TailBelowSecond(d: seq<nat>, x: nat)
    requires |d| >= 2 && x in multiset(d[1..])
    requires forall i :: 1 <= i < |d| ==> d[i] <= d[1]
    ensures x <= d[1]
  {
    var i :| 0 <= i < |d[1..]| && d[1..][i] == x;
    assert d[i + 1] == x;
  }

  lemma RestBelow(cs: seq<nat>, k: nat, j: nat, x: nat)
    requires k < |cs| && j < |cs| && x in multiset(cs[..k] + cs[k + 1..])
    requires forall i :: 0 <= i < |cs| && i != k ==> cs[i] <= cs[j]
    ensures x <= cs[j]
  {
    var rest := cs[..k] + cs[k + 1..];
    var q :| 0 <= q < |rest| && rest[q] == x;
    if q < k {
      assert rest[q] == cs[q];
    } else {
      assert rest[q] == cs[q + 1];
    }
  }

  /** The counts of a hand add up to five, jokers included. */
  lemma CountsAddUp(h: P1.Hand)
    ensures Sum(JokerlessCounts(h.cards)) + Jollies(h.cards) == 5
  {
    P1.CountsSum(h.cards);
    var c := P1.Counts(h.cards);
    assert c == c[..12] + [c[12]];
    SumAppend(c[..12], [c[12]]);
  }

  /** The table reads the largest count plus the jokers, and the largest
      count elsewhere. */
  lemma Type2IsTopTwo(h: P1.Hand)
    ensures var cs := JokerlessCounts(h.cards);
      var (k, j) := P1.TopTwoAt(cs);
      Type2Of(h) == P1.Classify(cs[k] + Jollies(h.cards), cs[j])
  {
    var cs := JokerlessCounts(h.cards);
    var d := Descending(cs);
    DescendingHeads(cs);
    DescendingTopTwo(cs);
    CountsAddUp(h);
    SumPermutation(d, cs);
    SumPair(d, 0, 1);
    TableOnSorted(d, Jollies(h.cards));
  }

  /** On descending counts with at most five cards in all, the table is the
      one of part 1 on the first two counts. */
  lemma TableOnSorted(d: seq<nat>, jollies: nat)
    requires |d| >= 2 && d[0] + d[1] + jollies <= 5
    requires forall i :: 0 <= i < |d| ==> d[i] <= d[0]
    requires forall i :: 1 <= i < |d| ==> d[i] <= d[1]
    ensures TypeFromSorted(d, jollies) == P1.Classify(d[0] + jollies, d[1])
  {
    var best := d[0] + jollies;
    if best == 3 || best == 2 {
      var found := exists i :: 1 <= i < |d| && d[i] == 2;
      assert found <==> d[1] == 2;
    }
  }

  /** Part 2's type, read off the scan of part 1 on the joker-free counts:
      the largest count plus the jokers, and the largest count elsewhere.
      `Type2IsTable` shows this is what the table of `Hand::htype` gives. */
  function Type2(h: P1.Hand): P1.HandType
  {
    var cs := JokerlessCounts(h.cards);
    var k := P1.TopTwoAt(cs).0;
    P1.TopTwoSpec(cs);
    CountsAddUp(h);
    TopPlusJokers(cs, k, Jollies(h.cards));
    P1.Classify(cs[k] + Jollies(h.cards), cs[P1.TopTwoAt(cs).1]).value
  }

  /** The largest count plus the jokers is between one and five. */
  lemma TopPlusJokers(cs: seq<nat>, k: nat, jollies: nat)
    requires k < |cs| && Sum(cs) + jollies == 5
    requires forall i :: 0 <= i < |cs| ==> cs[i] <= cs[k]
    ensures 1 <= cs[k] + jollies <= 5
  {
    SumOne(cs, k);
    if cs[k] + jollies == 0 {
      assert cs == seq(|cs|, _ => 0);
      P1.SumZeros(|cs|);
    }
  }

  /** The table of `Hand::htype` never reaches its `unreachable!()` arm and
      gives `Type2`. */
  lemma Type2IsTable(h: P1.Hand)
    ensures Type2Of(h) == Ok(Type2(h))
  {
    Type2IsTopTwo(h);
    Type2IsScan(h);
  }

  lemma Type2IsScan(h: P1.Hand)
    ensures var cs := JokerlessCounts(h.cards);
      var k, j := P1.TopTwoAt(cs).0, P1.TopTwoAt(cs).1;
      P1.Classify(cs[k] + Jollies(h.cards), cs[j]) == Ok(Type2(h))
  {
    var cs := JokerlessCounts(h.cards);
    var k := P1.TopTwoAt(cs).0;
    P1.TopTwoSpec(cs);
    CountsAddUp(h);
    TopPlusJokers(cs, k, Jollies(h.cards));
  }

  /** The type read from the counts with every joker added to the largest
      count, and what that pair gives when another hand reaches at most as
      much. */
  lemma {:induction false} ClassifyMonotone(t: nat, s: nat, top: nat, second: nat)
    requires s <= t <= top && second <= top && t + s <= top + second <= 5 && 1 <= t
    ensures P1.Classify(t, s).Ok? && P1.Classify(top, second).Ok?
    ensures P1.Rank(P1.Classify(t, s).value) <= P1.Rank(P1.Classify(top, second).value)
  {
  }

  /** Adding to every count adds at most the total to any two of them. */
  lemma {:induction false} ExtraBound(cs: seq<nat>, e: seq<nat>, a: nat, b: nat)
    requires |cs| == |e| && a < |cs| && b < |cs| && a != b
    requires forall i :: 0 <= i < |cs| ==> cs[i] <= e[i]
    ensures (e[a] - cs[a]) + (e[b] - cs[b]) <= Sum(e) - Sum(cs)
    ensures e[a] - cs[a] <= Sum(e) - Sum(cs)
  {
    var extra := seq(|cs|, i requires 0 <= i < |cs| => e[i] - cs[i]);
    ExtraSum(cs, e);
    SumPair(extra, a, b);
    SumOne(extra, a);
  }

  lemma {:induction false} ExtraSum(cs: seq<nat>, e: seq<nat>)
    requires |cs| == |e|
    requires forall i :: 0 <= i < |cs| ==> cs[i] <= e[i]
    ensures Sum(e) == Sum(cs) + Sum(seq(|cs|, i requires 0 <= i < |cs| => e[i] - cs[i]))
  {
    if cs != [] {
      var n := |cs| - 1;
      ExtraSum(cs[..n], e[..n]);
      var extra := seq(|cs|, i requires 0 <= i < |cs| => e[i] - cs[i]);
      assert extra[..n] == seq(n, i requires 0 <= i < n => e[..n][i] - cs[..n][i]);
    }
  }

  /** Over counts of five cards in all, any way of spreading `jollies`
      extra cards over counts `cs` reaches at most the type of adding them
      all to the largest count. */
  lemma SpreadIsNoBetter(cs: seq<nat>, jollies: nat, e: seq<nat>, k: nat, j: nat)
    requires |cs| == |e| && k < |cs| && j < |cs| && k != j
    requires forall i :: 0 <= i < |cs| ==> cs[i] <= cs[k]
    requires forall i :: 0 <= i < |cs| && i != k ==> cs[i] <= cs[j]
    requires forall i :: 0 <= i < |cs| ==> cs[i] <= e[i]
    requires Sum(cs) + jollies == 5 && Sum(e) == 5
    ensures P1.Classify(cs[k] + jollies, cs[j]).Ok?
    ensures P1.Rank(P1.ShapeOf(e)) <= P1.Rank(P1.Classify(cs[k] + jollies, cs[j]).value)
  {
    var a, b := P1.TopTwoAt(e).0, P1.TopTwoAt(e).1;
    P1.TopTwoSpec(e);
    P1.ClassifyCounts(e, a, b);
    ExtraBound(cs, e, a, b);
    SumPair(cs, k, j);
    PairBelowTop(cs, k, j, a, b);
    SumOne(e, a);
    ClassifyMonotone(e[a], e[b], cs[k] + jollies, cs[j]);
  }

  /** Any two counts add up to at most the largest plus the largest
      elsewhere. */
  lemma PairBelowTop(cs: seq<nat>, k: nat, j: nat, a: nat, b: nat)
    requires k < |cs| && j < |cs| && a < |cs| && b < |cs| && a != b
    requires forall i :: 0 <= i < |cs| ==> cs[i] <= cs[k]
    requires forall i :: 0 <= i < |cs| && i != k ==> cs[i] <= cs[j]
    ensures cs[a] + cs[b] <= cs[k] + cs[j]
  {
    if a != k {
      assert cs[a] <= cs[j];
    } else {
      assert cs[b] <= cs[j];
    }
  }

  /** A hand `r` the jokers of `cards` can stand for: every joker becomes
      some other card, and every other card stays. */
  predicate Replaces(r: seq<nat>, cards: seq<nat>)
  {
    |r| == |cards| &&
    forall i :: 0 <= i < |r| ==> r[i] < JOLLY && (cards[i] != JOLLY ==> r[i] == cards[i])
  }

  /** Every joker replaced by card `k`. */
  function Fill(cards: seq<nat>, k: nat): (r: seq<nat>)
    ensures |r| == |cards|
  {
    seq(|cards|, i requires 0 <= i < |cards| => if cards[i] == JOLLY then k else cards[i])
  }

  /** Replacing jokers only adds to the counts of the other cards. */
  lemma {:induction false} CountDominates(cards: seq<nat>, r: seq<nat>, c: nat)
    requires Replaces(r, cards) && c != JOLLY
    ensures P1.Count(cards, c) <= P1.Count(r, c)
    ensures P1.Count(r, JOLLY) == 0
  {
    if r != [] {
      var n := |r| - 1;
      CountDominates(cards[..n], r[..n], c);
      assert cards == cards[..n] + [cards[n]];
      assert r == r[..n] + [r[n]];
    }
  }

  /** Filling with `k` moves the jokers' count onto `k`. */
  lemma {:induction false} CountFill(cards: seq<nat>, k: nat, c: nat)
    requires k < JOLLY && c != JOLLY
    ensures P1.Count(Fill(cards, k), c) == P1.Count(cards, c) + (if c == k then P1.Count(cards, JOLLY) else 0)
    ensures P1.Count(Fill(cards, k), JOLLY) == 0
  {
    if cards != [] {
      var n := |cards| - 1;
      CountFill(cards[..n], k, c);
      assert cards == cards[..n] + [cards[n]];
      assert Fill(cards, k) == Fill(cards[..n], k) + [Fill(cards, k)[n]];
    }
  }

  /** Part 2's type is the type of the hand where every joker becomes the
      most common other card (the ace when all five are jokers). */
  lemma Type2IsAchieved(h: P1.Hand)
    ensures var k := P1.TopTwoAt(JokerlessCounts(h.cards)).0;
      Replaces(Fill(h.cards, k), h.cards) && P1.ShapeType(Fill(h.cards, k)) == Type2(h)
  {
    var cs := JokerlessCounts(h.cards);
    var k, j := P1.TopTwoAt(cs).0, P1.TopTwoAt(cs).1;
    var r := Fill(h.cards, k);
    var e := P1.Counts(r);
    var jollies := Jollies(h.cards);
    P1.TopTwoSpec(cs);
    Type2IsScan(h);
    FilledCounts(h.cards, k);
    BoostedTopTwo(cs, jollies, e, k, j);
    P1.CountsSum(r);
    P1.ClassifyCounts(e, k, j);
  }

  /** The counts after filling with `k`: no jokers left, and their count
      added to `k`'s. */
  lemma FilledCounts(cards: seq<nat>, k: nat)
    requires k < JOLLY
    ensures forall c :: 0 <= c < 13 ==> (P1.Counts(Fill(cards, k))[c] ==
      if c == JOLLY then 0 else if c == k then P1.Counts(cards)[c] + Jollies(cards) else P1.Counts(cards)[c])
  {
    forall c | 0 <= c < 13
      ensures P1.Counts(Fill(cards, k))[c] ==
        if c == JOLLY then 0 else if c == k then P1.Counts(cards)[c] + Jollies(cards) else P1.Counts(cards)[c]
    {
      CountFill(cards, k, if c == JOLLY then 0 else c);
    }
  }

  /** Adding the jokers to the largest count keeps the scan's two indices
      the largest and the largest elsewhere. */
  lemma BoostedTopTwo(cs: seq<nat>, jollies: nat, e: seq<nat>, k: nat, j: nat)
    requires |cs| == 12 && |e| == 13 && k < 12 && j < 12 && k != j
    requires forall c :: 0 <= c < 13 ==> e[c] == if c == JOLLY then 0 else if c == k then cs[c] + jollies else cs[c]
    requires forall i :: 0 <= i < |cs| ==> cs[i] <= cs[k]
    requires forall i :: 0 <= i < |cs| && i != k ==> cs[i] <= cs[j]
    ensures e[k] == cs[k] + jollies && e[j] == cs[j]
    ensures forall i :: 0 <= i < |e| ==> e[i] <= e[k]
    ensures forall i :: 0 <= i < |e| && i != k ==> e[i] <= e[j]
  {
  }

  /** No way of replacing the jokers gives a stronger type than part 2's. */
  lemma Type2IsBest(h: P1.Hand, r: seq<nat>)
    requires Replaces(r, h.cards)
    ensures P1.Rank(P1.ShapeType(r)) <= P1.Rank(Type2(h))
  {
    var cs := JokerlessCounts(h.cards);
    var k := P1.TopTwoAt(cs).0;
    var j := P1.TopTwoAt(cs).1;
    var jollies := Jollies(h.cards);
    Type2IsTopTwo(h);
    CountsAddUp(h);
    PaddedDominated(h, r);
    P1.CountsSum(r);
    SpreadPadded(cs, jollies, P1.Counts(r), k, j);
    assert Type2(h) == P1.Classify(cs[k] + jollies, cs[j]).value;
  }

  lemma SpreadPadded(cs: seq<nat>, jollies: nat, e: seq<nat>, k: nat, j: nat)
    requires |cs| >= 2 && |e| == |cs| + 1
    requires (k, j) == P1.TopTwoAt(cs)
    requires forall i :: 0 <= i < |e| ==> (cs + [0])[i] <= e[i]
    requires Sum(cs) + jollies == 5 && Sum(e) == 5
    ensures P1.Classify(cs[k] + jollies, cs[j]).Ok?
    ensures P1.Rank(P1.ShapeOf(e)) <= P1.Rank(P1.Classify(cs[k] + jollies, cs[j]).value)
  {
    P1.TopTwoSpec(cs);
    var padded := cs + [0];
    SumAppend(cs, [0]);
    SpreadIsNoBetter(padded, jollies, e, k, j);
  }

  lemma PaddedDominated(h: P1.Hand, r: seq<nat>)
    requires Replaces(r, h.cards)
    ensures forall c :: 0 <= c < 13 ==> (JokerlessCounts(h.cards) + [0])[c] <= P1.Counts(r)[c]
  {
    forall c | 0 <= c < 13 ensures (JokerlessCounts(h.cards) + [0])[c] <= P1.Counts(r)[c] {
      CountDominates(h.cards, r, if c == JOLLY then 0 else c);
    }
  }

  /** Any largest count and largest count elsewhere give the type, however
      ties are broken. */
  lemma Type2FromCounts(h: P1.Hand, k: nat, j: nat)
    requires k < 12 && j < 12 && k != j
    requires forall c :: 0 <= c < 12 ==> JokerlessCounts(h.cards)[c] <= JokerlessCounts(h.cards)[k]
    requires forall c :: 0 <= c < 12 && c != k ==> JokerlessCounts(h.cards)[c] <= JokerlessCounts(h.cards)[j]
    ensures var cs := JokerlessCounts(h.cards);
      P1.Classify(cs[k] + Jollies(h.cards), cs[j]) == Ok(Type2(h))
  {
    var cs := JokerlessCounts(h.cards);
    var k', j' := P1.TopTwoAt(cs).0, P1.TopTwoAt(cs).1;
    P1.TopTwoSpec(cs);
    Type2IsScan(h);
    assert cs[k'] == cs[k];
    if k' != k {
      assert cs[k] <= cs[j'] && cs[k'] <= cs[j];
    }
    assert cs[j'] == cs[j];
  }

  /** The first test case: "82JT2" is three of a kind, the joker joining
      the pair of twos. */
  lemma Example82JT2(h: P1.Hand)
    requires h.cards == [5, 11, 12, 3, 11]
    ensures Type2(h) == P1.ThreeOfAKind
  {
    Counts82JT2(h);
    Type2FromCounts(h, 11, 3);
  }

  lemma Parse82JT2(h: P1.Hand)
    requires h.cards == [5, 11, 12, 3, 11]
    ensures P1.NewHand(CARDS, "82JT2") == Ok(h)
  {
    ExampleText(h, "82JT2");
  }

  lemma Counts82JT2(h: P1.Hand)
    requires h.cards == [5, 11, 12, 3, 11]
    ensures forall c :: 0 <= c < 12 ==> JokerlessCounts(h.cards)[c] == if c == 11 then 2 else if c == 3 || c == 5 then 1 else 0
    ensures Jollies(h.cards) == 1
  {
  }

  /** The second test case: "Q8833", without a joker, is two pair. */
  lemma ExampleQ8833(h: P1.Hand)
    requires h.cards == [2, 5, 5, 10, 10]
    ensures Type2(h) == P1.TwoPair
  {
    CountsQ8833(h);
    Type2FromCounts(h, 5, 10);
  }

  lemma ParseQ8833(h: P1.Hand)
    requires h.cards == [2, 5, 5, 10, 10]
    ensures P1.NewHand(CARDS, "Q8833") == Ok(h)
  {
    ExampleText(h, "Q8833");
  }

  lemma CountsQ8833(h: P1.Hand)
    requires h.cards == [2, 5, 5, 10, 10]
    ensures forall c :: 0 <= c < 12 ==> JokerlessCounts(h.cards)[c] == if c == 5 || c == 10 then 2 else if c == 2 then 1 else 0
    ensures Jollies(h.cards) == 0
  {
  }

  lemma ExampleText(h: P1.Hand, text: string)
    requires P1.HandText(CARDS, h) == text
    ensures P1.NewHand(CARDS, text) == Ok(h)
  {
    CardsDistinct();
    P1.NewHandOfText(CARDS, h);
  }

  /** `Hand::htype` of part 2, with its counting loop, the sort and the
      reversal of the counts. */
  method HandType2Of(h: P1.Hand) returns (t: Result<P1.HandType>)
    ensures t == Type2Of(h)
  {
    var counts := new nat[12](_ => 0);
    var jollies := 0;
    for i := 0 to 5
      invariant forall c :: 0 <= c < 12 ==> counts[c] == P1.Count(h.cards[..i], c)
      invariant jollies == P1.Count(h.cards[..i], JOLLY)
    {
      assert h.cards[..i + 1] == h.cards[..i] + [h.cards[i]];
      if h.cards[i] == JOLLY {
        jollies := jollies + 1;
      } else {
        counts[h.cards[i]] := counts[h.cards[i]] + 1;
      }
    }
    assert h.cards[..5] == h.cards;
    ghost var cs := counts[..];
    assert cs == JokerlessCounts(h.cards);
    SortInPlace(counts, Id);
    SortedUnique(counts[..], SortByKey(cs, Id), Id);
    ReverseInPlace(counts);
    t := TypeFromSorted(counts[..], jollies);
  }

  // --------------------------------------------------------------- ordering

  /** The `fold` of `Ord for Hand`: each pair of cards, stronger first,
      breaks the tie left by the comparisons before it. */
  function FoldThen(acc: Ordering, a: seq<nat>, b: seq<nat>): Ordering
    requires |a| == |b|
    decreases |a|
  {
    if a == [] then acc
    else FoldThen(Then(acc, Reversed(Cmp(a[0], b[0]))), a[1..], b[1..])
  }

  /** The fold is the lexicographic comparison, reversed, after `acc`. */
  lemma {:induction false} FoldIsLexicographic(acc: Ordering, a: seq<nat>, b: seq<nat>)
    requires |a| == |b|
    ensures FoldThen(acc, a, b) == Then(acc, Reversed(CmpLex(a, b)))
    decreases |a|
  {
    if a != [] {
      var first := Reversed(Cmp(a[0], b[0]));
      FoldIsLexicographic(Then(acc, first), a[1..], b[1..]);
      ThenAssociative(acc, first, Reversed(CmpLex(a[1..], b[1..])));
      ReversedThen(Cmp(a[0], b[0]), CmpLex(a[1..], b[1..]));
    }
  }

  /** `Ord for Hand` of part 2. */
  function Compare(a: P1.Hand, b: P1.Hand): Ordering
  {
    FoldThen(Cmp(P1.Rank(Type2(a)), P1.Rank(Type2(b))), a.cards, b.cards)
  }

  /** The number whose base-13 digits are the type and the strengths. */
  function Key(h: P1.Hand): int
  {
    P1.Rank(Type2(h)) * Pow(13, 5) + Positional(P1.Strengths(h), 13)
  }

  /** Comparing hands is comparing their keys: type first, then card by card
      with the joker weakest; so the order is total. */
  lemma CompareIsKey(a: P1.Hand, b: P1.Hand)
    ensures Compare(a, b) == Cmp(Key(a), Key(b))
  {
    FoldIsLexicographic(Cmp(P1.Rank(Type2(a)), P1.Rank(Type2(b))), a.cards, b.cards);
    LexComplement(a.cards, b.cards, 12);
    LexIsPositional(P1.Strengths(a), P1.Strengths(b), 13);
    PositionalBound(P1.Strengths(a), 13);
    PositionalBound(P1.Strengths(b), 13);
    LeadingDigitDecides(P1.Rank(Type2(a)), P1.Rank(Type2(b)), Positional(P1.Strengths(a), 13), Positional(P1.Strengths(b), 13), Pow(13, 5));
  }

  /** Two hands compare equal only when they are the same hand. */
  lemma CompareEqualIff(a: P1.Hand, b: P1.Hand)
    ensures Compare(a, b) == Equal <==> a == b
  {
    FoldIsLexicographic(Cmp(P1.Rank(Type2(a)), P1.Rank(Type2(b))), a.cards, b.cards);
    if Compare(a, b) == Equal {
      P1.LexEqual(a.cards, b.cards);
    }
    if a == b {
      P1.LexEqualSelf(a.cards);
    }
  }

  // -------------------------------------------------------------- winnings

  function EntryKey(e: P1.Entry): int
  {
    Key(e.hand)
  }

  /** The entries sorted by part 2's order, in some order among equal hands. */
  predicate IsRanking(ranked: seq<P1.Entry>, entries: seq<P1.Entry>)
  {
    multiset(ranked) == multiset(entries) && SortedBy(ranked, EntryKey)
  }

  /** Every ranking earns the same winnings as long as equal hands carry
      equal bids. */
  lemma RankingIsUnique(r1: seq<P1.Entry>, r2: seq<P1.Entry>, entries: seq<P1.Entry>)
    requires IsRanking(r1, entries) && IsRanking(r2, entries)
    requires forall i, j :: 0 <= i < |entries| && 0 <= j < |entries| && entries[i].hand == entries[j].hand ==> entries[i].bid == entries[j].bid
    ensures r1 == r2 && P1.Winnings(r1) == P1.Winnings(r2)
  {
    forall i, j | 0 <= i < |r1| && 0 <= j < |r1| && EntryKey(r1[i]) == EntryKey(r1[j])
      ensures r1[i] == r1[j]
    {
      CompareIsKey(r1[i].hand, r1[j].hand);
      CompareEqualIff(r1[i].hand, r1[j].hand);
      assert r1[i] in multiset(entries) && r1[j] in multiset(entries);
      var p :| 0 <= p < |entries| && entries[p] == r1[i];
      var q :| 0 <= q < |entries| && entries[q] == r1[j];
    }
    SortedUnique(r1, r2, EntryKey);
  }

  /** `solve` of part 2: parse with the joker table, sort by part 2's
      order, add the weighted bids. */
  method Solve(input: string) returns (r: Result<nat>)
    ensures r.Ok? <==> P1.ParseEntries(CARDS, input).Ok?
    ensures r.Ok? ==> exists ranked :: IsRanking(ranked, P1.ParseEntries(CARDS, input).value) && r.value == P1.Winnings(ranked)
  {
    var parsed := P1.ParseEntries(CARDS, input);
    if parsed.Err? {
      return Err(parsed.reason);
    }
    var entries := parsed.value;
    var a := new P1.Entry[|entries|](i requires 0 <= i < |entries| => entries[i]);
    assert a[..] == entries;
    SortInPlace(a, EntryKey);
    assert IsRanking(a[..], entries);
    var answer := P1.TotalWinnings(a);
    return Ok(answer);
  }
}
