/** Day 4: scratchcards. A card counts its candidate numbers that occur
    among its winning numbers. Part 1 scores 2^(m-1) per card with m matches;
    in part 2 every copy of a card wins one copy of each of the next m cards,
    and the answer is the number of cards held in the end. */
module Day04 {
  import opened Util

  const U64: nat := 0x1_0000_0000_0000_0000

  /** A card: its 1-based id, its number of matches, the copies held and the
      copies whose winnings are still to be handed out. */
  datatype Card = Card(id: nat, matching: nat, had: nat, toProcess: nat)

  // ---------------------------------------------------------------- parsing

  function ParseU64(w: string): (r: Result<nat>)
    ensures r.Ok? ==> r.value < U64
  {
    match ParseUnsigned(w, U64)
    case Some(v) => Ok(v)
    case None => Err("invalid number")
  }

  /** One side of a card: the trimmed text split at ASCII whitespace, each
      word a `u64`; a word that is not one panics. */
  function ParseNumbers(s: string): Result<seq<nat>>
  {
    MapResults(Words(Trim(s)), ParseU64)
  }

  /** How many candidates occur among the winners, counted with repetition. */
  function CountMatches(winners: seq<nat>, candidates: seq<nat>): (r: nat)
    ensures r <= |candidates|
  {
    if candidates == [] then 0
    else CountMatches(winners, candidates[..|candidates| - 1]) + (if candidates[|candidates| - 1] in winners then 1 else 0)
  }

  /** The positions of the candidates that occur among the winners. */
  function MatchPositions(winners: seq<nat>, candidates: seq<nat>): set<nat>
  {
    set k: nat | k < |candidates| && candidates[k] in winners
  }

  /** The count is the number of candidate positions holding a winner; it is
      0 exactly when no candidate wins and |candidates| exactly when all do. */
  lemma {:induction false} CountMatchesSpec(winners: seq<nat>, candidates: seq<nat>)
    ensures CountMatches(winners, candidates) == |MatchPositions(winners, candidates)|
    ensures CountMatches(winners, candidates) == 0 <==> forall k :: 0 <= k < |candidates| ==> candidates[k] !in winners
    ensures CountMatches(winners, candidates) == |candidates| <==> forall k :: 0 <= k < |candidates| ==> candidates[k] in winners
  {
    if candidates != [] {
      var n := |candidates| - 1;
      var init := candidates[..n];
      CountMatchesSpec(winners, init);
      var before := MatchPositions(winners, init);
      var after := MatchPositions(winners, candidates);
      if candidates[n] in winners {
        assert after == before + {n};
      } else {
        assert after == before;
      }
      assert forall k :: 0 <= k < n ==> candidates[k] == init[k];
    }
  }

  /** A line "Card <id>: <winners> | <candidates>" at index `idx`; the card's
      id is its position plus one, whatever the text says, and it starts with
      one copy held and one to process. A missing separator panics. */
  function ParseCard(idx: nat, line: string): (r: Result<Card>)
    ensures r.Ok? ==> r.value.id == idx + 1 && r.value.had == 1 && r.value.toProcess == 1
  {
    match SplitOnce(line, ": ")
    case None => Err("missing ': '")
    case Some((_, body)) =>
      match SplitOnce(body, " | ")
      case None => Err("missing ' | '")
      case Some((w, c)) =>
        match ParseNumbers(w)
        case Err(e) => Err(e)
        case Ok(winners) =>
          match ParseNumbers(c)
          case Err(e) => Err(e)
          case Ok(candidates) => Ok(Card(idx + 1, CountMatches(winners, candidates), 1, 1))
  }

  function ParseIndexedCard(p: (nat, string)): (r: Result<Card>)
  {
    ParseCard(p.0, p.1)
  }

  function ParseCards(lines: seq<string>): (r: Result<seq<Card>>)
    ensures r.Ok? ==> |r.value| == |lines|
  {
    MapResults(seq(|lines|, i requires 0 <= i < |lines| => (i as nat, lines[i])), ParseIndexedCard)
  }

  /** Freshly parsed cards: card `i` has id `i + 1`, one copy held and one to process. */
  predicate Fresh(cs: seq<Card>)
  {
    forall i :: 0 <= i < |cs| ==> cs[i].id == i + 1 && cs[i].had == 1 && cs[i].toProcess == 1
  }

  lemma ParsedCardsAreFresh(lines: seq<string>)
    requires ParseCards(lines).Ok?
    ensures Fresh(ParseCards(lines).value)
  {
    var xs := seq(|lines|, i requires 0 <= i < |lines| => (i as nat, lines[i]));
    MapResultsSpec(xs, ParseIndexedCard);
  }

  // ----------------------------------------------------------------- part 1

  function Pow2(n: nat): (r: nat)
    ensures r >= 1
  {
    if n == 0 then 1 else 2 * Pow2(n - 1)
  }

  /** The score of a card with `m` matches: 0 without a match, else 2^(m-1). */
  function Score(m: nat): (r: nat)
  {
    if m == 0 then 0 else Pow2(m - 1)
  }

  /** The first match scores 1 and every further match doubles the score. */
  lemma ScoreDoubles(m: nat)
    ensures Score(m) == 0 <==> m == 0
    ensures Score(1) == 1
    ensures m >= 1 ==> Score(m + 1) == 2 * Score(m)
  {
  }

  function TotalScore(cs: seq<Card>): nat
  {
    if cs == [] then 0 else TotalScore(cs[..|cs| - 1]) + Score(cs[|cs| - 1].matching)
  }

  // ---------------------------------------------------------- the cascade

  /** A won card: both of its counters grow by the copies being handed out. */
  function Bump(c: Card, amount: nat): Card
  {
    c.(had := c.had + amount, toProcess := c.toProcess + amount)
  }

  /** The inner loop over `won_id` in `lo + 1 ..= hi`: the cards at indices
      `lo .. hi - 1` are bumped in order; an index past the last card panics. */
  function AddCopies(cs: seq<Card>, lo: nat, hi: nat, amount: nat): (r: Result<seq<Card>>)
    requires lo <= hi
    ensures r.Ok? ==> |r.value| == |cs|
    decreases hi - lo
  {
    if lo == hi then Ok(cs)
    else match AddCopies(cs, lo, hi - 1, amount)
      case Err(e) => Err(e)
      case Ok(c) => if hi - 1 < |c| then Ok(c[hi - 1 := Bump(c[hi - 1], amount)]) else Err("won card out of bounds")
  }

  /** The loop succeeds exactly when the range is empty or ends inside the
      cards, and then bumps exactly the cards of the range, once each. */
  lemma {:induction false} AddCopiesSpec(cs: seq<Card>, lo: nat, hi: nat, amount: nat)
    requires lo <= hi
    ensures AddCopies(cs, lo, hi, amount).Ok? <==> lo == hi || hi <= |cs|
    ensures AddCopies(cs, lo, hi, amount).Ok? ==>
      forall j :: 0 <= j < |cs| ==> AddCopies(cs, lo, hi, amount).value[j] == if lo <= j < hi then Bump(cs[j], amount) else cs[j]
    decreases hi - lo
  {
    if lo < hi {
      AddCopiesSpec(cs, lo, hi - 1, amount);
    }
  }

  /** Processing the card at `idx`: its pending copies are taken and zeroed,
      then each of the `matching` cards after it by id receives them. */
  function Process(cs: seq<Card>, idx: nat): (r: Result<seq<Card>>)
    requires idx < |cs|
    ensures r.Ok? ==> |r.value| == |cs|
  {
    var c := cs[idx];
    AddCopies(cs[idx := c.(toProcess := 0)], c.id, c.id + c.matching, c.toProcess)
  }

  /** The outer loop over the first `n` cards. */
  function Cascade(cs: seq<Card>, n: nat): (r: Result<seq<Card>>)
    requires n <= |cs|
    ensures r.Ok? ==> |r.value| == |cs|
  {
    if n == 0 then Ok(cs)
    else match Cascade(cs, n - 1)
      case Err(e) => Err(e)
      case Ok(c) => Process(c, n - 1)
  }

  lemma {:induction false} CascadeErrorIsFinal(cs: seq<Card>, n: nat)
    requires n <= |cs| && Cascade(cs, n).Err?
    ensures Cascade(cs, |cs|).Err?
    decreases |cs| - n
  {
    if n < |cs| {
      CascadeErrorIsFinal(cs, n + 1);
    }
  }

  /** What processing card `idx` should leave at index `j`. */
  function Effect(cs: seq<Card>, idx: nat, j: nat): Card
    requires idx < |cs| && j < |cs|
  {
    if idx < j <= idx + cs[idx].matching then Bump(cs[j], cs[idx].toProcess)
    else if j == idx then cs[idx].(toProcess := 0)
    else cs[j]
  }

  /** Processing the card at `idx`, whose id is its position plus one,
      zeroes its own pending count, adds its pending copies to both counters
      of the `matching` cards after it, and changes nothing else; in
      particular no card before it changes. */
  lemma ProcessEffect(cs: seq<Card>, idx: nat)
    requires idx < |cs| && cs[idx].id == idx + 1 && Process(cs, idx).Ok?
    ensures forall j :: 0 <= j < |cs| ==>
      Process(cs, idx).value[j] == Effect(cs, idx, j)
  {
    var c := cs[idx];
    AddCopiesSpec(cs[idx := c.(toProcess := 0)], c.id, c.id + c.matching, c.toProcess);
  }

  /** The cascade loop over the card vector, updating the counters in place. */
  method ProcessCards(cards: array<Card>) returns (ok: bool)
    modifies cards
    ensures ok <==> Cascade(old(cards[..]), cards.Length).Ok?
    ensures ok ==> cards[..] == Cascade(old(cards[..]), cards.Length).value
  {
    ghost var start := cards[..];
    for idx := 0 to cards.Length
      invariant Cascade(start, idx).Ok? && Cascade(start, idx).value == cards[..]
    {
      var c := cards[idx];
      var amount := c.toProcess;
      cards[idx] := c.(toProcess := 0);
      ghost var zeroed := cards[..];
      var wonId := c.id + 1;
      while wonId <= c.id + c.matching
        invariant c.id + 1 <= wonId <= c.id + c.matching + 1
        invariant AddCopies(zeroed, c.id, wonId - 1, amount) == Ok(cards[..])
        decreases c.id + c.matching + 1 - wonId
      {
        if wonId - 1 >= cards.Length {
          AddCopiesSpec(zeroed, c.id, c.id + c.matching, amount);
          CascadeErrorIsFinal(start, idx + 1);
          return false;
        }
        cards[wonId - 1] := Bump(cards[wonId - 1], amount);
        wonId := wonId + 1;
      }
    }
    return true;
  }

  // ------------------------------------------------- what the cascade means

  /** The copies that card `j` wins from the cards at indices below `n`: each
      such card `i` whose range `i + 1 .. i + matching` covers `j` hands out
      every copy it holds. */
  function Won(cs: seq<Card>, j: nat, n: nat): nat
    requires n <= |cs|
  {
    if n == 0 then 0
    else Won(cs, j, n - 1) + (if n - 1 < j <= n - 1 + cs[n - 1].matching then cs[n - 1].had else 0)
  }

  /** `Won` depends only on the copies held and the matches of the cards below `n`. */
  lemma {:induction false} WonFrame(a: seq<Card>, b: seq<Card>, j: nat, n: nat)
    requires n <= |a| && n <= |b|
    requires forall i :: 0 <= i < n ==> a[i].had == b[i].had && a[i].matching == b[i].matching
    ensures Won(a, j, n) == Won(b, j, n)
  {
    if n > 0 {
      WonFrame(a, b, j, n - 1);
    }
  }

  function Min(a: nat, b: nat): nat
  {
    if a <= b then a else b
  }

  /** Ids are positions plus one and matches are those of `cs0`. */
  predicate SameCards(cs0: seq<Card>, cs: seq<Card>)
  {
    |cs| == |cs0| && forall i :: 0 <= i < |cs| ==> cs[i].id == i + 1 && cs[i].matching == cs0[i].matching
  }

  /** Processed cards have nothing pending; the others have pending every copy they hold. */
  predicate PendingCopies(cs: seq<Card>, n: nat)
  {
    forall i :: 0 <= i < |cs| ==> cs[i].toProcess == if i < n then 0 else cs[i].had
  }

  /** Every card holds its original copy plus what it won from the processed
      cards before it. */
  predicate HeldCopies(cs: seq<Card>, n: nat)
  {
    n <= |cs| && forall j :: 0 <= j < |cs| ==> cs[j].had == 1 + Won(cs, j, Min(n, j))
  }

  lemma ProcessKeepsCards(cs0: seq<Card>, c: seq<Card>, n: nat)
    requires n < |c| && SameCards(cs0, c) && Process(c, n).Ok?
    ensures SameCards(cs0, Process(c, n).value)
  {
    ProcessEffect(c, n);
  }

  lemma ProcessKeepsPending(c: seq<Card>, n: nat)
    requires n < |c| && c[n].id == n + 1 && PendingCopies(c, n) && Process(c, n).Ok?
    ensures PendingCopies(Process(c, n).value, n + 1)
  {
    ProcessEffect(c, n);
  }

  lemma ProcessKeepsHeld(c: seq<Card>, n: nat)
    requires n < |c| && c[n].id == n + 1 && c[n].toProcess == c[n].had && HeldCopies(c, n) && Process(c, n).Ok?
    ensures HeldCopies(Process(c, n).value, n + 1)
  {
    var d := Process(c, n).value;
    ProcessEffect(c, n);
    assert forall i :: 0 <= i <= n ==> d[i].had == c[i].had && d[i].matching == c[i].matching by {
      forall i | 0 <= i <= n ensures d[i].had == c[i].had && d[i].matching == c[i].matching {
        assert d[i] == Effect(c, n, i);
      }
    }
    forall j | 0 <= j < |d|
      ensures d[j].had == 1 + Won(d, j, Min(n + 1, j))
    {
      HeldAt(c, d, n, j);
    }
  }

  lemma HeldAt(c: seq<Card>, d: seq<Card>, n: nat, j: nat)
    requires n < |c| == |d| && j < |c| && c[n].toProcess == c[n].had
    requires d[j] == Effect(c, n, j)
    requires c[j].had == 1 + Won(c, j, Min(n, j))
    requires forall i :: 0 <= i <= n ==> d[i].had == c[i].had && d[i].matching == c[i].matching
    ensures d[j].had == 1 + Won(d, j, Min(n + 1, j))
  {
    if j <= n {
      WonFrame(c, d, j, j);
    } else {
      WonFrame(c, d, j, n);
    }
  }

  lemma {:induction false} CascadeKeepsCards(cs0: seq<Card>, n: nat)
    requires Fresh(cs0) && n <= |cs0| && Cascade(cs0, n).Ok?
    ensures SameCards(cs0, Cascade(cs0, n).value)
  {
    if n > 0 {
      CascadeKeepsCards(cs0, n - 1);
      ProcessKeepsCards(cs0, Cascade(cs0, n - 1).value, n - 1);
    }
  }

  /** The state after processing the first `n` of the fresh cards `cs0`: ids
      and matches are unchanged, processed cards have nothing pending,
      unprocessed cards have pending as many copies as they hold, and every
      card holds its original copy plus what it won from the processed cards
      before it. */
  lemma {:induction false} CascadeKeepsState(cs0: seq<Card>, n: nat)
    requires Fresh(cs0) && n <= |cs0| && Cascade(cs0, n).Ok?
    ensures SameCards(cs0, Cascade(cs0, n).value)
    ensures PendingCopies(Cascade(cs0, n).value, n)
    ensures HeldCopies(Cascade(cs0, n).value, n)
  {
    CascadeKeepsCards(cs0, n);
    if n == 0 {
      forall j | 0 <= j < |cs0| ensures cs0[j].had == 1 + Won(cs0, j, Min(0, j)) {
      }
    } else {
      var c := Cascade(cs0, n - 1).value;
      CascadeKeepsState(cs0, n - 1);
      assert c[n - 1].id == n && c[n - 1].toProcess == c[n - 1].had;
      ProcessKeepsPending(c, n - 1);
      ProcessKeepsHeld(c, n - 1);
    }
  }

  /** After the cascade over fresh cards, no copy is pending and each card
      holds its original plus every copy held by each earlier card whose
      range covers it: the counts satisfy the puzzle's recurrence. */
  lemma CopiesRecurrence(cs0: seq<Card>)
    requires Fresh(cs0) && Cascade(cs0, |cs0|).Ok?
    ensures forall j :: 0 <= j < |cs0| ==> Cascade(cs0, |cs0|).value[j].toProcess == 0
    ensures forall j :: 0 <= j < |cs0| ==>
      Cascade(cs0, |cs0|).value[j].had == 1 + Won(Cascade(cs0, |cs0|).value, j, j)
  {
    CascadeKeepsState(cs0, |cs0|);
  }

  /** The cascade over the first `n` fresh cards panics exactly when one of
      them has a match range reaching past the last card. */
  lemma {:induction false} CascadeOkIff(cs0: seq<Card>, n: nat)
    requires Fresh(cs0) && n <= |cs0|
    ensures Cascade(cs0, n).Ok? <==>
      forall i :: 0 <= i < n ==> cs0[i].matching == 0 || i + 1 + cs0[i].matching <= |cs0|
  {
    if n > 0 {
      CascadeOkIff(cs0, n - 1);
      if Cascade(cs0, n - 1).Ok? {
        CascadeKeepsCards(cs0, n - 1);
        var c := Cascade(cs0, n - 1).value;
        AddCopiesSpec(c[n - 1 := c[n - 1].(toProcess := 0)], c[n - 1].id, c[n - 1].id + c[n - 1].matching, c[n - 1].toProcess);
      }
    }
  }

  function TotalHad(cs: seq<Card>): nat
  {
    if cs == [] then 0 else TotalHad(cs[..|cs| - 1]) + cs[|cs| - 1].had
  }

  // ----------------------------------------------------------------- solver

  /** Both answers: the total score, and the total number of cards held after
      the cascade. A malformed line or a range past the last card panics. */
  function Answers(input: string): (r: Result<(nat, nat)>)
  {
    match ParseCards(Lines(input))
    case Err(e) => Err(e)
    case Ok(cs) =>
      match Cascade(cs, |cs|)
      case Err(e) => Err(e)
      case Ok(final) => Ok((TotalScore(cs), TotalHad(final)))
  }

  method Solve(input: string) returns (r: Result<(nat, nat)>)
    ensures r == Answers(input)
  {
    var parsed := ParseCards(Lines(input));
    if parsed.Err? {
      return Err(parsed.reason);
    }
    var part1 := TotalScore(parsed.value);
    var cards := new Card[|parsed.value|](i requires 0 <= i < |parsed.value| => parsed.value[i]);
    assert cards[..] == parsed.value;
    var ok := ProcessCards(cards);
    if !ok {
      return Err(Cascade(parsed.value, |parsed.value|).reason);
    }
    var part2 := TotalHad(cards[..]);
    return Ok((part1, part2));
  }
}
