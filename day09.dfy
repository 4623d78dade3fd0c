/** Day 9: Mirage Maintenance. Each line is a history of readings; taking
    differences until a row is all zeros lets the history be extended one
    value forward (part 1) and one value backward (part 2). */
module Day09 {
  import opened Util

  const PANIC: string := "panic"

  /** `i64`: readings parse in `[-2^63, 2^63)`. */
  const I64_HALF: nat := 0x8000_0000_0000_0000

  /** The differences of consecutive readings. */
  function Differences(x: seq<int>): seq<int>
    requires |x| >= 1
  {
    seq(|x| - 1, i requires 0 <= i < |x| - 1 => x[i + 1] - x[i])
  }

  /** Adding up the differences from the first reading gives back every
      reading: differencing loses only the first value. */
  lemma {:induction false} DifferencesIntegrate(x: seq<int>, k: nat)
    requires k < |x|
    ensures x[0] + Sum(Differences(x)[..k]) == x[k]
  {
    if k > 0 {
      DifferencesIntegrate(x, k - 1);
      var d := Differences(x);
      assert d[..k][..k - 1] == d[..k - 1];
    }
  }

  /** `diff`: the first reading is removed and every remaining reading is
      replaced by its difference to the one before, in place. */
  method Diff(x: seq<int>) returns (y: seq<int>)
    requires |x| >= 1
    ensures y == Differences(x)
  {
    var first := x[0];
    y := x[1..];
    for i := 0 to |y|
      invariant |y| == |x| - 1
      invariant first == x[i]
      invariant forall j :: 0 <= j < i ==> y[j] == x[j + 1] - x[j]
      invariant forall j :: i <= j < |y| ==> y[j] == x[j + 1]
    {
      var tmp := y[i];
      y := y[i := y[i] - first];
      first := tmp;
    }
  }

  predicate AllZero(x: seq<int>)
  {
    forall i :: 0 <= i < |x| ==> x[i] == 0
  }

  /** The value after the last reading and the value before the first:
      each is the reading at that end plus (after) or minus (before) the
      extrapolated differences. A non-zero row of one reading has an empty
      row of differences, and taking its first value panics. */
  function Extrapolation(x: seq<int>): Result<(int, int)>
    requires |x| >= 1
    decreases |x|
  {
    if AllZero(x) then Ok((x[|x| - 1], x[0]))
    else if |x| == 1 then Err(PANIC)
    else
      Extend(Extrapolation(Differences(x)), x[|x| - 1], x[0])
  }

  /** The extrapolations of a row from those of its differences. */
  function Extend(deeper: Result<(int, int)>, last: int, first: int): Result<(int, int)>
  {
    if deeper.Err? then deeper else Ok((last + deeper.value.0, first - deeper.value.1))
  }

  /** The loop of `solve` for one history: differences until the row is all
      zeros, adding every last value to `p1` and every first value to `p2`
      with alternating signs. */
  method ExtrapolateHistory(report: seq<int>) returns (r: Result<(int, int)>)
    requires |report| >= 1
    ensures r == Extrapolation(report)
  {
    var row := report;
    var p1 := report[|report| - 1];
    var p2 := report[0];
    var negated := true;
    while !AllZero(row)
      invariant |row| >= 1
      invariant Extrapolation(report).Ok? <==> Extrapolation(row).Ok?
      invariant Extrapolation(row).Ok? ==>
        Extrapolation(report).value ==
          (p1 + Extrapolation(row).value.0 - row[|row| - 1],
           p2 + (if negated then 1 else -1) * (Extrapolation(row).value.1 - row[0]))
      invariant Extrapolation(row).Err? ==> Extrapolation(report) == Extrapolation(row)
      decreases |row|
    {
      if |row| == 1 {
        return Err(PANIC);
      }
      row := Diff(row);
      var f := row[0];
      p1 := p1 + row[|row| - 1];
      p2 := p2 + if negated then -f else f;
      negated := !negated;
    }
    return Ok((p1, p2));
  }

  function Negated(x: seq<int>): seq<int>
  {
    seq(|x|, i requires 0 <= i < |x| => -x[i])
  }

  /** Both values negated; a failure stays the same failure. */
  function Negate(e: Result<(int, int)>): Result<(int, int)>
  {
    if e.Err? then e else Ok((-e.value.0, -e.value.1))
  }

  /** The two values exchanged; a failure stays the same failure. */
  function Swap(e: Result<(int, int)>): Result<(int, int)>
  {
    if e.Err? then e else Ok((e.value.1, e.value.0))
  }

  /** One level of the recursion. */
  lemma ExtrapolationUnfold(x: seq<int>)
    requires |x| >= 2 && !AllZero(x)
    ensures Extrapolation(x) == Extend(Extrapolation(Differences(x)), x[|x| - 1], x[0])
  {
  }

  lemma ExtrapolationZero(x: seq<int>)
    requires |x| >= 1 && AllZero(x)
    ensures Extrapolation(x) == Ok((0, 0))
  {
    assert x[0] == 0 && x[|x| - 1] == 0;
  }

  lemma ExtrapolationSingle(x: seq<int>)
    requires |x| == 1 && !AllZero(x)
    ensures Extrapolation(x) == Err(PANIC)
  {
  }

  /** Extrapolation commutes with negating every reading. */
  lemma ExtrapolationNegated(x: seq<int>)
    requires |x| >= 1
    ensures Extrapolation(Negated(x)) == Negate(Extrapolation(x))
  {
    NegatedRelated(x, Negated(x));
  }

  /** `z` holds the readings of `y` negated. */
  predicate Opposite(y: seq<int>, z: seq<int>)
  {
    |y| == |z| && forall i :: 0 <= i < |y| ==> z[i] == -y[i]
  }

  lemma {:induction false} NegatedRelated(y: seq<int>, z: seq<int>)
    requires |y| >= 1 && Opposite(y, z)
    ensures Extrapolation(z) == Negate(Extrapolation(y))
    decreases |y|
  {
    OppositeRows(y, z);
    if |y| >= 2 && !AllZero(y) {
      var dy, dz := Differences(y), Differences(z);
      NegatedRelated(dy, dz);
      OppositeStep(y, z, Extrapolation(dy), Extrapolation(dz));
    } else if AllZero(y) {
      ExtrapolationZero(y);
      ExtrapolationZero(z);
    } else {
      ExtrapolationSingle(y);
      ExtrapolationSingle(z);
    }
  }

  /** Opposite rows are all zeros together and have opposite differences. */
  lemma OppositeRows(y: seq<int>, z: seq<int>)
    requires |y| >= 1 && Opposite(y, z)
    ensures AllZero(z) <==> AllZero(y)
    ensures Opposite(Differences(y), Differences(z))
  {
  }

  lemma OppositeStep(y: seq<int>, z: seq<int>, e: Result<(int, int)>, ez: Result<(int, int)>)
    requires |y| >= 2 && !AllZero(y) && !AllZero(z) && Opposite(y, z)
    requires e == Extrapolation(Differences(y)) && ez == Extrapolation(Differences(z)) && ez == Negate(e)
    ensures Extrapolation(z) == Negate(Extrapolation(y))
  {
    var last, first := y[|y| - 1], y[0];
    assert z[|z| - 1] == -last && z[0] == -first;
    UnfoldAt(y, e, last, first);
    UnfoldAt(z, ez, -last, -first);
    ExtendNegate(e, last, first);
  }

  /** One level of the recursion, on named values. */
  lemma UnfoldAt(y: seq<int>, e: Result<(int, int)>, last: int, first: int)
    requires |y| >= 2 && !AllZero(y)
    requires e == Extrapolation(Differences(y)) && last == y[|y| - 1] && first == y[0]
    ensures Extrapolation(y) == Extend(e, last, first)
  {
  }

  /** Negating a row keeps it all zeros or not, and negates its
      differences. */
  lemma NegatedRow(x: seq<int>)
    requires |x| >= 1
    ensures |Negated(x)| == |x| && (AllZero(Negated(x)) <==> AllZero(x))
    ensures Differences(Negated(x)) == Negated(Differences(x))
  {
    var n := Negated(x);
    assert forall i :: 0 <= i < |x| ==> n[i] == -x[i];
  }

  lemma ExtendNegate(e: Result<(int, int)>, last: int, first: int)
    ensures Extend(Negate(e), -last, -first) == Negate(Extend(e, last, first))
  {
  }

  lemma ExtendSwap(e: Result<(int, int)>, last: int, first: int)
    ensures Extend(Negate(Swap(e)), first, last) == Swap(Extend(e, last, first))
  {
  }

  /** Differencing the reversed history gives the reversed, negated
      differences. */
  lemma DifferencesReversed(x: seq<int>)
    requires |x| >= 1
    ensures Differences(Reverse(x)) == Negated(Reverse(Differences(x)))
  {
  }

  /** Reversing swaps the ends and keeps a row all zeros or not. */
  lemma ReverseEnds(x: seq<int>)
    requires |x| >= 1
    ensures Reverse(x)[0] == x[|x| - 1] && Reverse(x)[|x| - 1] == x[0]
    ensures AllZero(Reverse(x)) <==> AllZero(x)
  {
    var r := Reverse(x);
    assert forall i :: 0 <= i < |x| ==> r[|x| - 1 - i] == x[i];
  }

  /** Part 2 is part 1 on the reversed history: extrapolating backward is
      extrapolating the reversed readings forward. */
  lemma {:induction false} BackwardIsReversedForward(x: seq<int>)
    requires |x| >= 1
    ensures Extrapolation(Reverse(x)) == Swap(Extrapolation(x))
    decreases |x|
  {
    var r := Reverse(x);
    ReverseEnds(x);
    if AllZero(x) {
      ExtrapolationZero(x);
      ExtrapolationZero(r);
    } else if |x| == 1 {
      ExtrapolationSingle(x);
      ExtrapolationSingle(r);
    } else {
      var d := Differences(x);
      DifferencesReversed(x);
      BackwardIsReversedForward(d);
      ExtrapolationNegated(Reverse(d));
      ExtrapolationUnfold(x);
      ExtrapolationUnfold(r);
      ExtendSwap(Extrapolation(d), x[|x| - 1], x[0]);
    }
  }

  /** Extending the history by its extrapolated next value does not change
      the extrapolated previous value. */
  lemma {:induction false} ExtendingKeepsPrevious(x: seq<int>)
    requires |x| >= 1 && Extrapolation(x).Ok?
    ensures Extrapolation(x + [Extrapolation(x).value.0]).Ok?
    ensures Extrapolation(x + [Extrapolation(x).value.0]).value.1 == Extrapolation(x).value.1
    decreases |x|
  {
    var next := Extrapolation(x).value.0;
    var e := x + [next];
    if AllZero(x) {
      assert AllZero(e);
    } else {
      var d := Differences(x);
      ExtendingKeepsPrevious(d);
      var ed := Extrapolation(d);
      UnfoldAt(x, ed, x[|x| - 1], x[0]);
      var dn := ed.value.0;
      AppendedRow(x, next, dn);
      UnfoldAt(e, Extrapolation(d + [dn]), next, x[0]);
    }
  }

  /** Appending `v` to a row that is not all zeros: still not all zeros, and
      the differences gain `v` less the old last reading. */
  lemma AppendedRow(x: seq<int>, v: int, dv: int)
    requires |x| >= 1 && !AllZero(x) && dv == v - x[|x| - 1]
    ensures !AllZero(x + [v]) && |x + [v]| >= 2
    ensures Differences(x + [v]) == Differences(x) + [dv]
    ensures (x + [v])[0] == x[0] && (x + [v])[|x|] == v
  {
    var e := x + [v];
    var i :| 0 <= i < |x| && x[i] != 0;
    assert e[i] == x[i];
  }

  /** The first history of the puzzle's example: differences of 3, so 18
      comes next and -3 before. */
  lemma ExampleArithmetic()
    ensures Extrapolation([0, 3, 6, 9, 12, 15]) == Ok((18, -3))
  {
    var x := [0, 3, 6, 9, 12, 15];
    assert Differences(x) == [3, 3, 3, 3, 3];
    assert Differences([3, 3, 3, 3, 3]) == [0, 0, 0, 0];
    ExtrapolationZero([0, 0, 0, 0]);
    assert !AllZero([3, 3, 3, 3, 3]) by {
      assert [3, 3, 3, 3, 3][0] != 0;
    }
    assert !AllZero(x) by {
      assert x[1] != 0;
    }
    ExtrapolationUnfold([3, 3, 3, 3, 3]);
    ExtrapolationUnfold(x);
  }

  /** `line.split(' ')` with every piece parsed as an `i64`. */
  function ParseReport(line: string): (r: Result<seq<int>>)
    ensures r.Ok? ==> |r.value| >= 1
  {
    MapResults(Split(line, " "), ParsePiece)
  }

  function ParsePiece(piece: string): Result<int>
  {
    match ParseSigned(piece, I64_HALF)
    case None => Err(PANIC)
    case Some(v) => Ok(v)
  }

  /** Both extrapolations of one line. */
  function LineAnswer(line: string): Result<(int, int)>
  {
    match ParseReport(line)
    case Err(e) => Err(e)
    case Ok(report) => Extrapolation(report)
  }

  /** The closure of `solve` for one line. */
  method AnswerLine(line: string) returns (r: Result<(int, int)>)
    ensures r == LineAnswer(line)
  {
    var report := ParseReport(line);
    if report.Err? {
      return Err(report.reason);
    }
    r := ExtrapolateHistory(report.value);
  }

  /** The answers of every line, in order. */
  function LineAnswers(lines: seq<string>): (r: seq<Result<(int, int)>>)
    ensures |r| == |lines|
  {
    seq(|lines|, i requires 0 <= i < |lines| => LineAnswer(lines[i]))
  }

  /** The answers added up, from the first; the first failure stops the sum. */
  function Totals(answers: seq<Result<(int, int)>>): Result<(int, int)>
  {
    if answers == [] then Ok((0, 0))
    else
      match Totals(answers[..|answers| - 1])
      case Err(e) => Err(e)
      case Ok((a, b)) =>
        match answers[|answers| - 1]
        case Err(e) => Err(e)
        case Ok((c, d)) => Ok((a + c, b + d))
  }

  /** The totals exist exactly when every answer does, and then fail with
      nothing; a failure is the first failing answer. */
  lemma {:induction false} TotalsSpec(answers: seq<Result<(int, int)>>)
    ensures Totals(answers).Ok? <==> forall i :: 0 <= i < |answers| ==> answers[i].Ok?
    ensures Totals(answers).Err? ==>
      exists i :: 0 <= i < |answers| && answers[i] == Totals(answers) && forall j :: 0 <= j < i ==> answers[j].Ok?
  {
    if answers != [] {
      var n := |answers| - 1;
      TotalsSpec(answers[..n]);
      assert forall i :: 0 <= i < n ==> answers[..n][i] == answers[i];
    }
  }

  /** `solve`: extrapolates every line and adds up the two answers; no line
      at all leaves `reduce` with nothing to unwrap. */
  method Solve(input: string) returns (r: Result<(int, int)>)
    ensures r == if Lines(input) == [] then Err(PANIC) else Totals(LineAnswers(Lines(input)))
  {
    var lines := Lines(input);
    if lines == [] {
      return Err(PANIC);
    }
    r := SumLines(lines);
  }

  /** The `map` and `reduce` of `solve` over the lines. */
  method SumLines(lines: seq<string>) returns (r: Result<(int, int)>)
    ensures r == Totals(LineAnswers(lines))
  {
    ghost var answers := LineAnswers(lines);
    var p1, p2 := 0, 0;
    for i := 0 to |lines|
      invariant SummedTo(answers, i, p1, p2)
    {
      var answer := AnswerLine(lines[i]);
      if answer.Err? {
        TotalsStep(answers, i, p1, p2, answer);
        TotalsPrefixError(answers, i + 1);
        return Err(answer.reason);
      }
      var n1, n2 := p1 + answer.value.0, p2 + answer.value.1;
      SummedStep(answers, i, p1, p2, answer, n1, n2);
      p1, p2 := n1, n2;
    }
    TotalsWhole(answers, p1, p2);
    return Ok((p1, p2));
  }

  /** The first `i` answers add up to `(p1, p2)`. */
  predicate SummedTo(answers: seq<Result<(int, int)>>, i: nat, p1: int, p2: int)
  {
    i <= |answers| && Totals(answers[..i]) == Ok((p1, p2))
  }

  lemma SummedStep(answers: seq<Result<(int, int)>>, i: nat, p1: int, p2: int, answer: Result<(int, int)>, n1: int, n2: int)
    requires SummedTo(answers, i, p1, p2) && i < |answers| && answer == answers[i] && answer.Ok?
    requires n1 == p1 + answer.value.0 && n2 == p2 + answer.value.1
    ensures SummedTo(answers, i + 1, n1, n2)
  {
    TotalsStep(answers, i, p1, p2, answer);
  }

  /** One more answer: its error, or its values added to the running sums. */
  lemma TotalsSnoc(answers: seq<Result<(int, int)>>, i: nat)
    requires i < |answers| && Totals(answers[..i]).Ok?
    ensures answers[i].Err? ==> Totals(answers[..i + 1]) == answers[i]
    ensures answers[i].Ok? ==>
      Totals(answers[..i + 1]) ==
        Ok((Totals(answers[..i]).value.0 + answers[i].value.0, Totals(answers[..i]).value.1 + answers[i].value.1))
  {
    assert answers[..i + 1][..i] == answers[..i];
  }

  lemma TotalsStep(answers: seq<Result<(int, int)>>, i: nat, p1: int, p2: int, answer: Result<(int, int)>)
    requires i < |answers| && Totals(answers[..i]) == Ok((p1, p2)) && answer == answers[i]
    ensures answer.Err? ==> Totals(answers[..i + 1]) == answer
    ensures answer.Ok? ==> Totals(answers[..i + 1]) == Ok((p1 + answer.value.0, p2 + answer.value.1))
  {
    TotalsSnoc(answers, i);
  }

  lemma TotalsWhole(answers: seq<Result<(int, int)>>, p1: int, p2: int)
    requires Totals(answers[..|answers|]) == Ok((p1, p2))
    ensures Totals(answers) == Ok((p1, p2))
  {
    assert answers[..|answers|] == answers;
  }

  lemma {:induction false} TotalsPrefixError(answers: seq<Result<(int, int)>>, n: nat)
    requires n <= |answers| && Totals(answers[..n]).Err?
    ensures Totals(answers) == Totals(answers[..n])
    decreases |answers| - n
  {
    if n < |answers| {
      assert answers[..n + 1][..n] == answers[..n];
      TotalsPrefixError(answers, n + 1);
    } else {
      assert answers[..n] == answers;
    }
  }
}
