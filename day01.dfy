/** Calibration values (day01/src/lib.rs): the first and last digit of each line.
    Part 1 looks only at ASCII digits; part 2 also recognises the spelled-out
    words "one" to "nine", scanning one byte at a time. */
module Day01 {
  import opened Util

  const Words: seq<string> := ["one", "two", "three", "four", "five", "six", "seven", "eight", "nine"]

  // ---------------------------------------------------------------- part 1

  /** Position of the first ASCII digit of `line`. */
  function FirstDigitIndex(line: string): (r: Option<nat>)
    ensures r.Some? ==> r.value < |line| && IsDigit(line[r.value])
    ensures r.Some? ==> forall k :: 0 <= k < r.value ==> !IsDigit(line[k])
    ensures r.None? ==> forall k :: 0 <= k < |line| ==> !IsDigit(line[k])
  {
    if line == [] then None
    else if IsDigit(line[0]) then Some(0)
    else match FirstDigitIndex(line[1..])
      case None => None
      case Some(i) => Some(i + 1)
  }

  /** Position of the last ASCII digit of `line`. */
  function LastDigitIndex(line: string): (r: Option<nat>)
    ensures r.Some? ==> r.value < |line| && IsDigit(line[r.value])
    ensures r.Some? ==> forall k :: r.value < k < |line| ==> !IsDigit(line[k])
    ensures r.None? ==> forall k :: 0 <= k < |line| ==> !IsDigit(line[k])
  {
    if line == [] then None
    else if IsDigit(line[|line| - 1]) then Some(|line| - 1)
    else LastDigitIndex(line[..|line| - 1])
  }

  /** Part 1 value of one line: ten times its first digit plus its last digit.
      A line without any digit makes the `unwrap` fail. */
  function LineValue1(line: string): Result<nat>
  {
    match FirstDigitIndex(line)
    case None => Err("line without a digit")
    case Some(i) =>
      var j := LastDigitIndex(line).value;
      Ok(10 * DigitValue(line[i]) + DigitValue(line[j]))
  }

  /** A line fails exactly when it has no digit; otherwise its value is read
      off its first and its last digit. */
  lemma LineValue1Spec(line: string)
    ensures LineValue1(line).Err? <==> forall k :: 0 <= k < |line| ==> !IsDigit(line[k])
    ensures LineValue1(line).Ok? ==> exists i, j ::
      0 <= i <= j < |line| && IsDigit(line[i]) && IsDigit(line[j]) &&
      (forall k :: 0 <= k < i ==> !IsDigit(line[k])) &&
      (forall k :: j < k < |line| ==> !IsDigit(line[k])) &&
      LineValue1(line).value == 10 * DigitValue(line[i]) + DigitValue(line[j])
  {
    match FirstDigitIndex(line)
    case None =>
    case Some(i) =>
      var j := LastDigitIndex(line).value;
      assert i <= j;
  }

  lemma SingleDigitUsedTwice(line: string, i: nat)
    requires i < |line| && IsDigit(line[i])
    requires forall k :: 0 <= k < |line| && k != i ==> !IsDigit(line[k])
    ensures LineValue1(line) == Ok(11 * DigitValue(line[i]))
  {
    var f := FirstDigitIndex(line);
    var l := LastDigitIndex(line);
    assert f == Some(i) && l == Some(i);
  }

  /** Part 1 answer: the sum of the line values. */
  function Part1(lines: seq<string>): (r: Result<nat>)
    ensures r.Ok? <==> forall n :: 0 <= n < |lines| ==> LineValue1(lines[n]).Ok?
  {
    var values := seq(|lines|, n requires 0 <= n < |lines| => LineValue1(lines[n]));
    assert forall n :: 0 <= n < |lines| ==> values[n] == LineValue1(lines[n]);
    SumResults(values)
  }

  // ---------------------------------------------------------------- part 2

  /** Index of the first word of `Words` that `rest` starts with (`position`). */
  function WordIndex(rest: string): (r: Option<nat>)
    ensures r.Some? ==> r.value < |Words| && Words[r.value] <= rest
    ensures r.Some? ==> forall k :: 0 <= k < r.value ==> !(Words[k] <= rest)
    ensures r.None? ==> forall k :: 0 <= k < |Words| ==> !(Words[k] <= rest)
  {
    WordIndexFrom(rest, 0)
  }

  function WordIndexFrom(rest: string, from: nat): (r: Option<nat>)
    requires from <= |Words|
    ensures r.Some? ==> from <= r.value < |Words| && Words[r.value] <= rest
    ensures r.Some? ==> forall k :: from <= k < r.value ==> !(Words[k] <= rest)
    ensures r.None? ==> forall k :: from <= k < |Words| ==> !(Words[k] <= rest)
    decreases |Words| - from
  {
    if from == |Words| then None
    else if Words[from] <= rest then Some(from)
    else WordIndexFrom(rest, from + 1)
  }

  /** The digit recognised at position `i`: an ASCII digit, else the spelled
      word starting there, else nothing. */
  function DigitAt(line: string, i: nat): (r: Option<nat>)
    requires i < |line|
    ensures r.Some? ==> r.value <= 9
    ensures IsDigit(line[i]) ==> r == Some(DigitValue(line[i]))
    ensures !IsDigit(line[i]) ==> (r.Some? <==> exists k :: 0 <= k < |Words| && Words[k] <= line[i..])
    ensures !IsDigit(line[i]) && r.Some? ==> 1 <= r.value && Words[r.value - 1] <= line[i..]
  {
    if IsDigit(line[i]) then Some(DigitValue(line[i]))
    else match WordAt(line, i)
      case None => None
      case Some(k) => Some(k + 1)
  }

  /** The index of the spelled word starting at position `i`, if any. */
  function WordAt(line: string, i: nat): Option<nat>
    requires i <= |line|
  {
    WordIndex(line[i..])
  }

  /** The digits recognised at positions `0 .. n-1`, in order. */
  function Found(line: string, n: nat): seq<nat>
    requires n <= |line|
  {
    if n == 0 then []
    else Found(line, n - 1) + match DigitAt(line, n - 1) case Some(d) => [d] case None => []
  }

  function FirstOf(s: seq<nat>): Option<nat> { if s == [] then None else Some(s[0]) }
  function LastOf(s: seq<nat>): Option<nat> { if s == [] then None else Some(s[|s| - 1]) }

  /** The part 2 value of a line: first and last recognised digit, or a failed unwrap. */
  function LineValue2Spec(line: string): Result<nat>
  {
    Ends(Found(line, |line|))
  }

  /** Ten times the first plus the last of the digits found, or a failed
      unwrap when there is none. */
  function Ends(f: seq<nat>): Result<nat>
  {
    if f == [] then Err("line without a digit") else Ok(10 * f[0] + f[|f| - 1])
  }

  /** The byte-at-a-time scan of part 2: `first` is set once, by the first
      recognised digit; `last` follows every recognised digit. */
  method LineValue2(line: string) returns (r: Result<nat>)
    ensures r == LineValue2Spec(line)
  {
    var rest := line;
    var first: Option<nat> := None;
    var last: Option<nat> := None;
    ghost var i := 0;
    while rest != []
      invariant 0 <= i <= |line| && rest == line[i..]
      invariant first == FirstOf(Found(line, i))
      invariant last == LastOf(Found(line, i))
      decreases |rest|
    {
      var digit: Option<nat>;
      if IsDigit(rest[0]) {
        digit := Some(DigitValue(rest[0]));
      } else {
        var n := WordIndex(rest);
        digit := if n.Some? then Some(n.value + 1) else None;
      }
      assert digit == DigitAt(line, i);
      ghost var before := Found(line, i);
      assert Found(line, i + 1) == before + if digit.Some? then [digit.value] else [];
      ScanStep(before, Found(line, i + 1), digit, first, last);
      if first.None? { first := digit; }
      if digit.Some? { last := digit; }
      rest := rest[1..];
      i := i + 1;
    }
    ScanResult(Found(line, |line|), first, last);
    if first.None? || last.None? {
      r := Err("line without a digit");
    } else {
      r := Ok(10 * first.value + last.value);
    }
  }

  /** Keeping the first digit seen and the latest one follows the found digits. */
  lemma ScanStep(f: seq<nat>, g: seq<nat>, d: Option<nat>, first: Option<nat>, last: Option<nat>)
    requires g == f + if d.Some? then [d.value] else []
    requires first == FirstOf(f) && last == LastOf(f)
    ensures FirstOf(g) == if first.None? then d else first
    ensures LastOf(g) == if d.Some? then d else last
  {
    FirstOfAppend(f, if d.Some? then [d.value] else []);
    LastOfAppend(f, if d.Some? then [d.value] else []);
  }

  /** What the scan reports from the first and last digit it kept. */
  lemma ScanResult(f: seq<nat>, first: Option<nat>, last: Option<nat>)
    requires first == FirstOf(f) && last == LastOf(f)
    ensures Ends(f) == if first.None? || last.None? then Err("line without a digit") else Ok(10 * first.value + last.value)
  {
  }

  /** No spelled digit starts with a letter other than o, t, f, s, e or n. */
  lemma NoWordAt(t: string)
    requires t != [] && t[0] !in "otfsen"
    ensures WordIndex(t) == None
  {
    forall k | 0 <= k < |Words| ensures !(Words[k] <= t) {
      assert Words[k][0] in "otfsen";
    }
  }

  lemma OneightStartsWords()
    ensures DigitAt("oneight", 0) == Some(1) && DigitAt("oneight", 2) == Some(8)
  {
    var s := "oneight";
    assert Words[0] <= s[0..];
    forall k | 0 <= k < 7 ensures !(Words[k] <= s[2..]) {
      assert Words[k][0] != 'e';
    }
    assert Words[7] <= s[2..];
  }

  lemma OneightElsewhere()
    ensures DigitAt("oneight", 1) == None && DigitAt("oneight", 6) == None
  {
    var s := "oneight";
    forall k | 0 <= k < |Words| ensures !(Words[k] <= s[1..]) {
      assert s[1..] == "neight";
      if k == 8 { assert Words[8][1] != s[1..][1]; } else { assert Words[k][0] != 'n'; }
    }
    forall k | 0 <= k < |Words| ensures !(Words[k] <= s[6..]) {
      assert |s[6..]| == 1;
    }
  }

  lemma OneightMiddle()
    ensures DigitAt("oneight", 3) == None && DigitAt("oneight", 4) == None
    ensures DigitAt("oneight", 5) == None
  {
    var s := "oneight";
    NoWordAt(s[3..]);
    NoWordAt(s[4..]);
    NoWordAt(s[5..]);
  }

  /** Advancing one byte at a time lets overlapping words both count. */
  lemma OverlappingWords()
    ensures Found("oneight", 7) == [1, 8]
    ensures LineValue2Spec("oneight") == Ok(18)
  {
    var s := "oneight";
    OneightPrefix();
    OneightMiddle();
    OneightElsewhere();
    FoundStep(s, 3, [1, 8], None, [1, 8]);
    FoundStep(s, 4, [1, 8], None, [1, 8]);
    FoundStep(s, 5, [1, 8], None, [1, 8]);
    FoundStep(s, 6, [1, 8], None, [1, 8]);
  }

  lemma OneightPrefix()
    ensures Found("oneight", 3) == [1, 8]
  {
    var s := "oneight";
    OneightStartsWords();
    OneightOne();
    FoundStep(s, 2, [1], Some(8), [1, 8]);
  }

  lemma OneightOne()
    ensures Found("oneight", 2) == [1]
  {
    var s := "oneight";
    OneightStartsWords();
    OneightElsewhere();
    FoundStep(s, 0, [], Some(1), [1]);
    FoundStep(s, 1, [1], None, [1]);
  }

  lemma FoundStep(line: string, n: nat, prev: seq<nat>, d: Option<nat>, next: seq<nat>)
    requires n < |line| && Found(line, n) == prev && DigitAt(line, n) == d
    requires next == prev + if d.Some? then [d.value] else []
    ensures Found(line, n + 1) == next
  {
  }

  predicate NoSpelledDigits(line: string)
  {
    forall i :: 0 <= i < |line| ==> WordAt(line, i).None?
  }

  /** Without spelled words, one more position adds its digit byte, if any. */
  lemma FoundPlain(line: string, n: nat)
    requires 0 < n <= |line| && NoSpelledDigits(line)
    ensures Found(line, n) == Found(line, n - 1) + if IsDigit(line[n - 1]) then [DigitValue(line[n - 1])] else []
  {
    assert WordAt(line, n - 1).None?;
  }

  /** Without spelled words, nothing is found exactly when there is no digit byte. */
  lemma {:induction false} FoundEmpty(line: string, n: nat)
    requires n <= |line| && NoSpelledDigits(line)
    ensures Found(line, n) == [] <==> forall k :: 0 <= k < n ==> !IsDigit(line[k])
  {
    if n > 0 {
      FoundEmpty(line, n - 1);
      EmptyStep(line, n);
      NoDigitSplit(line, n);
    }
  }

  lemma EmptyStep(line: string, n: nat)
    requires 0 < n <= |line| && NoSpelledDigits(line)
    ensures Found(line, n) == [] <==> Found(line, n - 1) == [] && !IsDigit(line[n - 1])
  {
    FoundPlain(line, n);
  }

  lemma NoDigitSplit(line: string, n: nat)
    requires 0 < n <= |line|
    ensures (forall k :: 0 <= k < n ==> !IsDigit(line[k])) <==> (forall k :: 0 <= k < n - 1 ==> !IsDigit(line[k])) && !IsDigit(line[n - 1])
  {
  }

  /** Without spelled words, the first digit found is the first digit byte. */
  lemma {:induction false} FoundFirst(line: string, n: nat, i: nat)
    requires i < n <= |line| && NoSpelledDigits(line)
    requires IsDigit(line[i]) && forall k :: 0 <= k < i ==> !IsDigit(line[k])
    ensures FirstOf(Found(line, n)) == Some(DigitValue(line[i]))
  {
    FoundPlain(line, n);
    var prev := Found(line, n - 1);
    var here := if IsDigit(line[n - 1]) then [DigitValue(line[n - 1])] else [];
    if n == i + 1 {
      FoundEmpty(line, i);
      FirstOfAppend(prev, here);
    } else {
      FoundFirst(line, n - 1, i);
      FirstOfAppend(prev, here);
    }
  }

  /** Without spelled words, the last digit found is the last digit byte. */
  lemma {:induction false} FoundLast(line: string, n: nat, j: nat)
    requires j < n <= |line| && NoSpelledDigits(line)
    requires IsDigit(line[j]) && forall k :: j < k < n ==> !IsDigit(line[k])
    ensures LastOf(Found(line, n)) == Some(DigitValue(line[j]))
  {
    if n > j + 1 {
      FoundLast(line, n - 1, j);
      LastSkipsPlain(line, n);
    } else {
      LastIsDigit(line, n);
    }
  }

  lemma LastSkipsPlain(line: string, n: nat)
    requires 0 < n <= |line| && NoSpelledDigits(line) && !IsDigit(line[n - 1])
    ensures LastOf(Found(line, n)) == LastOf(Found(line, n - 1))
  {
    FoundPlain(line, n);
    LastOfAppend(Found(line, n - 1), []);
  }

  lemma LastIsDigit(line: string, n: nat)
    requires 0 < n <= |line| && NoSpelledDigits(line) && IsDigit(line[n - 1])
    ensures LastOf(Found(line, n)) == Some(DigitValue(line[n - 1]))
  {
    FoundPlain(line, n);
    LastOfAppend(Found(line, n - 1), [DigitValue(line[n - 1])]);
  }

  lemma FirstOfAppend(s: seq<nat>, t: seq<nat>)
    ensures FirstOf(s + t) == if s == [] then FirstOf(t) else FirstOf(s)
  {
    if s != [] {
      assert (s + t)[0] == s[0];
    }
  }

  lemma LastOfAppend(s: seq<nat>, t: seq<nat>)
    ensures LastOf(s + t) == if t == [] then LastOf(s) else LastOf(t)
  {
    if t == [] {
      assert s + t == s;
    } else {
      assert (s + t)[|s + t| - 1] == t[|t| - 1];
    }
  }

  /** On a line without spelled-out digits, part 2 reads the same value as part 1. */
  lemma Part2AgreesWithPart1(line: string)
    requires NoSpelledDigits(line)
    ensures LineValue2Spec(line) == LineValue1(line)
  {
    var f := Found(line, |line|);
    match FirstDigitIndex(line)
    case None =>
      FoundEmpty(line, |line|);
      assert f == [];
      assert LineValue1(line) == Err("line without a digit");
    case Some(i) =>
      var j := LastDigitIndex(line).value;
      FoundFirst(line, |line|, i);
      FoundLast(line, |line|, j);
      ScanResult(f, FirstOf(f), LastOf(f));
      assert LineValue1(line) == Ok(10 * DigitValue(line[i]) + DigitValue(line[j]));
  }

  /** Part 2 answer: the sum over the lines. */
  method Part2(lines: seq<string>) returns (r: Result<nat>)
    ensures r == SumResults(seq(|lines|, n requires 0 <= n < |lines| => LineValue2Spec(lines[n])))
  {
    ghost var values := seq(|lines|, n requires 0 <= n < |lines| => LineValue2Spec(lines[n]));
    var total := 0;
    var n := 0;
    while n < |lines|
      invariant 0 <= n <= |lines|
      invariant SumResults(values[..n]) == Ok(total)
    {
      var v := LineValue2(lines[n]);
      SumResultsStep(values, n, total);
      if v.Err? {
        PrefixErrorIsFinal(values, n + 1);
        return v;
      }
      var next := total + v.value;
      total, n := next, n + 1;
    }
    PrefixOkIsWhole(values, total);
    r := Ok(total);
  }
}
