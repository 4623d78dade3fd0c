/** Shared vocabulary: optional values, fatal errors (a Rust panic or
    `unwrap` on a missing value), sums, ASCII digits and a stable sort by key. */
module Util {

  datatype Option<T> = None | Some(value: T)

  /** `Err` stands for a panic of the original program: the computation stops. */
  datatype Result<T> = Ok(value: T) | Err(reason: string)

  function Sum(s: seq<int>): int
  {
    if s == [] then 0 else Sum(s[..|s| - 1]) + s[|s| - 1]
  }

  lemma {:induction false} SumAppend(s: seq<int>, t: seq<int>)
    ensures Sum(s + t) == Sum(s) + Sum(t)
  {
    if t != [] {
      assert (s + t)[..|s + t| - 1] == s + t[..|t| - 1];
      SumAppend(s, t[..|t| - 1]);
    } else {
      assert s + t == s;
    }
  }

  /** The sum of a sequence of results, accumulated from the left; the first
      error stops the accumulation. */
  function SumResults(rs: seq<Result<nat>>): (r: Result<nat>)
    ensures r.Ok? <==> forall i :: 0 <= i < |rs| ==> rs[i].Ok?
    ensures r.Err? ==> exists i :: 0 <= i < |rs| && rs[i] == r
  {
    if rs == [] then Ok(0)
    else match SumResults(rs[..|rs| - 1])
      case Err(e) => Err(e)
      case Ok(t) =>
        match rs[|rs| - 1]
        case Err(e) => Err(e)
        case Ok(v) => Ok(t + v)
  }

  /** One more entry adds its value to the sum of a prefix, or is its error. */
  lemma SumResultsStep(rs: seq<Result<nat>>, i: nat, total: nat)
    requires i < |rs| && SumResults(rs[..i]) == Ok(total)
    ensures SumResults(rs[..i + 1]) == if rs[i].Ok? then Ok(total + rs[i].value) else rs[i]
  {
    assert rs[..i + 1][..i] == rs[..i];
  }

  /** Once a prefix sums to an error, the whole sequence does. */
  lemma {:induction false} PrefixErrorIsFinal(rs: seq<Result<nat>>, n: nat)
    requires n <= |rs| && SumResults(rs[..n]).Err?
    ensures SumResults(rs) == SumResults(rs[..n])
    decreases |rs| - n
  {
    if n < |rs| {
      assert rs[..n + 1][..n] == rs[..n];
      PrefixErrorIsFinal(rs, n + 1);
    } else {
      assert rs[..n] == rs;
    }
  }

  /** One more entry of a loop summing results: its value is added, or its
      error is the whole sum. */
  lemma SumResultsNext(rs: seq<Result<nat>>, i: nat, total: nat, c: Result<nat>)
    requires i < |rs| && SumResults(rs[..i]) == Ok(total) && rs[i] == c
    ensures c.Ok? ==> SumResults(rs[..i + 1]) == Ok(total + c.value)
    ensures c.Err? ==> SumResults(rs) == c
  {
    SumResultsStep(rs, i, total);
    if c.Err? {
      PrefixErrorIsFinal(rs, i + 1);
    }
  }

  /** The full prefix is the whole sequence. */
  lemma PrefixOkIsWhole(rs: seq<Result<nat>>, total: nat)
    requires SumResults(rs[..|rs|]) == Ok(total)
    ensures SumResults(rs) == Ok(total)
  {
    assert rs[..|rs|] == rs;
  }

  /** Applies `f` to every element, left to right; the first error is the result. */
  function MapResults<A, B>(xs: seq<A>, f: A -> Result<B>): (r: Result<seq<B>>)
    ensures r.Ok? ==> |r.value| == |xs|
  {
    if xs == [] then Ok([])
    else match MapResults(xs[..|xs| - 1], f)
      case Err(e) => Err(e)
      case Ok(ys) =>
        match f(xs[|xs| - 1])
        case Err(e) => Err(e)
        case Ok(y) => Ok(ys + [y])
  }

  /** `MapResults` succeeds exactly when every element succeeds, and then
      holds the values in order; otherwise it reports the first failure. */
  lemma {:induction false} MapResultsSpec<A, B>(xs: seq<A>, f: A -> Result<B>)
    ensures MapResults(xs, f).Ok? <==> forall k :: 0 <= k < |xs| ==> f(xs[k]).Ok?
    ensures MapResults(xs, f).Ok? ==> forall k :: 0 <= k < |xs| ==> MapResults(xs, f).value[k] == f(xs[k]).value
    ensures MapResults(xs, f).Err? ==>
      exists k :: 0 <= k < |xs| && f(xs[k]) == Err(MapResults(xs, f).reason) && forall j :: 0 <= j < k ==> f(xs[j]).Ok?
  {
    if xs != [] {
      var init := xs[..|xs| - 1];
      MapResultsSpec(init, f);
      assert forall k :: 0 <= k < |init| ==> xs[k] == init[k];
    }
  }

  /** When every element maps to its value, the whole sequence does. */
  lemma MapResultsAll<A, B>(xs: seq<A>, f: A -> Result<B>, ys: seq<B>)
    requires |xs| == |ys| && forall k :: 0 <= k < |xs| ==> f(xs[k]) == Ok(ys[k])
    ensures MapResults(xs, f) == Ok(ys)
  {
    MapResultsSpec(xs, f);
    assert MapResults(xs, f).value == ys;
  }

  lemma MapResultsSnoc<A, B>(xs: seq<A>, f: A -> Result<B>, n: nat, ys: seq<B>, y: B)
    requires n < |xs| && MapResults(xs[..n], f) == Ok(ys) && f(xs[n]) == Ok(y)
    ensures MapResults(xs[..n + 1], f) == Ok(ys + [y])
  {
    assert xs[..n + 1][..n] == xs[..n];
  }

  /** The first failing element decides the result. */
  lemma MapResultsFirstError<A, B>(xs: seq<A>, f: A -> Result<B>, n: nat)
    requires n < |xs| && MapResults(xs[..n], f).Ok? && f(xs[n]).Err?
    ensures MapResults(xs, f) == Err(f(xs[n]).reason)
  {
    assert xs[..n + 1][..n] == xs[..n];
    MapResultsPrefixError(xs, f, n + 1);
  }

  /** Once a prefix fails, the whole sequence fails the same way. */
  lemma {:induction false} MapResultsPrefixError<A, B>(xs: seq<A>, f: A -> Result<B>, n: nat)
    requires n <= |xs| && MapResults(xs[..n], f).Err?
    ensures MapResults(xs, f) == MapResults(xs[..n], f)
    decreases |xs| - n
  {
    if n < |xs| {
      assert xs[..n + 1][..n] == xs[..n];
      MapResultsPrefixError(xs, f, n + 1);
    } else {
      assert xs[..n] == xs;
    }
  }

  /** Raising one element raises the sum by as much. */
  lemma {:induction false} SumUpdate(s: seq<int>, i: nat, d: int)
    requires i < |s|
    ensures Sum(s[i := s[i] + d]) == Sum(s) + d
  {
    var t := s[i := s[i] + d];
    if i < |s| - 1 {
      assert t[..|t| - 1] == s[..|s| - 1][i := s[i] + d];
      SumUpdate(s[..|s| - 1], i, d);
    } else {
      assert t[..|t| - 1] == s[..|s| - 1];
    }
  }

  /** Two different elements of a sequence of naturals add up to at most its sum. */
  lemma {:induction false} SumPair(s: seq<nat>, i: nat, j: nat)
    requires i < |s| && j < |s| && i != j
    ensures s[i] + s[j] <= Sum(s)
  {
    var n := |s| - 1;
    SumNonNegative(s[..n]);
    if i != n && j != n {
      SumPair(s[..n], i, j);
    } else if i == n {
      SumOne(s[..n], j);
    } else {
      SumOne(s[..n], i);
    }
  }

  /** One element of a sequence of naturals is at most its sum. */
  lemma {:induction false} SumOne(s: seq<nat>, i: nat)
    requires i < |s|
    ensures s[i] <= Sum(s)
  {
    var n := |s| - 1;
    SumNonNegative(s[..n]);
    if i != n {
      SumOne(s[..n], i);
    }
  }

  lemma SumNonNegative(s: seq<int>)
    requires forall i :: 0 <= i < |s| ==> s[i] >= 0
    ensures Sum(s) >= 0
  {
    if s != [] { SumNonNegative(s[..|s| - 1]); }
  }

  predicate IsDigit(c: char)
  {
    '0' <= c <= '9'
  }

  function DigitValue(c: char): (d: nat)
    requires IsDigit(c)
    ensures d < 10
  {
    c as int - '0' as int
  }

  /** Every character of `s` is an ASCII digit. */
  predicate AllDigits(s: string)
  {
    s == [] || (IsDigit(s[|s| - 1]) && AllDigits(s[..|s| - 1]))
  }

  lemma {:induction false} AllDigitsChars(s: string)
    ensures AllDigits(s) <==> forall i :: 0 <= i < |s| ==> IsDigit(s[i])
  {
    if s != [] {
      AllDigitsChars(s[..|s| - 1]);
    }
  }

  /** Decimal value of a string of digits, most significant first. */
  function DecimalValue(s: string): nat
    requires AllDigits(s)
  {
    if s == [] then 0 else DecimalValue(s[..|s| - 1]) * 10 + DigitValue(s[|s| - 1])
  }

  /** A non-empty string of ASCII digits whose value is below `bound`. */
  function ParseNat(s: string, bound: nat): (r: Option<nat>)
    ensures r.Some? ==> r.value < bound
  {
    if s != [] && AllDigits(s) && DecimalValue(s) < bound then Some(DecimalValue(s)) else None
  }

  /** The decimal rendering of `n`, without leading zeros. */
  function DecimalText(n: nat): (t: string)
    ensures t != [] && AllDigits(t)
  {
    var d := ['0' + (n % 10) as char];
    if n < 10 then d else DecimalText(n / 10) + d
  }

  /** Rendering a number and parsing it back gives the number. */
  lemma {:induction false} ParseDecimalText(n: nat, bound: nat)
    requires n < bound
    ensures ParseNat(DecimalText(n), bound) == Some(n)
  {
    DecimalTextValue(n);
  }

  lemma {:induction false} DecimalTextValue(n: nat)
    ensures DecimalValue(DecimalText(n)) == n
  {
    var t := DecimalText(n);
    if n >= 10 {
      DecimalTextValue(n / 10);
      assert t[..|t| - 1] == DecimalText(n / 10);
    }
  }

  /** Rust's `s.parse::<uN>()` with `bound == 2^N`: an optional `+`, then digits. */
  function ParseUnsigned(s: string, bound: nat): (r: Option<nat>)
    ensures r.Some? ==> r.value < bound
  {
    if |s| > 0 && s[0] == '+' then ParseNat(s[1..], bound) else ParseNat(s, bound)
  }

  /** Rust's `s.parse::<iN>()` with `half == 2^(N-1)`: an optional sign, then
      digits, with the value in `[-half, half)`. */
  function ParseSigned(s: string, half: nat): (r: Option<int>)
    requires half > 0
    ensures r.Some? ==> -(half as int) <= r.value < half
  {
    if |s| > 0 && s[0] == '-' then
      match ParseNat(s[1..], half + 1)
      case Some(v) => Some(-(v as int))
      case None => None
    else match ParseUnsigned(s, half)
      case Some(v) => Some(v)
      case None => None
  }

  /** Index of the first occurrence of `c` in `s`. */
  function IndexOf(s: string, c: char): (r: Option<nat>)
    ensures r.Some? ==> r.value < |s| && s[r.value] == c && c !in s[..r.value]
    ensures r.None? ==> c !in s
  {
    if s == [] then None
    else if s[0] == c then Some(0)
    else match IndexOf(s[1..], c)
      case None => None
      case Some(i) => assert s[1..][..i] == s[1..i + 1]; Some(i + 1)
  }

  predicate SortedBy<T>(s: seq<T>, key: T -> int)
  {
    forall i, j :: 0 <= i < j < |s| ==> key(s[i]) <= key(s[j])
  }

  /** A lower bound on the keys carries over to any permutation. */
  lemma KeysBelowPermutation<T>(r: seq<T>, src: seq<T>, key: T -> int, b: int)
    requires multiset(r) == multiset(src)
    requires forall k :: 0 <= k < |src| ==> b <= key(src[k])
    ensures forall k :: 0 <= k < |r| ==> b <= key(r[k])
  {
    forall k | 0 <= k < |r| ensures b <= key(r[k]) {
      assert r[k] in multiset(src);
      var j :| 0 <= j < |src| && src[j] == r[k];
    }
  }

  /** Inserts `x` into a sequence sorted by `key`, after every element of equal key. */
  function InsertByKey<T>(x: T, s: seq<T>, key: T -> int): (r: seq<T>)
    requires SortedBy(s, key)
    ensures SortedBy(r, key)
    ensures multiset(r) == multiset(s) + multiset{x}
    ensures |r| == |s| + 1
  {
    if s == [] then [x]
    else if key(x) < key(s[0]) then
      ConsSorted(x, s, key);
      [x] + s
    else
      SortedTail(s, key);
      var rest := InsertByKey(x, s[1..], key);
      InsertBehind(x, s, key, rest);
      [s[0]] + rest
  }

  /** An element no greater than the first of a sorted sequence keeps it
      sorted in front. */
  lemma ConsSorted<T>(y: T, s: seq<T>, key: T -> int)
    requires SortedBy(s, key) && (s != [] ==> key(y) <= key(s[0]))
    ensures SortedBy([y] + s, key)
  {
    var t := [y] + s;
    forall i, j | 0 <= i < j < |t| ensures key(t[i]) <= key(t[j]) {
      if i == 0 {
        assert t[j] == s[j - 1];
      } else {
        assert t[i] == s[i - 1] && t[j] == s[j - 1];
      }
    }
  }

  lemma SortedTail<T>(s: seq<T>, key: T -> int)
    requires s != [] && SortedBy(s, key)
    ensures SortedBy(s[1..], key)
  {
    forall i, j | 0 <= i < j < |s| - 1 ensures key(s[1..][i]) <= key(s[1..][j]) {
      assert s[1..][i] == s[i + 1] && s[1..][j] == s[j + 1];
    }
  }

  /** Inserting behind the head of a sorted sequence whose head is no
      greater than `x`. */
  lemma InsertBehind<T>(x: T, s: seq<T>, key: T -> int, rest: seq<T>)
    requires s != [] && SortedBy(s, key) && key(s[0]) <= key(x)
    requires SortedBy(rest, key) && multiset(rest) == multiset(s[1..]) + multiset{x}
    ensures SortedBy([s[0]] + rest, key)
    ensures multiset([s[0]] + rest) == multiset(s) + multiset{x}
  {
    var src := s[1..] + [x];
    forall k | 0 <= k < |src| ensures key(s[0]) <= key(src[k]) {
      if k < |s| - 1 {
        assert src[k] == s[k + 1];
      }
    }
    KeysBelowPermutation(rest, src, key, key(s[0]));
    if rest != [] {
      assert key(s[0]) <= key(rest[0]);
    }
    ConsSorted(s[0], rest, key);
    assert s == [s[0]] + s[1..];
  }

  /** Sorts by an integer key. The sorts this stands for are unstable, so
      nothing is promised about the order of elements with equal keys. */
  function SortByKey<T>(s: seq<T>, key: T -> int): (r: seq<T>)
    ensures SortedBy(r, key)
    ensures multiset(r) == multiset(s)
    ensures |r| == |s|
  {
    if s == [] then []
    else
      assert s == s[..|s| - 1] + [s[|s| - 1]];
      InsertByKey(s[|s| - 1], SortByKey(s[..|s| - 1], key), key)
  }

  /** An in-place insertion sort by swaps, standing for the slice sorts of
      the solvers: it leaves a sorted rearrangement of the elements, and
      promises nothing about the order of elements with equal keys. */
  method SortInPlace<T>(a: array<T>, key: T -> int)
    modifies a
    ensures SortedBy(a[..], key)
    ensures multiset(a[..]) == multiset(old(a[..]))
  {
    for i := 0 to a.Length
      invariant SortedBy(a[..i], key)
      invariant multiset(a[..]) == multiset(old(a[..]))
    {
      SinkLast(a, key, i);
    }
    assert a[..a.Length] == a[..];
  }

  /** Swaps `a[i]` down into the sorted prefix `a[..i]`. */
  method SinkLast<T>(a: array<T>, key: T -> int, i: nat)
    requires i < a.Length && SortedBy(a[..i], key)
    modifies a
    ensures SortedBy(a[..i + 1], key)
    ensures multiset(a[..]) == multiset(old(a[..]))
  {
    var j := i;
    while j > 0 && key(a[j - 1]) > key(a[j])
      invariant 0 <= j <= i
      invariant multiset(a[..]) == multiset(old(a[..]))
      invariant forall p, q :: 0 <= p < q <= i && q != j ==> key(a[p]) <= key(a[q])
      invariant forall q :: j < q <= i ==> key(a[j]) <= key(a[q])
    {
      Swap(a, j - 1, j);
      j := j - 1;
    }
  }

  method Swap<T>(a: array<T>, i: nat, j: nat)
    requires i < a.Length && j < a.Length
    modifies a
    ensures a[..] == old(a[..])[i := old(a[j])][j := old(a[i])]
    ensures multiset(a[..]) == multiset(old(a[..]))
  {
    a[i], a[j] := a[j], a[i];
  }

  /** Elements with equal keys are equal. */
  predicate KeyDecides<T(==)>(s: seq<T>, key: T -> int)
  {
    forall i, j :: 0 <= i < |s| && 0 <= j < |s| && key(s[i]) == key(s[j]) ==> s[i] == s[j]
  }

  /** Two sorted rearrangements of one multiset start with the same element
      when equal keys mean equal elements. */
  lemma SortedHeads<T>(s: seq<T>, t: seq<T>, key: T -> int)
    requires multiset(s) == multiset(t) && s != []
    requires SortedBy(s, key) && SortedBy(t, key) && KeyDecides(s, key)
    ensures t != [] && s[0] == t[0]
  {
    assert s[0] in multiset(t);
    var k :| 0 <= k < |t| && t[k] == s[0];
    assert t[0] in multiset(s);
    var j :| 0 <= j < |s| && s[j] == t[0];
    assert key(s[0]) <= key(s[j]) && key(t[0]) <= key(t[k]);
  }

  lemma DropHead<T>(s: seq<T>)
    requires s != []
    ensures multiset(s[1..]) == multiset(s) - multiset{s[0]}
  {
    assert s == [s[0]] + s[1..];
  }

  /** When equal keys mean equal elements, the sorted rearrangement is unique. */
  lemma {:induction false} SortedUnique<T>(s: seq<T>, t: seq<T>, key: T -> int)
    requires multiset(s) == multiset(t)
    requires SortedBy(s, key) && SortedBy(t, key) && KeyDecides(s, key)
    ensures s == t
  {
    if s == [] {
      assert |t| == |multiset(t)| == 0;
    } else {
      SortedHeads(s, t, key);
      DropHead(s);
      DropHead(t);
      assert KeyDecides(s[1..], key) by {
        forall i, j | 0 <= i < |s| - 1 && 0 <= j < |s| - 1 && key(s[1..][i]) == key(s[1..][j])
          ensures s[1..][i] == s[1..][j]
        {
          assert s[1..][i] == s[i + 1] && s[1..][j] == s[j + 1];
        }
      }
      SortedUnique(s[1..], t[1..], key);
    }
  }

  /** The elements in the opposite order. */
  function Reverse<T>(s: seq<T>): (r: seq<T>)
    ensures |r| == |s|
  {
    seq(|s|, i requires 0 <= i < |s| => s[|s| - 1 - i])
  }

  /** Reversing keeps the elements. */
  lemma {:induction false} ReverseMultiset<T>(s: seq<T>)
    ensures multiset(Reverse(s)) == multiset(s)
  {
    if s != [] {
      var n := |s| - 1;
      ReverseMultiset(s[..n]);
      assert Reverse(s) == [s[n]] + Reverse(s[..n]);
      assert s == s[..n] + [s[n]];
    }
  }

  /** `slice::reverse`, swapping from both ends. */
  method ReverseInPlace<T>(a: array<T>)
    modifies a
    ensures a[..] == Reverse(old(a[..]))
  {
    var lo, hi := 0, a.Length;
    while lo + 1 < hi
      invariant 0 <= lo <= hi <= a.Length && lo + hi == a.Length
      invariant forall i :: 0 <= i < lo ==> a[i] == old(a[a.Length - 1 - i])
      invariant forall i :: hi <= i < a.Length ==> a[i] == old(a[a.Length - 1 - i])
      invariant forall i :: lo <= i < hi ==> a[i] == old(a[i])
    {
      a[lo], a[hi - 1] := a[hi - 1], a[lo];
      lo, hi := lo + 1, hi - 1;
    }
  }

  /** Rearranging a sequence keeps its sum. */
  lemma {:induction false} SumPermutation(s: seq<int>, t: seq<int>)
    requires multiset(s) == multiset(t)
    ensures Sum(s) == Sum(t)
  {
    if s == [] {
      assert |t| == |multiset(t)| == 0;
    } else {
      var n := |s| - 1;
      var x := s[n];
      assert x in multiset(t);
      var k :| 0 <= k < |t| && t[k] == x;
      var rest := t[..k] + t[k + 1..];
      assert t == t[..k] + [x] + t[k + 1..];
      assert s == s[..n] + [x];
      assert multiset(s[..n]) == multiset(s) - multiset{x};
      assert multiset(rest) == multiset(t) - multiset{x};
      SumPermutation(s[..n], rest);
      SumAppend(t[..k], [x]);
      SumAppend(t[..k] + [x], t[k + 1..]);
      SumAppend(t[..k], t[k + 1..]);
    }
  }

  // --------------------------------------------------------------- ordering

  /** Rust's `Ordering`. */
  datatype Ordering = Less | Equal | Greater

  function Cmp(a: int, b: int): (o: Ordering)
    ensures o == Less <==> a < b
    ensures o == Equal <==> a == b
  {
    if a < b then Less else if a == b then Equal else Greater
  }

  /** `Ordering::then`: the second comparison breaks a tie of the first. */
  function Then(first: Ordering, second: Ordering): Ordering
  {
    if first == Equal then second else first
  }

  /** `Ordering::reverse`. */
  function Reversed(o: Ordering): Ordering
  {
    match o
    case Less => Greater
    case Equal => Equal
    case Greater => Less
  }

  lemma ThenAssociative(x: Ordering, y: Ordering, z: Ordering)
    ensures Then(Then(x, y), z) == Then(x, Then(y, z))
  {
  }

  lemma ReversedThen(x: Ordering, y: Ordering)
    ensures Reversed(Then(x, y)) == Then(Reversed(x), Reversed(y))
  {
  }

  /** The lexicographic order of slices: the first difference decides, and
      a proper prefix is less. */
  function CmpLex(a: seq<nat>, b: seq<nat>): Ordering
  {
    if a == [] && b == [] then Equal
    else if a == [] then Less
    else if b == [] then Greater
    else Then(Cmp(a[0], b[0]), CmpLex(a[1..], b[1..]))
  }

  function Pow(base: nat, e: nat): (p: nat)
    ensures base > 0 ==> p > 0
  {
    if e == 0 then 1 else base * Pow(base, e - 1)
  }

  /** The number whose digits in `base`, most significant first, are `ds`. */
  function Positional(ds: seq<nat>, base: nat): nat
  {
    if ds == [] then 0 else ds[0] * Pow(base, |ds| - 1) + Positional(ds[1..], base)
  }

  predicate DigitsBelow(ds: seq<nat>, base: nat)
  {
    forall i :: 0 <= i < |ds| ==> ds[i] < base
  }

  lemma {:induction false} PositionalBound(ds: seq<nat>, base: nat)
    requires DigitsBelow(ds, base)
    ensures Positional(ds, base) < Pow(base, |ds|)
  {
    if ds != [] {
      PositionalBound(ds[1..], base);
      var p := Pow(base, |ds| - 1);
      assert ds[0] * p <= (base - 1) * p by {
        MulMonotone(ds[0], base - 1, p);
      }
    }
  }

  lemma MulMonotone(a: nat, b: nat, c: nat)
    requires a <= b
    ensures a * c <= b * c
  {
  }

  /** Quotient and remainder are the only such pair. */
  lemma DivModUnique(x: int, d: int, q: int, r: int)
    requires d > 0 && 0 <= r < d && x == d * q + r
    ensures x / d == q && x % d == r
  {
    var q2, r2 := x / d, x % d;
    assert d * (q2 - q) == r - r2;
    if q2 > q {
      MulMonotone(1, q2 - q, d);
    } else if q2 < q {
      MulMonotone(1, q - q2, d);
    }
  }

  /** Comparing digit sequences of one length lexicographically is comparing
      the numbers they write. */
  lemma {:induction false} LexIsPositional(a: seq<nat>, b: seq<nat>, base: nat)
    requires |a| == |b| && DigitsBelow(a, base) && DigitsBelow(b, base)
    ensures CmpLex(a, b) == Cmp(Positional(a, base), Positional(b, base))
  {
    if a != [] {
      LexIsPositional(a[1..], b[1..], base);
      PositionalBound(a[1..], base);
      PositionalBound(b[1..], base);
      var p := Pow(base, |a| - 1);
      LeadingDigitDecides(a[0], b[0], Positional(a[1..], base), Positional(b[1..], base), p);
    }
  }

  /** Each digit subtracted from `top`. */
  function Complement(ds: seq<nat>, top: nat): (r: seq<nat>)
    requires forall i :: 0 <= i < |ds| ==> ds[i] <= top
    ensures |r| == |ds|
  {
    seq(|ds|, i requires 0 <= i < |ds| => top - ds[i])
  }

  /** On sequences of one length, subtracting every digit from one bound
      reverses the lexicographic order. */
  lemma {:induction false} LexComplement(a: seq<nat>, b: seq<nat>, top: nat)
    requires |a| == |b|
    requires forall i :: 0 <= i < |a| ==> a[i] <= top
    requires forall i :: 0 <= i < |b| ==> b[i] <= top
    ensures CmpLex(Complement(a, top), Complement(b, top)) == Reversed(CmpLex(a, b))
  {
    var ca, cb := Complement(a, top), Complement(b, top);
    if a != [] && b != [] {
      assert ca[1..] == Complement(a[1..], top);
      assert cb[1..] == Complement(b[1..], top);
      LexComplement(a[1..], b[1..], top);
      assert Cmp(ca[0], cb[0]) == Reversed(Cmp(a[0], b[0]));
    }
  }

  lemma LeadingDigitDecides(x: nat, y: nat, rx: nat, ry: nat, p: nat)
    requires rx < p && ry < p
    ensures x < y ==> x * p + rx < y * p + ry
    ensures y < x ==> y * p + ry < x * p + rx
  {
    if x < y {
      MulMonotone(x + 1, y, p);
    } else if y < x {
      MulMonotone(y + 1, x, p);
    }
  }

  // ---------------------------------------------------------------- strings

  /** `sep` occurs in `s` starting at position `i`. */
  predicate OccursAt(s: string, sep: string, i: nat)
  {
    i + |sep| <= |s| && s[i..i + |sep|] == sep
  }

  /** `str::split_once`: the text before and after the first occurrence of `sep`. */
  function SplitOnce(s: string, sep: string): (r: Option<(string, string)>)
    requires sep != []
    ensures r.Some? ==> s == r.value.0 + sep + r.value.1
    decreases |s|
  {
    if OccursAt(s, sep, 0) then
      SepAtStart(s, sep);
      Some(([], s[|sep|..]))
    else if s == [] then None
    else match SplitOnce(s[1..], sep)
      case None => None
      case Some((a, b)) =>
        ConsSplit(s, sep, a, b);
        Some(([s[0]] + a, b))
  }

  lemma SepAtStart(s: string, sep: string)
    requires OccursAt(s, sep, 0)
    ensures s == [] + sep + s[|sep|..]
  {
    assert s == s[..|sep|] + s[|sep|..];
  }

  lemma ConsSplit(s: string, sep: string, a: string, b: string)
    requires s != [] && s[1..] == a + sep + b
    ensures s == ([s[0]] + a) + sep + b
  {
    assert s == [s[0]] + s[1..];
  }

  /** `SplitOnce` finds the first occurrence, and finds nothing only when there is none. */
  lemma {:induction false} SplitOnceFirst(s: string, sep: string)
    requires sep != []
    ensures SplitOnce(s, sep).Some? ==> forall i :: 0 <= i < |SplitOnce(s, sep).value.0| ==> !OccursAt(s, sep, i)
    ensures SplitOnce(s, sep).None? ==> forall i :: 0 <= i ==> !OccursAt(s, sep, i)
    decreases |s|
  {
    if !OccursAt(s, sep, 0) && s != [] {
      var r, rest := SplitOnce(s, sep), SplitOnce(s[1..], sep);
      assert r.Some? <==> rest.Some?;
      assert r.Some? ==> |r.value.0| == |rest.value.0| + 1;
      SplitOnceFirst(s[1..], sep);
      forall i | 1 <= i && OccursAt(s, sep, i) ensures OccursAt(s[1..], sep, i - 1) {
        assert s[1..][i - 1..i - 1 + |sep|] == s[i..i + |sep|];
      }
    }
  }

  /** Splitting a text made of `a`, `sep` and `b` gives back `a` and `b` when
      `sep` does not start inside `a`. */
  lemma {:induction false} SplitOnceAt(a: string, sep: string, b: string)
    requires sep != []
    requires forall i :: 0 <= i < |a| ==> !OccursAt(a + sep + b, sep, i)
    ensures SplitOnce(a + sep + b, sep) == Some((a, b))
    decreases |a|
  {
    var s := a + sep + b;
    if a == [] {
      assert s[..|sep|] == sep && s[|sep|..] == b;
    } else {
      assert !OccursAt(s, sep, 0);
      var t := a[1..] + sep + b;
      assert s[1..] == t;
      forall i | 0 <= i < |a| - 1 ensures !OccursAt(t, sep, i) {
        assert !OccursAt(s, sep, i + 1);
        if i + |sep| <= |t| {
          assert t[i..i + |sep|] == s[i + 1..i + 1 + |sep|];
        }
      }
      SplitOnceAt(a[1..], sep, b);
      assert [a[0]] + a[1..] == a;
    }
  }

  /** In particular when `a` does not hold the first character of `sep`. */
  lemma SplitOnceAtChar(a: string, sep: string, b: string)
    requires sep != [] && sep[0] !in a
    ensures SplitOnce(a + sep + b, sep) == Some((a, b))
  {
    var s := a + sep + b;
    forall i | 0 <= i < |a| ensures !OccursAt(s, sep, i) {
      assert s[i] == a[i];
    }
    SplitOnceAt(a, sep, b);
  }

  /** Concatenation of `parts` with `sep` between consecutive parts. */
  function Join(parts: seq<string>, sep: string): string
  {
    if parts == [] then [] else if |parts| == 1 then parts[0]
    else parts[0] + sep + Join(parts[1..], sep)
  }

  /** `str::split`: the pieces between the occurrences of `sep`, scanned left to right. */
  function Split(s: string, sep: string): (r: seq<string>)
    requires sep != []
    ensures |r| >= 1
    ensures Join(r, sep) == s
    ensures forall k :: 0 <= k < |r| ==> forall i :: 0 <= i ==> !OccursAt(r[k], sep, i)
    decreases |s|
  {
    match SplitOnce(s, sep)
    case None =>
      SplitOnceFirst(s, sep);
      [s]
    case Some((a, b)) =>
      SplitOnceFirst(s, sep);
      NoOccurrenceInPrefix(s, sep, a);
      var rest := Split(b, sep);
      assert ([a] + rest)[1..] == rest;
      [a] + rest
  }

  /** Where `SplitOnce` finds the one-character separator `[c]`, the text holds `c`. */
  lemma SplitOnceFindsChar(s: string, c: char)
    ensures SplitOnce(s, [c]).Some? ==> |SplitOnce(s, [c]).value.0| < |s| && s[|SplitOnce(s, [c]).value.0|] == c
  {
    if SplitOnce(s, [c]).Some? {
      var (a, b) := SplitOnce(s, [c]).value;
      assert s == a + [c] + b;
    }
  }

  /** A text without `c` splits at `c` into itself alone. */
  lemma SplitWithout(s: string, c: char)
    requires c !in s
    ensures Split(s, [c]) == [s]
  {
    SplitOnceFindsChar(s, c);
  }

  /** Splitting at `c` peels off the text before the first `c`. */
  lemma SplitAtFirst(a: string, c: char, b: string)
    requires c !in a
    ensures Split(a + [c] + b, [c]) == [a] + Split(b, [c])
  {
    SplitOnceAtChar(a, [c], b);
  }

  lemma NoOccurrenceInPrefix(s: string, sep: string, a: string)
    requires sep != [] && a <= s
    requires forall i :: 0 <= i < |a| ==> !OccursAt(s, sep, i)
    ensures forall i :: 0 <= i ==> !OccursAt(a, sep, i)
  {
    forall i | 0 <= i && OccursAt(a, sep, i) ensures false {
      assert a[i..i + |sep|] == s[i..i + |sep|];
      assert OccursAt(s, sep, i);
    }
  }

  /** The characters Rust's `char::is_whitespace` accepts (Unicode White_Space). */
  predicate IsWhitespace(c: char)
  {
    c == ' ' || '\t' <= c <= '\r' || c == '\U{0085}' || c == '\U{00A0}' || c == '\U{1680}' ||
    '\U{2000}' <= c <= '\U{200A}' || c == '\U{2028}' || c == '\U{2029}' || c == '\U{202F}' ||
    c == '\U{205F}' || c == '\U{3000}'
  }

  /** The number of whitespace characters at the start of `s`. */
  function LeadingWhitespace(s: string): (k: nat)
    ensures k <= |s| && (k < |s| ==> !IsWhitespace(s[k]))
    ensures forall i :: 0 <= i < k ==> IsWhitespace(s[i])
  {
    if s != [] && IsWhitespace(s[0]) then
      var k := LeadingWhitespace(s[1..]);
      assert forall i :: 1 <= i < k + 1 ==> s[i] == s[1..][i - 1];
      k + 1
    else 0
  }

  function TrimStart(s: string): (r: string)
    ensures exists k :: 0 <= k <= |s| && r == s[k..] && forall i :: 0 <= i < k ==> IsWhitespace(s[i])
    ensures r != [] ==> !IsWhitespace(r[0])
  {
    var k := LeadingWhitespace(s);
    assert s[k..] != [] ==> s[k..][0] == s[k];
    s[k..]
  }

  /** The length of `s` without the whitespace at its end. */
  function TextEnd(s: string): (k: nat)
    ensures k <= |s| && (k > 0 ==> !IsWhitespace(s[k - 1]))
    ensures forall i :: k <= i < |s| ==> IsWhitespace(s[i])
  {
    if s != [] && IsWhitespace(s[|s| - 1]) then
      var k := TextEnd(s[..|s| - 1]);
      assert forall i :: k <= i < |s| - 1 ==> s[i] == s[..|s| - 1][i];
      k
    else |s|
  }

  function TrimEnd(s: string): (r: string)
    ensures exists k :: 0 <= k <= |s| && r == s[..k] && forall i :: k <= i < |s| ==> IsWhitespace(s[i])
    ensures r != [] ==> !IsWhitespace(r[|r| - 1])
  {
    var k := TextEnd(s);
    assert s[..k] != [] ==> s[..k][k - 1] == s[k - 1];
    s[..k]
  }

  /** `str::trim`: leading and trailing whitespace removed. */
  function Trim(s: string): string
  {
    TrimEnd(TrimStart(s))
  }

  /** The characters `u8::is_ascii_whitespace` accepts. */
  predicate IsAsciiWhitespace(c: char)
  {
    c == ' ' || c == '\t' || c == '\n' || c == '\U{000C}' || c == '\r'
  }

  /** A non-empty piece without ASCII whitespace. */
  predicate IsWord(w: string)
  {
    w != [] && forall i :: 0 <= i < |w| ==> !IsAsciiWhitespace(w[i])
  }

  /** The length of the longest prefix without ASCII whitespace. */
  function WordLength(s: string): (n: nat)
    ensures n <= |s|
    ensures forall i :: 0 <= i < n ==> !IsAsciiWhitespace(s[i])
    ensures n < |s| ==> IsAsciiWhitespace(s[n])
  {
    if s == [] || IsAsciiWhitespace(s[0]) then 0 else 1 + WordLength(s[1..])
  }

  /** `str::split_ascii_whitespace`: the maximal runs of characters that are
      not ASCII whitespace, in order. */
  function Words(s: string): (r: seq<string>)
    ensures forall k :: 0 <= k < |r| ==> IsWord(r[k])
    decreases |s|
  {
    if s == [] then []
    else if IsAsciiWhitespace(s[0]) then Words(s[1..])
    else
      var n := WordLength(s);
      [s[..n]] + Words(s[n..])
  }

  /** A number written out is a word for `Words` and parses back. */
  lemma DecimalTextIsWord(n: nat, bound: nat)
    requires n < bound
    ensures IsWord(DecimalText(n))
    ensures ParseUnsigned(DecimalText(n), bound) == Some(n)
  {
    var t := DecimalText(n);
    AllDigitsChars(t);
    assert IsDigit(t[0]);
    ParseDecimalText(n, bound);
  }

  /** Joining the words with single spaces gives back a text whose words are
      the same: splitting loses only the whitespace. */
  lemma {:induction false} WordsOfJoin(ws: seq<string>)
    requires forall k :: 0 <= k < |ws| ==> IsWord(ws[k])
    ensures Words(Join(ws, " ")) == ws
  {
    if |ws| == 1 {
      WordsOfWord(ws[0], []);
      assert ws[0] + [] == ws[0];
    } else if |ws| > 1 {
      var rest := Join(ws[1..], " ");
      JoinCons(ws, rest);
      WordsOfJoin(ws[1..]);
      WordsAfterSpace(rest);
      WordsOfWord(ws[0], " " + rest);
      assert ws == [ws[0]] + ws[1..];
    }
  }

  lemma JoinCons(ws: seq<string>, rest: string)
    requires |ws| > 1 && rest == Join(ws[1..], " ")
    ensures Join(ws, " ") == ws[0] + (" " + rest)
  {
  }

  lemma WordsAfterSpace(rest: string)
    ensures Words(" " + rest) == Words(rest) && (" " + rest)[0] == ' '
  {
    assert (" " + rest)[1..] == rest;
  }

  lemma WordsOfWord(w: string, tail: string)
    requires IsWord(w)
    requires tail != [] ==> IsAsciiWhitespace(tail[0])
    ensures Words(w + tail) == [w] + Words(tail)
  {
    var s := w + tail;
    WordLengthOf(w, tail);
    assert s[..|w|] == w && s[|w|..] == tail;
  }

  lemma {:induction false} WordLengthOf(w: string, tail: string)
    requires forall i :: 0 <= i < |w| ==> !IsAsciiWhitespace(w[i])
    requires tail != [] ==> IsAsciiWhitespace(tail[0])
    ensures WordLength(w + tail) == |w|
  {
    if w != [] {
      assert (w + tail)[1..] == w[1..] + tail;
      WordLengthOf(w[1..], tail);
    } else {
      assert w + tail == tail;
    }
  }

  lemma NoNewline(p: string)
    requires forall i :: 0 <= i ==> !OccursAt(p, "\n", i)
    ensures '\n' !in p
  {
    forall i | 0 <= i < |p| ensures p[i] != '\n' {
      assert !OccursAt(p, "\n", i);
      assert p[i..i + 1] == [p[i]];
    }
  }

  /** Drops one carriage return at the end of a line. */
  function StripCarriageReturn(p: string): (r: string)
    ensures r <= p
  {
    if p != [] && p[|p| - 1] == '\r' then p[..|p| - 1] else p
  }

  /** `str::lines`: split at each newline; a carriage return just before a
      newline is dropped; a final newline does not start an empty line. */
  function Lines(s: string): (r: seq<string>)
    ensures forall k :: 0 <= k < |r| ==> '\n' !in r[k]
    ensures s == [] ==> r == []
  {
    if s == [] then []
    else
      var pieces := Split(s, "\n");
      var n := if pieces[|pieces| - 1] == [] then |pieces| - 1 else |pieces|;
      var r := seq(n, k requires 0 <= k < n => if k < |pieces| - 1 then StripCarriageReturn(pieces[k]) else pieces[k]);
      assert forall k :: 0 <= k < n ==> r[k] <= pieces[k];
      forall k | 0 <= k < n ensures '\n' !in r[k] {
        NoNewline(pieces[k]);
      }
      r
  }

  /** `collect` into a hash map: a later entry with the same key replaces an earlier one. */
  function Collect<K, V>(entries: seq<(K, V)>): (m: map<K, V>)
    ensures forall i :: 0 <= i < |entries| ==> entries[i].0 in m
    ensures forall id :: id in m ==> (exists i :: 0 <= i < |entries| && entries[i].0 == id)
  {
    if entries == [] then map[]
    else
      var last := entries[|entries| - 1];
      var m := Collect(entries[..|entries| - 1]);
      assert forall i :: 0 <= i < |entries| - 1 ==> entries[..|entries| - 1][i] == entries[i];
      m[last.0 := last.1]
  }

  /** The value kept under a key is the last one given for it. */
  lemma {:induction false} CollectLastWins<K, V>(entries: seq<(K, V)>, i: nat)
    requires i < |entries|
    requires forall j :: i < j < |entries| ==> entries[j].0 != entries[i].0
    ensures Collect(entries)[entries[i].0] == entries[i].1
  {
    var n := |entries| - 1;
    var init, last := entries[..n], entries[n];
    assert Collect(entries) == Collect(init)[last.0 := last.1];
    if i < n {
      assert init[i] == entries[i];
      assert forall j :: i < j < n ==> init[j] == entries[j];
      CollectLastWins(init, i);
      assert last.0 != entries[i].0;
    }
  }

  /** Every pair of the collected map is one of the entries, so a property
      of all entries holds of all its pairs. */
  lemma {:induction false} CollectKeeps<K, V>(entries: seq<(K, V)>, P: ((K, V)) -> bool)
    requires forall i :: 0 <= i < |entries| ==> P(entries[i])
    ensures forall k :: k in Collect(entries) ==> P((k, Collect(entries)[k]))
  {
    if entries != [] {
      var n := |entries| - 1;
      assert forall i :: 0 <= i < n ==> entries[..n][i] == entries[i];
      CollectKeeps(entries[..n], P);
      assert entries[n] == (entries[n].0, entries[n].1);
    }
  }
}
