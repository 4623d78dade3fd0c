/** Day 5: seeds through a chain of almanac maps. Each map is a block of
    lines "dest src len" sending `src .. src + len - 1` to `dest ..`; a
    number no line of the block covers passes through unchanged. Part 1
    maps single seeds, part 2 maps seed ranges by splitting them. */
module Day05 {
  import opened Util

  const USIZE: nat := 0x1_0000_0000_0000_0000

  // ---------------------------------------------------------------- parsing

  function ParseUsize(w: string): (r: Result<nat>)
    ensures r.Ok? ==> r.value < USIZE
  {
    match ParseUnsigned(w, USIZE)
    case Some(v) => Ok(v)
    case None => Err("invalid number")
  }

  /** The numbers after "seeds: " on the first line; a missing line or
      separator, or a word that is not a `usize`, panics. */
  function ParseSeeds(lines: seq<string>): Result<seq<nat>>
  {
    if lines == [] then Err("missing seed line")
    else match SplitOnce(lines[0], ": ")
      case None => Err("missing ': '")
      case Some((_, rest)) => MapResults(Words(rest), ParseUsize)
  }

  /** One line of a map: "dest src len". */
  datatype MapLine = MapLine(dest: nat, src: nat, len: nat)

  /** The first three words of a line as `usize`; later words are never
      parsed, and fewer than three panic. */
  function ParseMapLine(line: string): Result<MapLine>
  {
    var ws := Words(line);
    if |ws| < 3 then Err("missing number")
    else match ParseUsize(ws[0])
      case Err(e) => Err(e)
      case Ok(dest) =>
        match ParseUsize(ws[1])
        case Err(e) => Err(e)
        case Ok(src) =>
          match ParseUsize(ws[2])
          case Err(e) => Err(e)
          case Ok(len) => Ok(MapLine(dest, src, len))
  }

  /** A map line written out as the almanac writes it. */
  function MapLineText(m: MapLine): string
  {
    Join([DecimalText(m.dest), DecimalText(m.src), DecimalText(m.len)], " ")
  }

  /** A map line of `usize` numbers, written out, parses back to itself. */
  lemma ParseMapLineText(m: MapLine)
    requires m.dest < USIZE && m.src < USIZE && m.len < USIZE
    ensures ParseMapLine(MapLineText(m)) == Ok(m)
  {
    var ws := [DecimalText(m.dest), DecimalText(m.src), DecimalText(m.len)];
    DecimalTextIsWord(m.dest, USIZE);
    DecimalTextIsWord(m.src, USIZE);
    DecimalTextIsWord(m.len, USIZE);
    WordsOfJoin(ws);
  }

  /** The first empty line at or after `i`, or the end. */
  function BlockEnd(lines: seq<string>, i: nat): (e: nat)
    requires i <= |lines|
    ensures i <= e <= |lines|
    ensures forall j :: i <= j < e ==> lines[j] != []
    ensures e < |lines| ==> lines[e] == []
    decreases |lines| - i
  {
    if i == |lines| || lines[i] == [] then i else BlockEnd(lines, i + 1)
  }

  /** The maps from line `pos` on, as the iterator walks them: a header line
      is consumed, then map lines up to an empty line, which is consumed too. */
  function Blocks(lines: seq<string>, pos: nat): (r: seq<seq<string>>)
    decreases |lines| - pos
  {
    if pos >= |lines| then []
    else
      var e := BlockEnd(lines, pos + 1);
      [lines[pos + 1..e]] + Blocks(lines, e + 1)
  }

  function ParseBlock(block: seq<string>): Result<seq<MapLine>>
  {
    MapResults(block, ParseMapLine)
  }

  /** The first line is the seeds, the second is skipped, the maps follow. */
  function ParseAlmanac(input: string): Result<(seq<nat>, seq<seq<MapLine>>)>
  {
    var lines := Lines(input);
    match ParseSeeds(lines)
    case Err(e) => Err(e)
    case Ok(seeds) =>
      match MapResults(Blocks(lines, 2), ParseBlock)
      case Err(e) => Err(e)
      case Ok(maps) => Ok((seeds, maps))
  }

  // ------------------------------------------------------ what a map means

  predicate InSource(m: MapLine, s: nat)
  {
    m.src <= s < m.src + m.len
  }

  /** Where a map sends `s`: the first of its lines whose source covers `s`
      translates it, and an uncovered number passes through. */
  function MapSeed(block: seq<MapLine>, s: nat): nat
  {
    if block == [] then s
    else if InSource(block[0], s) then s - block[0].src + block[0].dest
    else MapSeed(block[1..], s)
  }

  /** `f` applied to every element. */
  function Image(f: nat -> nat, a: seq<nat>): (r: seq<nat>)
    ensures |r| == |a|
  {
    seq(|a|, i requires 0 <= i < |a| => f(a[i]))
  }

  lemma ImageAppend(f: nat -> nat, a: seq<nat>, b: seq<nat>)
    ensures Image(f, a + b) == Image(f, a) + Image(f, b)
  {
  }

  /** Rearranging the input rearranges the image the same way. */
  lemma {:induction false} ImagePermutes(f: nat -> nat, a: seq<nat>, b: seq<nat>)
    requires multiset(a) == multiset(b)
    ensures multiset(Image(f, a)) == multiset(Image(f, b))
    decreases |a|
  {
    if a == [] {
      assert |b| == |multiset(b)| == 0;
    } else {
      var x := a[|a| - 1];
      var a' := a[..|a| - 1];
      assert a == a' + [x];
      assert x in multiset(b);
      var k :| 0 <= k < |b| && b[k] == x;
      var b' := b[..k] + b[k + 1..];
      assert b == b[..k] + [x] + b[k + 1..];
      assert multiset(b) == multiset(b[..k]) + multiset{x} + multiset(b[k + 1..]);
      assert multiset(a) == multiset(a') + multiset{x};
      assert multiset(b') == multiset(b[..k]) + multiset(b[k + 1..]);
      assert multiset(a') == multiset(a) - multiset{x};
      assert multiset(b') == multiset(b) - multiset{x};
      ImagePermutes(f, a', b');
      ImageAppend(f, a', [x]);
      ImageAppend(f, b[..k], [x]);
      ImageAppend(f, b[..k] + [x], b[k + 1..]);
      ImageAppend(f, b[..k], b[k + 1..]);
    }
  }

  function MapAll(block: seq<MapLine>, seeds: seq<nat>): (r: seq<nat>)
    ensures |r| == |seeds|
  {
    Image((s: nat) => MapSeed(block, s), seeds)
  }

  /** Where the chain of maps sends a seed. */
  function Location(maps: seq<seq<MapLine>>, s: nat): nat
  {
    if maps == [] then s else Location(maps[1..], MapSeed(maps[0], s))
  }

  function Locations(maps: seq<seq<MapLine>>, seeds: seq<nat>): (r: seq<nat>)
    ensures |r| == |seeds|
  {
    Image((s: nat) => Location(maps, s), seeds)
  }

  // ----------------------------------------------------------------- part 1

  /** `retain` with one map line: the seeds it covers are translated and
      pushed to the next buffer; the others stay, in order. */
  function Retain1(seeds: seq<nat>, m: MapLine): (seq<nat>, seq<nat>)
  {
    if seeds == [] then ([], [])
    else
      var (kept, moved) := Retain1(seeds[..|seeds| - 1], m);
      var s := seeds[|seeds| - 1];
      if InSource(m, s) then (kept, moved + [s - m.src + m.dest]) else (kept + [s], moved)
  }

  method RetainSeeds(seeds: seq<nat>, m: MapLine) returns (kept: seq<nat>, moved: seq<nat>)
    ensures (kept, moved) == Retain1(seeds, m)
  {
    kept, moved := [], [];
    for i := 0 to |seeds|
      invariant (kept, moved) == Retain1(seeds[..i], m)
    {
      var s := seeds[i];
      assert seeds[..i + 1][..i] == seeds[..i];
      if m.src <= s < m.src + m.len {
        moved := moved + [s - m.src + m.dest];
      } else {
        kept := kept + [s];
      }
    }
    assert seeds[..|seeds|] == seeds;
  }

  /** The lines of one map, in order, then the next buffer is appended. */
  function ApplyLines1(seeds: seq<nat>, next: seq<nat>, block: seq<MapLine>): seq<nat>
    decreases |block|
  {
    if block == [] then seeds + next
    else
      var (kept, moved) := Retain1(seeds, block[0]);
      ApplyLines1(kept, next + moved, block[1..])
  }

  lemma MapAllSnoc(block: seq<MapLine>, seeds: seq<nat>, s: nat)
    ensures MapAll(block, seeds + [s]) == MapAll(block, seeds) + [MapSeed(block, s)]
  {
  }

  /** One line moves exactly the seeds it covers, translated; what stays is
      left for the rest of the map. */
  lemma {:induction false} Retain1Maps(seeds: seq<nat>, m: MapLine, rest: seq<MapLine>)
    ensures multiset(Retain1(seeds, m).1) + multiset(MapAll(rest, Retain1(seeds, m).0)) == multiset(MapAll([m] + rest, seeds))
  {
    if seeds != [] {
      var init := seeds[..|seeds| - 1];
      var s := seeds[|seeds| - 1];
      var full := [m] + rest;
      Retain1Maps(init, m, rest);
      var (kept, moved) := Retain1(init, m);
      assert seeds == init + [s];
      MapAllSnoc(full, init, s);
      assert full[0] == m && full[1..] == rest;
      if InSource(m, s) {
        assert MapSeed(full, s) == s - m.src + m.dest;
        assert Retain1(seeds, m) == (kept, moved + [s - m.src + m.dest]);
      } else {
        assert MapSeed(full, s) == MapSeed(rest, s);
        assert Retain1(seeds, m) == (kept + [s], moved);
        MapAllSnoc(rest, kept, s);
      }
    }
  }

  /** A whole map sends every remaining seed through its first covering line. */
  lemma {:induction false} ApplyLines1Spec(seeds: seq<nat>, next: seq<nat>, block: seq<MapLine>)
    ensures multiset(ApplyLines1(seeds, next, block)) == multiset(next) + multiset(MapAll(block, seeds))
    decreases |block|
  {
    if block == [] {
      assert MapAll(block, seeds) == seeds;
    } else {
      var (kept, moved) := Retain1(seeds, block[0]);
      ApplyLines1Spec(kept, next + moved, block[1..]);
      Retain1Maps(seeds, block[0], block[1..]);
      assert [block[0]] + block[1..] == block;
    }
  }

  function RunMaps1(seeds: seq<nat>, maps: seq<seq<MapLine>>): seq<nat>
    decreases |maps|
  {
    if maps == [] then seeds else RunMaps1(ApplyLines1(seeds, [], maps[0]), maps[1..])
  }

  /** After all maps, the seeds are exactly the locations of the original
      seeds, in some order. */
  lemma {:induction false} RunMaps1Spec(seeds: seq<nat>, maps: seq<seq<MapLine>>)
    ensures multiset(RunMaps1(seeds, maps)) == multiset(Locations(maps, seeds))
    decreases |maps|
  {
    if maps == [] {
      assert Locations(maps, seeds) == seeds;
    } else {
      var next := ApplyLines1(seeds, [], maps[0]);
      ApplyLines1Spec(seeds, [], maps[0]);
      assert multiset(next) == multiset(MapAll(maps[0], seeds));
      RunMaps1Spec(next, maps[1..]);
      var mapped := MapAll(maps[0], seeds);
      ImagePermutes((s: nat) => Location(maps[1..], s), next, mapped);
      assert Locations(maps[1..], mapped) == Locations(maps, seeds);
    }
  }

  /** The smallest element; an empty sequence panics on `unwrap`. */
  function Min(s: seq<nat>): (r: Result<nat>)
    ensures r.Ok? <==> s != []
    ensures r.Ok? ==> r.value in s && forall i :: 0 <= i < |s| ==> r.value <= s[i]
  {
    if s == [] then Err("no seeds")
    else if |s| == 1 then Ok(s[0])
    else
      var m := Min(s[..|s| - 1]).value;
      assert forall i :: 0 <= i < |s| - 1 ==> s[..|s| - 1][i] == s[i];
      Ok(if s[|s| - 1] < m then s[|s| - 1] else m)
  }

  function Part1Answer(input: string): Result<nat>
  {
    match ParseAlmanac(input)
    case Err(e) => Err(e)
    case Ok((seeds, maps)) => Min(RunMaps1(seeds, maps))
  }

  /** Part 1 is the lowest location of any seed, and it fails when there is no seed. */
  lemma Part1IsLowestLocation(input: string)
    requires ParseAlmanac(input).Ok?
    ensures var (seeds, maps) := ParseAlmanac(input).value;
      (Part1Answer(input).Ok? <==> seeds != []) &&
      (Part1Answer(input).Ok? ==>
        (exists i :: 0 <= i < |seeds| && Part1Answer(input).value == Location(maps, seeds[i])) &&
        forall i :: 0 <= i < |seeds| ==> Part1Answer(input).value <= Location(maps, seeds[i]))
  {
    var (seeds, maps) := ParseAlmanac(input).value;
    var final := RunMaps1(seeds, maps);
    var locs := Locations(maps, seeds);
    RunMaps1Spec(seeds, maps);
    assert |final| == |multiset(final)| == |multiset(locs)| == |seeds|;
    if final != [] {
      var m := Min(final).value;
      assert m in multiset(locs);
      forall i | 0 <= i < |seeds| ensures m <= Location(maps, seeds[i]) {
        assert locs[i] in multiset(final);
      }
    }
  }

  /** One map on the seeds vector: each line retains the seeds it does not
      cover and pushes the others, translated, to the next buffer, which is
      appended at the end of the map. */
  method ApplyMap1(seeds0: seq<nat>, block: seq<MapLine>) returns (seeds: seq<nat>)
    ensures seeds == ApplyLines1(seeds0, [], block)
  {
    seeds := seeds0;
    var next: seq<nat> := [];
    for l := 0 to |block|
      invariant ApplyLines1(seeds, next, block[l..]) == ApplyLines1(seeds0, [], block)
    {
      assert block[l..][1..] == block[l + 1..];
      var kept, moved := RetainSeeds(seeds, block[l]);
      seeds, next := kept, next + moved;
    }
    assert block[|block|..] == [];
    seeds := seeds + next;
  }

  /** Part 1: the maps in order, then the smallest seed. */
  method Part1(input: string) returns (r: Result<nat>)
    ensures r == Part1Answer(input)
  {
    var almanac := ParseAlmanac(input);
    if almanac.Err? {
      return Err(almanac.reason);
    }
    var (seeds0, maps) := almanac.value;
    var seeds := seeds0;
    for b := 0 to |maps|
      invariant RunMaps1(seeds0, maps) == RunMaps1(seeds, maps[b..])
    {
      assert maps[b..][1..] == maps[b + 1..];
      seeds := ApplyMap1(seeds, maps[b]);
    }
    assert maps[|maps|..] == [];
    r := Min(seeds);
  }

  // ----------------------------------------------------------------- part 2

  /** The seeds `start .. start + len - 1`. */
  datatype SeedRange = SeedRange(start: nat, len: nat)

  const EmptyRange := SeedRange(0, 0)

  predicate InRange(r: SeedRange, x: nat)
  {
    r.start <= x < r.start + r.len
  }

  /** `SeedRange::intersection`: the parts of `s` before, inside and after
      `needle`. Ranges that do not even touch give `s` and two empty ranges. */
  function Intersection(s: SeedRange, needle: SeedRange): (SeedRange, SeedRange, SeedRange)
  {
    var selfEnd := s.start + s.len;
    var needleEnd := needle.start + needle.len;
    if selfEnd < needle.start || needleEnd < s.start then (s, EmptyRange, EmptyRange)
    else
      var commonStart := if s.start >= needle.start then s.start else needle.start;
      var commonEnd := if selfEnd <= needleEnd then selfEnd else needleEnd;
      (SeedRange(s.start, commonStart - s.start),
       SeedRange(commonStart, commonEnd - commonStart),
       SeedRange(commonEnd, selfEnd - commonEnd))
  }

  /** Ranges that touch or overlap split into three adjacent pieces starting
      at `s.start`, at the larger start and at the smaller end, whose lengths
      add up to `s.len`; the middle piece lies inside both ranges. The
      subtractions cannot go below zero: they are `nat` results. */
  lemma IntersectionSpec(s: SeedRange, needle: SeedRange)
    ensures var (left, common, right) := Intersection(s, needle);
      if s.start + s.len < needle.start || needle.start + needle.len < s.start then
        left == s && common == EmptyRange && right == EmptyRange
      else
        left.start == s.start &&
        common.start == (if s.start >= needle.start then s.start else needle.start) &&
        right.start == (if s.start + s.len <= needle.start + needle.len then s.start + s.len else needle.start + needle.len) &&
        left.start + left.len == common.start && common.start + common.len == right.start &&
        left.len + common.len + right.len == s.len &&
        s.start <= common.start && common.start + common.len <= s.start + s.len &&
        needle.start <= common.start && common.start + common.len <= needle.start + needle.len
  {
  }

  /** Point by point, the middle piece is what `s` shares with `needle`,
      and the outer pieces are the rest of `s`. */
  lemma IntersectionPoints(s: SeedRange, needle: SeedRange, x: nat)
    ensures var (left, common, right) := Intersection(s, needle);
      (InRange(common, x) <==> InRange(s, x) && InRange(needle, x)) &&
      (InRange(left, x) || InRange(right, x) <==> InRange(s, x) && !InRange(needle, x))
  {
  }

  /** What `retain_mut` does with one range: it keeps the left piece if not
      empty, queues a non-empty right piece, and sends a non-empty common
      piece, shifted by `offset`, to the next buffer; a shift below zero panics. */
  function RetainOne(s: SeedRange, src: SeedRange, offset: int): Result<(seq<SeedRange>, seq<SeedRange>, seq<SeedRange>)>
  {
    var (left, common, right) := Intersection(s, src);
    if common.len != 0 && common.start + offset < 0 then Err("shifted below zero")
    else
      Ok((if left.len != 0 then [left] else [],
          if right.len != 0 then [right] else [],
          if common.len != 0 then [SeedRange(common.start + offset, common.len)] else []))
  }

  /** `retain_mut` with one map line, over the ranges in order. */
  function Retain2(seeds: seq<SeedRange>, src: SeedRange, offset: int): Result<(seq<SeedRange>, seq<SeedRange>, seq<SeedRange>)>
  {
    if seeds == [] then Ok(([], [], []))
    else match Retain2(seeds[..|seeds| - 1], src, offset)
      case Err(e) => Err(e)
      case Ok((kept, rights, moved)) =>
        match RetainOne(seeds[|seeds| - 1], src, offset)
        case Err(e) => Err(e)
        case Ok((k, r, m)) => Ok((kept + k, rights + r, moved + m))
  }

  method RetainRanges(seeds: seq<SeedRange>, src: SeedRange, offset: int)
    returns (r: Result<(seq<SeedRange>, seq<SeedRange>, seq<SeedRange>)>)
    ensures r == Retain2(seeds, src, offset)
  {
    var kept, rights, moved := [], [], [];
    for i := 0 to |seeds|
      invariant Retain2(seeds[..i], src, offset) == Ok((kept, rights, moved))
    {
      assert seeds[..i + 1][..i] == seeds[..i];
      assert seeds[..i + 1][i] == seeds[i];
      var (left, common, right) := Intersection(seeds[i], src);
      var (k, r, m) := ([], [], []);
      if right.len != 0 {
        r := [right];
      }
      if common.len != 0 {
        if common.start + offset < 0 {
          assert RetainOne(seeds[i], src, offset).Err?;
          Retain2PrefixError(seeds, src, offset, i + 1);
          return Err("shifted below zero");
        }
        m := [SeedRange(common.start + offset, common.len)];
      }
      if left.len != 0 {
        k := [left];
      }
      assert RetainOne(seeds[i], src, offset) == Ok((k, r, m));
      kept, rights, moved := kept + k, rights + r, moved + m;
      assert Retain2(seeds[..i + 1], src, offset) == Ok((kept, rights, moved));
    }
    assert seeds[..|seeds|] == seeds;
    return Ok((kept, rights, moved));
  }

  lemma {:induction false} Retain2PrefixError(seeds: seq<SeedRange>, src: SeedRange, offset: int, n: nat)
    requires n <= |seeds| && Retain2(seeds[..n], src, offset).Err?
    ensures Retain2(seeds, src, offset) == Retain2(seeds[..n], src, offset)
    decreases |seeds| - n
  {
    if n < |seeds| {
      assert seeds[..n + 1][..n] == seeds[..n];
      Retain2PrefixError(seeds, src, offset, n + 1);
    } else {
      assert seeds[..n] == seeds;
    }
  }

  function LineOffset(m: MapLine): int
  {
    m.dest as int - m.src as int
  }

  function SourceRange(m: MapLine): SeedRange
  {
    SeedRange(m.src, m.len)
  }

  function TotalLen(rs: seq<SeedRange>): nat
  {
    if rs == [] then 0 else TotalLen(rs[..|rs| - 1]) + rs[|rs| - 1].len
  }

  lemma {:induction false} TotalLenAppend(a: seq<SeedRange>, b: seq<SeedRange>)
    ensures TotalLen(a + b) == TotalLen(a) + TotalLen(b)
  {
    if b != [] {
      assert (a + b)[..|a + b| - 1] == a + b[..|b| - 1];
      TotalLenAppend(a, b[..|b| - 1]);
    } else {
      assert a + b == a;
    }
  }

  predicate Covers(rs: seq<SeedRange>, x: nat)
  {
    exists i :: 0 <= i < |rs| && InRange(rs[i], x)
  }

  lemma CoversAppend(a: seq<SeedRange>, b: seq<SeedRange>, x: nat)
    ensures Covers(a + b, x) <==> Covers(a, x) || Covers(b, x)
  {
    if Covers(a + b, x) {
      var i :| 0 <= i < |a + b| && InRange((a + b)[i], x);
      if i >= |a| {
        assert InRange(b[i - |a|], x);
      }
    }
    if Covers(b, x) {
      var i :| 0 <= i < |b| && InRange(b[i], x);
      assert InRange((a + b)[|a| + i], x);
    }
    if Covers(a, x) {
      var i :| 0 <= i < |a| && InRange(a[i], x);
      assert InRange((a + b)[i], x);
    }
  }

  lemma CoversOne(r: SeedRange, x: nat)
    ensures Covers([r], x) <==> InRange(r, x)
    ensures !Covers([], x)
  {
    if InRange(r, x) {
      assert InRange([r][0], x);
    }
  }

  /** Where one line sends a point `y` it covers. */
  function Shift(m: MapLine, y: nat): nat
    requires InSource(m, y)
  {
    y - m.src + m.dest
  }

  /** For one range: the common piece starts at or after `src`, so the shift
      by `dest - src` never goes below zero; the pieces keep the length; and
      point by point the kept and queued pieces hold what the line does not
      cover, the moved piece exactly the covered points, shifted. */
  lemma RetainOneSpec(s: SeedRange, m: MapLine, x: nat)
    ensures RetainOne(s, SourceRange(m), LineOffset(m)).Ok?
    ensures var (k, r, mv) := RetainOne(s, SourceRange(m), LineOffset(m)).value;
      TotalLen(k) + TotalLen(r) + TotalLen(mv) == s.len &&
      (Covers(k + r, x) <==> InRange(s, x) && !InSource(m, x)) &&
      (Covers(mv, x) <==> x >= m.dest && InSource(m, x + m.src - m.dest) && InRange(s, x + m.src - m.dest))
  {
    IntersectionSpec(s, SourceRange(m));
    IntersectionPoints(s, SourceRange(m), x);
    var (left, common, right) := Intersection(s, SourceRange(m));
    var (k, r, mv) := RetainOne(s, SourceRange(m), LineOffset(m)).value;
    assert TotalLen(k) == left.len && TotalLen(r) == right.len && TotalLen(mv) == common.len;
    CoversAppend(k, r, x);
    CoversOne(left, x);
    CoversOne(right, x);
    if common.len != 0 {
      var shifted := SeedRange(common.start + LineOffset(m), common.len);
      CoversOne(shifted, x);
      if x >= m.dest {
        IntersectionPoints(s, SourceRange(m), x + m.src - m.dest);
      }
    } else {
      CoversOne(common, x);
      if x >= m.dest {
        IntersectionPoints(s, SourceRange(m), x + m.src - m.dest);
      }
    }
  }

  /** The panic in `retain_mut` cannot happen. */
  lemma {:induction false} Retain2NeverFails(seeds: seq<SeedRange>, m: MapLine)
    ensures Retain2(seeds, SourceRange(m), LineOffset(m)).Ok?
  {
    if seeds != [] {
      Retain2NeverFails(seeds[..|seeds| - 1], m);
      RetainOneSpec(seeds[|seeds| - 1], m, 0);
    }
  }

  /** Splitting and shifting keeps the total length of the ranges. */
  lemma {:induction false} Retain2KeepsLength(seeds: seq<SeedRange>, m: MapLine)
    ensures Retain2(seeds, SourceRange(m), LineOffset(m)).Ok?
    ensures var (kept, rights, moved) := Retain2(seeds, SourceRange(m), LineOffset(m)).value;
      TotalLen(kept) + TotalLen(rights) + TotalLen(moved) == TotalLen(seeds)
  {
    Retain2NeverFails(seeds, m);
    if seeds != [] {
      var init := seeds[..|seeds| - 1];
      var s := seeds[|seeds| - 1];
      Retain2KeepsLength(init, m);
      RetainOneSpec(s, m, 0);
      var (kept, rights, moved) := Retain2(init, SourceRange(m), LineOffset(m)).value;
      var (k, r, mv) := RetainOne(s, SourceRange(m), LineOffset(m)).value;
      TotalLenAppend(kept, k);
      TotalLenAppend(rights, r);
      TotalLenAppend(moved, mv);
    }
  }

  /** Point by point, one line keeps what it does not cover (in the kept and
      queued pieces) and moves exactly the points it covers, shifted. */
  lemma {:induction false} Retain2Points(seeds: seq<SeedRange>, m: MapLine, x: nat)
    ensures Retain2(seeds, SourceRange(m), LineOffset(m)).Ok?
    ensures var (kept, rights, moved) := Retain2(seeds, SourceRange(m), LineOffset(m)).value;
      (Covers(kept + rights, x) <==> Covers(seeds, x) && !InSource(m, x)) &&
      (Covers(moved, x) <==> x >= m.dest && InSource(m, x + m.src - m.dest) && Covers(seeds, x + m.src - m.dest))
  {
    Retain2NeverFails(seeds, m);
    if seeds == [] {
      CoversOne(EmptyRange, x);
    } else {
      var init := seeds[..|seeds| - 1];
      var s := seeds[|seeds| - 1];
      Retain2Points(init, m, x);
      RetainOneSpec(s, m, x);
      var (kept, rights, moved) := Retain2(init, SourceRange(m), LineOffset(m)).value;
      var (k, r, mv) := RetainOne(s, SourceRange(m), LineOffset(m)).value;
      assert seeds == init + [s];
      CoversAppend(init, [s], x);
      CoversOne(s, x);
      CoversAppend(kept, rights, x);
      CoversAppend(kept + k, rights + r, x);
      CoversAppend(kept, k, x);
      CoversAppend(rights, r, x);
      CoversAppend(k, r, x);
      CoversAppend(moved, mv, x);
      if x >= m.dest {
        CoversAppend(init, [s], x + m.src - m.dest);
        CoversOne(s, x + m.src - m.dest);
      }
    }
  }

  /** The lines of one map, in order: the queued pieces rejoin the seeds
      after each line, and the next buffer is appended at the end. */
  function ApplyLines2(seeds: seq<SeedRange>, next: seq<SeedRange>, block: seq<MapLine>): Result<seq<SeedRange>>
    decreases |block|
  {
    if block == [] then Ok(seeds + next)
    else match Retain2(seeds, SourceRange(block[0]), LineOffset(block[0]))
      case Err(e) => Err(e)
      case Ok((kept, rights, moved)) => ApplyLines2(kept + rights, next + moved, block[1..])
  }

  /** A map on ranges never panics and keeps the total length. */
  lemma {:induction false} ApplyLines2Length(seeds: seq<SeedRange>, next: seq<SeedRange>, block: seq<MapLine>)
    ensures ApplyLines2(seeds, next, block).Ok?
    ensures TotalLen(ApplyLines2(seeds, next, block).value) == TotalLen(seeds) + TotalLen(next)
    decreases |block|
  {
    if block == [] {
      TotalLenAppend(seeds, next);
    } else {
      var m := block[0];
      Retain2KeepsLength(seeds, m);
      var (kept, rights, moved) := Retain2(seeds, SourceRange(m), LineOffset(m)).value;
      ApplyLines2Length(kept + rights, next + moved, block[1..]);
      TotalLenAppend(kept, rights);
      TotalLenAppend(next, moved);
    }
  }

  /** Every point `y` of the seeds ends in the result at `MapSeed(block, y)`,
      as part 1 sends single seeds; the next buffer is kept. */
  lemma {:induction false} ApplyLines2Forward(seeds: seq<SeedRange>, next: seq<SeedRange>, block: seq<MapLine>, y: nat)
    requires ApplyLines2(seeds, next, block).Ok?
    ensures Covers(seeds, y) ==> Covers(ApplyLines2(seeds, next, block).value, MapSeed(block, y))
    ensures Covers(next, y) ==> Covers(ApplyLines2(seeds, next, block).value, y)
    decreases |block|
  {
    if block == [] {
      CoversAppend(seeds, next, y);
    } else {
      var m := block[0];
      var (kept, rights, moved) := Retain2(seeds, SourceRange(m), LineOffset(m)).value;
      Retain2Points(seeds, m, y);
      CoversAppend(next, moved, y);
      ApplyLines2Forward(kept + rights, next + moved, block[1..], y);
      if Covers(seeds, y) && InSource(m, y) {
        var x := Shift(m, y);
        Retain2Points(seeds, m, x);
        assert x + m.src - m.dest == y;
        CoversAppend(next, moved, x);
        ApplyLines2Forward(kept + rights, next + moved, block[1..], x);
      }
    }
  }

  /** Every point of the result comes from the next buffer or is the image
      `MapSeed(block, y)` of a point `y` of the seeds. */
  lemma {:induction false} ApplyLines2Backward(seeds: seq<SeedRange>, next: seq<SeedRange>, block: seq<MapLine>, x: nat)
    requires ApplyLines2(seeds, next, block).Ok?
    requires Covers(ApplyLines2(seeds, next, block).value, x)
    ensures Covers(next, x) || exists y :: Covers(seeds, y) && MapSeed(block, y) == x
    decreases |block|
  {
    if block == [] {
      CoversAppend(seeds, next, x);
      if !Covers(next, x) {
        assert Covers(seeds, x) && MapSeed(block, x) == x;
      }
    } else {
      var m := block[0];
      var (kept, rights, moved) := Retain2(seeds, SourceRange(m), LineOffset(m)).value;
      ApplyLines2Backward(kept + rights, next + moved, block[1..], x);
      CoversAppend(next, moved, x);
      if Covers(moved, x) {
        Retain2Points(seeds, m, x);
        var y := x + m.src - m.dest;
        assert Covers(seeds, y) && MapSeed(block, y) == x;
      } else if !Covers(next, x) {
        var y :| Covers(kept + rights, y) && MapSeed(block[1..], y) == x;
        Retain2Points(seeds, m, y);
        assert Covers(seeds, y) && MapSeed(block, y) == x;
      }
    }
  }

  /** `chunks_exact(2)`: consecutive pairs as (start, length); an odd last
      number is dropped. */
  function Pairs(nums: seq<nat>): (r: seq<SeedRange>)
    ensures |r| == |nums| / 2
  {
    if |nums| < 2 then [] else [SeedRange(nums[0], nums[1])] + Pairs(nums[2..])
  }

  function RunMaps2(seeds: seq<SeedRange>, maps: seq<seq<MapLine>>): Result<seq<SeedRange>>
    decreases |maps|
  {
    if maps == [] then Ok(seeds)
    else match ApplyLines2(seeds, [], maps[0])
      case Err(e) => Err(e)
      case Ok(next) => RunMaps2(next, maps[1..])
  }

  function Starts(rs: seq<SeedRange>): (r: seq<nat>)
    ensures |r| == |rs|
  {
    seq(|rs|, i requires 0 <= i < |rs| => rs[i].start)
  }

  function Part2Answer(input: string): Result<nat>
  {
    match ParseAlmanac(input)
    case Err(e) => Err(e)
    case Ok((nums, maps)) =>
      match RunMaps2(Pairs(nums), maps)
      case Err(e) => Err(e)
      case Ok(final) => Min(Starts(final))
  }

  /** Across all maps the total length is kept, and every seed of every
      range ends inside the final ranges at its location. */
  lemma {:induction false} RunMaps2Spec(seeds: seq<SeedRange>, maps: seq<seq<MapLine>>, y: nat)
    ensures RunMaps2(seeds, maps).Ok?
    ensures TotalLen(RunMaps2(seeds, maps).value) == TotalLen(seeds)
    ensures Covers(seeds, y) ==> Covers(RunMaps2(seeds, maps).value, Location(maps, y))
    decreases |maps|
  {
    if maps != [] {
      ApplyLines2Length(seeds, [], maps[0]);
      ApplyLines2Forward(seeds, [], maps[0], y);
      var next := ApplyLines2(seeds, [], maps[0]).value;
      assert TotalLen([]) == 0;
      RunMaps2Spec(next, maps[1..], MapSeed(maps[0], y));
    }
  }

  predicate NonEmpty(rs: seq<SeedRange>)
  {
    forall i :: 0 <= i < |rs| ==> rs[i].len != 0
  }

  /** `retain_mut` drops empty left pieces and never queues or moves an
      empty piece, so what one line produces is free of empty ranges. */
  lemma {:induction false} Retain2NonEmpty(seeds: seq<SeedRange>, m: MapLine)
    ensures Retain2(seeds, SourceRange(m), LineOffset(m)).Ok?
    ensures var (kept, rights, moved) := Retain2(seeds, SourceRange(m), LineOffset(m)).value;
      NonEmpty(kept) && NonEmpty(rights) && NonEmpty(moved)
  {
    Retain2NeverFails(seeds, m);
    if seeds != [] {
      Retain2NonEmpty(seeds[..|seeds| - 1], m);
      RetainOneSpec(seeds[|seeds| - 1], m, 0);
    }
  }

  /** After at least one line, a map leaves no empty range behind. */
  lemma {:induction false} ApplyLines2NonEmpty(seeds: seq<SeedRange>, next: seq<SeedRange>, block: seq<MapLine>)
    requires NonEmpty(next) && (block != [] || NonEmpty(seeds))
    ensures ApplyLines2(seeds, next, block).Ok?
    ensures NonEmpty(ApplyLines2(seeds, next, block).value)
    decreases |block|
  {
    ApplyLines2Length(seeds, next, block);
    if block != [] {
      var m := block[0];
      Retain2NonEmpty(seeds, m);
      var (kept, rights, moved) := Retain2(seeds, SourceRange(m), LineOffset(m)).value;
      ApplyLines2NonEmpty(kept + rights, next + moved, block[1..]);
    }
  }

  lemma {:induction false} RunMaps2NonEmpty(seeds: seq<SeedRange>, maps: seq<seq<MapLine>>)
    requires forall k :: 0 <= k < |maps| ==> maps[k] != []
    requires maps != [] || NonEmpty(seeds)
    ensures RunMaps2(seeds, maps).Ok?
    ensures NonEmpty(RunMaps2(seeds, maps).value)
    decreases |maps|
  {
    RunMaps2Spec(seeds, maps, 0);
    if maps != [] {
      ApplyLines2NonEmpty(seeds, [], maps[0]);
      RunMaps2NonEmpty(ApplyLines2(seeds, [], maps[0]).value, maps[1..]);
    }
  }

  /** Every point of the final ranges is the location of a seed. */
  lemma {:induction false} RunMaps2Backward(seeds: seq<SeedRange>, maps: seq<seq<MapLine>>, x: nat)
    requires RunMaps2(seeds, maps).Ok?
    requires Covers(RunMaps2(seeds, maps).value, x)
    ensures exists y :: Covers(seeds, y) && Location(maps, y) == x
    decreases |maps|
  {
    if maps == [] {
      assert Location(maps, x) == x;
    } else {
      var next := ApplyLines2(seeds, [], maps[0]).value;
      RunMaps2Backward(next, maps[1..], x);
      var z :| Covers(next, z) && Location(maps[1..], z) == x;
      ApplyLines2Backward(seeds, [], maps[0], z);
      CoversOne(EmptyRange, z);
      var y :| Covers(seeds, y) && MapSeed(maps[0], y) == z;
      assert Location(maps, y) == x;
    }
  }

  /** Part 2 is at most the location of every seed in the ranges; it exists
      when the ranges hold a seed; and when every map has a line it is the
      location of one of those seeds. */
  lemma Part2IsLowestLocation(input: string)
    requires ParseAlmanac(input).Ok?
    ensures var (nums, maps) := ParseAlmanac(input).value;
      (TotalLen(Pairs(nums)) > 0 ==> Part2Answer(input).Ok?) &&
      (Part2Answer(input).Ok? ==>
        (forall y :: Covers(Pairs(nums), y) ==> Part2Answer(input).value <= Location(maps, y)) &&
        (maps != [] && (forall k :: 0 <= k < |maps| ==> maps[k] != []) ==>
          exists y :: Covers(Pairs(nums), y) && Location(maps, y) == Part2Answer(input).value))
  {
    var (nums, maps) := ParseAlmanac(input).value;
    var seeds := Pairs(nums);
    RunMaps2Spec(seeds, maps, 0);
    var final := RunMaps2(seeds, maps).value;
    if TotalLen(seeds) > 0 {
      assert final != [];
    }
    if final != [] {
      var answer := Min(Starts(final)).value;
      forall y | Covers(seeds, y) ensures answer <= Location(maps, y) {
        RunMaps2Spec(seeds, maps, y);
        var i :| 0 <= i < |final| && InRange(final[i], Location(maps, y));
        assert Starts(final)[i] == final[i].start;
      }
      if maps != [] && (forall k :: 0 <= k < |maps| ==> maps[k] != []) {
        RunMaps2NonEmpty(seeds, maps);
        var i :| 0 <= i < |final| && Starts(final)[i] == answer;
        assert InRange(final[i], answer);
        RunMaps2Backward(seeds, maps, answer);
      }
    }
  }

  /** One map on the seeds vector: after each line the queued right pieces
      are appended to the seeds, and after the map the next buffer. */
  method ApplyMap2(seeds0: seq<SeedRange>, block: seq<MapLine>) returns (r: Result<seq<SeedRange>>)
    ensures r == ApplyLines2(seeds0, [], block)
  {
    var seeds := seeds0;
    var next: seq<SeedRange> := [];
    for l := 0 to |block|
      invariant ApplyLines2(seeds, next, block[l..]) == ApplyLines2(seeds0, [], block)
    {
      assert block[l..][1..] == block[l + 1..];
      var m := block[l];
      var res := RetainRanges(seeds, SourceRange(m), m.dest as int - m.src as int);
      if res.Err? {
        return Err(res.reason);
      }
      var (kept, rights, moved) := res.value;
      seeds, next := kept + rights, next + moved;
    }
    assert block[|block|..] == [];
    return Ok(seeds + next);
  }

  /** Part 2: the maps in order, then the smallest range start. */
  method Part2(input: string) returns (r: Result<nat>)
    ensures r == Part2Answer(input)
  {
    var almanac := ParseAlmanac(input);
    if almanac.Err? {
      return Err(almanac.reason);
    }
    var (nums, maps) := almanac.value;
    var seeds := Pairs(nums);
    for b := 0 to |maps|
      invariant RunMaps2(Pairs(nums), maps) == RunMaps2(seeds, maps[b..])
    {
      assert maps[b..][1..] == maps[b + 1..];
      var res := ApplyMap2(seeds, maps[b]);
      if res.Err? {
        return Err(res.reason);
      }
      seeds := res.value;
    }
    assert maps[|maps|..] == [];
    r := Min(Starts(seeds));
  }

  method Solve(input: string) returns (part1: Result<nat>, part2: Result<nat>)
    ensures part1 == Part1Answer(input) && part2 == Part2Answer(input)
  {
    part1 := Part1(input);
    part2 := Part2(input);
  }
}
