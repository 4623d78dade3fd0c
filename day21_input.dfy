/** Day 21: Step Counter, reading the map. The garden is a square of `.`
    plots and `#` rocks with one `S`, the elf's start. The map is kept as
    the set of flat indices of the rocks, the side of the square and the
    start's (row, column). */
module Day21 {
  import opened Util

  const PANIC: string := "panic"

  /** The characters of all lines, one after another. */
  function Concat(lines: seq<string>): (cells: string)
    ensures |lines| > 0 ==> |cells| >= |lines[0]|
  {
    if lines == [] then [] else lines[0] + Concat(lines[1..])
  }

  /** The flat indices of the rocks. */
  function Walls(cells: string): set<nat>
  {
    set i: nat | i < |cells| && cells[i] == '#'
  }

  /** The index of the last `S`, if any. */
  function LastStart(cells: string): (r: Option<nat>)
    ensures r.Some? ==> r.value < |cells| && cells[r.value] == 'S' && forall j :: r.value < j < |cells| ==> cells[j] != 'S'
    ensures r.None? <==> 'S' !in cells
  {
    if cells == [] then None
    else if cells[|cells| - 1] == 'S' then Some(|cells| - 1)
    else
      var r := LastStart(cells[..|cells| - 1]);
      assert cells == cells[..|cells| - 1] + [cells[|cells| - 1]];
      r
  }

  predicate Known(c: char)
  {
    c == 'S' || c == '#' || c == '.'
  }

  predicate AllKnown(cells: string)
  {
    forall i :: 0 <= i < |cells| ==> Known(cells[i])
  }

  /** The start's (row, column): that of the last `S`, when the side is known. */
  function StartOf(cells: string, side: nat): Option<(nat, nat)>
  {
    match LastStart(cells)
    case None => None
    case Some(k) => if side == 0 then None else Some((k / side, k % side))
  }

  datatype Garden = Garden(walls: set<nat>, side: nat, start: (nat, nat))

  /** `load_input`: the side is the length of the first line; the cells of
      all lines are read by `ReadCells`. A missing first line or a missing
      `S` panics. */
  method LoadInput(input: string) returns (r: Result<Garden>)
    ensures r.Ok? <==> (Lines(input) != [] && |Lines(input)[0]| > 0 &&
      AllKnown(Concat(Lines(input))) && 'S' in Concat(Lines(input)))
    ensures r.Ok? ==> r.value.side == |Lines(input)[0]|
    ensures r.Ok? ==> r.value.walls == Walls(Concat(Lines(input)))
    ensures r.Ok? ==> Some(r.value.start) == StartOf(Concat(Lines(input)), r.value.side)
  {
    var lines := Lines(input);
    if lines == [] {
      return Err(PANIC);
    }
    var side := |lines[0]|;
    var cells := Concat(lines);
    var read := ReadCells(cells, side);
    if read.Err? {
      return Err(read.reason);
    }
    var (walls, start) := read.value;
    if start.None? {
      return Err(PANIC);
    }
    return Ok(Garden(walls, side, start.value));
  }

  /** The cells in order: `#` adds its flat index to the walls, `S` sets the
      start to (index / side, index % side), `.` is skipped, and any other
      character panics, as does an `S` when the side is 0. */
  method ReadCells(cells: string, side: nat) returns (r: Result<(set<nat>, Option<(nat, nat)>)>)
    ensures r.Ok? <==> AllKnown(cells) && (side == 0 ==> 'S' !in cells)
    ensures r.Ok? ==> r.value.0 == Walls(cells) && r.value.1 == StartOf(cells, side)
    ensures r.Ok? ==> (r.value.1.None? <==> 'S' !in cells)
  {
    var start: Option<(nat, nat)> := None;
    var walls: set<nat> := {};
    for idx := 0 to |cells|
      invariant walls == Walls(cells[..idx])
      invariant AllKnown(cells[..idx])
      invariant side == 0 ==> 'S' !in cells[..idx]
      invariant start == StartOf(cells[..idx], side)
    {
      CellStep(cells, idx, side);
      var b := cells[idx];
      if b == 'S' {
        if side == 0 {
          return Err(PANIC);
        }
        start := Some((idx / side, idx % side));
      } else if b == '#' {
        walls := walls + {idx};
      } else if b != '.' {
        return Err(PANIC);
      }
    }
    assert cells[..|cells|] == cells;
    return Ok((walls, start));
  }

  /** What reading one more cell adds. */
  lemma CellStep(cells: string, idx: nat, side: nat)
    requires idx < |cells|
    ensures Walls(cells[..idx + 1]) == Walls(cells[..idx]) + (if cells[idx] == '#' then {idx} else {})
    ensures AllKnown(cells[..idx + 1]) <==> AllKnown(cells[..idx]) && Known(cells[idx])
    ensures 'S' in cells[..idx + 1] <==> 'S' in cells[..idx] || cells[idx] == 'S'
    ensures StartOf(cells[..idx + 1], side) ==
      if cells[idx] == 'S' then (if side == 0 then None else Some((idx / side, idx % side))) else StartOf(cells[..idx], side)
    ensures !Known(cells[idx]) ==> !AllKnown(cells)
    ensures cells[idx] == 'S' ==> 'S' in cells
  {
    var next := cells[..idx + 1];
    assert next == cells[..idx] + [cells[idx]];
    assert next[..idx] == cells[..idx];
    assert forall i :: 0 <= i < idx ==> next[i] == cells[..idx][i];
  }

  /** The start is a plot, not a rock. */
  lemma StartIsNoWall(cells: string)
    requires 'S' in cells
    ensures LastStart(cells).value !in Walls(cells)
  {
  }
}
