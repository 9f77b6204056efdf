/**
 * The execution engine as a state-transition function.
 *
 * A `State` holds everything the interpreter's step loop updates: the grid,
 * the head and its direction, the three one-shot suppression flags, the
 * output bit buffer and the input bit buffer. `Step` is one iteration of the
 * loop; `Run` iterates it under a step budget. The `sent` field is a history
 * that the interpreter itself does not keep: every bit ever appended to the
 * output buffer, so that properties of the output can be stated.
 */
module Semantics {
  import opened Fields
  import opened Arith

  type Byte = b: int | 0 <= b < 256

  datatype State = State(
    grid: seq<Field>, rows: nat, cols: nat,
    r: int, c: int, dr: int, dc: int,
    notPlace: bool, notHarvest: bool, notExecute: bool,
    outBuf: int, outCnt: nat, output: seq<Byte>, sent: seq<bool>,
    inBuf: int, inCnt: nat, input: seq<Byte>, inPos: nat)

  /** A direction is one of the four unit steps along an axis. */
  predicate UnitAxis(dr: int, dc: int)
  {
    (dr == 0 && (dc == 1 || dc == -1)) || (dc == 0 && (dr == 1 || dr == -1))
  }

  predicate InBounds(rows: nat, cols: nat, r: int, c: int)
  {
    0 <= r < rows && 0 <= c < cols
  }

  /** The shape every state of a run keeps. */
  predicate WellFormed(s: State)
  {
    |s.grid| == Times(s.rows, s.cols) &&
    0 <= s.outBuf < 256 && s.outCnt < 8 &&
    0 <= s.inBuf < 256 && s.inPos <= |s.input| &&
    UnitAxis(s.dr, s.dc)
  }

  /** What no visit changes: the grid's shape, its size and the input. */
  predicate Frame(s: State, t: State)
  {
    t.rows == s.rows && t.cols == s.cols && |t.grid| == |s.grid| &&
    t.input == s.input && t.r == s.r && t.c == s.c
  }

  /** The step loop continues while the head is on the grid. */
  predicate Running(s: State)
  {
    InBounds(s.rows, s.cols, s.r, s.c)
  }

  /** The state in which the step loop starts: head at the top-left, facing right, output and input buffers empty. */
  function Initial(grid: seq<Field>, rows: nat, cols: nat, input: seq<Byte>): State
  {
    State(grid, rows, cols, 0, 0, 0, 1, false, false, false, 0, 0, [], [], 0, 8, input, 0)
  }

  function CellAt(g: seq<Field>, rows: nat, cols: nat, r: int, c: int): Field
    requires |g| == Times(rows, cols) && InBounds(rows, cols, r, c)
  {
    CellIndexBounds(rows, cols, r, c);
    g[Times(r, cols) + c]
  }

  /** A cell's value in the neighbour sum; a position off the grid counts 0. */
  function ValueAt(g: seq<Field>, rows: nat, cols: nat, r: int, c: int): (v: nat)
    requires |g| == Times(rows, cols)
    ensures v <= 1
  {
    if InBounds(rows, cols, r, c) then Value(CellAt(g, rows, cols, r, c)) else 0
  }

  function HeadIndex(s: State): (i: nat)
    requires WellFormed(s) && Running(s)
    ensures i < |s.grid|
  {
    CellIndexBounds(s.rows, s.cols, s.r, s.c);
    Times(s.r, s.cols) + s.c
  }

  function Head(s: State): Field
    requires WellFormed(s) && Running(s)
  {
    s.grid[HeadIndex(s)]
  }

  // ---------------------------------------------------------------- decode

  /** The eight neighbour offsets in decode order: row offset outer, column offset inner, centre skipped. */
  const Neighbours: seq<(int, int)> :=
    [(-1, -1), (-1, 0), (-1, 1), (0, -1), (0, 1), (1, -1), (1, 0), (1, 1)]

  /** The weight of the k-th neighbour: it starts at 1 and doubles modulo 7 after every neighbour. */
  function Weight(k: nat): (w: nat)
    ensures 1 <= w < 7
  {
    if k == 0 then 1 else Weight(k - 1) * 2 % 7
  }

  /** Weighted values of the first k neighbours of (r, c). */
  function PartialSum(g: seq<Field>, rows: nat, cols: nat, r: int, c: int, k: nat): nat
    requires |g| == Times(rows, cols) && k <= 8
  {
    if k == 0 then 0
    else PartialSum(g, rows, cols, r, c, k - 1)
         + Weight(k - 1) * ValueAt(g, rows, cols, r + Neighbours[k - 1].0, c + Neighbours[k - 1].1)
  }

  /** The command decoded at (r, c): the weighted sum of the eight neighbours, modulo 7. */
  function Command(g: seq<Field>, rows: nat, cols: nat, r: int, c: int): (x: nat)
    requires |g| == Times(rows, cols)
    ensures x < 7
  {
    PartialSum(g, rows, cols, r, c, 8) % 7
  }

  // ---------------------------------------------------------------- commands

  /** Command 1: (dr, dc) becomes (-dc, dr). */
  function TurnLeft(d: (int, int)): (int, int)
  {
    (-d.1, d.0)
  }

  /** Command 2: (dr, dc) becomes (dc, -dr). */
  function TurnRight(d: (int, int)): (int, int)
  {
    (d.1, -d.0)
  }

  /** Shift one bit into the output byte, most significant first; the eighth bit writes the byte out. */
  function PushBit(s: State, v: nat): (t: State)
    requires WellFormed(s) && v <= 1
    ensures WellFormed(t) && Frame(s, t)
  {
    var buf := (s.outBuf * 2 + v) % 256;
    if s.outCnt + 1 == 8 then
      s.(outBuf := buf, outCnt := 0, output := s.output + [buf], sent := s.sent + [v == 1])
    else
      s.(outBuf := buf, outCnt := s.outCnt + 1, sent := s.sent + [v == 1])
  }

  /** Command 0: output the value of the cell one step ahead, if it is on the grid. */
  function Emit(s: State): (t: State)
    requires WellFormed(s)
    ensures WellFormed(t) && Frame(s, t)
  {
    if InBounds(s.rows, s.cols, s.r + s.dr, s.c + s.dc) then
      PushBit(s, Value(CellAt(s.grid, s.rows, s.cols, s.r + s.dr, s.c + s.dc)))
    else s
  }

  /** Whether command 6 finds no bit: the buffer is exhausted and the input has no byte left. */
  predicate AtEof(s: State)
  {
    s.inCnt == 8 && s.inPos >= |s.input|
  }

  /**
   * Command 6: take the next input bit, least significant first, and plant
   * the head cell if it is 1. A new byte is read only while the bit counter
   * is exactly 8; the counter is never reset, so only the first byte of the
   * input is ever read. The counter is unbounded here; the program's is a
   * 32-bit signed integer, which overflows after 2^31 - 8 bits taken.
   */
  function ReadBit(s: State): (t: State)
    requires WellFormed(s) && Running(s)
    ensures WellFormed(t) && Frame(s, t)
  {
    if AtEof(s) then s
    else
      var buf := if s.inCnt == 8 then s.input[s.inPos] as int else s.inBuf;
      var pos := if s.inCnt == 8 then s.inPos + 1 else s.inPos;
      var g := if buf % 2 == 1 then s.grid[HeadIndex(s) := Eggplant] else s.grid;
      s.(grid := g, inBuf := buf / 2, inCnt := s.inCnt + 1, inPos := pos)
  }

  function Execute(s: State, x: nat): (t: State)
    requires WellFormed(s) && Running(s) && x < 7
    ensures WellFormed(t) && Frame(s, t)
  {
    if x == 0 then Emit(s)
    else if x == 1 then
      var d := TurnLeft((s.dr, s.dc)); s.(dr := d.0, dc := d.1)
    else if x == 2 then
      var d := TurnRight((s.dr, s.dc)); s.(dr := d.0, dc := d.1)
    else if x == 3 then s.(notPlace := true)
    else if x == 4 then s.(notHarvest := true)
    else if x == 5 then s.(notExecute := true)
    else ReadBit(s)
  }

  // ---------------------------------------------------------------- steps

  /** What one iteration does at the head before the head moves. */
  function Visit(s: State): (t: State)
    requires WellFormed(s) && Running(s)
    ensures WellFormed(t) && Frame(s, t)
  {
    var i := HeadIndex(s);
    match s.grid[i]
    case Empty =>
      if s.notPlace then s.(notPlace := false) else s.(grid := s.grid[i := Eggplant])
    case Eggplant =>
      if s.notHarvest then s.(notHarvest := false)
      else
        var h := s.(grid := s.grid[i := Empty]);
        if h.notExecute then h.(notExecute := false)
        else Execute(h, Command(h.grid, h.rows, h.cols, h.r, h.c))
    case Ignore => s
  }

  /** One iteration of the step loop: visit the head cell, then move by the (possibly new) direction. */
  function Step(s: State): (t: State)
    requires WellFormed(s) && Running(s)
    ensures WellFormed(t)
  {
    var u := Visit(s);
    u.(r := u.r + u.dr, c := u.c + u.dc)
  }

  /** At most `fuel` iterations, stopping as soon as the head leaves the grid. */
  function Run(s: State, fuel: nat): State
    requires WellFormed(s)
    decreases fuel
  {
    if fuel == 0 || !Running(s) then s
    else Run(Step(s), fuel - 1)
  }
}
