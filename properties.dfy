/**
 * What the execution engine guarantees: the command decode, the turns, the
 * effect of one step on the grid, the flags, the head and the two bit
 * buffers, and the invariants that hold along every run.
 */
module Properties {
  import opened Fields
  import opened Arith
  import opened Semantics

  // ---------------------------------------------------------------- decode

  /** The weights run 1, 2, 4 and repeat. */
  lemma {:induction false} WeightCycle(k: nat)
    ensures Weight(k) == if k % 3 == 0 then 1 else if k % 3 == 1 then 2 else 4
  {
    if k > 0 {
      WeightCycle(k - 1);
    }
  }

  /** The weights of the eight neighbours, in decode order. */
  lemma DecodeWeights()
    ensures [Weight(0), Weight(1), Weight(2), Weight(3), Weight(4), Weight(5), Weight(6), Weight(7)]
         == [1, 2, 4, 1, 2, 4, 1, 2]
  {
    WeightCycle(3);
    WeightCycle(4);
    WeightCycle(5);
    WeightCycle(6);
    WeightCycle(7);
  }

  /** Two grids that agree on the eight neighbours of (r, c) give the same partial sums there. */
  lemma {:induction false} PartialSumLocal(g1: seq<Field>, g2: seq<Field>, rows: nat, cols: nat, r: int, c: int, k: nat)
    requires |g1| == Times(rows, cols) && |g2| == Times(rows, cols) && k <= 8
    requires forall j :: 0 <= j < 8 ==>
      ValueAt(g1, rows, cols, r + Neighbours[j].0, c + Neighbours[j].1)
      == ValueAt(g2, rows, cols, r + Neighbours[j].0, c + Neighbours[j].1)
    ensures PartialSum(g1, rows, cols, r, c, k) == PartialSum(g2, rows, cols, r, c, k)
  {
    if k > 0 {
      PartialSumLocal(g1, g2, rows, cols, r, c, k - 1);
    }
  }

  /** The decoded command depends only on the values of the eight neighbours. */
  lemma CommandLocal(g1: seq<Field>, g2: seq<Field>, rows: nat, cols: nat, r: int, c: int)
    requires |g1| == Times(rows, cols) && |g2| == Times(rows, cols)
    requires forall j :: 0 <= j < 8 ==>
      ValueAt(g1, rows, cols, r + Neighbours[j].0, c + Neighbours[j].1)
      == ValueAt(g2, rows, cols, r + Neighbours[j].0, c + Neighbours[j].1)
    ensures Command(g1, rows, cols, r, c) == Command(g2, rows, cols, r, c)
  {
    PartialSumLocal(g1, g2, rows, cols, r, c, 8);
  }

  /** Each of the eight offsets is a unit offset other than the centre, which the scan skips. */
  lemma NeighbourNotCentre(j: nat)
    requires j < 8
    ensures Neighbours[j] != (0, 0)
    ensures -1 <= Neighbours[j].0 <= 1 && -1 <= Neighbours[j].1 <= 1
  {
  }

  /** The head cell is not one of its own neighbours: changing it does not change the command. */
  lemma CommandIgnoresHead(g: seq<Field>, rows: nat, cols: nat, r: int, c: int, f: Field)
    requires |g| == Times(rows, cols) && InBounds(rows, cols, r, c)
    ensures Times(r, cols) + c < |g|
    ensures Command(g[Times(r, cols) + c := f], rows, cols, r, c) == Command(g, rows, cols, r, c)
  {
    CellIndexBounds(rows, cols, r, c);
    var g' := g[Times(r, cols) + c := f];
    forall j | 0 <= j < 8
      ensures ValueAt(g', rows, cols, r + Neighbours[j].0, c + Neighbours[j].1)
           == ValueAt(g, rows, cols, r + Neighbours[j].0, c + Neighbours[j].1)
    {
      NeighbourNotCentre(j);
      var nr, nc := r + Neighbours[j].0, c + Neighbours[j].1;
      if InBounds(rows, cols, nr, nc) {
        CellIndexBounds(rows, cols, nr, nc);
        if Times(nr, cols) + nc == Times(r, cols) + c {
          CellIndexInjective(cols, nr, nc, r, c);
        }
      }
    }
    CommandLocal(g', g, rows, cols, r, c);
  }

  lemma {:induction false} PartialSumOffGrid(g: seq<Field>, rows: nat, cols: nat, r: int, c: int, k: nat)
    requires |g| == Times(rows, cols) && k <= 8
    requires forall j :: 0 <= j < 8 ==> !InBounds(rows, cols, r + Neighbours[j].0, c + Neighbours[j].1)
    ensures PartialSum(g, rows, cols, r, c, k) == 0
  {
    if k > 0 {
      PartialSumOffGrid(g, rows, cols, r, c, k - 1);
    }
  }

  /** On a 1x1 grid every neighbour is off the grid, so the only command is 0. */
  lemma CommandSingleCell(g: seq<Field>)
    requires |g| == 1
    ensures Command(g, 1, 1, 0, 0) == 0
  {
    forall j | 0 <= j < 8
      ensures !InBounds(1, 1, Neighbours[j].0, Neighbours[j].1)
    {
      NeighbourNotCentre(j);
    }
    PartialSumOffGrid(g, 1, 1, 0, 0, 8);
  }

  // ---------------------------------------------------------------- turns

  /** Commands 1 and 2 undo each other. */
  lemma TurnsInverse(d: (int, int))
    ensures TurnRight(TurnLeft(d)) == d && TurnLeft(TurnRight(d)) == d
  {
  }

  /** Four turns the same way face the original direction again. */
  lemma FourTurns(d: (int, int))
    ensures TurnLeft(TurnLeft(TurnLeft(TurnLeft(d)))) == d
    ensures TurnRight(TurnRight(TurnRight(TurnRight(d)))) == d
  {
  }

  /** A turn of a unit axis step is a unit axis step. */
  lemma TurnsKeepAxis(d: (int, int))
    requires UnitAxis(d.0, d.1)
    ensures UnitAxis(TurnLeft(d).0, TurnLeft(d).1) && UnitAxis(TurnRight(d).0, TurnRight(d).1)
  {
  }

  /** From the initial direction (0, 1), command 1 faces (-1, 0), then (0, -1), then (1, 0), then (0, 1). */
  lemma LeftTurnsFromStart()
    ensures TurnLeft((0, 1)) == (-1, 0)
    ensures TurnLeft(TurnLeft((0, 1))) == (0, -1)
    ensures TurnLeft(TurnLeft(TurnLeft((0, 1)))) == (1, 0)
    ensures TurnLeft(TurnLeft(TurnLeft(TurnLeft((0, 1))))) == (0, 1)
  {
  }

  // ---------------------------------------------------------------- one step

  /** Whether a step executes a command: an unsuppressed harvest with no pending execute suppression. */
  predicate Fires(s: State)
    requires WellFormed(s) && Running(s)
  {
    Head(s) == Eggplant && !s.notHarvest && !s.notExecute
  }

  /** `Command` at the head of `s`: the command a firing step executes, named so the step lemmas read briefly. */
  function Cmd(s: State): (x: nat)
    requires WellFormed(s) && Running(s)
    ensures x < 7
  {
    Command(s.grid, s.rows, s.cols, s.r, s.c)
  }

  /** Whether the step's command 6 would find a bit and that bit is 1. */
  predicate NextBitIsOne(s: State)
  {
    !AtEof(s) &&
    (if s.inCnt == 8 then s.inPos < |s.input| && s.input[s.inPos] % 2 == 1 else s.inBuf % 2 == 1)
  }

  /** The state after a harvest: the head cell emptied. */
  function Harvested(s: State): (h: State)
    requires WellFormed(s) && Running(s)
    ensures WellFormed(h) && Running(h) && Frame(s, h) && HeadIndex(h) == HeadIndex(s)
  {
    s.(grid := s.grid[HeadIndex(s) := Empty])
  }

  /** A firing visit harvests the head and executes the command decoded around it. */
  lemma VisitFired(s: State)
    requires WellFormed(s) && Running(s) && Fires(s)
    ensures Visit(s) == Execute(Harvested(s), Cmd(s))
  {
    CommandIgnoresHead(s.grid, s.rows, s.cols, s.r, s.c, Empty);
  }

  /** The two states agree on the output buffer and the bits appended so far. */
  predicate SameOutput(s: State, t: State)
  {
    t.outBuf == s.outBuf && t.outCnt == s.outCnt && t.output == s.output && t.sent == s.sent
  }

  /** The two states agree on the input buffer and the input. */
  predicate SameInput(s: State, t: State)
  {
    t.inBuf == s.inBuf && t.inCnt == s.inCnt && t.input == s.input && t.inPos == s.inPos
  }

  /** A visit that executes nothing touches neither buffer nor the direction. */
  lemma VisitQuiet(s: State)
    requires WellFormed(s) && Running(s) && !Fires(s)
    ensures SameOutput(s, Visit(s)) && SameInput(s, Visit(s))
    ensures Visit(s).dr == s.dr && Visit(s).dc == s.dc
  {
  }

  /** Emptying the head does not change the cell ahead of it. */
  lemma AheadUnharvested(s: State)
    requires WellFormed(s) && Running(s) && InBounds(s.rows, s.cols, s.r + s.dr, s.c + s.dc)
    ensures CellAt(Harvested(s).grid, s.rows, s.cols, s.r + s.dr, s.c + s.dc)
         == CellAt(s.grid, s.rows, s.cols, s.r + s.dr, s.c + s.dc)
  {
    CellIndexBounds(s.rows, s.cols, s.r + s.dr, s.c + s.dc);
    CellIndexBounds(s.rows, s.cols, s.r, s.c);
    if Times(s.r, s.cols) + s.c == Times(s.r + s.dr, s.cols) + (s.c + s.dc) {
      CellIndexInjective(s.cols, s.r, s.c, s.r + s.dr, s.c + s.dc);
    }
  }

  /** Only command 6 changes the grid, planting the head when it reads a 1 bit. */
  lemma ExecuteGrid(s: State, x: nat)
    requires WellFormed(s) && Running(s) && x < 7
    ensures Execute(s, x).grid == if x == 6 && NextBitIsOne(s) then s.grid[HeadIndex(s) := Eggplant] else s.grid
  {
    if x == 0 {
      assert Emit(s).grid == s.grid;
    }
  }

  /** Commands 3, 4 and 5 set their flags; no command clears one. */
  lemma ExecuteFlags(s: State, x: nat)
    requires WellFormed(s) && Running(s) && x < 7
    ensures Execute(s, x).notPlace == (s.notPlace || x == 3)
    ensures Execute(s, x).notHarvest == (s.notHarvest || x == 4)
    ensures Execute(s, x).notExecute == (s.notExecute || x == 5)
  {
    if x == 0 {
      assert Emit(s).notPlace == s.notPlace && Emit(s).notHarvest == s.notHarvest && Emit(s).notExecute == s.notExecute;
    }
  }

  /** Commands 1 and 2 turn; no other command changes the direction. */
  lemma ExecuteDirection(s: State, x: nat)
    requires WellFormed(s) && Running(s) && x < 7
    ensures (Execute(s, x).dr, Execute(s, x).dc) ==
      if x == 1 then TurnLeft((s.dr, s.dc)) else if x == 2 then TurnRight((s.dr, s.dc)) else (s.dr, s.dc)
  {
    if x == 0 {
      assert Emit(s).dr == s.dr && Emit(s).dc == s.dc;
    }
  }

  /** Only command 0 appends an output bit, and only when the cell ahead is on the grid. */
  lemma ExecuteSent(s: State, x: nat)
    requires WellFormed(s) && Running(s) && x < 7
    ensures Execute(s, x).sent ==
      if x == 0 && InBounds(s.rows, s.cols, s.r + s.dr, s.c + s.dc)
      then s.sent + [CellAt(s.grid, s.rows, s.cols, s.r + s.dr, s.c + s.dc) == Eggplant]
      else s.sent
  {
    if x == 6 {
      assert ReadBit(s).sent == s.sent;
    }
  }

  /** Only command 6 takes an input bit. */
  lemma ExecuteInput(s: State, x: nat)
    requires WellFormed(s) && Running(s) && x < 7
    ensures (Execute(s, x).inCnt, Execute(s, x).inPos, Execute(s, x).inBuf) ==
      if x == 6 && !AtEof(s) then
        (s.inCnt + 1,
         if s.inCnt == 8 then s.inPos + 1 else s.inPos,
         (if s.inCnt == 8 then s.input[s.inPos] as int else s.inBuf) / 2)
      else (s.inCnt, s.inPos, s.inBuf)
  {
    if x == 0 {
      assert Emit(s).inCnt == s.inCnt && Emit(s).inPos == s.inPos && Emit(s).inBuf == s.inBuf;
    }
  }

  /**
   * One step changes at most the head cell, and an inert head changes
   * nothing. An open head is planted unless plant suppression is pending; a
   * planted head is harvested unless harvest suppression is pending, and is
   * planted again only by command 6 reading a 1 bit.
   */
  lemma StepGrid(s: State)
    requires WellFormed(s) && Running(s)
    ensures |Step(s).grid| == |s.grid|
    ensures forall p :: 0 <= p < |s.grid| && p != HeadIndex(s) ==> Step(s).grid[p] == s.grid[p]
    ensures Step(s).grid[HeadIndex(s)] ==
      match Head(s)
      case Ignore => Ignore
      case Empty => if s.notPlace then Empty else Eggplant
      case Eggplant =>
        if s.notHarvest then Eggplant
        else if Fires(s) && Cmd(s) == 6 && NextBitIsOne(s) then Eggplant
        else Empty
  {
    if Fires(s) {
      VisitFired(s);
      ExecuteGrid(Harvested(s), Cmd(s));
    }
  }

  /**
   * Each flag is set only by its command (3, 4, 5) and cleared exactly at
   * the first event it cancels: plant suppression at the next open head,
   * harvest suppression at the next planted head, execute suppression at the
   * next unsuppressed harvest. Until then it stays set.
   */
  lemma StepFlags(s: State)
    requires WellFormed(s) && Running(s)
    ensures Step(s).notPlace ==
      if Head(s) == Empty then false else s.notPlace || (Fires(s) && Cmd(s) == 3)
    ensures Step(s).notHarvest ==
      if Head(s) == Eggplant then Fires(s) && Cmd(s) == 4 else s.notHarvest
    ensures Step(s).notExecute ==
      if Head(s) == Eggplant && !s.notHarvest then Fires(s) && Cmd(s) == 5 else s.notExecute
  {
    if Fires(s) {
      VisitFired(s);
      ExecuteFlags(Harvested(s), Cmd(s));
    }
  }

  /**
   * The head moves by exactly the direction in force after the visit, which
   * is the old one turned by command 1 or 2 and otherwise unchanged.
   */
  lemma StepMoves(s: State)
    requires WellFormed(s) && Running(s)
    ensures (Step(s).dr, Step(s).dc) ==
      if Fires(s) && Cmd(s) == 1 then TurnLeft((s.dr, s.dc))
      else if Fires(s) && Cmd(s) == 2 then TurnRight((s.dr, s.dc))
      else (s.dr, s.dc)
    ensures Step(s).r == s.r + Step(s).dr && Step(s).c == s.c + Step(s).dc
    ensures UnitAxis(Step(s).dr, Step(s).dc)
  {
    if Fires(s) {
      VisitFired(s);
      ExecuteDirection(Harvested(s), Cmd(s));
    } else {
      VisitQuiet(s);
    }
  }

  /**
   * A bit is appended to the output only by command 0 with the cell ahead on
   * the grid, and it is 1 exactly when that cell is planted.
   */
  lemma StepSent(s: State)
    requires WellFormed(s) && Running(s)
    ensures Step(s).sent ==
      if Fires(s) && Cmd(s) == 0 && InBounds(s.rows, s.cols, s.r + s.dr, s.c + s.dc)
      then s.sent + [CellAt(s.grid, s.rows, s.cols, s.r + s.dr, s.c + s.dc) == Eggplant]
      else s.sent
  {
    if Fires(s) {
      VisitFired(s);
      ExecuteSent(Harvested(s), Cmd(s));
      if Cmd(s) == 0 && InBounds(s.rows, s.cols, s.r + s.dr, s.c + s.dc) {
        AheadUnharvested(s);
      }
    } else {
      VisitQuiet(s);
    }
  }

  /**
   * The input is touched only by command 6. At end of input nothing changes,
   * so the next command 6 tries to read again; otherwise the bit counter
   * advances, and a byte is consumed only when the counter stood at 8.
   */
  lemma StepInput(s: State)
    requires WellFormed(s) && Running(s)
    ensures (Step(s).inCnt, Step(s).inPos, Step(s).inBuf) ==
      if Fires(s) && Cmd(s) == 6 && !AtEof(s) then
        (s.inCnt + 1,
         if s.inCnt == 8 then s.inPos + 1 else s.inPos,
         (if s.inCnt == 8 then s.input[s.inPos] as int else s.inBuf) / 2)
      else (s.inCnt, s.inPos, s.inBuf)
  {
    if Fires(s) {
      VisitFired(s);
      ExecuteInput(Harvested(s), Cmd(s));
    } else {
      VisitQuiet(s);
    }
  }

  // ---------------------------------------------------------------- invariants

  /**
   * The output buffer invariant: the output holds one byte per 8 appended
   * bits, each byte packs its 8 bits most significant first, and the low
   * bits of the buffer hold the bits appended since the last byte.
   */
  ghost predicate OutputInv(s: State)
  {
    OutputOk(s.outBuf, s.outCnt, s.output, s.sent)
  }

  /** The 8 appended bits that make up output byte `i`. */
  function ByteBits(sent: seq<bool>, i: nat): (bits: seq<bool>)
    requires 8 * i + 8 <= |sent|
    ensures |bits| == 8
  {
    sent[8 * i..8 * i + 8]
  }

  ghost predicate OutputOk(outBuf: int, outCnt: nat, output: seq<Byte>, sent: seq<bool>)
  {
    |sent| == 8 * |output| + outCnt &&
    (forall i {:trigger ByteBits(sent, i)} :: 0 <= i < |output| ==> output[i] == PackMsb(ByteBits(sent, i))) &&
    0 <= outBuf && LowBits(outBuf, outCnt) == PackMsb(sent[8 * |output|..])
  }

  /**
   * The input buffer invariant: the bit counter starts at 8 and only grows
   * (it is unbounded here), so at most the first input byte is ever read; once it is, the buffer is
   * that byte shifted right by the number of bits taken.
   */
  ghost predicate InputInv(s: State)
  {
    InputOk(s.inBuf, s.inCnt, s.input, s.inPos)
  }

  ghost predicate InputOk(inBuf: int, inCnt: nat, input: seq<Byte>, inPos: nat)
  {
    inCnt >= 8 && inPos <= 1 && inPos <= |input| &&
    (inPos == 0 <==> inCnt == 8) &&
    (inPos == 1 ==> inBuf == Shr(input[0] as int, inCnt - 8))
  }

  ghost predicate Inv(s: State)
  {
    WellFormed(s) && OutputInv(s) && InputInv(s)
  }

  lemma PackMsbSnoc(bits: seq<bool>, b: bool)
    ensures PackMsb(bits + [b]) == 2 * PackMsb(bits) + (if b then 1 else 0)
  {
    assert (bits + [b])[..|bits|] == bits;
  }

  /** The low bits of the shifted buffer pack the pending bits followed by the new one. */
  lemma PushBitPending(s: State, v: nat)
    requires WellFormed(s) && OutputInv(s) && v <= 1
    ensures var n := |s.output|;
      |s.sent[8 * n..]| == s.outCnt &&
      LowBits((s.outBuf * 2 + v) % 256, s.outCnt + 1) == PackMsb(s.sent[8 * n..] + [v == 1])
  {
    ShiftIn(s.outBuf, v, s.outCnt);
    PackMsbSnoc(s.sent[8 * |s.output|..], v == 1);
  }

  /** Appending a bit leaves the bits of the complete bytes where they were. */
  lemma SentBytesKept(sent: seq<bool>, b: bool, n: nat)
    requires 8 * n <= |sent|
    ensures forall i :: 0 <= i < n ==> ByteBits(sent + [b], i) == ByteBits(sent, i)
  {
    forall i | 0 <= i < n
      ensures ByteBits(sent + [b], i) == ByteBits(sent, i)
    {
      assert 8 * i + 8 <= 8 * n;
    }
  }

  /** The eighth pending bit completes a byte: it is written out and the pending bits start again. */
  lemma PushBitCompletes(s: State, v: nat)
    requires WellFormed(s) && OutputInv(s) && v <= 1 && s.outCnt == 7
    ensures OutputInv(PushBit(s, v))
  {
    var t := PushBit(s, v);
    var n := |s.output|;
    var buf := (s.outBuf * 2 + v) % 256;
    var bits := s.sent[8 * n..] + [v == 1];
    PushBitPending(s, v);
    SentBytesKept(s.sent, v == 1, n);
    assert Pow2(8) == 256;
    LowBitsOfSmall(buf, 8);
    assert ByteBits(t.sent, n) == bits;
    assert t.sent[8 * (n + 1)..] == [];
  }

  /** A pending bit short of the eighth joins the pending bits. */
  lemma PushBitPends(s: State, v: nat)
    requires WellFormed(s) && OutputInv(s) && v <= 1 && s.outCnt < 7
    ensures OutputInv(PushBit(s, v))
  {
    var t := PushBit(s, v);
    var n := |s.output|;
    PushBitPending(s, v);
    SentBytesKept(s.sent, v == 1, n);
    assert t.sent[8 * n..] == s.sent[8 * n..] + [v == 1];
  }

  /** Appending a bit keeps the output buffer invariant. */
  lemma PushBitKeepsOutput(s: State, v: nat)
    requires WellFormed(s) && OutputInv(s) && v <= 1
    ensures OutputInv(PushBit(s, v))
  {
    if s.outCnt == 7 {
      PushBitCompletes(s, v);
    } else {
      PushBitPends(s, v);
    }
  }

  /** Taking an input bit keeps the input buffer invariant. */
  lemma ReadBitKeepsInput(s: State)
    requires WellFormed(s) && Running(s) && InputInv(s)
    ensures InputInv(ReadBit(s))
  {
    if !AtEof(s) {
      if s.inCnt > 8 {
        ShiftOut(s.input[0] as int, s.inCnt - 8);
      }
    }
  }

  /**
   * The bit command 6 takes is bit number inCnt - 8 of the first input byte,
   * least significant first, and every bit after the eighth is 0.
   */
  lemma InputBitOfFirstByte(s: State)
    requires WellFormed(s) && Running(s) && InputInv(s) && !AtEof(s)
    ensures |s.input| >= 1
    ensures NextBitIsOne(s) <==> Bit(s.input[0] as int, s.inCnt - 8) == 1
    ensures s.inCnt >= 16 ==> !NextBitIsOne(s)
  {
    if s.inCnt >= 16 {
      BitBeyondByte(s.input[0] as int, s.inCnt - 8);
    }
  }

  /** Appending a bit keeps both buffer invariants. */
  lemma PushBitKeepsInv(s: State, v: nat)
    requires Inv(s) && v <= 1
    ensures Inv(PushBit(s, v))
  {
    PushBitKeepsOutput(s, v);
  }

  /** Command 0 keeps both buffer invariants. */
  lemma EmitKeepsInv(s: State)
    requires Inv(s)
    ensures Inv(Emit(s))
  {
    if InBounds(s.rows, s.cols, s.r + s.dr, s.c + s.dc) {
      var v := Value(CellAt(s.grid, s.rows, s.cols, s.r + s.dr, s.c + s.dc));
      PushBitKeepsInv(s, v);
      assert Emit(s) == PushBit(s, v);
    } else {
      assert Emit(s) == s;
    }
  }

  /** The invariants depend on the buffers alone. */
  lemma InvFrame(s: State, t: State)
    requires Inv(s) && WellFormed(t) && SameOutput(s, t) && SameInput(s, t)
    ensures Inv(t)
  {
  }

  /** Command 6 keeps both buffer invariants. */
  lemma ReadBitKeepsInv(s: State)
    requires Inv(s) && Running(s)
    ensures Inv(ReadBit(s))
  {
    ReadBitKeepsInput(s);
    assert SameOutput(s, ReadBit(s));
  }

  /** Commands 1 to 5 touch neither buffer. */
  lemma SettingBuffers(s: State, x: nat)
    requires WellFormed(s) && Running(s) && 1 <= x <= 5
    ensures SameOutput(s, Execute(s, x)) && SameInput(s, Execute(s, x))
  {
  }

  lemma SettingKeepsInv(s: State, x: nat)
    requires Inv(s) && Running(s) && 1 <= x <= 5
    ensures Inv(Execute(s, x))
  {
    SettingBuffers(s, x);
    InvFrame(s, Execute(s, x));
  }

  /** Every command keeps both buffer invariants. */
  lemma ExecuteKeepsInv(s: State, x: nat)
    requires Inv(s) && Running(s) && x < 7
    ensures Inv(Execute(s, x))
  {
    if x == 0 {
      EmitKeepsInv(s);
    } else if x == 6 {
      ReadBitKeepsInv(s);
    } else {
      SettingKeepsInv(s, x);
    }
  }

  /** Every visit keeps both buffer invariants. */
  lemma VisitKeepsInv(s: State)
    requires Inv(s) && Running(s)
    ensures Inv(Visit(s))
  {
    if Fires(s) {
      VisitFired(s);
      InvFrame(s, Harvested(s));
      ExecuteKeepsInv(Harvested(s), Cmd(s));
    } else {
      VisitQuiet(s);
      InvFrame(s, Visit(s));
    }
  }

  /** Every step keeps both buffer invariants. */
  lemma StepKeepsInv(s: State)
    requires Inv(s) && Running(s)
    ensures Inv(Step(s))
  {
    VisitKeepsInv(s);
  }

  /** The loop starts with both invariants holding. */
  lemma InitialInv(grid: seq<Field>, rows: nat, cols: nat, input: seq<Byte>)
    requires |grid| == Times(rows, cols)
    ensures Inv(Initial(grid, rows, cols, input))
  {
  }

  /** Both invariants hold after any number of steps. */
  lemma {:induction false} RunKeepsInv(s: State, fuel: nat)
    requires Inv(s)
    ensures Inv(Run(s, fuel))
    decreases fuel
  {
    if fuel > 0 && Running(s) {
      StepKeepsInv(s);
      RunKeepsInv(Step(s), fuel - 1);
    }
  }

  /**
   * What a run writes: floor(bits / 8) whole bytes, each made of the 8 bits
   * appended since the previous byte, first bit most significant; the last
   * bits / 8 * 8 .. bits bits are never written. At most one input byte is read.
   */
  lemma RunOutput(grid: seq<Field>, rows: nat, cols: nat, input: seq<Byte>, fuel: nat)
    requires |grid| == Times(rows, cols)
    ensures var t := Run(Initial(grid, rows, cols, input), fuel);
      |t.output| == |t.sent| / 8 &&
      (forall i :: 0 <= i < |t.output| ==> UnpackMsb(t.output[i], 8) == t.sent[8 * i..8 * i + 8]) &&
      t.inPos <= 1
  {
    InitialInv(grid, rows, cols, input);
    var t := Run(Initial(grid, rows, cols, input), fuel);
    RunKeepsInv(Initial(grid, rows, cols, input), fuel);
    forall i | 0 <= i < |t.output|
      ensures UnpackMsb(t.output[i], 8) == t.sent[8 * i..8 * i + 8]
    {
      UnpackPack(ByteBits(t.sent, i));
    }
  }

  /**
   * A 1x1 grid holding one planted cell: the head harvests it, decodes
   * command 0, finds the cell ahead off the grid, appends nothing and steps
   * off the grid; the run ends with no output.
   */
  lemma SinglePlantedCell(input: seq<Byte>, fuel: nat)
    requires fuel >= 1
    ensures var t := Run(Initial([Eggplant], 1, 1, input), fuel);
      !Running(t) && t.output == [] && t.sent == [] && t.grid == [Empty]
  {
    var s := Initial([Eggplant], 1, 1, input);
    CommandSingleCell([Empty]);
    assert HeadIndex(s) == 0;
    var h := s.(grid := [Empty]);
    assert s.grid[0 := Empty] == [Empty];
    assert Visit(s) == Emit(h) == h;
    assert Step(s) == h.(c := 1);
  }
}
