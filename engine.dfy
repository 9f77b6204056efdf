/**
 * The interpreter as the program runs it: a grid array and a set of
 * registers updated in place, one loop iteration at a time. Every method is
 * proved to do to the registers and the grid exactly what the corresponding
 * function of `Semantics` does to a `State`, so the properties proved about
 * those functions hold of the running interpreter.
 */
module Engine {
  import opened Fields
  import opened Arith
  import opened Semantics
  import opened Builder
  import opened Properties

  class Interpreter {
    const rows: nat
    const cols: nat
    /** The grid, row-major: cell (r, c) at index r * cols + c. */
    const area: array<Field>
    /** The bytes the program's standard input will deliver. */
    const input: seq<Byte>
    /** The head and its direction; a step off the top or left edge gives -1 where the program's unsigned arithmetic wraps. */
    var r: int
    var c: int
    var dr: int
    var dc: int
    var notPlace: bool
    var notHarvest: bool
    var notExecute: bool
    /** The output bit buffer, its bit count, and the bytes written so far. */
    var outBuf: int
    var outCnt: nat
    var output: seq<Byte>
    /** Every bit shifted into the output buffer, in order. */
    ghost var sent: seq<bool>
    /** The input bit buffer, its bit counter, and how many input bytes have been read. */
    var inBuf: int
    var inCnt: nat
    var inPos: nat

    /** The registers and the grid as a `State`. */
    ghost function Snapshot(): State
      reads this, area
    {
      State(area[..], rows, cols, r, c, dr, dc, notPlace, notHarvest, notExecute,
            outBuf, outCnt, output, sent, inBuf, inCnt, input, inPos)
    }

    ghost predicate Valid()
      reads this, area
    {
      area.Length == Times(rows, cols) && WellFormed(Snapshot())
    }

    /** The loop's starting registers over a grid the builder produced. */
    constructor (rows: nat, cols: nat, area: array<Field>, input: seq<Byte>)
      requires area.Length == Times(rows, cols)
      ensures Valid() && this.area == area
      ensures Snapshot() == Initial(old(area[..]), rows, cols, input)
    {
      this.rows, this.cols, this.area, this.input := rows, cols, area, input;
      r, c, dr, dc := 0, 0, 0, 1;
      notPlace, notHarvest, notExecute := false, false, false;
      outBuf, outCnt, output, sent := 0, 0, [], [];
      inBuf, inCnt, inPos := 0, 8, 0;
    }

    /** The row-major index of an in-bounds cell. */
    method Index(i: int, j: int) returns (p: nat)
      requires area.Length == Times(rows, cols) && InBounds(rows, cols, i, j)
      ensures p == Times(i, cols) + j && p < area.Length
    {
      TimesIsProduct(i, cols);
      CellIndexBounds(rows, cols, i, j);
      p := i * cols + j;
    }

    /**
     * The command under the head: the eight neighbours' values weighted
     * 1, 2, 4, 1, 2, 4, 1, 2 in row-then-column order, summed modulo 7.
     */
    method Decode() returns (x: int)
      requires Valid() && Running(Snapshot())
      ensures x == Command(area[..], rows, cols, r, c)
    {
      var mul := 1;
      x := 0;
      ghost var k := 0;
      for i := -1 to 2
        invariant k == Slot(i, -1)
        invariant mul == Weight(k) && x == PartialSum(area[..], rows, cols, r, c, k) % 7
      {
        for j := -1 to 2
          invariant k == Slot(i, j)
          invariant mul == Weight(k) && x == PartialSum(area[..], rows, cols, r, c, k) % 7
        {
          if i == 0 && j == 0 {
            continue;
          }
          SlotNeighbour(i, j);
          x := AddNeighbour(i, j, x, mul, k);
          mul := mul * 2 % 7;
          k := k + 1;
        }
      }
    }

    /** The inner loop's body for neighbour (i, j), the k-th in decode order: add its weighted value if it is on the grid. */
    method AddNeighbour(i: int, j: int, x: int, mul: int, ghost k: nat) returns (x': int)
      requires Valid() && Running(Snapshot()) && k < 8 && Neighbours[k] == (i, j)
      requires x == PartialSum(area[..], rows, cols, r, c, k) % 7 && mul == Weight(k)
      ensures x' == PartialSum(area[..], rows, cols, r, c, k + 1) % 7
    {
      var nr, nc := r + i, c + j;
      if 0 <= nr < rows && 0 <= nc < cols {
        var p := Index(nr, nc);
        var v := Value(area[p]);
        ValueAtIndex(area[..], rows, cols, nr, nc, p);
        DecodeStep(area[..], rows, cols, r, c, k, i, j, x, mul, v);
        x' := (x + mul * v) % 7;
      } else {
        DecodeStep(area[..], rows, cols, r, c, k, i, j, x, mul, 0);
        x' := x;
      }
    }

    /** Command 0: shift the value of the cell ahead into the output buffer, if that cell is on the grid. */
    method Emit()
      requires Valid()
      modifies this
      ensures Valid()
      ensures Snapshot() == Semantics.Emit(old(Snapshot()))
    {
      var sr, sc := r + dr, c + dc;
      if 0 <= sr < rows && 0 <= sc < cols {
        var p := Index(sr, sc);
        ValueAtIndex(area[..], rows, cols, sr, sc, p);
        PushBit(Value(area[p]));
      }
    }

    /** Shift bit `v` into the output buffer; at the eighth bit, write the byte out and restart the count. */
    method PushBit(v: nat)
      requires Valid() && v <= 1
      modifies this
      ensures Valid()
      ensures Snapshot() == Semantics.PushBit(old(Snapshot()), v)
    {
      outBuf := (outBuf * 2 + v) % 256;
      outCnt := outCnt + 1;
      sent := sent + [v == 1];
      if outCnt == 8 {
        output := output + [outBuf];
        outCnt := 0;
      }
    }

    /**
     * Command 6: at a bit count of 8 read a fresh byte, or give up at end of
     * input; then plant the head if the low bit is 1 and shift it out.
     */
    method ReadBit()
      requires Valid() && Running(Snapshot())
      modifies this, area
      ensures Valid()
      ensures Snapshot() == Semantics.ReadBit(old(Snapshot()))
    {
      var read := true;
      if inCnt == 8 {
        if inPos < |input| {
          inBuf := input[inPos];
          inPos := inPos + 1;
        } else {
          read := false;
        }
      }
      if read {
        if inBuf % 2 == 1 {
          var p := Index(r, c);
          area[p] := Eggplant;
        }
        inBuf := inBuf / 2;
        inCnt := inCnt + 1;
      }
    }

    /** Execute command `x`. */
    method Execute(x: nat)
      requires Valid() && Running(Snapshot()) && x < 7
      modifies this, area
      ensures Valid()
      ensures Snapshot() == Semantics.Execute(old(Snapshot()), x)
    {
      if x == 0 {
        Emit();
      } else if x == 1 {
        dr, dc := -dc, dr;
      } else if x == 2 {
        dr, dc := dc, -dr;
      } else if x == 3 {
        notPlace := true;
      } else if x == 4 {
        notHarvest := true;
      } else if x == 5 {
        notExecute := true;
      } else {
        ReadBit();
      }
    }

    /** The body of the step loop up to the move: plant, harvest and execute at the head. */
    method Visit()
      requires Valid() && Running(Snapshot())
      modifies this, area
      ensures Valid()
      ensures Snapshot() == Semantics.Visit(old(Snapshot()))
    {
      var p := Index(r, c);
      match area[p]
      case Empty =>
        if notPlace {
          notPlace := false;
        } else {
          area[p] := Eggplant;
        }
      case Eggplant =>
        if notHarvest {
          notHarvest := false;
        } else {
          area[p] := Empty;
          if notExecute {
            notExecute := false;
          } else {
            var x := Decode();
            Execute(x);
          }
        }
      case Ignore =>
    }

    /** One iteration of the step loop. */
    method Step()
      requires Valid() && Running(Snapshot())
      modifies this, area
      ensures Valid()
      ensures Snapshot() == Semantics.Step(old(Snapshot()))
    {
      Visit();
      r := r + dr;
      c := c + dc;
    }

    /** The step loop, cut off after `fuel` iterations; `halted` says whether the head left the grid. */
    method Run(fuel: nat) returns (halted: bool)
      requires Valid()
      modifies this, area
      ensures Valid()
      ensures Snapshot() == Semantics.Run(old(Snapshot()), fuel)
      ensures halted == !Running(Snapshot())
    {
      var left: nat := fuel;
      while left > 0 && 0 <= r < rows && 0 <= c < cols
        invariant Valid() && left <= fuel
        invariant Semantics.Run(Snapshot(), left) == Semantics.Run(old(Snapshot()), fuel)
        decreases left
      {
        RunUnfold(Snapshot(), left);
        Step();
        left := left - 1;
      }
      halted := !(0 <= r < rows && 0 <= c < cols);
    }
  }

  /** The state in which the step loop starts on the grid built from `source`, with `input` to read. */
  ghost function Start(source: seq<char>, input: seq<Byte>): (s: State)
    ensures Inv(s) && s.rows == |Lines(source)| && s.cols == MaxWidth(Lines(source))
    ensures s == Initial(s.grid, s.rows, s.cols, input) && s.grid == Layout(Lines(source), s.cols)
  {
    var ls := Lines(source);
    var cols := MaxWidth(ls);
    TimesIsProduct(|ls|, cols);
    InitialInv(Layout(ls, cols), |ls|, cols, input);
    Initial(Layout(ls, cols), |ls|, cols, input)
  }

  /**
   * The whole interpreter: build the grid from `source`, then run the step
   * loop for at most `fuel` iterations. `output` is what was written;
   * `halted` says whether the head left the grid within the budget.
   */
  method Interpret(source: seq<char>, input: seq<Byte>, fuel: nat) returns (output: seq<Byte>, halted: bool)
    ensures var t := Semantics.Run(Start(source, input), fuel);
      output == t.output && halted == !Running(t)
    ensures var t := Semantics.Run(Start(source, input), fuel);
      |output| == |t.sent| / 8 &&
      forall i :: 0 <= i < |output| ==> UnpackMsb(output[i], 8) == t.sent[8 * i..8 * i + 8]
  {
    var rows, cols, area := Build(source);
    TimesIsProduct(rows, cols);
    var m := new Interpreter(rows, cols, area, input);
    halted := m.Run(fuel);
    output := m.output;
    RunOutput(Start(source, input).grid, rows, cols, input, fuel);
  }

  /** The position of neighbour (i, j) in decode order; also where the scan stands before visiting it. */
  function Slot(i: int, j: int): int
  {
    3 * (i + 1) + (j + 1) - (if i > 0 || (i == 0 && j > 0) then 1 else 0)
  }

  lemma SlotNeighbour(i: int, j: int)
    requires -1 <= i <= 1 && -1 <= j <= 1 && (i, j) != (0, 0)
    ensures 0 <= Slot(i, j) < 8 && Neighbours[Slot(i, j)] == (i, j)
  {
  }

  /** One more neighbour in the scan: the weight doubles modulo 7 and the sum modulo 7 takes in the weighted value. */
  lemma DecodeStep(g: seq<Field>, rows: nat, cols: nat, r: int, c: int, k: nat, i: int, j: int,
                   x: int, mul: int, v: int)
    requires |g| == Times(rows, cols) && k < 8 && Neighbours[k] == (i, j)
    requires x == PartialSum(g, rows, cols, r, c, k) % 7 && mul == Weight(k) && v == ValueAt(g, rows, cols, r + i, c + j)
    ensures mul * 2 % 7 == Weight(k + 1)
    ensures 0 <= (x + mul * v) % 7 == PartialSum(g, rows, cols, r, c, k + 1) % 7
    ensures v == 0 ==> x == PartialSum(g, rows, cols, r, c, k + 1) % 7
  {
    ModAdd(PartialSum(g, rows, cols, r, c, k), mul * v, 7);
  }

  /** The value of an in-bounds cell is the value stored at its row-major index. */
  lemma ValueAtIndex(g: seq<Field>, rows: nat, cols: nat, i: int, j: int, p: nat)
    requires |g| == Times(rows, cols) && InBounds(rows, cols, i, j) && p == Times(i, cols) + j
    ensures p < |g| && ValueAt(g, rows, cols, i, j) == Value(g[p])
  {
    CellIndexBounds(rows, cols, i, j);
  }

  /** A run of `n > 0` steps from a running state is one step followed by `n - 1` more. */
  lemma RunUnfold(s: State, n: nat)
    requires WellFormed(s) && Running(s) && n > 0
    ensures Semantics.Run(s, n) == Semantics.Run(Semantics.Step(s), n - 1)
  {
  }
}
