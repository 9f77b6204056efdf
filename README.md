# Gaji interpreter, modelled in Dafny

Gaji is an esoteric two-dimensional language. A program is text. Two marker
characters matter: U+1F346 EGGPLANT marks a planted cell and U+1F331 SEEDLING
marks an open cell. Every other character is an inert cell. The interpreter
has two parts, and this project models both.

* **The grid builder.** It makes two passes over the program text.
  * The first pass counts the lines. It sets the width to the widest line,
    where a line's width ends at its last marker.
  * The second pass writes each marker into a row-major array. Every other
    cell stays inert.
* **The execution engine.** A head starts at the top-left cell facing right.
  Each iteration of the step loop visits the head cell, then moves the head
  one step in its direction. The loop stops once the head leaves the grid.
  * An open cell is planted.
  * A planted cell is harvested. The command it fires is decoded from its
    eight neighbours: their values are weighted 1, 2, 4, 1, 2, 4, 1, 2 in
    row-then-column order, summed and reduced modulo 7.
  * Command 0 shifts the value of the cell ahead into the output byte,
    most significant bit first.
  * Commands 1 and 2 turn the head left and right.
  * Commands 3, 4 and 5 cancel the next plant, the next harvest and the next
    command execution.
  * Command 6 takes an input bit, least significant first, and plants the
    head cell when that bit is 1.

The project is made of these modules:

* `Fields` (`fields.dfy`): the cell kinds and their values.
* `Builder` (`builder.dfy`): the builder.
  * A specification: `Lines`, `Width`, `MaxWidth` and `Layout`.
  * The methods `Dimensions`, `Fill`, `Place` and `Build`, which work in
    place on an `array<Field>` and are proved to produce `Layout`.
* `Semantics` (`semantics.dfy`): the engine as a function `Step` on a
  `State` value. `Run` is that function iterated under a step budget.
* `Properties` (`properties.dfy`): what the engine guarantees.
  * The decode weights.
  * The effect of one step on the grid, the flags, the direction and both
    bit buffers.
  * The output and input buffer invariants along every run.
* `Engine` (`engine.dfy`): the engine as the program runs it.
  * A class `Interpreter` holds the grid array and the registers.
  * Each of its methods is proved to do exactly what a `Semantics` function
    does to the state: `Decode` returns `Semantics.Command` at the head, and
    `PushBit`, `Emit`, `ReadBit`, `Execute`, `Visit`, `Step` and `Run` match
    `Semantics.PushBit`, `Semantics.Emit`, `Semantics.ReadBit`,
    `Semantics.Execute`, `Semantics.Visit`, `Semantics.Step` and
    `Semantics.Run`.
  * `Interpret` chains the builder and the engine.
* `Arith` (`arith.dfy`): arithmetic helpers.
  * `Times` is a recursive product, which keeps the solver away from
    nonlinear arithmetic.
  * There are also bit extraction and most-significant-bit-first packing.

Unsigned wrap-around in the program is modelled with integer coordinates.
Moving left from column 0 gives column -1, which fails the explicit check
`0 <= c < cols`. That check stands in for the unsigned comparison
`c < col` after a wrapping add. The `u8` output shift is `(buf * 2 + bit) % 256`.

## Model

| member | source | states |
|---|---|---|
| Fields.FieldOf | src/main.rs:46-62 | The planted marker gives a planted cell and the open marker gives an open cell, each if and only if. Every other character gives an inert cell. |
| Fields.IsMarker | src/main.rs:38 | A character is a marker exactly when it is the planted or the open marker, the test the first pass uses to find a line's last marker. |
| Fields.Value | src/main.rs:198-205 | A cell's value is at most 1. It is 1 exactly for a planted cell. |
| Builder.Split | src/main.rs:33 | The text splits into one segment per newline, plus one more. No segment contains a newline. The last segment is empty exactly when the text is empty or ends in a newline. |
| Builder.SplitJoin | src/main.rs:33 | Splitting loses nothing: joining the segments with newlines gives the text back. |
| Builder.LineCount | src/main.rs:33-34 | The row count is the number of newlines, plus one when the text ends in an unterminated line. Each line is the matching segment. |
| Builder.Lines | src/main.rs:33 | The lines of the text as `str::lines` yields them: the newline-separated segments, without an empty segment after a final newline. Its count and contents are stated by `Builder.LineCount`. |
| Builder.Width | src/main.rs:35-40 | A line's width is at most its length. A non-zero width ends on a marker, and no marker comes after it. |
| Builder.MaxWidth | src/main.rs:32-41 | No line is wider than the column count. A non-zero column count is the width of some line. |
| Builder.MaxWidthStep | src/main.rs:35-40 | Taking one more line into account replaces the running maximum by that line's width when it is wider. |
| Builder.Layout | src/main.rs:42 | The grid has exactly rows * cols cells. |
| Builder.LayoutAt | src/main.rs:42-64 | Cell (i, j) of the grid is the cell the character at line i, column j denotes. It is inert past the end of the line, so only markers make non-inert cells. |
| Builder.MarkersPlaced | src/main.rs:45-54 | Every marker's column is below the column count. Its row-major index lies inside the grid, and its cell holds what the marker denotes. |
| Builder.SplitPrefix | src/main.rs:45 | The segments of a prefix of the text are a prefix of the text's segments. |
| Builder.MarkerFits | src/main.rs:45-58 | When the second pass meets a marker, the row cursor is a line of the text and the column cursor is below the column count. The write never leaves the array. |
| Builder.SplitStep | src/main.rs:45-63 | One more character either starts a new segment (a newline) or extends the last segment. |
| Builder.FillStart | src/main.rs:42-44 | The all-inert array agrees with the empty text. |
| Builder.FillMarker | src/main.rs:47-54 | Writing a marker under the cursor keeps the array in agreement with the text read so far, and the write is inside the array. |
| Builder.FillNewline | src/main.rs:55-58 | A newline moves the cursor to a new row without changing the array. |
| Builder.FillSkip | src/main.rs:59-62 | A character that is not a marker moves the cursor without changing the array. |
| Builder.FilledLayout | src/main.rs:45-64 | An array in agreement with the whole text is the layout of its lines. |
| Builder.Dimensions | src/main.rs:31-41 | The first pass returns the number of lines and the widest line width. |
| Builder.Put | src/main.rs:47-53 | Writing cell (r, c) changes exactly array index r * cols + c, which lies inside the array. |
| Builder.Place | src/main.rs:46-63 | One character of the second pass moves the cursor to the end of the text read so far. The array agrees with that text. |
| Builder.Fill | src/main.rs:43-64 | The second pass over an all-inert array leaves exactly the layout of the text's lines. |
| Builder.Build | src/main.rs:31-64 | The builder returns a fresh array of rows * cols cells. Rows and cols are the line count and the widest width, and the contents are the layout. |
| Semantics.Initial | src/main.rs:70-80 | The loop's starting registers: head at (0, 0) facing (0, 1), all three flags clear, empty output buffer with count 0, input bit counter 8 with nothing read. |
| Semantics.InBounds | src/main.rs:81 | A position is on the grid exactly when 0 <= r < rows and 0 <= c < cols. This is the unsigned test `r < row && c < col` after a wrapping add, also used at src/main.rs:106 and 116. |
| Semantics.Running | src/main.rs:81 | The loop guard: the step loop continues exactly while the head is on the grid. |
| Semantics.CellAt | src/main.rs:107 | The cell at an in-bounds position (r, c): the array element at row-major index r * cols + c, as read by `area[nr * col + nc]` at src/main.rs:107 and `area[sr * col + sc]` at src/main.rs:118. `Engine.ValueAtIndex` ties it to the array index. |
| Semantics.ValueAt | src/main.rs:104-107 | A neighbour's value is at most 1. |
| Semantics.HeadIndex | src/main.rs:82 | The head's row-major index lies inside the grid. |
| Semantics.Head | src/main.rs:82 | The head cell `area[r * col + c]` that the visit's match inspects, at the index `Semantics.HeadIndex` shows lies inside the grid. |
| Semantics.Weight | src/main.rs:97-109 | Every weight lies between 1 and 6. |
| Semantics.PartialSum | src/main.rs:97-111 | The weighted values of the first k neighbours in decode order. An off-grid neighbour adds 0 but still takes its weight. `Engine.Interpreter.Decode` and `Engine.DecodeStep` relate it to the loop. |
| Semantics.Command | src/main.rs:97-112 | The decoded command is below 7, so the unreachable arm at src/main.rs:161 is never taken. |
| Semantics.TurnLeft | src/main.rs:128-130 | Command 1 maps (dr, dc) to (-dc, dr). `Properties.TurnsInverse`, `Properties.FourTurns` and `Properties.TurnsKeepAxis` state its properties. |
| Semantics.TurnRight | src/main.rs:131-133 | Command 2 maps (dr, dc) to (dc, -dr). The same lemmas state its properties. |
| Semantics.AtEof | src/main.rs:145-151 | Command 6 finds no bit exactly when the bit counter is 8 and no input byte is left. |
| Semantics.PushBit | src/main.rs:117-125 | Shifting in a bit keeps the buffer a byte and the count below 8. The grid size, the head and the input are untouched. |
| Semantics.Emit | src/main.rs:113-127 | Command 0 keeps the state well formed. The grid size, the head and the input are untouched. |
| Semantics.ReadBit | src/main.rs:143-160 | Command 6 keeps the state well formed. The grid's size, the head and the input are untouched. |
| Semantics.Execute | src/main.rs:112-162 | Every command keeps the state well formed: byte buffers, output count below 8, and a unit direction along an axis. |
| Semantics.Visit | src/main.rs:82-166 | A visit keeps the state well formed and does not move the head. |
| Semantics.Step | src/main.rs:81-169 | A step keeps the state well formed. |
| Semantics.Run | src/main.rs:81-170 | At most `fuel` iterations of `Semantics.Step`, stopping as soon as the head is off the grid. `Properties.RunKeepsInv` and `Properties.RunOutput` state what holds of its result. |
| Properties.WeightCycle | src/main.rs:97-109 | The k-th weight is 1, 2 or 4 according to k mod 3. |
| Properties.DecodeWeights | src/main.rs:97-111 | The eight weights in decode order are 1, 2, 4, 1, 2, 4, 1, 2. |
| Properties.PartialSumLocal | src/main.rs:99-111 | Partial sums depend only on the values of the eight neighbours. |
| Properties.CommandLocal | src/main.rs:97-111 | Two grids that agree on the neighbours' values decode the same command. |
| Properties.NeighbourNotCentre | src/main.rs:99-103 | Each of the eight offsets is a unit offset other than (0, 0). |
| Properties.CommandIgnoresHead | src/main.rs:93-111 | Changing the head cell, as the harvest before the decode does, does not change the decoded command. |
| Properties.PartialSumOffGrid | src/main.rs:104-108 | When every neighbour is off the grid, the sum is 0. |
| Properties.CommandSingleCell | src/main.rs:97-111 | On a 1x1 grid the decoded command is always 0. |
| Properties.TurnsInverse | src/main.rs:128-133 | A left turn and a right turn undo each other. |
| Properties.FourTurns | src/main.rs:128-133 | Four turns the same way give back the original direction. |
| Properties.TurnsKeepAxis | src/main.rs:128-133 | Turning a unit axis direction gives a unit axis direction. |
| Properties.LeftTurnsFromStart | src/main.rs:72-73 | From the initial direction (0, 1), left turns face (-1, 0), (0, -1), (1, 0) and then (0, 1) again. |
| Properties.Cmd | src/main.rs:97-111 | The command a firing step executes is below 7. |
| Properties.Harvested | src/main.rs:92-93 | Emptying the head keeps the state well formed and keeps the head where it is. |
| Properties.Fires | src/main.rs:89-96 | A visit executes a command exactly when the head is planted and neither harvest nor execute suppression is pending. |
| Properties.NextBitIsOne | src/main.rs:144-154 | Command 6 plants the head exactly when a bit is available and it is 1. The bit is the low bit of the next input byte at counter 8, and the low bit of the buffer otherwise. |
| Properties.VisitFired | src/main.rs:92-111 | An unsuppressed harvest with execution allowed executes the command decoded from the grid before the harvest, on the harvested state. |
| Properties.VisitQuiet | src/main.rs:82-96 | A visit that fires no command changes neither bit buffer nor the direction. |
| Properties.AheadUnharvested | src/main.rs:114-118 | Emptying the head does not change the cell ahead of it. |
| Properties.ExecuteGrid | src/main.rs:112-162 | Only command 6 changes the grid. It plants the head exactly when the next input bit is 1. |
| Properties.ExecuteFlags | src/main.rs:134-142 | Commands 3, 4 and 5 set their own flags. No command clears a flag. |
| Properties.ExecuteDirection | src/main.rs:128-133 | Commands 1 and 2 turn left and right. No other command changes the direction. |
| Properties.ExecuteSent | src/main.rs:113-127 | Only command 0 appends an output bit, and only when the cell ahead is on the grid. The bit is 1 exactly when that cell is planted. |
| Properties.ExecuteInput | src/main.rs:143-160 | Only command 6 takes an input bit. At end of input nothing changes. Otherwise the counter advances, and a byte is consumed only when the counter stood at 8. |
| Properties.StepGrid | src/main.rs:82-96 | A step changes at most the head cell, and an inert head not at all. An open head is planted unless suppressed. A planted head is emptied unless suppressed, and is replanted only by command 6 reading a 1 bit. |
| Properties.StepFlags | src/main.rs:83-96 | Each flag is set only by its own command. It is cleared exactly at the first event it cancels, and stays set until then. |
| Properties.StepMoves | src/main.rs:128-133 | The head moves by the direction in force after the visit. That direction is the old one, turned by command 1 or 2. It stays a unit step along an axis. |
| Properties.StepSent | src/main.rs:113-127 | A step appends an output bit only for command 0 with the cell ahead on the grid. The bit is that cell's value. |
| Properties.StepInput | src/main.rs:143-160 | A step touches the input only for command 6. At end of input it leaves the counter at 8, so the next command 6 tries to read again. |
| Properties.PackMsbSnoc | src/main.rs:118 | Shifting a bit in below packed bits doubles the packed value and adds the bit. |
| Properties.PushBitPending | src/main.rs:117-119 | After the shift, the low bits of the buffer pack the pending bits followed by the new bit. |
| Properties.SentBytesKept | src/main.rs:117-125 | Appending a bit leaves the bits of every completed byte in place. |
| Properties.PushBitCompletes | src/main.rs:120-125 | The eighth pending bit writes the byte that packs those 8 bits, and the pending bits start again. |
| Properties.PushBitPends | src/main.rs:117-119 | A bit short of the eighth joins the pending bits, and nothing is written. |
| Properties.PushBitKeepsOutput | src/main.rs:117-125 | Shifting in any bit keeps the output invariant: one byte per 8 bits, each byte packing its bits most significant first, with the remaining bits pending in the buffer. |
| Properties.ReadBitKeepsInput | src/main.rs:143-160 | Command 6 keeps the input invariant. The counter starts at 8 and only grows. At most the first byte is read, and the buffer is that byte shifted right by the number of bits taken. |
| Properties.InputBitOfFirstByte | src/main.rs:143-159 | The bit command 6 takes is bit inCnt - 8 of the first input byte, least significant first. Every bit after the eighth is 0. |
| Properties.PushBitKeepsInv | src/main.rs:117-125 | Shifting in a bit keeps both buffer invariants. |
| Properties.EmitKeepsInv | src/main.rs:113-127 | Command 0 keeps both buffer invariants. |
| Properties.InvFrame | src/main.rs:74-77 | The invariants depend only on the buffers and the input. |
| Properties.ReadBitKeepsInv | src/main.rs:143-160 | Command 6 keeps both buffer invariants. |
| Properties.SettingBuffers | src/main.rs:128-142 | Commands 1 to 5 touch neither buffer. |
| Properties.SettingKeepsInv | src/main.rs:128-142 | Commands 1 to 5 keep both buffer invariants. |
| Properties.ExecuteKeepsInv | src/main.rs:112-162 | Every command keeps both buffer invariants. |
| Properties.VisitKeepsInv | src/main.rs:82-166 | Every visit keeps both buffer invariants. |
| Properties.StepKeepsInv | src/main.rs:81-169 | Every step keeps both buffer invariants. |
| Properties.InitialInv | src/main.rs:70-80 | Both buffer invariants hold when the loop starts. |
| Properties.RunKeepsInv | src/main.rs:81-170 | Both invariants hold after any number of steps. |
| Properties.RunOutput | src/main.rs:81-171 | A run writes the floor of bits / 8 whole bytes. Each byte unpacks, most significant bit first, to its 8 bits. The trailing partial byte is never written. At most one input byte is read, which holds for the program until its `i32` bit counter overflows (see "## Left out"). |
| Properties.SinglePlantedCell | src/main.rs:81-170 | A 1x1 grid with one planted cell is harvested, decodes command 0, appends nothing, and halts with no output. |
| Arith.PackMsb | src/main.rs:117-124 | The byte that shifting the bits in one by one with the shift at src/main.rs:118 leaves, first bit most significant. Its value is below 2^n for n bits. |
| Arith.Bit | src/main.rs:154-157 | The bit that `bit_in_buf[0] & 1` tests after k right shifts: bit k of the byte, least significant first. It is 0 or 1. |
| Arith.ShiftIn | src/main.rs:118 | The low k + 1 bits of the shifted u8 buffer are twice its low k bits plus the new bit, for k < 8. |
| Arith.ShiftOut | src/main.rs:157 | Shifting right once more gives the next bit position. |
| Arith.BitBeyondByte | src/main.rs:157 | A byte shifted right 8 or more times is 0, and so are its bits. |
| Arith.UnpackPack | src/main.rs:117-122 | Unpacking a packed byte gives its 8 bits back, most significant first. |
| Arith.PackUnpack | src/main.rs:117-122 | Packing the unpacked bits of a byte gives the byte back. |
| Engine.Interpreter.constructor | src/main.rs:70-80 | The registers start as the loop's initial state over the built grid. |
| Engine.Interpreter.Index | src/main.rs:82 | The index r * cols + c of an in-bounds cell lies inside the array. |
| Engine.Interpreter.Decode | src/main.rs:97-111 | The nested loop over offsets -1, 0, 1 returns exactly the command the weighted neighbour sum specifies. |
| Engine.Interpreter.AddNeighbour | src/main.rs:101-109 | One iteration of the inner loop takes the sum modulo 7 over the first k neighbours to the sum over the first k + 1. |
| Engine.Interpreter.Emit | src/main.rs:113-127 | Command 0 on the registers is `Semantics.Emit`. |
| Engine.Interpreter.PushBit | src/main.rs:117-125 | The output shift on the registers is `Semantics.PushBit`. |
| Engine.Interpreter.ReadBit | src/main.rs:143-160 | Command 6 on the registers and the grid array is `Semantics.ReadBit`. |
| Engine.Interpreter.Execute | src/main.rs:112-162 | The command dispatch on the registers is `Semantics.Execute`. |
| Engine.Interpreter.Visit | src/main.rs:82-166 | The visit on the registers and the array is `Semantics.Visit`. |
| Engine.Interpreter.Step | src/main.rs:81-169 | One loop iteration is `Semantics.Step`. |
| Engine.Interpreter.Run | src/main.rs:81-170 | The loop under a budget of iterations is `Semantics.Run`. It reports a halt exactly when the head has left the grid. |
| Engine.Start | src/main.rs:31-80 | The loop starts on the layout of the text's lines, with both buffer invariants holding. |
| Engine.Interpret | src/main.rs:31-171 | The output is what the specified run writes. It holds the floor of bits / 8 bytes, each packing its 8 bits most significant first. |
| Engine.SlotNeighbour | src/main.rs:99-103 | Offset (i, j) other than (0, 0) is neighbour number Slot(i, j) in decode order. |
| Engine.DecodeStep | src/main.rs:107-109 | One decode iteration doubles the weight modulo 7 and adds the weighted value into the sum modulo 7. An off-grid neighbour adds nothing. |
| Engine.ValueAtIndex | src/main.rs:106-107 | An in-bounds neighbour's value is the value stored at its row-major index. |
| Engine.RunUnfold | src/main.rs:81-170 | A run of n > 0 steps from a running state is one step followed by n - 1 more. |

## Behaviour of the program worth knowing

* **The builder has no failure path.** A character that is not a marker
  only moves the cursor (src/main.rs:59-62). It never writes. Every marker
  lies within its line's width, so every write is inside the array
  (`Builder.MarkerFits`, `Builder.MarkersPlaced`).
* **Only the first input byte is read, until the bit counter overflows.** A
  byte is read only while the bit counter equals 8 (src/main.rs:145). The
  counter starts at 8 and is never reset, only incremented (src/main.rs:77,
  158). Hence, for the first 2^31 - 8 bits command 6 takes:
  * after the first byte's eight bits, every further command 6 takes a 0
    bit;
  * at end of input, command 6 does nothing and leaves the counter at 8, so
    the next command 6 tries again.

  See `Properties.ReadBitKeepsInput`, `Properties.InputBitOfFirstByte` and
  `Properties.RunOutput`. The counter's type and what happens when it
  overflows are under "## Left out".

## Left out

- Command-line parsing (src/main.rs:3-17) and loading the program text from a file or standard input (src/main.rs:18-30): the program text is a parameter of `Engine.Interpret`. When the text comes from standard input, its terminating blank line is stripped, and the engine's input is the rest of standard input. The model takes that remaining input as the parameter `input`.
- The `--echo` grid dump to standard error (src/main.rs:65-67 and the `debug` function at 174-189) is not modelled. For a width of at least 1 it writes only diagnostics and changes no state. For a width of 0 it does not: a text with no marker (an empty text, or only inert characters) makes `area.chunks(col)` at src/main.rs:176 panic. With `--echo` such a program therefore aborts at src/main.rs:66, before the step loop. Without `--echo` it runs zero iterations and exits normally; either way it writes no output bytes. The model does not capture that panic.
- I/O failures: the `expect` calls on read and write abort the program. The model's input is a byte sequence and its output is a byte sequence that grows by appending. The buffered writer and its final flush (src/main.rs:69, 171) appear as that append, because the flush does not change which bytes are written.
- `str::lines` also drops a carriage return before a newline. The model splits only at newlines and keeps the carriage return in the line. A carriage return is not a marker, so it changes neither the row count, nor any line's width, nor any cell the builder writes.
- Engine.Interpreter.Run: a program whose head never leaves the grid runs forever. The model runs at most `fuel` iterations and reports whether the head had left the grid by then.
- Engine.Interpret: its contract is about the run under the given `fuel`. It does not cover an unbounded run.
- Semantics.ReadBit: the model's input bit counter `inCnt` is an unbounded natural number. The program's `bit_in_cnt` (src/main.rs:77) is compared with and incremented by untyped literals only, so Rust makes it an `i32`. After 2^31 - 8 bits taken by command 6 it overflows. A debug build then panics with an arithmetic overflow. A release build wraps it to -2^31, and after 2^32 bits taken in all it equals 8 again, so a second input byte is read. The model covers only runs that take fewer than 2^31 - 8 input bits. `Properties.ReadBitKeepsInput`, `Properties.InputBitOfFirstByte`, `Properties.RunOutput` and `Engine.Interpret` hold of the model without that limit. They describe the program only up to it.
- The machine-width limit on `row * col` and on cursor positions is not modelled: indices are unbounded integers.
