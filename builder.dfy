/**
 * The grid builder: program text to a row-major grid of cells.
 *
 * The number of rows is the number of lines of the text; the number of
 * columns is the widest line, where a line's width stops at its last marker.
 * A second pass writes each marker into its cell; every other cell stays inert.
 */
module Builder {
  import opened Fields
  import opened Arith

  /** Number of newline characters in `s`. */
  function Newlines(s: seq<char>): nat
  {
    if |s| == 0 then 0
    else Newlines(s[..|s| - 1]) + (if s[|s| - 1] == '\n' then 1 else 0)
  }

  /** The segments of `s` between newlines, the last one possibly empty. */
  function Split(s: seq<char>): (ls: seq<seq<char>>)
    ensures |ls| == Newlines(s) + 1
    ensures forall i :: 0 <= i < |ls| ==> '\n' !in ls[i]
    ensures ls[|ls| - 1] == [] <==> |s| == 0 || s[|s| - 1] == '\n'
  {
    if |s| == 0 then [[]]
    else
      var p := Split(s[..|s| - 1]);
      if s[|s| - 1] == '\n' then p + [[]]
      else Extend(p, s[|s| - 1])
  }

  /** Segments with one more character at the end of the last one. */
  function Extend(ls: seq<seq<char>>, ch: char): (ls': seq<seq<char>>)
    requires |ls| >= 1
    ensures |ls'| == |ls| && ls'[|ls| - 1] == ls[|ls| - 1] + [ch]
    ensures forall i :: 0 <= i < |ls| - 1 ==> ls'[i] == ls[i]
  {
    ls[..|ls| - 1] + [ls[|ls| - 1] + [ch]]
  }

  /** Segments glued back together with newlines. */
  function Join(ls: seq<seq<char>>): seq<char>
    requires |ls| >= 1
  {
    if |ls| == 1 then ls[0]
    else Join(ls[..|ls| - 1]) + ['\n'] + ls[|ls| - 1]
  }

  lemma JoinNewline(ls: seq<seq<char>>)
    requires |ls| >= 1
    ensures Join(ls + [[]]) == Join(ls) + ['\n']
  {
    assert (ls + [[]])[..|ls|] == ls;
  }

  lemma JoinExtend(ls: seq<seq<char>>, ch: char)
    requires |ls| >= 1
    ensures Join(Extend(ls, ch)) == Join(ls) + [ch]
  {
    var q := Extend(ls, ch);
    if |ls| > 1 {
      assert q[..|q| - 1] == ls[..|ls| - 1];
    }
  }

  /** Splitting at newlines loses nothing: joining the segments gives the text back. */
  lemma {:induction false} SplitJoin(s: seq<char>)
    ensures Join(Split(s)) == s
  {
    if |s| > 0 {
      var t := s[..|s| - 1];
      SplitJoin(t);
      assert t + [s[|s| - 1]] == s;
      if s[|s| - 1] == '\n' {
        JoinNewline(Split(t));
      } else {
        JoinExtend(Split(t), s[|s| - 1]);
      }
    }
  }

  /** The lines of `s` as a line iterator yields them: the segments, without an empty one after a final newline. */
  function Lines(s: seq<char>): seq<seq<char>>
  {
    var p := Split(s);
    if p[|p| - 1] == [] then p[..|p| - 1] else p
  }

  /** One line per newline, plus one for unterminated text at the end. */
  lemma LineCount(s: seq<char>)
    ensures |Lines(s)| == Newlines(s) + (if |s| > 0 && s[|s| - 1] != '\n' then 1 else 0)
    ensures forall i :: 0 <= i < |Lines(s)| ==> Lines(s)[i] == Split(s)[i]
  {
  }

  /** Characters up to and including the last marker of a line; 0 for a line without a marker. */
  function Width(line: seq<char>): (w: nat)
    ensures w <= |line|
    ensures w > 0 ==> IsMarker(line[w - 1])
    ensures forall j :: w <= j < |line| ==> !IsMarker(line[j])
  {
    if |line| == 0 then 0
    else if IsMarker(line[|line| - 1]) then |line|
    else Width(line[..|line| - 1])
  }

  /** The widest line. */
  function MaxWidth(ls: seq<seq<char>>): (m: nat)
    ensures forall i :: 0 <= i < |ls| ==> Width(ls[i]) <= m
    ensures m == 0 || exists i :: 0 <= i < |ls| && Width(ls[i]) == m
  {
    if |ls| == 0 then 0
    else
      var p := MaxWidth(ls[..|ls| - 1]);
      var w := Width(ls[|ls| - 1]);
      assert forall i :: 0 <= i < |ls| - 1 ==> ls[..|ls| - 1][i] == ls[i];
      if w > p then w else p
  }

  /** The cell at line `i`, column `j` of the text: what the character there denotes, inert past the line's end. */
  function CellIn(ls: seq<seq<char>>, i: int, j: int): Field
  {
    if 0 <= i < |ls| && 0 <= j < |ls[i]| then FieldOf(ls[i][j]) else Ignore
  }

  function FlatCell(ls: seq<seq<char>>, cols: nat, p: nat): Field
  {
    if cols == 0 then Ignore else CellIn(ls, p / cols, p % cols)
  }

  /** The row-major grid of `|ls|` rows of `cols` cells. */
  function Layout(ls: seq<seq<char>>, cols: nat): (g: seq<Field>)
    ensures |g| == |ls| * cols
  {
    seq(|ls| * cols, p requires 0 <= p => FlatCell(ls, cols, p))
  }

  /** Cell (i, j) of the grid is what line i holds at column j, inert where the line is shorter. */
  lemma LayoutAt(ls: seq<seq<char>>, cols: nat, i: nat, j: nat)
    requires i < |ls| && j < cols
    ensures i * cols + j < |Layout(ls, cols)|
    ensures Layout(ls, cols)[i * cols + j] == (if j < |ls[i]| then FieldOf(ls[i][j]) else Ignore)
  {
    IndexBounds(|ls|, cols, i, j);
    IndexSplit(cols, i, j);
  }

  /**
   * Every marker of the lines lands inside the grid, at its own line and
   * column: its column is below the grid width, so its row-major index is
   * below rows * cols.
   */
  lemma MarkersPlaced(ls: seq<seq<char>>, i: nat, j: nat)
    requires i < |ls| && j < |ls[i]| && IsMarker(ls[i][j])
    ensures j < MaxWidth(ls)
    ensures i * MaxWidth(ls) + j < |ls| * MaxWidth(ls)
    ensures Layout(ls, MaxWidth(ls))[i * MaxWidth(ls) + j] == FieldOf(ls[i][j])
  {
    var w := MaxWidth(ls);
    assert j < Width(ls[i]) <= w;
    LayoutAt(ls, w, i, j);
  }

  ghost predicate SegPrefix(a: seq<seq<char>>, b: seq<seq<char>>)
  {
    1 <= |a| <= |b| &&
    (forall i :: 0 <= i < |a| - 1 ==> a[i] == b[i]) &&
    a[|a| - 1] <= b[|a| - 1]
  }

  lemma SegPrefixTrans(a: seq<seq<char>>, b: seq<seq<char>>, c: seq<seq<char>>)
    requires SegPrefix(a, b) && SegPrefix(b, c)
    ensures SegPrefix(a, c)
  {
    if |a| < |b| {
      assert b[|a| - 1] == c[|a| - 1];
    }
  }

  /** The segments of a prefix of the text are a prefix of the text's segments. */
  lemma {:induction false} SplitPrefix(s: seq<char>, k: nat)
    requires k <= |s|
    ensures SegPrefix(Split(s[..k]), Split(s))
    decreases |s|
  {
    if k < |s| {
      var t := s[..|s| - 1];
      assert s[..k] == t[..k];
      SplitPrefix(t, k);
      assert SegPrefix(Split(t), Split(s));
      SegPrefixTrans(Split(s[..k]), Split(t), Split(s));
    } else {
      assert s[..k] == s;
    }
  }

  /**
   * When the builder's second pass meets a marker at position k, its row
   * cursor (newlines so far) is a line of the text and its column cursor is
   * below the grid width: the write never leaves the grid.
   */
  lemma MarkerFits(s: seq<char>, k: nat)
    requires k < |s| && IsMarker(s[k])
    ensures |Split(s[..k])| - 1 < |Lines(s)|
    ensures |Split(s[..k])[|Split(s[..k])| - 1]| < MaxWidth(Lines(s))
  {
    var sp := Split(s[..k]);
    var n := |sp|;
    var ch := s[k];
    assert s[..k + 1][..k] == s[..k];
    var sp' := Split(s[..k + 1]);
    assert sp' == Extend(sp, ch);
    SplitPrefix(s, k + 1);
    var full := Split(s);
    assert sp'[n - 1] <= full[n - 1];
    var c := |sp[n - 1]|;
    assert full[n - 1][c] == ch;
    assert c < Width(full[n - 1]);
    LineCount(s);
    assert n - 1 < |Lines(s)| && Lines(s)[n - 1] == full[n - 1];
  }

  /** Every cell of the grid `g` holds what the segments `sp` put there. */
  ghost predicate Filled(g: seq<Field>, sp: seq<seq<char>>, cols: nat)
  {
    forall p :: 0 <= p < |g| ==> g[p] == FlatCell(sp, cols, p)
  }

  /** Writing a marker at the cursor keeps the grid in step with the segments that now end in it. */
  lemma FillMarker(g: seq<Field>, sp: seq<seq<char>>, ch: char, rows: nat, cols: nat, r: nat, c: nat)
    requires |sp| >= 1 && IsMarker(ch) && r == |sp| - 1 && c == |sp[r]| && r < rows && c < cols
    requires |g| == rows * cols
    requires Filled(g, sp, cols)
    ensures r * cols + c < |g|
    ensures Filled(g[r * cols + c := FieldOf(ch)], Extend(sp, ch), cols)
  {
    IndexBounds(rows, cols, r, c);
    var g' := g[r * cols + c := FieldOf(ch)];
    forall p | 0 <= p < |g'|
      ensures g'[p] == FlatCell(Extend(sp, ch), cols, p)
    {
      IndexSplit(cols, r, c);
      DivModUnique(p, cols, p / cols, p % cols);
    }
  }

  /** An all-inert grid is what the empty text puts there. */
  lemma FillStart(g: seq<Field>, cols: nat)
    requires forall p :: 0 <= p < |g| ==> g[p] == Ignore
    ensures Filled(g, [[]], cols)
  {
  }

  /** A non-marker only moves the cursor: no cell changes. */
  lemma FillSkip(g: seq<Field>, sp: seq<seq<char>>, ch: char, cols: nat)
    requires |sp| >= 1 && ch != '\n' && !IsMarker(ch)
    requires Filled(g, sp, cols)
    ensures Filled(g, Extend(sp, ch), cols)
  {
  }

  /** A newline only moves the cursor to the next row: no cell changes. */
  lemma FillNewline(g: seq<Field>, sp: seq<seq<char>>, cols: nat)
    requires Filled(g, sp, cols)
    ensures Filled(g, sp + [[]], cols)
  {
  }

  /** A grid filled from all segments of the text is the layout of its lines. */
  lemma FilledLayout(g: seq<Field>, s: seq<char>, cols: nat)
    requires |g| == |Lines(s)| * cols && Filled(g, Split(s), cols)
    ensures g == Layout(Lines(s), cols)
  {
    LineCount(s);
  }

  lemma SplitStep(s: seq<char>, k: nat)
    requires k < |s|
    ensures Split(s[..k + 1]) == if s[k] == '\n' then Split(s[..k]) + [[]] else Extend(Split(s[..k]), s[k])
  {
    assert s[..k + 1][..k] == s[..k];
  }

  /** Taking one more line into account raises the widest width to that line's width if it is wider. */
  lemma MaxWidthStep(ls: seq<seq<char>>, i: nat)
    requires i < |ls|
    ensures MaxWidth(ls[..i + 1]) == if Width(ls[i]) > MaxWidth(ls[..i]) then Width(ls[i]) else MaxWidth(ls[..i])
  {
    assert ls[..i + 1][..i] == ls[..i];
  }

  /** The builder's first pass: count the lines and take the widest one. */
  method Dimensions(source: seq<char>) returns (rows: nat, cols: nat)
    ensures rows == |Lines(source)| && cols == MaxWidth(Lines(source))
  {
    var lines := Lines(source);
    rows, cols := 0, 0;
    for i := 0 to |lines|
      invariant rows == i && cols == MaxWidth(lines[..i])
    {
      MaxWidthStep(lines, i);
      rows := rows + 1;
      var w := Width(lines[i]);
      if w > cols {
        cols := w;
      }
    }
    assert lines[..|lines|] == lines;
  }

  /**
   * The whole builder: size the grid, allocate it inert, then a second pass
   * writes each marker at its (row, column) cursor.
   */
  method Build(source: seq<char>) returns (rows: nat, cols: nat, area: array<Field>)
    ensures rows == |Lines(source)| && cols == MaxWidth(Lines(source))
    ensures fresh(area) && area.Length == rows * cols
    ensures area[..] == Layout(Lines(source), cols)
  {
    rows, cols := Dimensions(source);
    MulNat(rows, cols);
    area := new Field[rows * cols](_ => Ignore);
    Fill(source, rows, cols, area);
  }

  /** Write one cell of a row-major grid. */
  method Put(area: array<Field>, rows: nat, cols: nat, r: nat, c: nat, f: Field)
    requires area.Length == rows * cols && r < rows && c < cols
    modifies area
    ensures r * cols + c < area.Length
    ensures area[..] == old(area[..])[r * cols + c := f]
  {
    IndexBounds(rows, cols, r, c);
    area[r * cols + c] := f;
  }

  /** The builder's second pass over an all-inert grid of the right size. */
  method Fill(source: seq<char>, rows: nat, cols: nat, area: array<Field>)
    requires rows == |Lines(source)| && cols == MaxWidth(Lines(source))
    requires area.Length == rows * cols
    requires forall p :: 0 <= p < area.Length ==> area[p] == Ignore
    modifies area
    ensures area[..] == Layout(Lines(source), cols)
  {
    var r, c := 0, 0;
    FillStart(area[..], cols);
    for k := 0 to |source|
      invariant r == |Split(source[..k])| - 1 && c == |Split(source[..k])[r]|
      invariant Filled(area[..], Split(source[..k]), cols)
    {
      r, c := Place(source, k, rows, cols, area, r, c);
    }
    assert source[..|source|] == source;
    FilledLayout(area[..], source, cols);
  }

  /**
   * One character of the second pass: a marker is written under the cursor
   * and moves it right, a newline moves it to the start of the next row,
   * anything else moves it right without writing.
   */
  method Place(source: seq<char>, k: nat, rows: nat, cols: nat, area: array<Field>, r: nat, c: nat)
    returns (r': nat, c': nat)
    requires k < |source| && rows == |Lines(source)| && cols == MaxWidth(Lines(source))
    requires area.Length == rows * cols
    requires r == |Split(source[..k])| - 1 && c == |Split(source[..k])[r]|
    requires Filled(area[..], Split(source[..k]), cols)
    modifies area
    ensures r' == |Split(source[..k + 1])| - 1 && c' == |Split(source[..k + 1])[r']|
    ensures Filled(area[..], Split(source[..k + 1]), cols)
  {
    var ch := source[k];
    ghost var sp := Split(source[..k]);
    SplitStep(source, k);
    if ch == EggplantChar || ch == SproutChar {
      MarkerFits(source, k);
      FillMarker(area[..], sp, ch, rows, cols, r, c);
      Put(area, rows, cols, r, c, FieldOf(ch));
      r', c' := r, c + 1;
    } else if ch == '\n' {
      FillNewline(area[..], sp, cols);
      r', c' := r + 1, 0;
    } else {
      FillSkip(area[..], sp, ch, cols);
      r', c' := r, c + 1;
    }
  }
}
