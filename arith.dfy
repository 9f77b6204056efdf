/**
 * Arithmetic used by the interpreter: powers of two, Euclidean division facts,
 * row-major indexing, and the bit packing of the input and output bytes.
 */
module Arith {

  function Pow2(k: nat): (p: nat)
    ensures p >= 1
  {
    if k == 0 then 1 else 2 * Pow2(k - 1)
  }

  lemma {:induction false} Pow2Monotone(j: nat, k: nat)
    requires j <= k
    ensures Pow2(j) <= Pow2(k)
  {
    if j < k {
      Pow2Monotone(j, k - 1);
    }
  }

  lemma {:induction false} Pow2Add(j: nat, k: nat)
    ensures Pow2(j + k) == Pow2(j) * Pow2(k)
  {
    if k > 0 {
      Pow2Add(j, k - 1);
      calc {
        Pow2(j + k);
        2 * Pow2(j + k - 1);
        2 * (Pow2(j) * Pow2(k - 1));
        Pow2(j) * (2 * Pow2(k - 1));
      }
    }
  }

  /** Quotient and remainder are determined by any decomposition `a == q * m + rem` with `0 <= rem < m`. */
  lemma DivModUnique(a: int, m: int, q: int, rem: int)
    requires m > 0 && 0 <= rem < m && a == q * m + rem
    ensures a / m == q && a % m == rem
  {
    var q', r' := a / m, a % m;
    assert a == q' * m + r';
    assert (q - q') * m == r' - rem;
    if q > q' {
      assert (q - q') * m >= m by { MulAtLeast(q - q', m); }
    } else if q < q' {
      assert (q' - q) * m >= m by { MulAtLeast(q' - q, m); }
    }
  }

  lemma MulAtLeast(x: int, m: int)
    requires x >= 1 && m > 0
    ensures x * m >= m
  {
  }

  /** A row-major index of an in-bounds cell addresses the flat grid. */
  lemma IndexBounds(rows: nat, cols: nat, r: int, c: int)
    requires 0 <= r < rows && 0 <= c < cols
    ensures 0 <= r * cols + c < rows * cols
  {
    assert r * cols <= (rows - 1) * cols by {
      MulMonotone(r, rows - 1, cols);
    }
  }

  lemma MulMonotone(a: int, b: int, m: nat)
    requires a <= b
    ensures a * m <= b * m
  {
  }

  lemma MulNat(a: nat, b: nat)
    ensures a * b >= 0
  {
  }

  /**
   * The product `a * b` as repeated addition. The grid's size and its
   * row-major indices are stated with it, so that a proof that only moves
   * cells around never meets a product of two unknowns.
   */
  function Times(a: nat, b: nat): nat
  {
    if a == 0 then 0 else Times(a - 1, b) + b
  }

  lemma {:induction false} TimesIsProduct(a: nat, b: nat)
    ensures Times(a, b) == a * b
  {
    if a > 0 {
      TimesIsProduct(a - 1, b);
    }
  }

  /**
   * `IndexBounds` over `Times`: the engine states grid indices with `Times`
   * so that its proofs never meet a product of two unknowns.
   */
  lemma CellIndexBounds(rows: nat, cols: nat, r: int, c: int)
    requires 0 <= r < rows && 0 <= c < cols
    ensures 0 <= Times(r, cols) + c < Times(rows, cols)
  {
    TimesIsProduct(r, cols);
    TimesIsProduct(rows, cols);
    IndexBounds(rows, cols, r, c);
  }

  /** Two in-bounds cells share a row-major index only if they are the same cell. */
  lemma CellIndexInjective(cols: nat, r1: nat, c1: nat, r2: nat, c2: nat)
    requires c1 < cols && c2 < cols && Times(r1, cols) + c1 == Times(r2, cols) + c2
    ensures r1 == r2 && c1 == c2
  {
    TimesIsProduct(r1, cols);
    TimesIsProduct(r2, cols);
    IndexSplit(cols, r1, c1);
    IndexSplit(cols, r2, c2);
  }

  /** Row and column are recovered from a row-major index. */
  lemma IndexSplit(cols: nat, r: nat, c: nat)
    requires c < cols
    ensures (r * cols + c) / cols == r && (r * cols + c) % cols == c
  {
    DivModUnique(r * cols + c, cols, r, c);
  }

  lemma ModAdd(a: nat, b: nat, m: nat)
    requires m > 0
    ensures (a % m + b) % m == (a + b) % m
  {
    var q1, r1 := a / m, a % m;
    var q2, r2 := (r1 + b) / m, (r1 + b) % m;
    assert a + b == (q1 + q2) * m + r2;
    DivModUnique(a + b, m, q1 + q2, r2);
  }

  /** The `k` low bits of `v`, that is `v % Pow2(k)`, written with halvings only. */
  function LowBits(v: nat, k: nat): nat
  {
    if k == 0 then 0 else v % 2 + 2 * LowBits(v / 2, k - 1)
  }

  /** `v` shifted right by `k` bits, that is `v / Pow2(k)`, written with halvings only. */
  function Shr(v: nat, k: nat): nat
  {
    if k == 0 then v else Shr(v / 2, k - 1)
  }

  lemma {:induction false} LowBitsIsMod(v: nat, k: nat)
    ensures LowBits(v, k) == v % Pow2(k)
  {
    if k > 0 {
      var p := Pow2(k - 1);
      var h, b := v / 2, v % 2;
      var q, rh := h / p, h % p;
      LowBitsIsMod(h, k - 1);
      assert v == 2 * h + b;
      assert h == q * p + rh;
      assert v == q * (2 * p) + (2 * rh + b);
      DivModUnique(v, 2 * p, q, 2 * rh + b);
    }
  }

  /** A value below `Pow2(k)` is its own `k` low bits. */
  lemma {:induction false} LowBitsOfSmall(v: nat, k: nat)
    requires v < Pow2(k)
    ensures LowBits(v, k) == v
  {
    if k > 0 {
      LowBitsOfSmall(v / 2, k - 1);
    }
  }

  /**
   * Shifting a bit into the low end of an 8-bit buffer: the low `k + 1` bits
   * of the new buffer are the old low `k` bits followed by the new bit.
   */
  lemma ShiftIn(buf: nat, bit: nat, k: nat)
    requires bit <= 1 && k < 8
    ensures LowBits((buf * 2 + bit) % 256, k + 1) == 2 * LowBits(buf, k) + bit
  {
    Pow2Add(k + 1, 7 - k);
    assert Pow2(8) == 256;
    ModOfMod(buf * 2 + bit, Pow2(k + 1), Pow2(7 - k));
    ShiftMod(buf, bit, Pow2(k));
    LowBitsIsMod((buf * 2 + bit) % 256, k + 1);
    LowBitsIsMod(buf, k);
  }

  /** Reducing modulo a multiple of `m` first does not change the remainder modulo `m`. */
  lemma ModOfMod(y: nat, m: nat, q: nat)
    requires m > 0 && q > 0
    ensures m * q > 0 && y % (m * q) % m == y % m
  {
    var mq := m * q;
    assert mq > 0 by { MulAtLeast(q, m); }
    var a, z := y / mq, y % mq;
    var b, w := z / m, z % m;
    assert y == a * mq + z;
    assert z == b * m + w;
    assert a * mq == (a * q) * m;
    assert y == (a * q + b) * m + w;
    DivModUnique(y, m, a * q + b, w);
  }

  /** Doubling and adding a bit: the remainder modulo `2 * p` is twice the remainder modulo `p`, plus the bit. */
  lemma ShiftMod(buf: nat, bit: nat, p: nat)
    requires bit <= 1 && p > 0
    ensures (buf * 2 + bit) % (2 * p) == 2 * (buf % p) + bit
  {
    var a, rb := buf / p, buf % p;
    assert buf == a * p + rb;
    assert buf * 2 + bit == a * (2 * p) + (2 * rb + bit);
    DivModUnique(buf * 2 + bit, 2 * p, a, 2 * rb + bit);
  }

  /** Shifting a buffer right once more shifts the value right by one more bit. */
  lemma {:induction false} ShiftOut(a: nat, k: nat)
    ensures Shr(a, k) / 2 == Shr(a, k + 1)
  {
    if k > 0 {
      ShiftOut(a / 2, k - 1);
    }
  }

  /**
   * The value of a sequence of bits read most-significant first, the order in
   * which the output buffer collects them.
   */
  function PackMsb(bits: seq<bool>): (v: nat)
    ensures v < Pow2(|bits|)
  {
    if |bits| == 0 then 0
    else 2 * PackMsb(bits[..|bits| - 1]) + (if bits[|bits| - 1] then 1 else 0)
  }

  /** The `n` low bits of `v`, most-significant first. */
  function UnpackMsb(v: nat, n: nat): (bits: seq<bool>)
    ensures |bits| == n
  {
    if n == 0 then [] else UnpackMsb(v / 2, n - 1) + [v % 2 == 1]
  }

  lemma {:induction false} UnpackPack(bits: seq<bool>)
    ensures UnpackMsb(PackMsb(bits), |bits|) == bits
  {
    if |bits| > 0 {
      var init := bits[..|bits| - 1];
      var v := PackMsb(bits);
      var b := if bits[|bits| - 1] then 1 else 0;
      DivModUnique(v, 2, PackMsb(init), b);
      UnpackPack(init);
      assert init + [bits[|bits| - 1]] == bits;
    }
  }

  lemma {:induction false} PackUnpack(v: nat, n: nat)
    requires v < Pow2(n)
    ensures PackMsb(UnpackMsb(v, n)) == v
  {
    if n > 0 {
      var bits := UnpackMsb(v, n);
      var h, b := v / 2, v % 2;
      assert v == 2 * h + b;
      assert h < Pow2(n - 1);
      assert bits[..n - 1] == UnpackMsb(h, n - 1);
      PackUnpack(h, n - 1);
      assert PackMsb(bits) == 2 * PackMsb(bits[..n - 1]) + (if bits[n - 1] then 1 else 0);
    }
  }

  /** Bit `k` of `v`, counting from the least significant: the order in which input bytes are consumed. */
  function Bit(v: nat, k: nat): (b: nat)
    ensures b <= 1
  {
    Shr(v, k) % 2
  }

  /** Shifting a value below `Pow2(k)` right by `k` bits leaves nothing. */
  lemma {:induction false} ShrOfSmall(v: nat, k: nat)
    requires v < Pow2(k)
    ensures Shr(v, k) == 0
  {
    if k > 0 {
      ShrOfSmall(v / 2, k - 1);
    }
  }

  /** A byte has no bits beyond its eighth. */
  lemma BitBeyondByte(v: nat, k: nat)
    requires v < 256 && k >= 8
    ensures Shr(v, k) == 0 && Bit(v, k) == 0
  {
    Pow2Monotone(8, k);
    assert Pow2(8) == 256;
    ShrOfSmall(v, k);
  }
}
