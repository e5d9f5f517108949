/** The Win32 constants class: window-style bit masks and the LOWORD/HIWORD
    helpers that split a message parameter into its two 16-bit halves. */
module Constant {

  // Window styles (32-bit masks).
  const WS_BORDER: bv32 := 0x0080_0000
  const WS_CAPTION: bv32 := 0x00C0_0000
  const WS_CHILD: bv32 := 0x4000_0000
  const WS_CHILDWINDOW: bv32 := 0x4000_0000
  const WS_CLIPCHILDREN: bv32 := 0x0200_0000
  const WS_CLIPSIBLINGS: bv32 := 0x0400_0000
  const WS_DISABLED: bv32 := 0x0800_0000
  const WS_DLGFRAME: bv32 := 0x0040_0000
  const WS_GROUP: bv32 := 0x0002_0000
  const WS_HSCROLL: bv32 := 0x0010_0000
  const WS_ICONIC: bv32 := 0x2000_0000
  const WS_MAXIMIZE: bv32 := 0x0100_0000
  const WS_MAXIMIZEBOX: bv32 := 0x0001_0000
  const WS_MINIMIZE: bv32 := 0x2000_0000
  const WS_MINIMIZEBOX: bv32 := 0x0002_0000
  const WS_OVERLAPPED: bv32 := 0x0000_0000
  const WS_POPUP: bv32 := 0x8000_0000
  const WS_SIZEBOX: bv32 := 0x0004_0000
  const WS_SYSMENU: bv32 := 0x0008_0000
  const WS_TABSTOP: bv32 := 0x0001_0000
  const WS_THICKFRAME: bv32 := 0x0004_0000
  const WS_TILED: bv32 := 0x0000_0000
  const WS_TILEDWINDOW: bv32 :=
    WS_OVERLAPPED | WS_CAPTION | WS_SYSMENU | WS_THICKFRAME | WS_MINIMIZEBOX | WS_MAXIMIZEBOX
  const WS_VISIBLE: bv32 := 0x1000_0000
  const WS_VSCROLL: bv32 := 0x0020_0000
  const WS_OVERLAPPEDWINDOW: bv32 :=
    WS_OVERLAPPED | WS_CAPTION | WS_SYSMENU | WS_THICKFRAME | WS_MINIMIZEBOX | WS_MAXIMIZEBOX
  const WS_POPUPWINDOW: bv32 := WS_POPUP | WS_BORDER | WS_SYSMENU

  const WORD_RANGE: nat := 0x1_0000
  const WORD_MASK: nat := 0xFFFF

  /** `value & 0xFFFF` on a Python int (two's complement of unbounded width):
      the low 16 bits, always in [0, 0xFFFF]. */
  function LoWord(value: int): (r: nat)
    ensures r <= WORD_MASK
    ensures (value - r) % WORD_RANGE == 0
  {
    value % WORD_RANGE
  }

  /** `(value >> 16) & 0xFFFF` on a Python int: `>>` floors, which is Dafny's
      Euclidean division by a positive divisor. */
  function HiWord(value: int): (r: nat)
    ensures r <= WORD_MASK
    ensures r == LoWord(value / WORD_RANGE)
  {
    (value / WORD_RANGE) % WORD_RANGE
  }

  /** Reference bitwise AND of two naturals, bit by bit from the least significant. */
  function BitAnd(a: nat, b: nat): nat
    decreases a
  {
    if a == 0 || b == 0 then 0 else 2 * BitAnd(a / 2, b / 2) + (a % 2) * (b % 2)
  }

  function Pow2(k: nat): (r: nat)
    ensures r >= 1
  {
    if k == 0 then 1 else 2 * Pow2(k - 1)
  }

  /** Masking with 2^k - 1 keeps exactly the value modulo 2^k. */
  lemma {:induction false} BitAndLowMask(a: nat, k: nat)
    ensures BitAnd(a, Pow2(k) - 1) == a % Pow2(k)
    decreases k
  {
    if k == 0 {
    } else if a == 0 {
    } else {
      var m := Pow2(k) - 1;
      assert m / 2 == Pow2(k - 1) - 1;
      assert m % 2 == 1;
      assert BitAnd(a, m) == 2 * BitAnd(a / 2, m / 2) + a % 2;
      BitAndLowMask(a / 2, k - 1);
      DivModPow2(a, k);
    }
  }

  /** Division and remainder by a positive divisor are determined by any decomposition
      with a remainder in range. */
  lemma DivModUnique(a: int, d: int, q: int, r: int)
    requires d > 0 && 0 <= r < d && a == d * q + r
    ensures a / d == q && a % d == r
  {
    var q', r' := a / d, a % d;
    if q > q' {
      MulStep(d, q', q);
    } else if q < q' {
      MulStep(d, q, q');
    }
  }

  /** A larger multiplier adds at least one more `d`. */
  lemma MulStep(d: int, x: int, y: int)
    requires d > 0 && x < y
    ensures d * x + d <= d * y
  {
    MulAtLeast(d, y - x);
    assert d * y == d * x + d * (y - x);
  }

  lemma {:induction false} MulAtLeast(d: int, k: int)
    requires d > 0 && k >= 1
    ensures d * k >= d
    decreases k
  {
    if k > 1 {
      MulAtLeast(d, k - 1);
      assert d * k == d * (k - 1) + d;
    }
  }

  lemma DivModPow2(a: nat, k: nat)
    requires k >= 1
    ensures a % Pow2(k) == 2 * ((a / 2) % Pow2(k - 1)) + a % 2
  {
    var p := Pow2(k - 1);
    var q := (a / 2) / p;
    var r := (a / 2) % p;
    assert a / 2 == p * q + r;
    assert a == (2 * p) * q + (2 * r + a % 2);
    DivModUnique(a, 2 * p, q, 2 * r + a % 2);
  }

  lemma {:induction false} Pow2Add(a: nat, b: nat)
    ensures Pow2(a + b) == Pow2(a) * Pow2(b)
    decreases a
  {
    if a > 0 {
      Pow2Add(a - 1, b);
    }
  }

  lemma Pow2Of16()
    ensures Pow2(16) == WORD_RANGE
  {
    assert Pow2(4) == 16;
    Pow2Add(4, 4);
    Pow2Add(8, 8);
  }

  /** On non-negative inputs LoWord is the bitwise AND with 0xFFFF and HiWord is the
      AND of the 16-bit right shift with 0xFFFF. */
  lemma WordsAreBitMasks(value: nat)
    ensures LoWord(value) == BitAnd(value, 0xFFFF)
    ensures HiWord(value) == BitAnd(value / WORD_RANGE, 0xFFFF)
  {
    Pow2Of16();
    LowMask16(value);
    LowMask16(value / WORD_RANGE);
  }

  lemma LowMask16(a: nat)
    ensures BitAnd(a, 0xFFFF) == a % WORD_RANGE
  {
    Pow2Of16();
    BitAndLowMask(a, 16);
  }

  /** A 32-bit value is its high word followed by its low word. */
  lemma WordsRecombine(value: int)
    requires 0 <= value < 0x1_0000_0000
    ensures HiWord(value) * WORD_RANGE + LoWord(value) == value
  {
    assert value / WORD_RANGE < WORD_RANGE;
  }

  /** A value that fits in 16 bits is its own low word and has a zero high word;
      hence LoWord is idempotent. */
  lemma SmallValueWords(value: int)
    ensures 0 <= value < WORD_RANGE ==> LoWord(value) == value && HiWord(value) == 0
    ensures LoWord(LoWord(value)) == LoWord(value)
  {
  }

  /** The overlapped-window and tiled-window composites are the same mask, 0x00CF0000. */
  lemma OverlappedWindowMask()
    ensures WS_OVERLAPPEDWINDOW == WS_TILEDWINDOW == 0x00CF_0000
  {
  }

  /** The caption style includes the border style. */
  lemma CaptionIncludesBorder()
    ensures WS_CAPTION & WS_BORDER == WS_BORDER
  {
  }

  /** The popup-window composite is 0x80880000; combined with the caption it
      keeps the window-menu bit, which the menu needs to be visible. */
  lemma PopupWindowMask()
    ensures WS_POPUPWINDOW == 0x8088_0000
    ensures (WS_CAPTION | WS_POPUPWINDOW) & WS_SYSMENU == WS_SYSMENU
  {
  }

  /** The styles documented as "same as" another carry the same bits. */
  lemma StyleAliases()
    ensures WS_CHILD == WS_CHILDWINDOW
    ensures WS_ICONIC == WS_MINIMIZE
    ensures WS_SIZEBOX == WS_THICKFRAME
    ensures WS_OVERLAPPED == WS_TILED
  {
  }
}
