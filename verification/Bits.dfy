/** Bit-level operations on natural numbers, in the sense of Go's unsigned integer operators. */
module Bits {

  type byte = x: int | 0 <= x < 256

  const TWO_31: nat := 0x8000_0000
  const TWO_32: nat := 0x1_0000_0000
  const TWO_63: nat := 0x8000_0000_0000_0000
  const TWO_64: nat := 0x1_0000_0000_0000_0000

  type uint32 = x: int | 0 <= x < 0x1_0000_0000
  type int32 = x: int | -0x8000_0000 <= x < 0x8000_0000
  type uint64 = x: int | 0 <= x < 0x1_0000_0000_0000_0000
  type int64 = x: int | -0x8000_0000_0000_0000 <= x < 0x8000_0000_0000_0000

  /** Two's complement reading of the low 32 bits. */
  function ToInt32(x: int): int32 {
    var r := x % TWO_32;
    if r < TWO_31 then r else r - TWO_32
  }

  /** A 64-bit pattern read as an int; a sum of two non-negative ints that overflows turns negative. */
  function AsInt(x: uint64): int64 {
    if x < TWO_63 then x else x - TWO_64
  }

  function ToUint64(x: int): uint64 {
    x % TWO_64
  }

  function Pow2(k: nat): (r: nat)
    ensures r > 0
  {
    if k == 0 then 1 else 2 * Pow2(k - 1)
  }

  /** `math/bits.Len64` and `Len8`: the number of bits needed to write x. */
  function BitLen(x: nat): nat {
    if x == 0 then 0 else 1 + BitLen(x / 2)
  }

  /** `math/bits.OnesCount8`: the number of one bits. */
  function Ones(x: nat): nat {
    if x == 0 then 0 else x % 2 + Ones(x / 2)
  }

  /** Bitwise or. */
  function Or(a: nat, b: nat): nat {
    if a == 0 then b
    else if b == 0 then a
    else 2 * Or(a / 2, b / 2) + (if a % 2 == 1 || b % 2 == 1 then 1 else 0)
  }

  /** Bitwise exclusive or. */
  function Xor(a: nat, b: nat): nat {
    if a == 0 then b
    else if b == 0 then a
    else 2 * Xor(a / 2, b / 2) + (if a % 2 != b % 2 then 1 else 0)
  }

  /** `x << shift` in a register of `width` bits: bits pushed past the top are lost. */
  function Shl(x: nat, shift: nat, width: nat): nat {
    (x * Pow2(shift)) % Pow2(width)
  }

  lemma {:induction false} Pow2Add(a: nat, b: nat)
    ensures Pow2(a + b) == Pow2(a) * Pow2(b)
  {
    if a > 0 {
      Pow2Add(a - 1, b);
      assert Pow2(a + b) == 2 * Pow2((a - 1) + b);
      assert 2 * (Pow2(a - 1) * Pow2(b)) == (2 * Pow2(a - 1)) * Pow2(b);
    }
  }

  lemma {:induction false} Pow2Monotone(a: nat, b: nat)
    requires a <= b
    ensures Pow2(a) <= Pow2(b)
  {
    if a < b {
      Pow2Monotone(a, b - 1);
    }
  }

  lemma Pow2Constants()
    ensures Pow2(7) == 128 && Pow2(8) == 256
    ensures Pow2(32) == TWO_32
    ensures Pow2(64) == TWO_64
  {
    assert Pow2(4) == 16;
    Pow2Add(3, 4);
    Pow2Add(4, 4);
    Pow2Add(8, 8);
    Pow2Add(16, 16);
    Pow2Add(32, 32);
  }

  lemma DoubleProduct(x: nat, half: nat)
    ensures x * (2 * half) == 2 * (x * half)
    ensures x > 0 && half > 0 ==> x * half > 0
  {
  }

  lemma OrTwice(a: nat, half: nat)
    ensures Or(a, 2 * half) == 2 * Or(a / 2, half) + a % 2
  {
    assert (2 * half) / 2 == half && (2 * half) % 2 == 0;
  }

  /** Or adds when the operands share no bit. */
  lemma {:induction false} OrDisjoint(a: nat, c: nat, k: nat)
    requires a < Pow2(k)
    ensures Or(a, c * Pow2(k)) == a + c * Pow2(k)
  {
    if k > 0 {
      var half := c * Pow2(k - 1);
      DoubleProduct(c, Pow2(k - 1));
      assert c * Pow2(k) == 2 * half;
      OrDisjoint(a / 2, c, k - 1);
      OrTwice(a, half);
    }
  }

  lemma MulAtLeast(k: int, n: int)
    requires k > 0 && n > 0
    ensures k * n >= n
  {
  }

  lemma Distribute(a: int, b: int, n: int)
    ensures (a + b) * n == a * n + b * n
    ensures (a - b) * n == a * n - b * n
  {
  }

  lemma DivMod(x: int, n: int)
    requires n > 0
    ensures x == (x / n) * n + x % n
    ensures 0 <= x % n < n
  {
  }

  /** Quotient and remainder are unique. */
  lemma ModUnique(x: int, n: int, d: int, m: int)
    requires n > 0 && x == d * n + m && 0 <= m < n
    ensures x % n == m && x / n == d
  {
    DivMod(x, n);
    var q, r := x / n, x % n;
    Distribute(q, d, n);
    Distribute(d, q, n);
    if q > d {
      MulAtLeast(q - d, n);
    } else if q < d {
      MulAtLeast(d - q, n);
    }
  }

  lemma ModAdd(x: int, c: int, n: int)
    requires n > 0
    ensures (x + c * n) % n == x % n
  {
    DivMod(x, n);
    Distribute(x / n, c, n);
    ModUnique(x + c * n, n, x / n + c, x % n);
  }

  /** A product by a power of two, split at the top of the register. */
  lemma ShlSplit(x: nat, shift: nat, width: nat)
    requires shift <= width
    ensures var q := Pow2(width - shift);
            x * Pow2(shift) == (x % q) * Pow2(shift) + (x / q) * Pow2(width)
    ensures (x % Pow2(width - shift)) * Pow2(shift) + Pow2(shift) <= Pow2(width)
  {
    var p, q := Pow2(shift), Pow2(width - shift);
    Pow2Add(width - shift, shift);
    DivMod(x, q);
    var d, m := x / q, x % q;
    Distribute(d * q, m, p);
    MulAssoc(d, q, p);
    Distribute(m, 1, p);
    MulMonotone(m + 1, q, p);
  }

  lemma MulAssoc(a: int, b: int, c: int)
    ensures (a * b) * c == a * (b * c)
  {
  }

  lemma MulMonotone(a: nat, b: nat, n: nat)
    requires a <= b
    ensures a * n <= b * n
  {
  }

  /** One turn of the generated varint loop: or-ing the next seven bits into the accumulator
      is addition, modulo the width of the accumulator. */
  lemma OrShl(full: nat, x: nat, shift: nat, width: nat)
    requires full < Pow2(shift)
    ensures Or(full % Pow2(width), Shl(x, shift, width)) == (full + x * Pow2(shift)) % Pow2(width)
  {
    if shift < width {
      OrShlInside(full, x, shift, width);
    } else {
      Pow2Add(shift - width, width);
      var y := x * Pow2(shift - width);
      MulAssoc(x, Pow2(shift - width), Pow2(width));
      assert x * Pow2(shift) == y * Pow2(width);
      ModAdd(0, y, Pow2(width));
      ModAdd(full, y, Pow2(width));
      assert Or(full % Pow2(width), 0) == full % Pow2(width);
    }
  }

  lemma OrShlInside(full: nat, x: nat, shift: nat, width: nat)
    requires full < Pow2(shift) && shift < width
    ensures Or(full % Pow2(width), Shl(x, shift, width)) == (full + x * Pow2(shift)) % Pow2(width)
  {
    hide Or, Pow2;
    var q := Pow2(width - shift);
    var c := x % q;
    ShlSplit(x, shift, width);
    OrDisjoint(full, c, shift);
    SameQuotient(full, x * Pow2(shift), c * Pow2(shift), x / q, Pow2(width), Pow2(shift));
    var y := c * Pow2(shift);
    assert Shl(x, shift, width) == y;
    assert full % Pow2(width) == full;
    assert Or(full, y) == full + y;
  }

  lemma SameQuotient(full: nat, y: nat, m: nat, d: int, w: nat, p: nat)
    requires y == m + d * w && full < p && m + p <= w
    ensures full % w == full && y % w == m && (full + y) % w == full + m
  {
    ModUnique(full, w, 0, full);
    ModUnique(y, w, d, m);
    ModUnique(full + y, w, d, full + m);
  }

  lemma {:induction false} BitLenUpper(x: nat, k: nat)
    requires x < Pow2(k)
    ensures BitLen(x) <= k
  {
    if x > 0 && k > 0 {
      BitLenUpper(x / 2, k - 1);
    }
  }

  lemma {:induction false} BitLenUnique(x: nat, k: nat)
    requires k > 0 && Pow2(k - 1) <= x < Pow2(k)
    ensures BitLen(x) == k
  {
    if k > 1 {
      BitLenUnique(x / 2, k - 1);
    }
  }
}
