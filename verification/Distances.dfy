/** The two XOR distances between peer keys. */
module Distances {
  import opened Bits

  type Key = seq<byte>

  function Fill(value: nat, count: nat): seq<nat> {
    seq(count, _ => value)
  }

  /** `leadingZerosCount`, its 256 entries written as runs of equal values. */
  const LEADING_ZEROS: seq<nat> :=
    [8, 7, 6, 6, 5, 5, 5, 5] + Fill(4, 8) + Fill(3, 16) + Fill(2, 32) + Fill(1, 64) + Fill(0, 128)

  function XorKeys(a: Key, b: Key): seq<nat>
    requires |a| == |b|
  {
    seq(|a|, i requires 0 <= i < |a| => Xor(a[i], b[i]))
  }

  /** The number of positions at which two keys differ, as bits. */
  function DifferingBits(a: Key, b: Key): nat
    requires |a| == |b|
  {
    if a == [] then 0 else Ones(Xor(a[0], b[0])) + DifferingBits(a[1..], b[1..])
  }

  /** A sequence of bytes read as one big-endian number. */
  function BigEndian(s: seq<nat>): nat {
    if s == [] then 0 else s[0] * Pow2(8 * (|s| - 1)) + BigEndian(s[1..])
  }

  /** The log2 distance by its meaning: the bit length of the XOR of the keys. */
  function LogDistance(a: Key, b: Key): nat
    requires |a| == |b|
  {
    BitLen(BigEndian(XorKeys(a, b)))
  }

  // ---------------------------------------------------------------- bits of an exclusive or

  lemma XorBit(a: nat, b: nat)
    ensures Xor(a, b) / 2 == Xor(a / 2, b / 2)
    ensures Xor(a, b) % 2 == if a % 2 != b % 2 then 1 else 0
  {
  }

  lemma {:induction false} XorSymmetric(a: nat, b: nat)
    ensures Xor(a, b) == Xor(b, a)
  {
    if a > 0 && b > 0 {
      XorSymmetric(a / 2, b / 2);
    }
  }

  lemma {:induction false} XorZero(a: nat, b: nat)
    ensures Xor(a, b) == 0 <==> a == b
  {
    XorBit(a, b);
    if a > 0 && b > 0 {
      XorZero(a / 2, b / 2);
    }
  }

  /** The middle term cancels. */
  lemma {:induction false} XorCancel(a: nat, b: nat, c: nat)
    ensures Xor(Xor(a, b), Xor(b, c)) == Xor(a, c)
    decreases a + b + c
  {
    hide Xor;
    XorBit(a, b);
    XorBit(b, c);
    XorBit(a, c);
    XorBit(Xor(a, b), Xor(b, c));
    if a + b + c > 0 {
      XorCancel(a / 2, b / 2, c / 2);
    } else {
      XorOfZeros();
    }
  }

  lemma XorOfZeros()
    ensures Xor(0, 0) == 0
  {
  }

  lemma {:induction false} XorBitLen(x: nat, y: nat)
    ensures BitLen(Xor(x, y)) <= BitLen(x) || BitLen(Xor(x, y)) <= BitLen(y)
  {
    if x > 0 && y > 0 {
      XorBit(x, y);
      XorBitLen(x / 2, y / 2);
    }
  }

  lemma {:induction false} XorOnes(x: nat, y: nat)
    ensures Ones(Xor(x, y)) <= Ones(x) + Ones(y)
  {
    if x > 0 && y > 0 {
      XorBit(x, y);
      XorOnes(x / 2, y / 2);
    }
  }

  lemma {:induction false} OnesAtMostBitLen(x: nat)
    ensures Ones(x) <= BitLen(x)
  {
    if x > 0 {
      OnesAtMostBitLen(x / 2);
    }
  }

  lemma {:induction false} OnesZero(x: nat)
    ensures Ones(x) == 0 <==> x == 0
  {
    if x > 0 {
      OnesZero(x / 2);
    }
  }

  lemma {:induction false} XorBound(a: nat, b: nat, k: nat)
    requires a < Pow2(k) && b < Pow2(k)
    ensures Xor(a, b) < Pow2(k)
  {
    if k > 0 {
      XorBit(a, b);
      XorBound(a / 2, b / 2, k - 1);
    }
  }

  lemma XorByte(a: byte, b: byte)
    ensures Xor(a, b) < 256 && BitLen(Xor(a, b)) <= 8
  {
    Pow2Constants();
    XorBound(a, b, 8);
    BitLenUpper(Xor(a, b), 8);
  }

  // ---------------------------------------------------------------- the counting distance is a metric

  lemma {:induction false} CountSymmetric(a: Key, b: Key)
    requires |a| == |b|
    ensures DifferingBits(a, b) == DifferingBits(b, a)
  {
    if a != [] {
      XorSymmetric(a[0], b[0]);
      CountSymmetric(a[1..], b[1..]);
    }
  }

  lemma {:induction false} CountZero(a: Key, b: Key)
    requires |a| == |b|
    ensures DifferingBits(a, b) == 0 <==> a == b
  {
    if a != [] {
      XorZero(a[0], b[0]);
      OnesZero(Xor(a[0], b[0]));
      CountZero(a[1..], b[1..]);
      assert a == [a[0]] + a[1..] && b == [b[0]] + b[1..];
    }
  }

  lemma {:induction false} CountTriangle(a: Key, b: Key, c: Key)
    requires |a| == |b| == |c|
    ensures DifferingBits(a, c) <= DifferingBits(a, b) + DifferingBits(b, c)
  {
    if a != [] {
      XorCancel(a[0], b[0], c[0]);
      XorOnes(Xor(a[0], b[0]), Xor(b[0], c[0]));
      CountTriangle(a[1..], b[1..], c[1..]);
    }
  }

  // ---------------------------------------------------------------- the log2 distance

  /** The log2 distance by the first byte that differs. */
  function FirstDifference(a: Key, b: Key): nat
    requires |a| == |b|
  {
    if a == [] then 0
    else if Xor(a[0], b[0]) != 0 then 8 * (|a| - 1) + BitLen(Xor(a[0], b[0]))
    else FirstDifference(a[1..], b[1..])
  }

  lemma {:induction false} BigEndianBound(s: seq<nat>)
    requires forall i | 0 <= i < |s| :: s[i] < 256
    ensures BigEndian(s) < Pow2(8 * |s|)
  {
    if s != [] {
      BigEndianBound(s[1..]);
      Pow2Constants();
      var p := Pow2(8 * (|s| - 1));
      Pow2Add(8, 8 * (|s| - 1));
      MulMonotone(s[0] + 1, 256, p);
      Distribute(s[0], 1, p);
    }
  }

  lemma {:induction false} BitLenShifted(x: nat, y: nat, k: nat)
    requires x > 0 && y < Pow2(k)
    ensures BitLen(x * Pow2(k) + y) == k + BitLen(x)
  {
    if k > 0 {
      var half := Pow2(k - 1);
      assert Pow2(k) == 2 * half;
      BitLenShifted(x, y / 2, k - 1);
      DoubleProduct(x, half);
      assert (2 * (x * half) + y) / 2 == x * half + y / 2;
    }
  }

  /** Both definitions of the log2 distance agree. */
  lemma {:induction false} FirstDifferenceIsLog(a: Key, b: Key)
    requires |a| == |b|
    ensures FirstDifference(a, b) == LogDistance(a, b)
  {
    if a != [] {
      var x, tail := XorKeys(a, b), XorKeys(a[1..], b[1..]);
      assert x[1..] == tail;
      forall i | 0 <= i < |tail|
        ensures tail[i] < 256
      {
        XorByte(a[i + 1], b[i + 1]);
      }
      BigEndianBound(tail);
      if x[0] != 0 {
        BitLenShifted(x[0], BigEndian(tail), 8 * (|a| - 1));
      } else {
        FirstDifferenceIsLog(a[1..], b[1..]);
      }
    }
  }

  lemma {:induction false} FirstDifferenceBound(a: Key, b: Key)
    requires |a| == |b|
    ensures FirstDifference(a, b) <= 8 * |a|
  {
    if a != [] {
      XorByte(a[0], b[0]);
      FirstDifferenceBound(a[1..], b[1..]);
    }
  }

  lemma {:induction false} FirstDifferenceUltrametric(a: Key, b: Key, c: Key)
    requires |a| == |b| == |c|
    ensures FirstDifference(a, c) <= FirstDifference(a, b) || FirstDifference(a, c) <= FirstDifference(b, c)
  {
    if a != [] {
      var x, y, z := Xor(a[0], b[0]), Xor(b[0], c[0]), Xor(a[0], c[0]);
      XorCancel(a[0], b[0], c[0]);
      XorBitLen(x, y);
      XorZero(a[0], b[0]);
      XorZero(b[0], c[0]);
      XorZero(a[0], c[0]);
      FirstDifferenceUltrametric(a[1..], b[1..], c[1..]);
      FirstDifferenceBound(a[1..], c[1..]);
    }
  }

  /** The log2 distance is an ultrametric. */
  lemma LogUltrametric(a: Key, b: Key, c: Key)
    requires |a| == |b| == |c|
    ensures LogDistance(a, c) <= LogDistance(a, b) || LogDistance(a, c) <= LogDistance(b, c)
  {
    hide LogDistance, FirstDifference;
    FirstDifferenceIsLog(a, b);
    FirstDifferenceIsLog(b, c);
    FirstDifferenceIsLog(a, c);
    FirstDifferenceUltrametric(a, b, c);
  }

  lemma {:induction false} CountAtMostFirstDifference(a: Key, b: Key)
    requires |a| == |b|
    ensures DifferingBits(a, b) <= FirstDifference(a, b)
  {
    if a != [] {
      OnesAtMostBitLen(Xor(a[0], b[0]));
      CountAtMostFirstDifference(a[1..], b[1..]);
      FirstDifferenceBound(a[1..], b[1..]);
    }
  }

  /** The counting distance never exceeds the log2 distance, so both are zero together. */
  lemma CountAtMostLog(a: Key, b: Key)
    requires |a| == |b|
    ensures DifferingBits(a, b) <= LogDistance(a, b) <= 8 * |a|
    ensures LogDistance(a, b) == 0 <==> a == b
  {
    hide LogDistance, FirstDifference, DifferingBits;
    FirstDifferenceIsLog(a, b);
    CountAtMostFirstDifference(a, b);
    FirstDifferenceBound(a, b);
    CountZero(a, b);
    if a == b {
      SelfDistance(a);
    }
  }

  lemma {:induction false} SelfDistance(a: Key)
    ensures FirstDifference(a, a) == 0
  {
    if a != [] {
      XorZero(a[0], a[0]);
      SelfDistance(a[1..]);
    }
  }

  // ---------------------------------------------------------------- the loops

  /** The runs of the table. */
  lemma TableRuns(x: nat)
    requires x < 256
    ensures |LEADING_ZEROS| == 256
    ensures LEADING_ZEROS[x] == if x < 1 then 8 else if x < 2 then 7 else if x < 4 then 6 else if x < 8 then 5
                                else if x < 16 then 4 else if x < 32 then 3 else if x < 64 then 2
                                else if x < 128 then 1 else 0
  {
  }

  /** The table is the number of leading zeros of a byte. */
  lemma TableIsLeadingZeros(x: nat)
    requires x < 256
    ensures |LEADING_ZEROS| == 256 && LEADING_ZEROS[x] == 8 - BitLen(x)
  {
    hide LEADING_ZEROS;
    TableRuns(x);
    Pow2Constants();
    assert Pow2(0) == 1 && Pow2(1) == 2 && Pow2(2) == 4 && Pow2(3) == 8;
    assert Pow2(4) == 16 && Pow2(5) == 32 && Pow2(6) == 64;
    if x >= 1 {
      BitLenUnique(x, 8 - LEADING_ZEROS[x]);
    }
  }

  method ComputeDistanceByCountingBits(src: Key, dest: Key) returns (cumulatedBits: nat)
    requires |src| == |dest|
    ensures cumulatedBits == DifferingBits(src, dest)
  {
    cumulatedBits := 0;
    assert src[0..] == src && dest[0..] == dest;
    for i := 0 to |src|
      invariant cumulatedBits + DifferingBits(src[i..], dest[i..]) == DifferingBits(src, dest)
    {
      var result := Xor(src[i], dest[i]);
      cumulatedBits := cumulatedBits + Ones(result);
      assert src[i..][1..] == src[i + 1..] && dest[i..][1..] == dest[i + 1..];
    }
  }

  method ComputeDistanceLog2Based(src: Key, dest: Key) returns (distance: nat)
    requires |src| == |dest|
    ensures distance == LogDistance(src, dest)
  {
    hide LEADING_ZEROS, LogDistance;
    var val := 0;
    FirstDifferenceIsLog(src, dest);
    assert src[0..] == src && dest[0..] == dest;
    var i := 0;
    while i < |src|
      invariant 0 <= i <= |src| && val == 8 * i
      invariant FirstDifference(src[i..], dest[i..]) == FirstDifference(src, dest)
    {
      var result := Xor(src[i], dest[i]);
      XorByte(src[i], dest[i]);
      TableIsLeadingZeros(result);
      assert src[i..][1..] == src[i + 1..] && dest[i..][1..] == dest[i + 1..];
      assert BitLen(0) == 0;
      val := val + LEADING_ZEROS[result];
      if result != 0 {
        assert FirstDifference(src, dest) == 8 * (|src| - i - 1) + BitLen(result);
        return |src| * 8 - val;
      }
      i := i + 1;
    }
    distance := |src| * 8 - val;
  }
}
