/** The distances and the varints, told bit by bit. */
module BitCounts {
  import opened Bits
  import opened Wire
  import opened Distances

  /** Bit j of x, counted from the lowest. */
  function BitOf(x: nat, j: nat): nat {
    x / Pow2(j) % 2
  }

  lemma DivDiv(x: nat, b: nat, p: nat)
    requires b > 0 && p > 0
    ensures b * p > 0 && x / (b * p) == (x / b) / p
  {
    var y := x / b;
    DivMod(x, b);
    DivMod(y, p);
    var q, r, s := y / p, y % p, x % b;
    MulAtLeast(b, p);
    Distribute(q * p, r, b);
    MulAssoc(q, p, b);
    assert x == q * (b * p) + (r * b + s);
    MulMonotone(r + 1, p, b);
    Distribute(r, 1, b);
    ModUnique(x, b * p, q, r * b + s);
  }

  lemma BitShift(x: nat, j: nat)
    ensures BitOf(x, 0) == x % 2
    ensures BitOf(x, j + 1) == BitOf(x / 2, j)
  {
    DivDiv(x, 2, Pow2(j));
  }

  lemma {:induction false} XorBits(a: nat, b: nat, j: nat)
    ensures BitOf(Xor(a, b), j) == if BitOf(a, j) != BitOf(b, j) then 1 else 0
  {
    hide Xor, BitOf;
    XorBit(a, b);
    if j == 0 {
      BitShift(Xor(a, b), 0);
      BitShift(a, 0);
      BitShift(b, 0);
    } else {
      BitShift(Xor(a, b), j - 1);
      BitShift(a, j - 1);
      BitShift(b, j - 1);
      XorBits(a / 2, b / 2, j - 1);
    }
  }

  // ---------------------------------------------------------------- cardinalities

  ghost function Shifted(s: set<nat>): set<nat> {
    set j | j in s :: j + 1
  }

  lemma {:induction false} ShiftedCard(s: set<nat>)
    ensures |Shifted(s)| == |s|
    decreases |s|
  {
    if x :| x in s {
      ShiftedCard(s - {x});
      forall y | y in Shifted(s)
        ensures y in Shifted(s - {x}) + {x + 1}
      {
        assert y - 1 in s;
        assert y != x + 1 ==> y - 1 in s - {x};
      }
      forall y | y in Shifted(s - {x}) + {x + 1}
        ensures y in Shifted(s)
      {
        assert y - 1 in s;
      }
      assert Shifted(s) == Shifted(s - {x}) + {x + 1};
    }
  }

  lemma {:induction false} HeadCard(s: set<nat>, t: set<(nat, nat)>)
    requires t == set j | j in s :: (0, j)
    ensures |t| == |s|
    decreases |s|
  {
    if x :| x in s {
      HeadCard(s - {x}, t - {(0, x)});
    }
  }

  lemma {:induction false} TailCard(s: set<(nat, nat)>, t: set<(nat, nat)>)
    requires t == set x | x in s :: (x.0 + 1, x.1)
    ensures |t| == |s|
    decreases |s|
  {
    if x :| x in s {
      assert forall y | y in s && (y.0 + 1, y.1) == (x.0 + 1, x.1) :: y == x;
      TailCard(s - {x}, t - {(x.0 + 1, x.1)});
    }
  }

  ghost function OneBits(x: nat, k: nat): set<nat> {
    set j | 0 <= j < k && BitOf(x, j) == 1
  }

  /** Ones counts the one bits of a number of k bits. */
  lemma {:induction false} OnesIsCardinality(x: nat, k: nat)
    requires x < Pow2(k)
    ensures Ones(x) == |OneBits(x, k)|
  {
    if k == 0 {
      assert OneBits(x, k) == {};
    } else {
      var high := OneBits(x / 2, k - 1);
      forall j | 0 < j < k
        ensures BitOf(x, j) == BitOf(x / 2, j - 1)
      {
        BitShift(x, j - 1);
      }
      BitShift(x, 0);
      Peeled(x, k, high);
      OnesIsCardinality(x / 2, k - 1);
      ShiftedCard(high);
      assert 0 !in Shifted(high);
    }
  }

  lemma Peeled(x: nat, k: nat, high: set<nat>)
    requires k > 0 && high == OneBits(x / 2, k - 1)
    requires BitOf(x, 0) == x % 2 && forall j | 0 < j < k :: BitOf(x, j) == BitOf(x / 2, j - 1)
    ensures OneBits(x, k) == Shifted(high) + if x % 2 == 1 then {0} else {}
  {
    hide BitOf;
    forall j | j in OneBits(x, k) && j > 0
      ensures j in Shifted(high)
    {
      assert j - 1 in high;
    }
  }

  // ---------------------------------------------------------------- the bit-counting distance

  /** The positions, byte and bit, at which two keys differ. */
  ghost function DifferingPositions(a: Key, b: Key): set<(nat, nat)>
    requires |a| == |b|
  {
    set i: nat, j: nat | i < |a| && j < 8 && a[i] / Pow2(j) % 2 != b[i] / Pow2(j) % 2 :: (i, j)
  }

  /** The distance is the number of bit positions at which the keys differ. */
  lemma {:induction false} DistanceIsCardinality(a: Key, b: Key)
    requires |a| == |b|
    ensures DifferingBits(a, b) == |DifferingPositions(a, b)|
  {
    hide Xor, Ones, OneBits;
    if a == [] {
      assert DifferingPositions(a, b) == {};
    } else {
      var x := Xor(a[0], b[0]);
      var ones, rest := OneBits(x, 8), DifferingPositions(a[1..], b[1..]);
      var head, tail := set j | j in ones :: (0, j), set y | y in rest :: (y.0 + 1, y.1);
      DistanceIsCardinality(a[1..], b[1..]);
      XorByte(a[0], b[0]);
      Pow2Constants();
      OnesIsCardinality(x, 8);
      HeadCard(ones, head);
      TailCard(rest, tail);
      Assembled(a, b, head, tail);
      assert head !! tail;
    }
  }

  lemma Assembled(a: Key, b: Key, head: set<(nat, nat)>, tail: set<(nat, nat)>)
    requires |a| == |b| > 0
    requires head == set j | j in OneBits(Xor(a[0], b[0]), 8) :: (0, j)
    requires tail == set y | y in DifferingPositions(a[1..], b[1..]) :: (y.0 + 1, y.1)
    ensures DifferingPositions(a, b) == head + tail
  {
    hide Xor;
    forall j: nat | j < 8
      ensures BitOf(Xor(a[0], b[0]), j) == 1 <==> a[0] / Pow2(j) % 2 != b[0] / Pow2(j) % 2
    {
      XorBits(a[0], b[0], j);
    }
    forall i: nat, j: nat | (i, j) in DifferingPositions(a, b)
      ensures (i, j) in head + tail
    {
      if i == 0 {
        assert j in OneBits(Xor(a[0], b[0]), 8);
      } else {
        assert (i - 1, j) in DifferingPositions(a[1..], b[1..]);
      }
    }
    forall i: nat, j: nat | (i, j) in head + tail
      ensures (i, j) in DifferingPositions(a, b)
    {
    }
  }

  // ---------------------------------------------------------------- the log2 distance

  lemma {:induction false} BitLenBounds(x: nat)
    ensures x < Pow2(BitLen(x))
    ensures x > 0 ==> Pow2(BitLen(x) - 1) <= x
  {
    if x > 0 {
      BitLenBounds(x / 2);
    }
  }

  /** The distance d of two keys is such that 2^(d - 1) <= XOR < 2^d. */
  lemma LogIsBracketed(a: Key, b: Key)
    requires |a| == |b|
    ensures var x, d := BigEndian(XorKeys(a, b)), LogDistance(a, b);
            && x < Pow2(d) && (d > 0 ==> Pow2(d - 1) <= x) && (d == 0 <==> a == b)
  {
    hide XorKeys, BigEndian;
    BitLenBounds(BigEndian(XorKeys(a, b)));
    CountAtMostLog(a, b);
  }

  // ---------------------------------------------------------------- varints

  /** Byte i of a varint: seven bits of the value, lowest first, and a flag on all but the last. */
  lemma {:induction false} VarintDigits(v: nat, i: nat)
    requires i < |VarintBytes(v)|
    ensures VarintBytes(v)[i] == v / Pow2(7 * i) % 128 + if i == |VarintBytes(v)| - 1 then 0 else 128
  {
    if i > 0 {
      VarintDigits(v / 128, i - 1);
      Pow2Constants();
      Pow2Add(7, 7 * (i - 1));
      DivDiv(v, 128, Pow2(7 * (i - 1)));
    }
  }
}
