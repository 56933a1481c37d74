/** The protobuf wire format as the generated marshalling code reads and writes it:
    base 128 varints, length-delimited records and unknown-field skipping.

    The functions are the specification, over the bytes still to be read; the methods are the
    loops of the generated code and are proved against them. */
module Wire {
  import opened Bits
  import opened Common

  datatype Error =
    | UnexpectedEof
    | IntOverflow
    | InvalidLength
    | EndGroupForNonGroup
    | IllegalTag
    | WrongWireType
    | UnexpectedEndOfGroup
    | IllegalWireType

  lemma DropDrop(s: seq<byte>, i: nat, n: nat)
    requires i + n <= |s|
    ensures s[i..][n..] == s[i + n..]
  {
  }

  lemma DropSlice(s: seq<byte>, i: nat, a: nat, b: nat)
    requires a <= b && i + b <= |s|
    ensures s[i..][a..b] == s[i + a..i + b]
  {
  }

  lemma DropOfConcat(a: seq<byte>, b: seq<byte>, n: nat)
    requires n <= |a|
    ensures (a + b)[n..] == a[n..] + b
  {
  }

  // ---------------------------------------------------------------- varints

  /** What a varint loop has read: the sum of the seven-bit groups before any truncation,
      the number of bytes consumed, and the error that stopped it. */
  datatype Varint = Varint(value: nat, size: nat, err: Option<Error>)

  /** Reads the rest of a varint of which k bytes have been read. */
  function VarintAt(s: seq<byte>, k: nat): (r: Varint)
    ensures r.size <= |s|
    ensures r.err.None? ==> r.size >= 1
  {
    if 7 * k >= 64 then Varint(0, 0, Some(IntOverflow))
    else if s == [] then Varint(0, 0, Some(UnexpectedEof))
    else if s[0] < 128 then Varint(s[0], 1, None)
    else
      var rest := VarintAt(s[1..], k + 1);
      Varint(s[0] % 128 + 128 * rest.value, 1 + rest.size, rest.err)
  }

  function VarintBytes(v: nat): (r: seq<byte>)
    ensures |r| >= 1
  {
    if v < 128 then [v] else [v % 128 + 128] + VarintBytes(v / 128)
  }

  /** `sovTopicMessage`, `sovWsMessage`: the size of a varint, from its bit length. */
  function Sov(x: nat): nat {
    (BitLen(Or(x, 1)) + 6) / 7
  }

  lemma ContinuationByte(v: nat)
    ensures Or(v % 128, 128) == v % 128 + 128
  {
    Pow2Constants();
    OrDisjoint(v % 128, 1, 7);
  }

  lemma {:induction false} BitLenShift7(x: nat)
    requires x >= 128
    ensures BitLen(x) == 7 + BitLen(x / 128)
  {
    var x1 := x / 2;
    var x2 := x1 / 2;
    var x3 := x2 / 2;
    var x4 := x3 / 2;
    var x5 := x4 / 2;
    var x6 := x5 / 2;
    assert BitLen(x) == 1 + BitLen(x1) == 2 + BitLen(x2) == 3 + BitLen(x3);
    assert BitLen(x3) == 1 + BitLen(x4) == 2 + BitLen(x5) == 3 + BitLen(x6);
    assert BitLen(x6) == 1 + BitLen(x6 / 2);
    assert x6 / 2 == x / 128;
  }

  lemma OrOne(x: nat)
    ensures Or(x, 1) == if x % 2 == 0 then x + 1 else x
  {
  }

  /** Sov computes the length of the encoding. */
  lemma {:induction false} SovIsLength(v: nat)
    ensures Sov(v) == |VarintBytes(v)|
  {
    OrOne(v);
    if v < 128 {
      var w := Or(v, 1);
      assert 1 <= w < 128;
      Pow2Constants();
      BitLenUpper(w, 7);
      assert BitLen(w) == 1 + BitLen(w / 2);
    } else {
      SovIsLength(v / 128);
      OrOne(v / 128);
      BitLenShift7(Or(v, 1));
      BitLenShift7(v);
      BitLenOrOne(v);
      BitLenOrOne(v / 128);
    }
  }

  lemma BitLenOrOne(x: nat)
    requires x > 0
    ensures BitLen(Or(x, 1)) == BitLen(x)
  {
    OrOne(x);
    assert Or(x, 1) / 2 == x / 2;
  }

  /** An uint64 takes at most ten bytes. */
  lemma {:induction false} VarintLength(v: nat, k: nat)
    requires v < Pow2(7 * k) && k > 0
    ensures |VarintBytes(v)| <= k
  {
    if v >= 128 {
      Pow2Constants();
      assert k > 1;
      Pow2Add(7, 7 * (k - 1));
      VarintLength(v / 128, k - 1);
    }
  }

  lemma Uint64Length(v: nat)
    requires v < TWO_64
    ensures |VarintBytes(v)| <= 10
  {
    Pow2Constants();
    Pow2Monotone(64, 70);
    VarintLength(v, 10);
  }

  /** Reading what was written gives the value back and stops at its end. */
  lemma {:induction false} VarintRoundTrip(v: nat, k: nat, rest: seq<byte>)
    requires k + |VarintBytes(v)| <= 10
    ensures VarintAt(VarintBytes(v) + rest, k) == Varint(v, |VarintBytes(v)|, None)
  {
    var s := VarintBytes(v) + rest;
    if v >= 128 {
      VarintRoundTrip(v / 128, k + 1, rest);
      assert s[0] == v % 128 + 128;
      assert s[1..] == VarintBytes(v / 128) + rest;
    }
  }

  /** A varint that ends inside `a` is read the same whatever follows. */
  lemma {:induction false} VarintPrefix(a: seq<byte>, b: seq<byte>, k: nat)
    requires VarintAt(a, k).err.None?
    ensures VarintAt(a + b, k) == VarintAt(a, k)
  {
    if a[0] >= 128 {
      assert (a + b)[1..] == a[1..] + b;
      VarintPrefix(a[1..], b, k + 1);
    }
  }

  /** The loop has gathered `full` from k bytes, and reading the rest gives `all`. */
  ghost predicate Gathered(all: Varint, s: seq<byte>, k: nat, full: int) {
    var r := VarintAt(s, k);
    && 0 <= full < Pow2(7 * k)
    && all.value == full + Pow2(7 * k) * r.value
    && all.size == k + r.size
    && all.err == r.err
  }

  lemma GatherOne(all: Varint, s: seq<byte>, k: nat, full: int)
    requires Gathered(all, s, k, full) && 7 * k < 64 && s != []
    ensures var full' := full + (s[0] % 128) * Pow2(7 * k);
            if s[0] < 128 then all == Varint(full', k + 1, None) else Gathered(all, s[1..], k + 1, full')
  {
    hide Pow2;
    var low := s[0] % 128;
    if s[0] >= 128 {
      GroupBound(full, low, 7 * k);
      GroupSum(7 * k, low, VarintAt(s[1..], k + 1).value);
      assert 7 * k + 7 == 7 * (k + 1);
    }
  }

  function Modulus(width: nat): nat {
    if width == 32 then TWO_32 else TWO_64
  }

  /** The varint loop of the generated decoder, into an accumulator of `width` bits. */
  method ReadVarint(data: seq<byte>, start: nat, width: nat) returns (v: nat, next: nat, err: Option<Error>)
    requires start <= |data| && (width == 32 || width == 64)
    ensures var r := VarintAt(data[start..], 0);
            v == r.value % Modulus(width) && next == start + r.size && err == r.err
    ensures start <= next <= |data|
  {
    hide Gathered, VarintAt, Pow2, Or, Shl;
    v, next, err := 0, start, None;
    var shift := 0;
    ghost var full, k, all := 0, 0, VarintAt(data[start..], 0);
    Pow2Constants();
    GatherStart(data[start..]);
    while true
      invariant shift == 7 * k && next == start + k && next <= |data|
      invariant Gathered(all, data[next..], k, full)
      invariant v == full % Pow2(width)
      decreases |data| - next
    {
      GatherStop(all, data[next..], k, full);
      if shift >= 64 {
        return v, next, Some(IntOverflow);
      }
      if next >= |data| {
        return v, next, Some(UnexpectedEof);
      }
      var b := data[next];
      DropDrop(data, next, 1);
      GatherOne(all, data[next..], k, full);
      OrShl(full, b % 128, shift, width);
      v := Or(v, Shl(b % 128, shift, width));
      full := full + (b % 128) * Pow2(shift);
      next := next + 1;
      if b < 128 {
        return v, next, None;
      }
      shift, k := shift + 7, k + 1;
    }
  }

  lemma GatherStart(s: seq<byte>)
    ensures Gathered(VarintAt(s, 0), s, 0, 0)
  {
  }

  lemma GatherStop(all: Varint, s: seq<byte>, k: nat, full: int)
    requires Gathered(all, s, k, full)
    ensures 0 <= full < Pow2(7 * k)
    ensures 7 * k >= 64 ==> all == Varint(full, k, Some(IntOverflow))
    ensures 7 * k < 64 && s == [] ==> all == Varint(full, k, Some(UnexpectedEof))
  {
  }

  lemma GroupBound(full: nat, low: nat, shift: nat)
    requires full < Pow2(shift) && low < 128
    ensures full + low * Pow2(shift) < Pow2(shift + 7)
  {
    Pow2Constants();
    Pow2Add(7, shift);
    MulMonotone(low + 1, 128, Pow2(shift));
    Distribute(low, 1, Pow2(shift));
  }

  lemma GroupSum(shift: nat, low: nat, high: nat)
    ensures Pow2(shift) * (low + 128 * high) == low * Pow2(shift) + Pow2(shift + 7) * high
  {
    Pow2Constants();
    Pow2Add(7, shift);
    var p := Pow2(shift);
    assert p * (low + 128 * high) == p * low + p * (128 * high);
    assert p * (128 * high) == (128 * p) * high;
  }

  lemma ThreeParts(buf: array<byte>, base: nat, offset: nat)
    requires base <= offset <= buf.Length
    ensures buf[..] == buf[..base] + buf[base..offset] + buf[offset..]
  {
  }

  /** `encodeVarintTopicMessage`, `encodeVarintWsMessage`: fills the bytes that end at `offset`. */
  method EncodeVarint(buf: array<byte>, offset: nat, v: uint64) returns (base: nat)
    requires |VarintBytes(v)| <= offset <= buf.Length
    modifies buf
    ensures base == offset - Sov(v)
    ensures buf[..] == old(buf[..base]) + VarintBytes(v) + old(buf[offset..])
  {
    hide Or, Sov, VarintBytes;
    SovIsLength(v);
    base := offset - Sov(v);
    var o, x := base, v;
    ghost var all := VarintBytes(v);
    while x >= 128
      invariant base <= o && o + |VarintBytes(x)| == offset
      invariant buf[..base] == old(buf[..base]) && buf[offset..] == old(buf[offset..])
      invariant buf[base..o] + VarintBytes(x) == all
    {
      VarintUnfold(x);
      ghost var before := buf[base..o];
      var b := Or(x % 128, 128);
      buf[o] := b;
      assert buf[base..o] == before;
      assert buf[base..o + 1] == before + [b];
      x := x / 128;
      o := o + 1;
    }
    VarintUnfold(x);
    ghost var before := buf[base..o];
    buf[o] := x;
    assert buf[base..o] == before;
    assert buf[base..offset] == before + [x];
    ThreeParts(buf, base, offset);
  }

  lemma VarintUnfold(x: nat)
    ensures x < 128 ==> VarintBytes(x) == [x]
    ensures x >= 128 ==> Or(x % 128, 128) < 256 && VarintBytes(x) == [Or(x % 128, 128)] + VarintBytes(x / 128)
  {
    ContinuationByte(x);
  }
}
