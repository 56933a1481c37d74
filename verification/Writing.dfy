/** Backward writing of records into a pre-sized buffer, as the generated marshalling code does it. */
module Writing {
  import opened Bits
  import opened Wire
  import opened Records

  lemma OneByteTag(num: int, wireType: nat)
    requires 1 <= num < 16 && wireType < 8
    ensures Tag(num, wireType) == [num * 8 + wireType]
  {
  }

  lemma ItemSize(item: Item)
    requires Writable(item) && item.num < 16
    requires item.Blob? ==> |item.data| < TWO_63
    ensures |ItemBytes(item)| == match item
              case Scalar(_, value) => 1 + Sov(value)
              case Blob(_, data) => 1 + |data| + Sov(|data|)
  {
    match item
    case Scalar(num, value) =>
      OneByteTag(num, 0);
      SovIsLength(value);
    case Blob(num, data) =>
      OneByteTag(num, 2);
      SovIsLength(|data|);
  }

  /** Putting `x` in front of what is already written at the end of a buffer. */
  lemma Prepend(start: seq<byte>, was: seq<byte>, now: seq<byte>, done: seq<byte>, x: seq<byte>, base: nat)
    requires base + |x| <= |start| && was == start[..base + |x|] + done
    requires now == was[..base] + x + was[base + |x|..] || (x == [] && now == was)
    ensures now == start[..base] + (x + done)
  {
    assert was[..base] == start[..base] && was[base + |x|..] == done;
    assert x == [] ==> x + done == done;
  }

  lemma Regroup(t: seq<byte>, v: seq<byte>, d: seq<byte>, r: seq<byte>)
    ensures t + (v + (d + r)) == t + v + d + r
  {
  }

  /** The items of a field that is left out when it holds its zero value. */
  function Optional(present: bool, item: Item): seq<Item> {
    if present then [item] else []
  }

  function OptionalBytes(present: bool, item: Item): seq<byte>
    requires Writable(item)
  {
    if present then ItemBytes(item) else []
  }

  /** The bytes of a varint field with the given tag byte; nothing when the value is zero. */
  function ScalarBytes(tag: byte, value: uint64): seq<byte> {
    if value == 0 then [] else [tag] + VarintBytes(value)
  }

  /** The bytes of a bytes field with the given tag byte; nothing when it is empty. */
  function BlobBytes(tag: byte, data: seq<byte>): seq<byte> {
    if data == [] then [] else [tag] + VarintBytes(|data|) + data
  }

  lemma ScalarLayout(num: int, value: uint64)
    requires 1 <= num < 16
    ensures OptionalBytes(value != 0, Scalar(num, value)) == ScalarBytes(num * 8, value)
  {
    hide VarintBytes, Tag;
    OneByteTag(num, 0);
  }

  lemma BlobLayout(num: int, data: seq<byte>)
    requires 1 <= num < 16
    ensures OptionalBytes(data != [], Blob(num, data)) == BlobBytes(num * 8 + 2, data)
  {
    hide VarintBytes, Tag;
    OneByteTag(num, 2);
  }

  lemma OptionalHolds(present: bool, item: Item)
    ensures forall i | i in Optional(present, item) :: i == item
  {
  }

  lemma OptionalEncodes(present: bool, item: Item, rest: seq<Item>)
    requires Writable(item) && forall i | i in rest :: Writable(i)
    ensures forall i | i in Optional(present, item) + rest :: Writable(i)
    ensures ItemsBytes(Optional(present, item) + rest) == OptionalBytes(present, item) + ItemsBytes(rest)
  {
    hide ItemBytes;
    if present {
      assert ([item] + rest)[1..] == rest;
    } else {
      assert [] + rest == rest;
    }
  }

  lemma NoItems()
    ensures ItemsBytes([]) == []
  {
  }

  /** The buffer still holds `start` before index i and `done` from there on. */
  ghost predicate Filled(buf: array<byte>, start: seq<byte>, i: nat, done: seq<byte>)
    reads buf
  {
    |start| == buf.Length && i + |done| == buf.Length && buf[..] == start[..i] + done
  }

  lemma FilledStart(buf: array<byte>)
    ensures Filled(buf, buf[..], buf.Length, [])
  {
  }

  lemma FilledMeans(buf: array<byte>, start: seq<byte>, i: nat, done: seq<byte>)
    requires Filled(buf, start, i, done)
    ensures |start| == buf.Length && i + |done| == buf.Length && buf[..] == start[..i] + done
  {
  }

  method PutBytes(buf: array<byte>, i: nat, data: seq<byte>, ghost start: seq<byte>, ghost done: seq<byte>)
    returns (base: nat)
    requires Filled(buf, start, i, done) && |data| <= i
    modifies buf
    ensures base == i - |data| && Filled(buf, start, base, data + done)
  {
    base := i - |data|;
    ghost var was := buf[..];
    forall k | 0 <= k < |data| {
      buf[base + k] := data[k];
    }
    assert buf[..] == was[..base] + data + was[i..];
    Prepend(start, was, buf[..], done, data, base);
  }

  method PutVarint(buf: array<byte>, i: nat, v: uint64, ghost start: seq<byte>, ghost done: seq<byte>)
    returns (base: nat)
    requires Filled(buf, start, i, done) && |VarintBytes(v)| <= i
    modifies buf
    ensures base == i - |VarintBytes(v)| && Filled(buf, start, base, VarintBytes(v) + done)
  {
    SovIsLength(v);
    hide VarintBytes;
    ghost var was := buf[..];
    base := EncodeVarint(buf, i, v);
    Prepend(start, was, buf[..], done, VarintBytes(v), base);
  }

  method PutTag(buf: array<byte>, i: nat, tag: byte, ghost start: seq<byte>, ghost done: seq<byte>)
    returns (base: nat)
    requires Filled(buf, start, i, done) && i > 0
    modifies buf
    ensures base == i - 1 && Filled(buf, start, base, [tag] + done)
  {
    base := i - 1;
    ghost var was := buf[..];
    buf[base] := tag;
    assert buf[..] == was[..base] + [tag] + was[i..];
    Prepend(start, was, buf[..], done, [tag], base);
  }

  /** When `value` is not zero, writes a tag byte and a varint in front of `done`. */
  method PutScalar(buf: array<byte>, i: nat, tag: byte, value: uint64, ghost num: int,
                   ghost start: seq<byte>, ghost done: seq<byte>) returns (base: nat)
    requires 1 <= num < 16 && tag == num * 8
    requires Filled(buf, start, i, done) && |OptionalBytes(value != 0, Scalar(num, value))| <= i
    modifies buf
    ensures base == i - |OptionalBytes(value != 0, Scalar(num, value))|
    ensures Filled(buf, start, base, OptionalBytes(value != 0, Scalar(num, value)) + done)
  {
    base := i;
    if value != 0 {
      OneByteTag(num, 0);
      ghost var v := VarintBytes(value);
      assert ItemBytes(Scalar(num, value)) == [tag] + v;
      assert [tag] + (v + done) == [tag] + v + done;
      hide ItemBytes, VarintBytes, Tag, Filled;
      base := PutVarint(buf, base, value, start, done);
      base := PutTag(buf, base, tag, start, v + done);
    } else {
      assert [] + done == done;
    }
  }

  /** When `data` is not empty, writes a tag byte, its length and its bytes in front of `done`. */
  method PutBlob(buf: array<byte>, i: nat, tag: byte, data: seq<byte>, ghost num: int,
                 ghost start: seq<byte>, ghost done: seq<byte>) returns (base: nat)
    requires 1 <= num < 16 && tag == num * 8 + 2 && |data| < TWO_63
    requires Filled(buf, start, i, done) && |OptionalBytes(data != [], Blob(num, data))| <= i
    modifies buf
    ensures base == i - |OptionalBytes(data != [], Blob(num, data))|
    ensures Filled(buf, start, base, OptionalBytes(data != [], Blob(num, data)) + done)
  {
    base := i;
    if |data| > 0 {
      OneByteTag(num, 2);
      ghost var v := VarintBytes(|data|);
      assert ItemBytes(Blob(num, data)) == [tag] + v + data;
      Regroup([tag], v, data, done);
      hide ItemBytes, VarintBytes, Tag, Filled;
      base := PutBytes(buf, base, data, start, done);
      base := PutVarint(buf, base, |data|, start, data + done);
      base := PutTag(buf, base, tag, start, v + (data + done));
    } else {
      assert [] + done == done;
    }
  }

  /** The low 32 bits are those of the low 64 bits. */
  lemma ModMod(x: nat)
    ensures x % TWO_64 % TWO_32 == x % TWO_32
    ensures ToInt32(x % TWO_64) == ToInt32(x % TWO_32)
  {
  }
}
