/** The WsMessage codec. It has the shape of the TopicMessage codec and adds a bool field, a
    sign-extended int32 and a string, held here as the bytes of the Go string. */
module WsCodec {
  import opened Bits
  import opened Common
  import opened Wire
  import opened Records
  import opened RecordLaws
  import opened Writing
  import opened Decoding
  import opened Language

  datatype Ws = Ws(
    withAcknowledge: bool,
    counter: uint64,
    kind: int32,
    payload: seq<byte>,
    topic: seq<byte>,
    version: uint32)

  const ZERO := Ws(false, 0, 0, [], [], 0)

  const SCHEMA: Schema := map[
    1 := VarintKind, 2 := VarintKind, 3 := VarintKind, 4 := BytesKind, 5 := BytesKind, 6 := VarintKind]

  /** What one record does to the message. A varint cut short leaves its bits in the field,
      except for the bool, which is gathered in a local variable first. */
  function Apply(m: Ws, item: Item): Ws {
    match item
    case Scalar(num, v) => if num == 1 then m.(withAcknowledge := v != 0) else Assign(m, num, v)
    case Torn(num, v) => Assign(m, num, v)
    case Blob(num, data) =>
      if num == 4 then m.(payload := data)
      else if num == 5 then m.(topic := data)
      else m
    case Nothing => m
  }

  function Assign(m: Ws, num: int, v: uint64): Ws {
    if num == 2 then m.(counter := v)
    else if num == 3 then m.(kind := ToInt32(v))
    else if num == 6 then m.(version := v % TWO_32)
    else m
  }

  const FORMAT: Format<Ws> := Format(SCHEMA, Apply)

  /** Decoding a buffer into a message. */
  function Decode(m: Ws, data: seq<byte>): Decoded<Ws> {
    DecodeFrom(FORMAT, m, data, 0)
  }

  function Acknowledge(m: Ws): uint64 {
    if m.withAcknowledge then 1 else 0
  }

  /** The records of a message: proto3 leaves out fields that hold their zero value. */
  function Fields(m: Ws): seq<Item> {
    Optional(Acknowledge(m) != 0, Scalar(1, Acknowledge(m)))
    + Optional(m.counter != 0, Scalar(2, m.counter))
    + Optional(m.kind != 0, Scalar(3, ToUint64(m.kind)))
    + Optional(m.payload != [], Blob(4, m.payload))
    + Optional(m.topic != [], Blob(5, m.topic))
    + Optional(m.version != 0, Scalar(6, m.version))
  }

  lemma FieldsAreWritable(m: Ws)
    ensures forall i | i in Fields(m) :: Writable(i)
  {
    hide Optional;
    forall i | i in Fields(m)
      ensures Writable(i)
    {
      OptionalHolds(Acknowledge(m) != 0, Scalar(1, Acknowledge(m)));
      OptionalHolds(m.counter != 0, Scalar(2, m.counter));
      OptionalHolds(m.kind != 0, Scalar(3, ToUint64(m.kind)));
      OptionalHolds(m.payload != [], Blob(4, m.payload));
      OptionalHolds(m.topic != [], Blob(5, m.topic));
      OptionalHolds(m.version != 0, Scalar(6, m.version));
    }
  }

  function Encode(m: Ws): seq<byte> {
    FieldsAreWritable(m);
    ItemsBytes(Fields(m))
  }

  function Size(m: Ws): nat {
    (if m.withAcknowledge then 2 else 0)
    + (if m.counter != 0 then 1 + Sov(m.counter) else 0)
    + (if m.kind != 0 then 1 + Sov(ToUint64(m.kind)) else 0)
    + (if |m.payload| > 0 then 1 + |m.payload| + Sov(|m.payload|) else 0)
    + (if |m.topic| > 0 then 1 + |m.topic| + Sov(|m.topic|) else 0)
    + (if m.version != 0 then 1 + Sov(m.version) else 0)
  }

  /** A message whose byte fields are Go slices and strings. */
  predicate Sized(m: Ws) {
    |m.payload| < TWO_63 && |m.topic| < TWO_63
  }

  // ---------------------------------------------------------------- laws

  lemma Nested(a: seq<Item>, b: seq<Item>, c: seq<Item>, d: seq<Item>, e: seq<Item>, f: seq<Item>)
    ensures a + b + c + d + e + f == a + (b + (c + (d + (e + (f + [])))))
  {
  }

  /** The encoding, field by field. */
  lemma EncodeUnfolded(m: Ws)
    ensures Encode(m) == OptionalBytes(Acknowledge(m) != 0, Scalar(1, Acknowledge(m)))
                       + (OptionalBytes(m.counter != 0, Scalar(2, m.counter))
                       + (OptionalBytes(m.kind != 0, Scalar(3, ToUint64(m.kind)))
                       + (OptionalBytes(m.payload != [], Blob(4, m.payload))
                       + (OptionalBytes(m.topic != [], Blob(5, m.topic))
                       + (OptionalBytes(m.version != 0, Scalar(6, m.version))
                       + [])))))
  {
    hide Optional, OptionalBytes, ItemsBytes, Acknowledge, ToUint64;
    var f2 := Optional(m.counter != 0, Scalar(2, m.counter));
    var f3 := Optional(m.kind != 0, Scalar(3, ToUint64(m.kind)));
    var f4 := Optional(m.payload != [], Blob(4, m.payload));
    var f5 := Optional(m.topic != [], Blob(5, m.topic));
    var f6 := Optional(m.version != 0, Scalar(6, m.version));
    var f1 := Optional(Acknowledge(m) != 0, Scalar(1, Acknowledge(m)));
    OptionalEncodes(m.version != 0, Scalar(6, m.version), []);
    OptionalEncodes(m.topic != [], Blob(5, m.topic), f6 + []);
    OptionalEncodes(m.payload != [], Blob(4, m.payload), f5 + (f6 + []));
    OptionalEncodes(m.kind != 0, Scalar(3, ToUint64(m.kind)), f4 + (f5 + (f6 + [])));
    OptionalEncodes(m.counter != 0, Scalar(2, m.counter), f3 + (f4 + (f5 + (f6 + []))));
    OptionalEncodes(Acknowledge(m) != 0, Scalar(1, Acknowledge(m)), f2 + (f3 + (f4 + (f5 + (f6 + [])))));
    Nested(f1, f2, f3, f4, f5, f6);
    NoItems();
  }

  lemma SovOne()
    ensures Sov(1) == 1
  {
  }

  /** Size is the exact length of the encoding. */
  lemma SizeIsExact(m: Ws)
    requires Sized(m)
    ensures Size(m) == |Encode(m)|
  {
    hide Encode, ItemBytes, Sov;
    EncodeUnfolded(m);
    SovOne();
    ItemSize(Scalar(1, Acknowledge(m)));
    ItemSize(Scalar(2, m.counter));
    ItemSize(Scalar(3, ToUint64(m.kind)));
    ItemSize(Blob(4, m.payload));
    ItemSize(Blob(5, m.topic));
    ItemSize(Scalar(6, m.version));
  }

  lemma FieldsAreValid(m: Ws)
    requires Sized(m)
    ensures ValidItems(SCHEMA, Fields(m))
  {
    hide Optional;
    forall i | i in Fields(m)
      ensures ValidItem(SCHEMA, i) && Writable(i)
    {
      OptionalHolds(Acknowledge(m) != 0, Scalar(1, Acknowledge(m)));
      OptionalHolds(m.counter != 0, Scalar(2, m.counter));
      OptionalHolds(m.kind != 0, Scalar(3, ToUint64(m.kind)));
      OptionalHolds(m.payload != [], Blob(4, m.payload));
      OptionalHolds(m.topic != [], Blob(5, m.topic));
      OptionalHolds(m.version != 0, Scalar(6, m.version));
    }
  }

  lemma NonZeroKind(t: int32)
    ensures t != 0 <==> ToUint64(t) != 0
  {
  }

  /** A negative kind is sign-extended to 64 bits and cut back to 32. */
  lemma KindRoundTrip(t: int32)
    ensures ToInt32(ToUint64(t)) == t
  {
  }

  /** What decoding an encoding into a message that is already filled leaves: fields that hold
      their zero value are not on the wire and do not clear anything; all others replace. */
  function Merge(m: Ws, x: Ws): Ws {
    Ws(m.withAcknowledge || x.withAcknowledge,
       if x.counter != 0 then x.counter else m.counter,
       if x.kind != 0 then x.kind else m.kind,
       if x.payload != [] then x.payload else m.payload,
       if x.topic != [] then x.topic else m.topic,
       if x.version != 0 then x.version else m.version)
  }

  lemma FieldsMerge(m: Ws, x: Ws)
    ensures ApplyAll(FORMAT, m, Fields(x)) == Merge(m, x)
  {
    hide ApplyAll;
    var f1 := Optional(Acknowledge(x) != 0, Scalar(1, Acknowledge(x)));
    var f2 := Optional(x.counter != 0, Scalar(2, x.counter));
    var f3 := Optional(x.kind != 0, Scalar(3, ToUint64(x.kind)));
    var f4 := Optional(x.payload != [], Blob(4, x.payload));
    var f5 := Optional(x.topic != [], Blob(5, x.topic));
    var f6 := Optional(x.version != 0, Scalar(6, x.version));
    KindRoundTrip(x.kind);
    ApplyConcat(FORMAT, m, f1 + f2 + f3 + f4 + f5, f6);
    ApplyConcat(FORMAT, m, f1 + f2 + f3 + f4, f5);
    ApplyConcat(FORMAT, m, f1 + f2 + f3, f4);
    ApplyConcat(FORMAT, m, f1 + f2, f3);
    ApplyConcat(FORMAT, m, f1, f2);
    var all := Merge(m, x);
    ApplyOptional(FORMAT, m, Acknowledge(x) != 0, Scalar(1, Acknowledge(x)));
    var m1 := m.(withAcknowledge := all.withAcknowledge);
    ApplyOptional(FORMAT, m1, x.counter != 0, Scalar(2, x.counter));
    var m2 := m1.(counter := all.counter);
    ApplyOptional(FORMAT, m2, x.kind != 0, Scalar(3, ToUint64(x.kind)));
    var m3 := m2.(kind := all.kind);
    ApplyOptional(FORMAT, m3, x.payload != [], Blob(4, x.payload));
    var m4 := m3.(payload := all.payload);
    ApplyOptional(FORMAT, m4, x.topic != [], Blob(5, x.topic));
    var m5 := m4.(topic := all.topic);
    ApplyOptional(FORMAT, m5, x.version != 0, Scalar(6, x.version));
  }

  lemma FieldsRebuild(m: Ws)
    ensures ApplyAll(FORMAT, ZERO, Fields(m)) == m
  {
    hide ApplyAll, Fields;
    FieldsMerge(ZERO, m);
  }

  /** Unmarshal of an encoding into any message. */
  lemma DecodeInto(m: Ws, x: Ws)
    requires Sized(x) && |Encode(x)| < TWO_63
    ensures Decode(m, Encode(x)) == Decoded(Merge(m, x), None)
  {
    hide DecodeFrom, ApplyAll, ItemsBytes, Fields;
    FieldsAreValid(x);
    DecodeInvertsWriting(FORMAT, m, Fields(x));
    FieldsMerge(m, x);
  }

  /** The bytes on the wire. */
  lemma WireLayout(m: Ws)
    ensures Encode(m) == (if m.withAcknowledge then [0x08, 1] else [])
                       + (ScalarBytes(0x10, m.counter)
                       + (ScalarBytes(0x18, ToUint64(m.kind))
                       + (BlobBytes(0x22, m.payload)
                       + (BlobBytes(0x2a, m.topic)
                       + ScalarBytes(0x30, m.version)))))
  {
    hide Encode, OptionalBytes, ToUint64, ScalarBytes, BlobBytes;
    EncodeUnfolded(m);
    NonZeroKind(m.kind);
    AcknowledgeLayout(m);
    ScalarLayout(2, m.counter);
    ScalarLayout(3, ToUint64(m.kind));
    BlobLayout(4, m.payload);
    BlobLayout(5, m.topic);
    ScalarLayout(6, m.version);
    assert ScalarBytes(0x30, m.version) + [] == ScalarBytes(0x30, m.version);
  }

  lemma AcknowledgeLayout(m: Ws)
    ensures OptionalBytes(Acknowledge(m) != 0, Scalar(1, Acknowledge(m))) == if m.withAcknowledge then [0x08, 1] else []
  {
    ScalarLayout(1, Acknowledge(m));
  }

  /** A varint field whose value breaks off keeps the bits that were read, except for the bool,
      which is left as it was. */
  lemma TornField(m: Ws, tag: seq<byte>, s: seq<byte>)
    requires IsVarint(tag) && Wire64(tag) % 8 == 0 && VarintAt(s, 0).err.Some?
    ensures var num, v := ToInt32(Wire64(tag) / 8), VarintAt(s, 0).value % TWO_64;
            && (num == 1 ==> Decode(m, tag + s) == Decoded(m, VarintAt(s, 0).err))
            && (num == 2 ==> Decode(m, tag + s) == Decoded(m.(counter := v), VarintAt(s, 0).err))
            && (num == 3 ==> Decode(m, tag + s) == Decoded(m.(kind := ToInt32(v)), VarintAt(s, 0).err))
            && (num == 6 ==> Decode(m, tag + s) == Decoded(m.(version := v % TWO_32), VarintAt(s, 0).err))
  {
    hide VarintAt, DecodeFrom;
    if ToInt32(Wire64(tag) / 8) in {1, 2, 3, 6} {
      TornIsRead(FORMAT, m, tag, s);
    }
  }

  /** Unmarshal inverts Marshal. */
  lemma RoundTrip(m: Ws)
    requires Sized(m) && |Encode(m)| < TWO_63
    ensures Decode(ZERO, Encode(m)) == Decoded(m, None)
  {
    hide DecodeFrom, ApplyAll, ItemsBytes, Fields;
    FieldsAreValid(m);
    DecodeInvertsWriting(FORMAT, ZERO, Fields(m));
    FieldsRebuild(m);
  }

  /** A well-formed unknown field between any two fields of an encoding is invisible. */
  lemma UnknownFieldInvisible(m: Ws, k: nat, f: Field)
    requires Sized(m) && k <= |Fields(m)|
    requires UnknownTo(SCHEMA, f)
    requires |Encode(m)| + |FieldBytes(f)| < TWO_63
    ensures forall i | i in Fields(m)[..k] :: Writable(i)
    ensures forall i | i in Fields(m)[k..] :: Writable(i)
    ensures Decode(ZERO, ItemsBytes(Fields(m)[..k]) + FieldBytes(f) + ItemsBytes(Fields(m)[k..])) == Decoded(m, None)
  {
    hide DecodeFrom, ApplyAll, ItemsBytes, Fields, FieldBytes;
    FieldsAreValid(m);
    UnknownFieldBetween(FORMAT, ZERO, Fields(m), k, f);
    FieldsRebuild(m);
  }

  // ---------------------------------------------------------------- the generated methods

  /** Fills the buffer from its end; returns the number of bytes written. */
  method MarshalToSizedBuffer(m: Ws, buf: array<byte>) returns (n: nat)
    requires Sized(m) && Size(m) <= buf.Length
    modifies buf
    ensures n == Size(m)
    ensures buf[..] == old(buf[..buf.Length - n]) + Encode(m)
  {
    hide Encode, Size, OptionalBytes, ToUint64, Acknowledge, Filled;
    SizeIsExact(m);
    EncodeUnfolded(m);
    NonZeroKind(m.kind);
    var i := buf.Length;
    ghost var start, d0: seq<byte> := buf[..], [];
    FilledStart(buf);
    ghost var d6 := OptionalBytes(m.version != 0, Scalar(6, m.version)) + d0;
    ghost var d5 := OptionalBytes(m.topic != [], Blob(5, m.topic)) + d6;
    ghost var d4 := OptionalBytes(m.payload != [], Blob(4, m.payload)) + d5;
    ghost var d3 := OptionalBytes(m.kind != 0, Scalar(3, ToUint64(m.kind))) + d4;
    ghost var d2 := OptionalBytes(m.counter != 0, Scalar(2, m.counter)) + d3;
    ghost var d1 := OptionalBytes(Acknowledge(m) != 0, Scalar(1, Acknowledge(m))) + d2;
    i := PutScalar(buf, i, 0x30, m.version, 6, start, d0);
    i := PutBlob(buf, i, 0x2a, m.topic, 5, start, d6);
    i := PutBlob(buf, i, 0x22, m.payload, 4, start, d5);
    i := PutScalar(buf, i, 0x18, ToUint64(m.kind), 3, start, d4);
    i := PutScalar(buf, i, 0x10, m.counter, 2, start, d3);
    i := PutScalar(buf, i, 0x8, Acknowledge(m), 1, start, d2);
    n := buf.Length - i;
    FilledMeans(buf, start, i, d1);
  }

  /** Allocates exactly Size bytes; every one of them is written. */
  method Marshal(m: Ws) returns (data: array<byte>)
    requires Sized(m)
    ensures fresh(data) && data[..] == Encode(m)
  {
    SizeIsExact(m);
    data := new byte[Size(m)];
    var n := MarshalToSizedBuffer(m, data);
    assert data[..data.Length - n] == [];
  }

  /** The message object that Unmarshal fills. */
  class Message {
    var withAcknowledge: bool
    var counter: uint64
    var kind: int32
    var payload: seq<byte>
    var topic: seq<byte>
    var version: uint32

    function Contents(): Ws
      reads this
    {
      Ws(withAcknowledge, counter, kind, payload, topic, version)
    }

    constructor ()
      ensures Contents() == ZERO
    {
      withAcknowledge, counter, kind, payload, topic, version := false, 0, 0, [], [], 0;
    }

    /** One turn of the decoding loop. */
    method UnmarshalField(data: seq<byte>, preIndex: nat) returns (next: nat, err: Option<Error>)
      requires preIndex < |data| < TWO_63
      modifies this
      ensures var r := RecordAt(SCHEMA, data[preIndex..], preIndex);
              && Contents() == Apply(old(Contents()), r.item)
              && err == r.err
              && (err.None? ==> next == preIndex + r.size)
    {
      hide VarintAt, BytesRecord, UnknownRecord, RecordAt, ToInt32;
      var wire, i, e := ReadVarint(data, preIndex, 64);
      next := i;
      if e.Some? {
        TornTag(SCHEMA, data[preIndex..], preIndex);
        return i, e;
      }
      var fieldNum, wireType := ToInt32(wire / 8), wire % 8;
      RecordCases(SCHEMA, data[preIndex..], preIndex, fieldNum, wireType);
      if wireType == 4 {
        return i, Some(EndGroupForNonGroup);
      }
      if fieldNum <= 0 {
        return i, Some(IllegalTag);
      }
      DropDrop(data, preIndex, i - preIndex);
      match fieldNum
      case 1 =>
        if wireType != 0 {
          return i, Some(WrongWireType);
        }
        var v: nat;
        v, next, err := ReadVarint(data, i, 64);
        if err.None? {
          withAcknowledge := v != 0;
        }
      case 2 =>
        if wireType != 0 {
          return i, Some(WrongWireType);
        }
        counter, next, err := ReadVarint(data, i, 64);
      case 3 =>
        if wireType != 0 {
          return i, Some(WrongWireType);
        }
        ModMod(VarintAt(data[i..], 0).value);
        var v: nat;
        v, next, err := ReadVarint(data, i, 32);
        kind := ToInt32(v);
      case 4 =>
        if wireType != 2 {
          return i, Some(WrongWireType);
        }
        var first, post, e4 := ReadLength(data, i, preIndex, 4);
        if e4.Some? {
          return i, e4;
        }
        payload := data[first..post];
        return post, None;
      case 5 =>
        if wireType != 2 {
          return i, Some(WrongWireType);
        }
        var first, post, e5 := ReadLength(data, i, preIndex, 5);
        if e5.Some? {
          return i, e5;
        }
        topic := data[first..post];
        return post, None;
      case 6 =>
        if wireType != 0 {
          return i, Some(WrongWireType);
        }
        ModMod(VarintAt(data[i..], 0).value);
        version, next, err := ReadVarint(data, i, 32);
      case _ =>
        next, err := SkipUnknown(data, preIndex);
    }

    method Unmarshal(data: seq<byte>) returns (err: Option<Error>)
      requires |data| < TWO_63
      modifies this
      ensures Decoded(Contents(), err) == Decode(old(Contents()), data)
    {
      hide DecodeFrom, RecordAt, Apply;
      var i := 0;
      ghost var goal := Decode(Contents(), data);
      DecodeEnds(FORMAT, Contents(), data);
      while i < |data|
        invariant i <= |data|
        invariant DecodeFrom(FORMAT, Contents(), data[i..], i) == goal
        decreases |data| - i
      {
        DecodeTurn(FORMAT, Contents(), data[i..], i);
        var next, e := UnmarshalField(data, i);
        if e.Some? {
          return e;
        }
        DropDrop(data, i, RecordAt(SCHEMA, data[i..], i).size);
        i := next;
      }
      // the generated check `iNdEx > l` after the loop cannot hold: i == |data|
      assert i == |data|;
      DecodeEnds(FORMAT, Contents(), data);
      return None;
    }
  }
}
