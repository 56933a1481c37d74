/** The TopicMessage codec: field layout, marshalling into a buffer of the computed size and
    unmarshalling into an existing message. */
module TopicCodec {
  import opened Bits
  import opened Common
  import opened Wire
  import opened Records
  import opened RecordLaws
  import opened Writing
  import opened Decoding
  import opened Language

  datatype Topic = Topic(
    version: uint32,
    payload: seq<byte>,
    timestamp: int64,
    pk: seq<byte>,
    signatureOnPid: seq<byte>)

  const ZERO := Topic(0, [], 0, [], [])

  const SCHEMA: Schema := map[
    1 := VarintKind, 2 := BytesKind, 3 := VarintKind, 4 := BytesKind, 5 := BytesKind]

  /** What one record does to the message. A varint cut short leaves its bits in the field. */
  function Apply(m: Topic, item: Item): Topic {
    match item
    case Scalar(num, v) => Assign(m, num, v)
    case Torn(num, v) => Assign(m, num, v)
    case Blob(num, data) =>
      if num == 2 then m.(payload := data)
      else if num == 4 then m.(pk := data)
      else if num == 5 then m.(signatureOnPid := data)
      else m
    case Nothing => m
  }

  function Assign(m: Topic, num: int, v: uint64): Topic {
    if num == 1 then m.(version := v % TWO_32)
    else if num == 3 then m.(timestamp := AsInt(v))
    else m
  }

  const FORMAT: Format<Topic> := Format(SCHEMA, Apply)

  /** Decoding a buffer into a message. */
  function Decode(m: Topic, data: seq<byte>): Decoded<Topic> {
    DecodeFrom(FORMAT, m, data, 0)
  }

  /** The records of a message: proto3 leaves out fields that hold their zero value. */
  function Fields(m: Topic): seq<Item> {
    Optional(m.version != 0, Scalar(1, m.version))
    + Optional(m.payload != [], Blob(2, m.payload))
    + Optional(m.timestamp != 0, Scalar(3, ToUint64(m.timestamp)))
    + Optional(m.pk != [], Blob(4, m.pk))
    + Optional(m.signatureOnPid != [], Blob(5, m.signatureOnPid))
  }

  lemma FieldsAreWritable(m: Topic)
    ensures forall i | i in Fields(m) :: Writable(i)
  {
    hide Optional;
    forall i | i in Fields(m)
      ensures Writable(i)
    {
      OptionalHolds(m.version != 0, Scalar(1, m.version));
      OptionalHolds(m.payload != [], Blob(2, m.payload));
      OptionalHolds(m.timestamp != 0, Scalar(3, ToUint64(m.timestamp)));
      OptionalHolds(m.pk != [], Blob(4, m.pk));
      OptionalHolds(m.signatureOnPid != [], Blob(5, m.signatureOnPid));
    }
  }

  function Encode(m: Topic): seq<byte> {
    FieldsAreWritable(m);
    ItemsBytes(Fields(m))
  }

  function Size(m: Topic): nat {
    (if m.version != 0 then 1 + Sov(m.version) else 0)
    + (if |m.payload| > 0 then 1 + |m.payload| + Sov(|m.payload|) else 0)
    + (if m.timestamp != 0 then 1 + Sov(ToUint64(m.timestamp)) else 0)
    + (if |m.pk| > 0 then 1 + |m.pk| + Sov(|m.pk|) else 0)
    + (if |m.signatureOnPid| > 0 then 1 + |m.signatureOnPid| + Sov(|m.signatureOnPid|) else 0)
  }

  /** A message whose byte fields are Go slices. */
  predicate Sized(m: Topic) {
    |m.payload| < TWO_63 && |m.pk| < TWO_63 && |m.signatureOnPid| < TWO_63
  }

  // ---------------------------------------------------------------- laws

  /** The encoding, field by field. */
  lemma EncodeUnfolded(m: Topic)
    ensures Encode(m) == OptionalBytes(m.version != 0, Scalar(1, m.version))
                       + (OptionalBytes(m.payload != [], Blob(2, m.payload))
                       + (OptionalBytes(m.timestamp != 0, Scalar(3, ToUint64(m.timestamp)))
                       + (OptionalBytes(m.pk != [], Blob(4, m.pk))
                       + (OptionalBytes(m.signatureOnPid != [], Blob(5, m.signatureOnPid))
                       + []))))
  {
    hide Optional, OptionalBytes, ItemsBytes, ToUint64;
    var f1, f2 := Optional(m.version != 0, Scalar(1, m.version)), Optional(m.payload != [], Blob(2, m.payload));
    var f3 := Optional(m.timestamp != 0, Scalar(3, ToUint64(m.timestamp)));
    var f4, f5 := Optional(m.pk != [], Blob(4, m.pk)), Optional(m.signatureOnPid != [], Blob(5, m.signatureOnPid));
    OptionalEncodes(m.signatureOnPid != [], Blob(5, m.signatureOnPid), []);
    OptionalEncodes(m.pk != [], Blob(4, m.pk), f5 + []);
    OptionalEncodes(m.timestamp != 0, Scalar(3, ToUint64(m.timestamp)), f4 + (f5 + []));
    OptionalEncodes(m.payload != [], Blob(2, m.payload), f3 + (f4 + (f5 + [])));
    OptionalEncodes(m.version != 0, Scalar(1, m.version), f2 + (f3 + (f4 + (f5 + []))));
    assert Fields(m) == f1 + (f2 + (f3 + (f4 + (f5 + []))));
    NoItems();
  }

  /** Size is the exact length of the encoding. */
  lemma SizeIsExact(m: Topic)
    requires Sized(m)
    ensures Size(m) == |Encode(m)|
  {
    hide Encode, ItemBytes, Sov;
    EncodeUnfolded(m);
    ItemSize(Scalar(1, m.version));
    ItemSize(Blob(2, m.payload));
    ItemSize(Scalar(3, ToUint64(m.timestamp)));
    ItemSize(Blob(4, m.pk));
    ItemSize(Blob(5, m.signatureOnPid));
  }

  lemma FieldsAreValid(m: Topic)
    requires Sized(m)
    ensures ValidItems(SCHEMA, Fields(m))
  {
    hide Optional;
    forall i | i in Fields(m)
      ensures ValidItem(SCHEMA, i) && Writable(i)
    {
      OptionalHolds(m.version != 0, Scalar(1, m.version));
      OptionalHolds(m.payload != [], Blob(2, m.payload));
      OptionalHolds(m.timestamp != 0, Scalar(3, ToUint64(m.timestamp)));
      OptionalHolds(m.pk != [], Blob(4, m.pk));
      OptionalHolds(m.signatureOnPid != [], Blob(5, m.signatureOnPid));
    }
  }

  lemma NonZeroTimestamp(t: int64)
    ensures t != 0 <==> ToUint64(t) != 0
  {
  }

  lemma TimestampRoundTrip(t: int64)
    ensures AsInt(ToUint64(t)) == t
  {
  }

  /** What decoding an encoding into a message that is already filled leaves: fields that hold
      their zero value are not on the wire and do not clear anything; all others replace. */
  function Merge(m: Topic, x: Topic): Topic {
    Topic(if x.version != 0 then x.version else m.version,
          if x.payload != [] then x.payload else m.payload,
          if x.timestamp != 0 then x.timestamp else m.timestamp,
          if x.pk != [] then x.pk else m.pk,
          if x.signatureOnPid != [] then x.signatureOnPid else m.signatureOnPid)
  }

  lemma FieldsMerge(m: Topic, x: Topic)
    ensures ApplyAll(FORMAT, m, Fields(x)) == Merge(m, x)
  {
    hide ApplyAll;
    var f1, f2 := Optional(x.version != 0, Scalar(1, x.version)), Optional(x.payload != [], Blob(2, x.payload));
    var f3 := Optional(x.timestamp != 0, Scalar(3, ToUint64(x.timestamp)));
    var f4, f5 := Optional(x.pk != [], Blob(4, x.pk)), Optional(x.signatureOnPid != [], Blob(5, x.signatureOnPid));
    TimestampRoundTrip(x.timestamp);
    ApplyConcat(FORMAT, m, f1 + f2 + f3 + f4, f5);
    ApplyConcat(FORMAT, m, f1 + f2 + f3, f4);
    ApplyConcat(FORMAT, m, f1 + f2, f3);
    ApplyConcat(FORMAT, m, f1, f2);
    var all := Merge(m, x);
    var m1 := m.(version := all.version);
    ApplyOptional(FORMAT, m, x.version != 0, Scalar(1, x.version));
    ApplyOptional(FORMAT, m1, x.payload != [], Blob(2, x.payload));
    var m2 := m1.(payload := all.payload);
    ApplyOptional(FORMAT, m2, x.timestamp != 0, Scalar(3, ToUint64(x.timestamp)));
    var m3 := m2.(timestamp := all.timestamp);
    ApplyOptional(FORMAT, m3, x.pk != [], Blob(4, x.pk));
    ApplyOptional(FORMAT, m3.(pk := all.pk), x.signatureOnPid != [], Blob(5, x.signatureOnPid));
  }

  lemma FieldsRebuild(m: Topic)
    ensures ApplyAll(FORMAT, ZERO, Fields(m)) == m
  {
    hide ApplyAll, Fields;
    FieldsMerge(ZERO, m);
  }

  /** Unmarshal of an encoding into any message. */
  lemma DecodeInto(m: Topic, x: Topic)
    requires Sized(x) && |Encode(x)| < TWO_63
    ensures Decode(m, Encode(x)) == Decoded(Merge(m, x), None)
  {
    hide DecodeFrom, ApplyAll, ItemsBytes, Fields;
    FieldsAreValid(x);
    DecodeInvertsWriting(FORMAT, m, Fields(x));
    FieldsMerge(m, x);
  }

  /** The bytes on the wire. */
  lemma WireLayout(m: Topic)
    ensures Encode(m) == ScalarBytes(0x08, m.version)
                       + (BlobBytes(0x12, m.payload)
                       + (ScalarBytes(0x18, ToUint64(m.timestamp))
                       + (BlobBytes(0x22, m.pk)
                       + BlobBytes(0x2a, m.signatureOnPid))))
  {
    hide Encode, OptionalBytes, ToUint64, ScalarBytes, BlobBytes;
    EncodeUnfolded(m);
    NonZeroTimestamp(m.timestamp);
    ScalarLayout(1, m.version);
    BlobLayout(2, m.payload);
    ScalarLayout(3, ToUint64(m.timestamp));
    BlobLayout(4, m.pk);
    BlobLayout(5, m.signatureOnPid);
    assert BlobBytes(0x2a, m.signatureOnPid) + [] == BlobBytes(0x2a, m.signatureOnPid);
  }

  /** A varint field whose value breaks off keeps the bits that were read. */
  lemma TornField(m: Topic, tag: seq<byte>, s: seq<byte>)
    requires IsVarint(tag) && Wire64(tag) % 8 == 0 && VarintAt(s, 0).err.Some?
    ensures var num, v := ToInt32(Wire64(tag) / 8), VarintAt(s, 0).value % TWO_64;
            && (num == 1 ==> Decode(m, tag + s) == Decoded(m.(version := v % TWO_32), VarintAt(s, 0).err))
            && (num == 3 ==> Decode(m, tag + s) == Decoded(m.(timestamp := AsInt(v)), VarintAt(s, 0).err))
  {
    hide VarintAt, DecodeFrom;
    if ToInt32(Wire64(tag) / 8) in {1, 3} {
      TornIsRead(FORMAT, m, tag, s);
    }
  }

  /** Unmarshal inverts Marshal. */
  lemma RoundTrip(m: Topic)
    requires Sized(m) && |Encode(m)| < TWO_63
    ensures Decode(ZERO, Encode(m)) == Decoded(m, None)
  {
    hide DecodeFrom, ApplyAll, ItemsBytes, Fields;
    FieldsAreValid(m);
    DecodeInvertsWriting(FORMAT, ZERO, Fields(m));
    FieldsRebuild(m);
  }

  /** A well-formed unknown field between any two fields of an encoding is invisible. */
  lemma UnknownFieldInvisible(m: Topic, k: nat, f: Field)
    requires Sized(m) && k <= |Fields(m)|
    requires UnknownTo(SCHEMA, f)
    requires |Encode(m)| + |FieldBytes(f)| < TWO_63
    ensures forall i | i in Fields(m)[..k] :: Writable(i)
    ensures forall i | i in Fields(m)[k..] :: Writable(i)
    ensures Decode(ZERO, ItemsBytes(Fields(m)[..k]) + FieldBytes(f) + ItemsBytes(Fields(m)[k..])) == Decoded(m, None)
  {
    hide DecodeFrom, ApplyAll, ItemsBytes, Fields, FieldBytes;
    FieldsAreValid(m);
    UnknownFieldBetween(FORMAT, ZERO, Fields(m), k, f);
    FieldsRebuild(m);
  }

  // ---------------------------------------------------------------- the generated methods

  /** Fills the buffer from its end; returns the number of bytes written. */
  method MarshalToSizedBuffer(m: Topic, buf: array<byte>) returns (n: nat)
    requires Sized(m) && Size(m) <= buf.Length
    modifies buf
    ensures n == Size(m)
    ensures buf[..] == old(buf[..buf.Length - n]) + Encode(m)
  {
    hide Encode, Size, OptionalBytes, ToUint64, Filled;
    SizeIsExact(m);
    EncodeUnfolded(m);
    NonZeroTimestamp(m.timestamp);
    var i := buf.Length;
    ghost var start, d0: seq<byte> := buf[..], [];
    FilledStart(buf);
    ghost var d5 := OptionalBytes(m.signatureOnPid != [], Blob(5, m.signatureOnPid)) + d0;
    ghost var d4 := OptionalBytes(m.pk != [], Blob(4, m.pk)) + d5;
    ghost var d3 := OptionalBytes(m.timestamp != 0, Scalar(3, ToUint64(m.timestamp))) + d4;
    ghost var d2 := OptionalBytes(m.payload != [], Blob(2, m.payload)) + d3;
    ghost var d1 := OptionalBytes(m.version != 0, Scalar(1, m.version)) + d2;
    i := PutBlob(buf, i, 0x2a, m.signatureOnPid, 5, start, d0);
    i := PutBlob(buf, i, 0x22, m.pk, 4, start, d5);
    i := PutScalar(buf, i, 0x18, ToUint64(m.timestamp), 3, start, d4);
    i := PutBlob(buf, i, 0x12, m.payload, 2, start, d3);
    i := PutScalar(buf, i, 0x8, m.version, 1, start, d2);
    n := buf.Length - i;
    FilledMeans(buf, start, i, d1);
  }

  /** Allocates exactly Size bytes; every one of them is written. */
  method Marshal(m: Topic) returns (data: array<byte>)
    requires Sized(m)
    ensures fresh(data) && data[..] == Encode(m)
  {
    SizeIsExact(m);
    data := new byte[Size(m)];
    var n := MarshalToSizedBuffer(m, data);
    assert data[..data.Length - n] == [];
  }

  /** The message object that Unmarshal fills. */
  class Message {
    var version: uint32
    var payload: seq<byte>
    var timestamp: int64
    var pk: seq<byte>
    var signatureOnPid: seq<byte>

    function Contents(): Topic
      reads this
    {
      Topic(version, payload, timestamp, pk, signatureOnPid)
    }

    constructor ()
      ensures Contents() == ZERO
    {
      version, payload, timestamp, pk, signatureOnPid := 0, [], 0, [], [];
    }

    /** One turn of the decoding loop. */
    method UnmarshalField(data: seq<byte>, preIndex: nat) returns (next: nat, err: Option<Error>)
      requires preIndex < |data| < TWO_63
      modifies this
      ensures var r := RecordAt(SCHEMA, data[preIndex..], preIndex);
              && Contents() == Apply(old(Contents()), r.item)
              && err == r.err
              && (err.None? ==> next == preIndex + r.size)
    {
      hide VarintAt, BytesRecord, UnknownRecord, RecordAt, ToInt32;
      var wire, i, e := ReadVarint(data, preIndex, 64);
      next := i;
      if e.Some? {
        TornTag(SCHEMA, data[preIndex..], preIndex);
        return i, e;
      }
      var fieldNum, wireType := ToInt32(wire / 8), wire % 8;
      RecordCases(SCHEMA, data[preIndex..], preIndex, fieldNum, wireType);
      if wireType == 4 {
        return i, Some(EndGroupForNonGroup);
      }
      if fieldNum <= 0 {
        return i, Some(IllegalTag);
      }
      DropDrop(data, preIndex, i - preIndex);
      match fieldNum
      case 1 =>
        if wireType != 0 {
          return i, Some(WrongWireType);
        }
        ModMod(VarintAt(data[i..], 0).value);
        version, next, err := ReadVarint(data, i, 32);
      case 2 =>
        if wireType != 2 {
          return i, Some(WrongWireType);
        }
        var first, post, e2 := ReadLength(data, i, preIndex, 2);
        if e2.Some? {
          return i, e2;
        }
        payload := data[first..post];
        return post, None;
      case 3 =>
        if wireType != 0 {
          return i, Some(WrongWireType);
        }
        var v: nat;
        v, next, err := ReadVarint(data, i, 64);
        timestamp := AsInt(v);
      case 4 =>
        if wireType != 2 {
          return i, Some(WrongWireType);
        }
        var first, post, e4 := ReadLength(data, i, preIndex, 4);
        if e4.Some? {
          return i, e4;
        }
        pk := data[first..post];
        return post, None;
      case 5 =>
        if wireType != 2 {
          return i, Some(WrongWireType);
        }
        var first, post, e5 := ReadLength(data, i, preIndex, 5);
        if e5.Some? {
          return i, e5;
        }
        signatureOnPid := data[first..post];
        return post, None;
      case _ =>
        next, err := SkipUnknown(data, preIndex);
    }

    method Unmarshal(data: seq<byte>) returns (err: Option<Error>)
      requires |data| < TWO_63
      modifies this
      ensures Decoded(Contents(), err) == Decode(old(Contents()), data)
    {
      hide DecodeFrom, RecordAt, Apply;
      var i := 0;
      ghost var goal := Decode(Contents(), data);
      DecodeEnds(FORMAT, Contents(), data);
      while i < |data|
        invariant i <= |data|
        invariant DecodeFrom(FORMAT, Contents(), data[i..], i) == goal
        decreases |data| - i
      {
        DecodeTurn(FORMAT, Contents(), data[i..], i);
        var next, e := UnmarshalField(data, i);
        if e.Some? {
          return e;
        }
        DropDrop(data, i, RecordAt(SCHEMA, data[i..], i).size);
        i := next;
      }
      // the generated check `iNdEx > l` after the loop cannot hold: i == |data|
      assert i == |data|;
      DecodeEnds(FORMAT, Contents(), data);
      return None;
    }
  }
}
