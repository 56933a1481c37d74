/** Records of a protobuf message: the tag, the value or the bytes that follow it, and the
    skipping of records whose field number the message does not use. */
module Records {
  import opened Bits
  import opened Common
  import opened Wire

  /** The wire type a message expects for each of its field numbers. */
  datatype Kind = VarintKind | BytesKind
  type Schema = map<int, Kind>

  /** The effect of one record on the message being filled. */
  datatype Item =
    | Scalar(num: int, value: uint64)
    | Blob(num: int, data: seq<byte>)
    | Torn(num: int, value: uint64)  // a varint that failed midway: the bits gathered so far
    | Nothing

  /** A record read from the front of some bytes. */
  datatype Record = Record(item: Item, size: nat, err: Option<Error>)

  /** All records of a buffer, up to the first error. */
  datatype Parsed = Parsed(items: seq<Item>, err: Option<Error>)

  function Fail(e: Error): Record { Record(Nothing, 0, Some(e)) }

  // ---------------------------------------------------------------- skipping

  /** One element met while skipping: its size, which may point past the end of the bytes,
      and the group depth after it. */
  datatype Element = Element(size: nat, depth: nat, err: Option<Error>)

  function ElementAt(s: seq<byte>, depth: nat): (r: Element)
    ensures r.err.None? ==> r.size >= 1
  {
    var tag := VarintAt(s, 0);
    if tag.err.Some? then Element(0, depth, tag.err) else
    var rest := s[tag.size..];
    var wire := tag.value % TWO_64;
    match wire % 8
    case 0 =>
      var v := VarintAt(rest, 0);
      Element(tag.size + v.size, depth, v.err)
    case 1 => Element(tag.size + 8, depth, None)
    case 2 =>
      var v := VarintAt(rest, 0);
      if v.err.Some? then Element(0, depth, v.err)
      else if v.value % TWO_64 >= TWO_63 then Element(0, depth, Some(InvalidLength))
      else Element(tag.size + v.size + v.value % TWO_64, depth, None)
    case 3 => Element(tag.size, depth + 1, None)
    case 4 =>
      if depth == 0 then Element(0, depth, Some(UnexpectedEndOfGroup))
      else Element(tag.size, depth - 1, None)
    case 5 => Element(tag.size + 4, depth, None)
    case _ => Element(0, depth, Some(IllegalWireType))
  }

  datatype Skipped = Skipped(size: nat, err: Option<Error>)

  /** Skips elements until the depth is back to zero. `at` is the index of the first byte
      of `s`, which decides when an index no longer fits an int. */
  function SkipFrom(s: seq<byte>, at: nat, depth: nat): (r: Skipped)
    ensures r.err.None? ==> r.size >= 1 && at + r.size < TWO_63
    decreases |s|
  {
    if s == [] then Skipped(0, Some(UnexpectedEof)) else
    var e := ElementAt(s, depth);
    if e.err.Some? then Skipped(0, e.err)
    else if at + e.size >= TWO_63 then Skipped(0, Some(InvalidLength))
    else if e.depth == 0 then Skipped(e.size, None)
    else if e.size > |s| then Skipped(0, Some(UnexpectedEof))
    else
      var rest := SkipFrom(s[e.size..], at + e.size, e.depth);
      if rest.err.Some? then rest else Skipped(e.size + rest.size, None)
  }

  // ---------------------------------------------------------------- records

  function BytesRecord(num: int, head: nat, s: seq<byte>, pos: nat): (r: Record)
    requires head <= |s|
    ensures r.err.None? ==> head < r.size <= |s|
  {
    var v := VarintAt(s[head..], 0);
    if v.err.Some? then Record(Nothing, 0, v.err) else
    var first, len := head + v.size, v.value % TWO_64;
    if len >= TWO_63 || pos + first + len >= TWO_63 then Fail(InvalidLength)
    else if first + len > |s| then Fail(UnexpectedEof)
    else Record(Blob(num, s[first..first + len]), first + len, None)
  }

  function ScalarRecord(num: int, head: nat, s: seq<byte>): (r: Record)
    requires head <= |s|
    ensures r.err.None? ==> head < r.size <= |s|
  {
    var v := VarintAt(s[head..], 0);
    if v.err.Some? then Record(Torn(num, v.value % TWO_64), 0, v.err)
    else Record(Scalar(num, v.value % TWO_64), head + v.size, None)
  }

  function UnknownRecord(s: seq<byte>, pos: nat): (r: Record)
    ensures r.item == Nothing
    ensures r.err.None? ==> 1 <= r.size <= |s|
  {
    var k := SkipFrom(s, 0, 0);
    if k.err.Some? then Record(Nothing, 0, k.err)
    else if pos + k.size >= TWO_63 then Fail(InvalidLength)
    else if k.size > |s| then Fail(UnexpectedEof)
    else Record(Nothing, k.size, None)
  }

  /** The record at the front of `s`, where `s` starts at index `pos` of the buffer. */
  function RecordAt(schema: Schema, s: seq<byte>, pos: nat): (r: Record)
    ensures r.err.None? ==> 1 <= r.size <= |s|
  {
    var tag := VarintAt(s, 0);
    if tag.err.Some? then Record(Nothing, 0, tag.err) else
    var wire := tag.value % TWO_64;
    var num, wireType := ToInt32(wire / 8), wire % 8;
    if wireType == 4 then Fail(EndGroupForNonGroup)
    else if num <= 0 then Fail(IllegalTag)
    else if num !in schema then UnknownRecord(s, pos)
    else match schema[num]
      case VarintKind => if wireType != 0 then Fail(WrongWireType) else ScalarRecord(num, tag.size, s)
      case BytesKind => if wireType != 2 then Fail(WrongWireType) else BytesRecord(num, tag.size, s, pos)
  }

  /** The record that a complete tag announces. */
  lemma RecordCases(schema: Schema, s: seq<byte>, pos: nat, num: int, wireType: nat)
    requires VarintAt(s, 0).err.None?
    requires var wire := VarintAt(s, 0).value % TWO_64; num == ToInt32(wire / 8) && wireType == wire % 8
    ensures var r, head := RecordAt(schema, s, pos), VarintAt(s, 0).size;
            && (wireType == 4 ==> r == Fail(EndGroupForNonGroup))
            && (wireType != 4 && num <= 0 ==> r == Fail(IllegalTag))
            && (wireType != 4 && num > 0 && num !in schema ==> r == UnknownRecord(s, pos))
            && (wireType != 4 && num > 0 && num in schema && schema[num].VarintKind? ==>
                  r == if wireType != 0 then Fail(WrongWireType) else ScalarRecord(num, head, s))
            && (wireType != 4 && num > 0 && num in schema && schema[num].BytesKind? ==>
                  r == if wireType != 2 then Fail(WrongWireType) else BytesRecord(num, head, s, pos))
  {
    hide VarintAt, UnknownRecord, ScalarRecord, BytesRecord, ToInt32;
  }

  lemma TornTag(schema: Schema, s: seq<byte>, pos: nat)
    requires VarintAt(s, 0).err.Some?
    ensures RecordAt(schema, s, pos) == Record(Nothing, 0, VarintAt(s, 0).err)
  {
  }

  function Parse(schema: Schema, s: seq<byte>, pos: nat): Parsed
    decreases |s|
  {
    if s == [] then Parsed([], None) else
    var r := RecordAt(schema, s, pos);
    if r.err.Some? then Parsed([r.item], r.err) else
    var rest := Parse(schema, s[r.size..], pos + r.size);
    Parsed([r.item] + rest.items, rest.err)
  }

  // ---------------------------------------------------------------- writing

  predicate ValidItem(schema: Schema, item: Item) {
    match item
    case Scalar(num, _) => 1 <= num < 0x2000_0000 && num in schema && schema[num].VarintKind?
    case Blob(num, data) => 1 <= num < 0x2000_0000 && num in schema && schema[num].BytesKind? && |data| < TWO_63
    case _ => false
  }

  function Tag(num: int, wireType: nat): seq<byte>
    requires num > 0
  {
    VarintBytes(num * 8 + wireType)
  }

  function ItemBytes(item: Item): seq<byte>
    requires item.Scalar? || item.Blob?
    requires item.num > 0
  {
    match item
    case Scalar(num, value) => Tag(num, 0) + VarintBytes(value)
    case Blob(num, data) => Tag(num, 2) + VarintBytes(|data|) + data
  }

  predicate Writable(item: Item) {
    (item.Scalar? || item.Blob?) && item.num > 0
  }

  function ItemsBytes(items: seq<Item>): seq<byte>
    requires forall i | i in items :: Writable(i)
  {
    if items == [] then [] else
    assert Writable(items[0]);
    ItemBytes(items[0]) + ItemsBytes(items[1..])
  }

  // ---------------------------------------------------------------- the decoder's loops

  lemma SkipTurn(s: seq<byte>, at: nat, depth: nat, size: nat, newDepth: nat)
    requires s != [] && ElementAt(s, depth) == Element(size, newDepth, None)
    requires at + size < TWO_63 && newDepth != 0 && size <= |s|
    ensures var r := SkipFrom(s[size..], at + size, newDepth);
            SkipFrom(s, at, depth) == if r.err.Some? then r else Skipped(size + r.size, None)
  {
  }

  /** `skipTopicMessage`, `skipWsMessage`. */
  method SkipField(data: seq<byte>) returns (n: nat, err: Option<Error>)
    requires |data| < TWO_63
    ensures var k := SkipFrom(data, 0, 0);
            err == k.err && (err.None? ==> n == k.size && 1 <= n < TWO_63)
  {
    var i, depth := 0, 0;
    ghost var all := SkipFrom(data, 0, 0);
    assert data[0..] == data;
    while i < |data|
      invariant i <= |data|
      invariant var k := SkipFrom(data[i..], i, depth);
                all == if k.err.Some? then k else Skipped(i + k.size, None)
      decreases |data| - i
    {
      var size, newDepth, e := ReadElement(data, i, depth);
      if e.Some? {
        return 0, e;
      }
      var next := AsInt(i + size);
      if next < 0 {
        return 0, Some(InvalidLength);
      }
      if newDepth == 0 {
        return next, None;
      }
      if next > |data| {
        return 0, Some(UnexpectedEof);
      }
      DropDrop(data, i, size);
      SkipTurn(data[i..], i, depth, size, newDepth);
      i, depth := next, newDepth;
    }
    return 0, Some(UnexpectedEof);
  }

  /** One turn of the skip loop: the tag and the switch on its wire type. */
  method ReadElement(data: seq<byte>, i: nat, depth: nat) returns (size: nat, newDepth: nat, err: Option<Error>)
    requires i <= |data| < TWO_63
    ensures var e := ElementAt(data[i..], depth);
            err == e.err && (err.None? ==> size == e.size && newDepth == e.depth && i + size < TWO_64)
  {
    var wire, next, e := ReadVarint(data, i, 64);
    size, newDepth := 0, depth;
    if e.Some? {
      return 0, depth, e;
    }
    ghost var tag := VarintAt(data[i..], 0);
    DropDrop(data, i, tag.size);
    match wire % 8
    case 0 =>
      var v, after, e0 := ReadVarint(data, next, 64);
      return after - i, depth, e0;
    case 1 =>
      return next + 8 - i, depth, None;
    case 2 =>
      var length, after, e2 := ReadVarint(data, next, 64);
      if e2.Some? {
        return 0, depth, e2;
      }
      if AsInt(length) < 0 {
        return 0, depth, Some(InvalidLength);
      }
      return after + length - i, depth, None;
    case 3 =>
      return next - i, depth + 1, None;
    case 4 =>
      if depth == 0 {
        return 0, depth, Some(UnexpectedEndOfGroup);
      }
      return next - i, depth - 1, None;
    case 5 =>
      return next + 4 - i, depth, None;
    case _ =>
      return 0, depth, Some(IllegalWireType);
  }

  /** The length of a bytes or string field, with the overflow and bounds checks after it;
      the record's tag starts at `pos`. */
  method ReadLength(data: seq<byte>, i: nat, ghost pos: nat, ghost num: int)
    returns (first: nat, post: nat, err: Option<Error>)
    requires pos <= i <= |data| < TWO_63
    ensures err.None? ==> i < first <= post <= |data|
    ensures var r := BytesRecord(num, i - pos, data[pos..], pos);
            if err.None? then r == Record(Blob(num, data[first..post]), post - pos, None)
            else r == Record(Nothing, 0, err)
  {
    var byteLen, next, e := ReadVarint(data, i, 64);
    first, post := 0, 0;
    DropDrop(data, pos, i - pos);
    if e.Some? {
      return 0, 0, e;
    }
    if AsInt(byteLen) < 0 {
      return 0, 0, Some(InvalidLength);
    }
    var postIndex := AsInt(next + byteLen);
    if postIndex < 0 {
      return 0, 0, Some(InvalidLength);
    }
    if postIndex > |data| {
      return 0, 0, Some(UnexpectedEof);
    }
    DropSlice(data, pos, next - pos, postIndex - pos);
    return next, postIndex, None;
  }

  /** The default case of the decoder's switch: skip the record that starts at `preIndex`. */
  method SkipUnknown(data: seq<byte>, preIndex: nat) returns (next: nat, err: Option<Error>)
    requires preIndex <= |data| < TWO_63
    ensures var r := UnknownRecord(data[preIndex..], preIndex);
            err == r.err && (err.None? ==> next == preIndex + r.size)
  {
    var skippy, e := SkipField(data[preIndex..]);
    if e.Some? {
      return preIndex, e;
    }
    var after := AsInt(preIndex + skippy);
    if after < 0 {
      return preIndex, Some(InvalidLength);
    }
    if after > |data| {
      return preIndex, Some(UnexpectedEof);
    }
    return after, None;
  }
}
