/** Laws of the wire format: reading is local and compositional, it inverts writing, and
    well-formed unknown fields are invisible. */
module RecordLaws {
  import opened Bits
  import opened Common
  import opened Wire
  import opened Records

  // ---------------------------------------------------------------- locality

  lemma ElementPrefix(a: seq<byte>, b: seq<byte>, depth: nat)
    requires ElementAt(a, depth).err.None?
    ensures ElementAt(a + b, depth) == ElementAt(a, depth)
  {
    var tag := VarintAt(a, 0);
    VarintPrefix(a, b, 0);
    DropOfConcat(a, b, tag.size);
    if VarintAt(a[tag.size..], 0).err.None? {
      VarintPrefix(a[tag.size..], b, 0);
    }
  }

  /** A skip that succeeds on `a` gives the same answer whatever follows. */
  lemma {:induction false} SkipPrefix(a: seq<byte>, b: seq<byte>, at: nat, depth: nat)
    requires SkipFrom(a, at, depth).err.None?
    ensures SkipFrom(a + b, at, depth) == SkipFrom(a, at, depth)
    decreases |a|
  {
    hide ElementAt;
    var e := ElementAt(a, depth);
    ElementPrefix(a, b, depth);
    if e.depth != 0 {
      DropOfConcat(a, b, e.size);
      SkipPrefix(a[e.size..], b, at + e.size, e.depth);
      SkipTurn(a, at, depth, e.size, e.depth);
      SkipTurn(a + b, at, depth, e.size, e.depth);
    }
  }

  lemma BytesPrefix(num: int, head: nat, a: seq<byte>, b: seq<byte>, pos: nat)
    requires head <= |a| && BytesRecord(num, head, a, pos).err.None?
    ensures BytesRecord(num, head, a + b, pos) == BytesRecord(num, head, a, pos)
  {
    DropOfConcat(a, b, head);
    VarintPrefix(a[head..], b, 0);
    var v := VarintAt(a[head..], 0);
    var first, len := head + v.size, v.value % TWO_64;
    assert (a + b)[first..first + len] == a[first..first + len];
  }

  /** A record that ends inside `a` is read the same whatever follows. */
  lemma RecordPrefix(schema: Schema, a: seq<byte>, b: seq<byte>, pos: nat)
    requires RecordAt(schema, a, pos).err.None?
    ensures RecordAt(schema, a + b, pos) == RecordAt(schema, a, pos)
  {
    VarintPrefix(a, b, 0);
    var tag := VarintAt(a, 0);
    var wire := tag.value % TWO_64;
    var num := ToInt32(wire / 8);
    if num !in schema {
      SkipPrefix(a, b, 0, 0);
    } else {
      match schema[num]
      case VarintKind =>
        DropOfConcat(a, b, tag.size);
        VarintPrefix(a[tag.size..], b, 0);
      case BytesKind =>
        BytesPrefix(num, tag.size, a, b, pos);
    }
  }

  // ---------------------------------------------------------------- composition

  /** Decoding a concatenation is decoding its parts in turn. */
  lemma {:induction false} ParseConcat(schema: Schema, a: seq<byte>, b: seq<byte>, pos: nat)
    requires Parse(schema, a, pos).err.None?
    ensures var p, q := Parse(schema, a, pos), Parse(schema, b, pos + |a|);
            Parse(schema, a + b, pos) == Parsed(p.items + q.items, q.err)
    decreases |a|
  {
    hide *;
    if a == [] {
      assert a + b == b;
      ParseEmpty(schema, pos);
      assert [] + Parse(schema, b, pos).items == Parse(schema, b, pos).items;
    } else {
      var r := RecordAt(schema, a, pos);
      ParseStart(schema, a, pos);
      ParseTurn(schema, a, pos);
      RecordPrefix(schema, a, b, pos);
      DropOfConcat(a, b, r.size);
      ParseConcat(schema, a[r.size..], b, pos + r.size);
      ParseTurn(schema, a + b, pos);
      var x, y := Parse(schema, a[r.size..], pos + r.size).items, Parse(schema, b, pos + |a|).items;
      assert [r.item] + (x + y) == [r.item] + x + y;
    }
  }

  lemma ParseEmpty(schema: Schema, pos: nat)
    ensures Parse(schema, [], pos) == Parsed([], None)
  {
  }

  lemma ParseStart(schema: Schema, s: seq<byte>, pos: nat)
    requires s != [] && Parse(schema, s, pos).err.None?
    ensures RecordAt(schema, s, pos).err.None?
  {
    hide RecordAt;
  }

  lemma ParseTurn(schema: Schema, s: seq<byte>, pos: nat)
    requires s != [] && RecordAt(schema, s, pos).err.None?
    ensures var r := RecordAt(schema, s, pos);
            var rest := Parse(schema, s[r.size..], pos + r.size);
            Parse(schema, s, pos) == Parsed([r.item] + rest.items, rest.err)
  {
    hide RecordAt;
  }

  /** Where a buffer starts can only decide which error is reported, not what is decoded. */
  lemma {:induction false} ParseAnywhere(schema: Schema, s: seq<byte>, p: nat, q: nat)
    requires p + |s| < TWO_63 && q + |s| < TWO_63
    ensures Parse(schema, s, p).items == Parse(schema, s, q).items
    ensures Parse(schema, s, p).err.None? <==> Parse(schema, s, q).err.None?
    decreases |s|
  {
    hide RecordAt;
    if s != [] {
      RecordAnywhere(schema, s, p, q);
      var r := RecordAt(schema, s, p);
      if r.err.None? {
        ParseAnywhere(schema, s[r.size..], p + r.size, q + r.size);
        ParseTurn(schema, s, p);
        ParseTurn(schema, s, q);
      }
    }
  }

  lemma RecordAnywhere(schema: Schema, s: seq<byte>, p: nat, q: nat)
    requires p + |s| < TWO_63 && q + |s| < TWO_63
    ensures var r, r' := RecordAt(schema, s, p), RecordAt(schema, s, q);
            r.item == r'.item && r.size == r'.size && (r.err.None? <==> r'.err.None?)
  {
  }

  // ---------------------------------------------------------------- inversion

  lemma TagRoundTrip(num: int, wireType: nat, rest: seq<byte>)
    requires 1 <= num < 0x2000_0000 && wireType < 8
    ensures var tag := VarintAt(Tag(num, wireType) + rest, 0);
            && tag == Varint(num * 8 + wireType, |Tag(num, wireType)|, None)
            && ToInt32(tag.value % TWO_64 / 8) == num
            && tag.value % TWO_64 % 8 == wireType
  {
    hide VarintAt, VarintBytes;
    Uint64Length(num * 8 + wireType);
    VarintRoundTrip(num * 8 + wireType, 0, rest);
    assert (num * 8 + wireType) % TWO_64 == num * 8 + wireType;
  }

  lemma ScalarRoundTrip(num: int, value: uint64, head: seq<byte>, rest: seq<byte>)
    ensures ScalarRecord(num, |head|, head + VarintBytes(value) + rest)
         == Record(Scalar(num, value), |head + VarintBytes(value)|, None)
  {
    hide VarintAt, VarintBytes;
    var v := VarintBytes(value);
    assert (head + v + rest)[|head|..] == v + rest;
    Uint64Length(value);
    VarintRoundTrip(value, 0, rest);
  }

  lemma BytesRoundTrip(num: int, data: seq<byte>, head: seq<byte>, rest: seq<byte>, pos: nat)
    requires pos + |head + VarintBytes(|data|) + data| < TWO_63
    ensures BytesRecord(num, |head|, head + VarintBytes(|data|) + data + rest, pos)
         == Record(Blob(num, data), |head + VarintBytes(|data|) + data|, None)
  {
    hide VarintAt, VarintBytes;
    var v := VarintBytes(|data|);
    var s := head + v + data + rest;
    assert s[|head|..] == v + (data + rest);
    Uint64Length(|data|);
    VarintRoundTrip(|data|, 0, data + rest);
    assert s[|head| + |v|..|head| + |v| + |data|] == data;
  }

  /** Reading a written record gives it back and stops at its end. */
  lemma RecordRoundTrip(schema: Schema, item: Item, rest: seq<byte>, pos: nat)
    requires ValidItem(schema, item) && pos + |ItemBytes(item)| < TWO_63
    ensures RecordAt(schema, ItemBytes(item) + rest, pos) == Record(item, |ItemBytes(item)|, None)
  {
    hide VarintAt, VarintBytes, Tag, ScalarRecord, BytesRecord;
    match item
    case Scalar(num, value) =>
      var t, v := Tag(num, 0), VarintBytes(value);
      assert ItemBytes(item) + rest == t + (v + rest);
      TagRoundTrip(num, 0, v + rest);
      ScalarRoundTrip(num, value, t, rest);
    case Blob(num, data) =>
      var t, v := Tag(num, 2), VarintBytes(|data|);
      assert ItemBytes(item) + rest == t + (v + data + rest);
      TagRoundTrip(num, 2, v + data + rest);
      BytesRoundTrip(num, data, t, rest, pos);
  }

  ghost predicate ValidItems(schema: Schema, items: seq<Item>) {
    forall i | i in items :: ValidItem(schema, i) && Writable(i)
  }

  /** The decoder inverts the encoder, record by record. */
  lemma {:induction false} ParseRoundTrip(schema: Schema, items: seq<Item>, pos: nat)
    requires ValidItems(schema, items) && pos + |ItemsBytes(items)| < TWO_63
    ensures Parse(schema, ItemsBytes(items), pos) == Parsed(items, None)
  {
    hide RecordAt, ItemBytes;
    if items != [] {
      var head, tail := items[0], items[1..];
      assert head in items && (forall i | i in tail :: i in items);
      var a, b := ItemBytes(head), ItemsBytes(tail);
      ParseRoundTrip(schema, tail, pos + |a|);
      RecordRoundTrip(schema, head, b, pos);
      assert (a + b)[|a|..] == b;
      assert |a| > 0;
      ParseTurn(schema, a + b, pos);
      assert [head] + tail == items;
    }
  }

  lemma {:induction false} ItemsConcat(a: seq<Item>, b: seq<Item>)
    requires forall i | i in a + b :: Writable(i)
    ensures (forall i | i in a :: Writable(i)) && (forall i | i in b :: Writable(i))
    ensures ItemsBytes(a + b) == ItemsBytes(a) + ItemsBytes(b)
  {
    hide ItemBytes;
    assert forall i | i in a :: i in a + b;
    assert forall i | i in b :: i in a + b;
    if a == [] {
      assert a + b == b;
    } else {
      assert (a + b)[1..] == a[1..] + b;
      assert forall i | i in a[1..] + b :: i in a + b;
      ItemsConcat(a[1..], b);
    }
  }

  // ---------------------------------------------------------------- unknown fields

  /** A field of any wire type, groups included. Tags, values and lengths are held as the bytes
      they are written with, because a decoder takes overlong varints too. */
  datatype Field =
    | VarintField(tag: seq<byte>, value: seq<byte>)
    | Fixed64Field(tag: seq<byte>, data: seq<byte>)
    | BytesField(tag: seq<byte>, length: seq<byte>, data: seq<byte>)
    | GroupField(tag: seq<byte>, fields: seq<Field>, end: seq<byte>)
    | Fixed32Field(tag: seq<byte>, data: seq<byte>)

  /** The bytes are one complete varint. */
  predicate IsVarint(s: seq<byte>) {
    VarintAt(s, 0).err.None? && VarintAt(s, 0).size == |s|
  }

  function Wire64(s: seq<byte>): uint64 {
    VarintAt(s, 0).value % TWO_64
  }

  function Num(f: Field): int {
    ToInt32(Wire64(f.tag) / 8)
  }

  function WireType(f: Field): nat {
    match f
    case VarintField(_, _) => 0
    case Fixed64Field(_, _) => 1
    case BytesField(_, _, _) => 2
    case GroupField(_, _, _) => 3
    case Fixed32Field(_, _) => 5
  }

  ghost predicate WellFormed(f: Field) {
    && IsVarint(f.tag) && Wire64(f.tag) % 8 == WireType(f)
    && match f
       case VarintField(_, value) => IsVarint(value)
       case Fixed64Field(_, data) => |data| == 8
       case BytesField(_, length, data) => IsVarint(length) && Wire64(length) == |data| < TWO_63
       case GroupField(_, fields, end) =>
         IsVarint(end) && Wire64(end) % 8 == 4 && forall g | g in fields :: WellFormed(g)
       case Fixed32Field(_, data) => |data| == 4
  }

  /** A well-formed field with a positive number that the message does not use. */
  ghost predicate UnknownTo(schema: Schema, f: Field) {
    WellFormed(f) && Num(f) > 0 && Num(f) !in schema
  }

  /** Minimal encodings are such bytes. */
  lemma MinimalBytes(num: int, wireType: nat, value: uint64)
    requires 1 <= num < 0x2000_0000 && wireType < 8
    ensures var tag := Tag(num, wireType);
            IsVarint(tag) && ToInt32(Wire64(tag) / 8) == num && Wire64(tag) % 8 == wireType
    ensures IsVarint(VarintBytes(value)) && Wire64(VarintBytes(value)) == value
  {
    hide VarintAt, VarintBytes;
    TagRoundTrip(num, wireType, []);
    assert Tag(num, wireType) + [] == Tag(num, wireType);
    Uint64Length(value);
    VarintRoundTrip(value, 0, []);
    assert VarintBytes(value) + [] == VarintBytes(value);
  }

  function FieldBytes(f: Field): (r: seq<byte>)
    requires WellFormed(f)
    ensures |r| >= 1
    decreases f, 0
  {
    match f
    case VarintField(tag, value) => tag + value
    case Fixed64Field(tag, data) => tag + data
    case BytesField(tag, length, data) => tag + length + data
    case GroupField(tag, fields, end) => tag + FieldsBytes(fields) + end
    case Fixed32Field(tag, data) => tag + data
  }

  function FieldsBytes(fs: seq<Field>): seq<byte>
    requires forall g | g in fs :: WellFormed(g)
    decreases fs, 1
  {
    if fs == [] then [] else FieldBytes(fs[0]) + FieldsBytes(fs[1..])
  }

  /** How a skip at `depth` goes on after `n` bytes at the same depth. */
  ghost function After(n: nat, rest: seq<byte>, at: nat, depth: nat): Skipped {
    if depth == 0 then Skipped(n, None) else
    var r := SkipFrom(rest, at + n, depth);
    if r.err.Some? then r else Skipped(n + r.size, None)
  }

  lemma LeafElement(f: Field, rest: seq<byte>, depth: nat)
    requires WellFormed(f) && !f.GroupField?
    ensures ElementAt(FieldBytes(f) + rest, depth) == Element(|FieldBytes(f)|, depth, None)
  {
    hide VarintAt;
    var s, t := FieldBytes(f) + rest, f.tag;
    assert s == t + s[|t|..];
    VarintPrefix(t, s[|t|..], 0);
    match f
    case VarintField(_, value) =>
      assert s[|t|..] == value + rest;
      VarintPrefix(value, rest, 0);
    case Fixed64Field(_, data) =>
    case BytesField(_, length, data) =>
      assert s[|t|..] == length + (data + rest);
      VarintPrefix(length, data + rest, 0);
    case Fixed32Field(_, data) =>
  }

  lemma GroupTagElement(tag: seq<byte>, rest: seq<byte>, depth: nat)
    requires IsVarint(tag) && (Wire64(tag) % 8 == 3 || (Wire64(tag) % 8 == 4 && depth > 0))
    ensures ElementAt(tag + rest, depth)
         == Element(|tag|, if Wire64(tag) % 8 == 3 then depth + 1 else depth - 1, None)
  {
    hide VarintAt;
    VarintPrefix(tag, rest, 0);
  }

  lemma ElementThen(a: seq<byte>, rest: seq<byte>, at: nat, depth: nat, newDepth: nat)
    requires a != [] && at + |a| < TWO_63
    requires ElementAt(a + rest, depth) == Element(|a|, newDepth, None)
    ensures SkipFrom(a + rest, at, depth) == After(|a|, rest, at, newDepth)
  {
    hide ElementAt;
    assert (a + rest)[|a|..] == rest;
  }

  /** Skipping a well-formed field leaves the depth alone and stops exactly at its end. */
  lemma {:induction false} SkipField(f: Field, rest: seq<byte>, at: nat, depth: nat)
    requires WellFormed(f) && at + |FieldBytes(f)| < TWO_63
    ensures SkipFrom(FieldBytes(f) + rest, at, depth) == After(|FieldBytes(f)|, rest, at, depth)
    decreases f, 0
  {
    hide SkipFrom, VarintAt;
    if f.GroupField? {
      var open, body, close := f.tag, FieldsBytes(f.fields), f.end;
      var s := FieldBytes(f) + rest;
      var tail := close + rest;
      assert s == open + (body + tail);
      GroupTagElement(open, body + tail, depth);
      ElementThen(open, body + tail, at, depth, depth + 1);
      SkipFields(f.fields, tail, at + |open|, depth + 1);
      GroupTagElement(close, rest, depth + 1);
      ElementThen(close, rest, at + |open| + |body|, depth + 1, depth);
    } else {
      LeafElement(f, rest, depth);
      ElementThen(FieldBytes(f), rest, at, depth, depth);
    }
  }

  lemma {:induction false} SkipFields(fs: seq<Field>, rest: seq<byte>, at: nat, depth: nat)
    requires (forall g | g in fs :: WellFormed(g)) && at + |FieldsBytes(fs)| < TWO_63 && depth > 0
    ensures SkipFrom(FieldsBytes(fs) + rest, at, depth) == After(|FieldsBytes(fs)|, rest, at, depth)
    decreases fs, 1
  {
    hide SkipFrom, FieldBytes;
    if fs == [] {
      assert [] + rest == rest;
    } else {
      var a, b := FieldBytes(fs[0]), FieldsBytes(fs[1..]);
      assert FieldsBytes(fs) + rest == a + (b + rest);
      SkipField(fs[0], b + rest, at, depth);
      SkipFields(fs[1..], rest, at + |a|, depth);
    }
  }

  /** A well-formed field whose number the message does not use is read as nothing. */
  lemma UnknownFieldIsSkipped(schema: Schema, f: Field, rest: seq<byte>, pos: nat)
    requires UnknownTo(schema, f) && pos + |FieldBytes(f)| < TWO_63
    ensures RecordAt(schema, FieldBytes(f) + rest, pos) == Record(Nothing, |FieldBytes(f)|, None)
  {
    hide SkipFrom, VarintAt, FieldBytes;
    var s, t := FieldBytes(f) + rest, f.tag;
    SkipField(f, rest, 0, 0);
    FieldStartsWithTag(f);
    assert s == t + s[|t|..];
    VarintPrefix(t, s[|t|..], 0);
  }

  lemma FieldStartsWithTag(f: Field)
    requires WellFormed(f)
    ensures f.tag <= FieldBytes(f)
  {
    hide VarintAt;
  }

  lemma UnknownFieldParses(schema: Schema, f: Field, pos: nat)
    requires UnknownTo(schema, f) && pos + |FieldBytes(f)| < TWO_63
    ensures Parse(schema, FieldBytes(f), pos) == Parsed([Nothing], None)
  {
    var s := FieldBytes(f);
    assert s + [] == s;
    UnknownFieldIsSkipped(schema, f, [], pos);
    ParseTurn(schema, s, pos);
    assert s[|s|..] == [];
  }

  /** The bytes are read without an error and without an effect. */
  ghost predicate Silent(schema: Schema, u: seq<byte>) {
    Parse(schema, u, 0).err.None? && forall i | i in Parse(schema, u, 0).items :: i == Nothing
  }

  /** A well-formed unknown field is silent. */
  lemma UnknownFieldIsSilent(schema: Schema, f: Field)
    requires UnknownTo(schema, f) && |FieldBytes(f)| < TWO_63
    ensures Silent(schema, FieldBytes(f))
  {
    hide Parse, FieldBytes;
    UnknownFieldParses(schema, f, 0);
  }

  /** Inserting silent bytes after any decodable prefix changes nothing but adds `Nothing`s. */
  lemma InsertSilent(schema: Schema, a: seq<byte>, u: seq<byte>, b: seq<byte>)
    requires Silent(schema, u) && |a + u + b| < TWO_63
    requires Parse(schema, a, 0).err.None?
    ensures var whole, bare := Parse(schema, a + u + b, 0), Parse(schema, a + b, 0);
            var first, none := Parse(schema, a, 0).items, Parse(schema, u, 0).items;
            && (whole.err.None? <==> bare.err.None?)
            && first <= bare.items
            && whole.items == first + none + bare.items[|first|..]
  {
    hide Parse;
    var first := Parse(schema, a, 0).items;
    ParseConcat(schema, a, b, 0);
    ParseConcat(schema, a, u + b, 0);
    ParseAnywhere(schema, u, |a|, 0);
    ParseConcat(schema, u, b, |a|);
    ParseAnywhere(schema, b, |a|, |a| + |u|);
    assert a + u + b == a + (u + b);
    var q := Parse(schema, b, |a|);
    assert (first + q.items)[|first|..] == q.items;
  }

  /** In particular an unknown field adds one `Nothing`. */
  lemma InsertUnknown(schema: Schema, a: seq<byte>, f: Field, b: seq<byte>)
    requires UnknownTo(schema, f) && |a + FieldBytes(f) + b| < TWO_63
    requires Parse(schema, a, 0).err.None?
    ensures var whole, bare := Parse(schema, a + FieldBytes(f) + b, 0), Parse(schema, a + b, 0);
            var first := Parse(schema, a, 0).items;
            && (whole.err.None? <==> bare.err.None?)
            && first <= bare.items
            && whole.items == first + [Nothing] + bare.items[|first|..]
  {
    hide Parse, FieldBytes;
    UnknownFieldParses(schema, f, 0);
    InsertSilent(schema, a, FieldBytes(f), b);
  }
}
