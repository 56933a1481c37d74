/** The language of a decoder: which byte strings it accepts, and what they mean. */
module Language {
  import opened Bits
  import opened Common
  import opened Wire
  import opened Records
  import opened RecordLaws
  import opened UnknownFields
  import opened Decoding

  /** A well-formed field with a positive number; a number that the message uses comes with the
      wire type of its kind. */
  ghost predicate Acceptable(schema: Schema, f: Field) {
    && WellFormed(f) && Num(f) > 0
    && (Num(f) in schema ==>
          match schema[Num(f)]
          case VarintKind => f.VarintField?
          case BytesKind => f.BytesField?)
  }

  ghost predicate AllAcceptable(schema: Schema, fs: seq<Field>) {
    forall f | f in fs :: Acceptable(schema, f)
  }

  /** What an acceptable field does to a message. */
  ghost function Effect(schema: Schema, f: Field): Item
    requires Acceptable(schema, f)
  {
    if Num(f) !in schema then Nothing
    else match f
      case VarintField(_, value) => Scalar(Num(f), Wire64(value))
      case BytesField(_, _, data) => Blob(Num(f), data)
      case _ => Nothing
  }

  ghost function Effects(schema: Schema, fs: seq<Field>): seq<Item>
    requires AllAcceptable(schema, fs)
  {
    if fs == [] then [] else
    assert fs[0] in fs && forall f | f in fs[1..] :: f in fs;
    [Effect(schema, fs[0])] + Effects(schema, fs[1..])
  }

  // ---------------------------------------------------------------- fields are read as they mean

  lemma KnownFieldIsRead(schema: Schema, f: Field, rest: seq<byte>, pos: nat)
    requires Acceptable(schema, f) && Num(f) in schema && pos + |FieldBytes(f)| < TWO_63
    ensures RecordAt(schema, FieldBytes(f) + rest, pos) == Record(Effect(schema, f), |FieldBytes(f)|, None)
  {
    hide VarintAt, UnknownRecord;
    var s, t := FieldBytes(f) + rest, f.tag;
    assert s == t + s[|t|..];
    VarintPrefix(t, s[|t|..], 0);
    match f
    case VarintField(_, value) =>
      assert s[|t|..] == value + rest;
      VarintPrefix(value, rest, 0);
    case BytesField(_, length, data) =>
      assert s[|t|..] == length + (data + rest);
      VarintPrefix(length, data + rest, 0);
      assert s[|t| + |length|..|t| + |length| + |data|] == data;
  }

  lemma FieldIsRead(schema: Schema, f: Field, rest: seq<byte>, pos: nat)
    requires Acceptable(schema, f) && pos + |FieldBytes(f)| < TWO_63
    ensures RecordAt(schema, FieldBytes(f) + rest, pos) == Record(Effect(schema, f), |FieldBytes(f)|, None)
  {
    hide RecordAt, FieldBytes;
    if Num(f) in schema {
      KnownFieldIsRead(schema, f, rest, pos);
    } else {
      UnknownFieldIsSkipped(schema, f, rest, pos);
    }
  }

  /** Acceptable fields are read without an error, each with its own effect, in order. */
  lemma {:induction false} FieldsAreRead(schema: Schema, fs: seq<Field>, pos: nat)
    requires AllAcceptable(schema, fs) && pos + |FieldsBytes(fs)| < TWO_63
    ensures Parse(schema, FieldsBytes(fs), pos) == Parsed(Effects(schema, fs), None)
  {
    hide Parse, RecordAt, FieldBytes, WellFormed, Effect;
    if fs == [] {
      ParseEmpty(schema, pos);
    } else {
      assert fs[0] in fs && forall f | f in fs[1..] :: f in fs;
      var a, b := FieldBytes(fs[0]), FieldsBytes(fs[1..]);
      FieldsAreRead(schema, fs[1..], pos + |a|);
      FieldIsRead(schema, fs[0], b, pos);
      ParseTurn(schema, a + b, pos);
      assert (a + b)[|a|..] == b;
    }
  }

  // ---------------------------------------------------------------- nothing else is read

  lemma KnownRecordOf(schema: Schema, u: seq<byte>, pos: nat) returns (f: Field)
    requires var r := RecordAt(schema, u, pos); r.err.None? && r.item != Nothing
    ensures Acceptable(schema, f) && FieldBytes(f) == u[..RecordAt(schema, u, pos).size]
  {
    hide VarintAt;
    var z, n := VarintAt(u, 0).size, RecordAt(schema, u, pos).size;
    var tag, rest := u[..z], u[z..];
    FrontVarint(u);
    FrontVarint(rest);
    var l := VarintAt(rest, 0).size;
    assert u[z..z + l] == rest[..l];
    if RecordAt(schema, u, pos).item.Scalar? {
      f := VarintField(tag, u[z..n]);
    } else {
      f := BytesField(tag, u[z..z + l], u[z + l..n]);
      assert tag + u[z..z + l] + u[z + l..n] == u[..n];
    }
  }

  lemma RecordOf(schema: Schema, u: seq<byte>, pos: nat) returns (f: Field)
    requires RecordAt(schema, u, pos).err.None?
    ensures Acceptable(schema, f) && FieldBytes(f) == u[..RecordAt(schema, u, pos).size]
  {
    hide RecordAt, FieldBytes;
    if RecordAt(schema, u, pos).item == Nothing {
      f := RecordWithoutEffect(schema, u, pos);
    } else {
      f := KnownRecordOf(schema, u, pos);
    }
  }

  lemma {:induction false} FieldsOfParse(schema: Schema, u: seq<byte>, pos: nat) returns (fs: seq<Field>)
    requires Parse(schema, u, pos).err.None?
    ensures AllAcceptable(schema, fs) && FieldsBytes(fs) == u
    decreases |u|
  {
    hide Parse, FieldBytes, RecordAt, WellFormed;
    fs := [];
    if u != [] {
      ParseStart(schema, u, pos);
      ParseTurn(schema, u, pos);
      var n := RecordAt(schema, u, pos).size;
      var f := RecordOf(schema, u, pos);
      var rest := FieldsOfParse(schema, u[n..], pos + n);
      fs := [f] + rest;
      assert fs[1..] == rest;
      assert u == u[..n] + u[n..];
    }
  }

  /** A decoder accepts a byte string if and only if it is a sequence of acceptable fields. */
  lemma AcceptedExactly(schema: Schema, u: seq<byte>)
    requires |u| < TWO_63
    ensures Parse(schema, u, 0).err.None? <==> exists fs :: AllAcceptable(schema, fs) && FieldsBytes(fs) == u
  {
    hide Parse, FieldBytes, WellFormed;
    if Parse(schema, u, 0).err.None? {
      var fs := FieldsOfParse(schema, u, 0);
    }
    forall fs | AllAcceptable(schema, fs) && FieldsBytes(fs) == u
      ensures Parse(schema, u, 0).err.None?
    {
      FieldsAreRead(schema, fs, 0);
    }
  }

  /** And then decoding is the fold of the effects of those fields. */
  lemma DecodedMeaning<M>(fmt: Format<M>, m: M, fs: seq<Field>)
    requires AllAcceptable(fmt.schema, fs) && |FieldsBytes(fs)| < TWO_63
    ensures DecodeFrom(fmt, m, FieldsBytes(fs), 0) == Decoded(ApplyAll(fmt, m, Effects(fmt.schema, fs)), None)
  {
    hide Parse, FieldBytes, WellFormed, ApplyAll;
    FieldsAreRead(fmt.schema, fs, 0);
  }

  // ---------------------------------------------------------------- what is refused, and why

  /** A known varint field whose value breaks off: the bits read so far are applied. */
  lemma TornIsRead<M>(fmt: Format<M>, m: M, tag: seq<byte>, s: seq<byte>)
    requires IsVarint(tag) && Wire64(tag) % 8 == 0 && VarintAt(s, 0).err.Some?
    requires var num := ToInt32(Wire64(tag) / 8); num > 0 && num in fmt.schema && fmt.schema[num].VarintKind?
    ensures var v := VarintAt(s, 0);
            DecodeFrom(fmt, m, tag + s, 0)
            == Decoded(fmt.apply(m, Torn(ToInt32(Wire64(tag) / 8), v.value % TWO_64)), v.err)
  {
    hide VarintAt;
    VarintPrefix(tag, s, 0);
    assert (tag + s)[|tag|..] == s;
    DecodeTurn(fmt, m, tag + s, 0);
  }

  /** The reasons for which a complete tag is refused at once. */
  lemma RefusedTags(schema: Schema, tag: seq<byte>, rest: seq<byte>, pos: nat)
    requires IsVarint(tag)
    ensures var num, wireType := ToInt32(Wire64(tag) / 8), Wire64(tag) % 8;
            var err := RecordAt(schema, tag + rest, pos).err;
            && (err == Some(EndGroupForNonGroup) <==> wireType == 4)
            && (err == Some(IllegalTag) <==> wireType != 4 && num <= 0)
            && (err == Some(WrongWireType) <==>
                  && wireType != 4 && num > 0 && num in schema
                  && (if schema[num].VarintKind? then wireType != 0 else wireType != 2))
            && (wireType >= 6 && num > 0 && num !in schema ==> err == Some(IllegalWireType))
  {
    hide VarintAt, SkipFrom;
    VarintPrefix(tag, rest, 0);
    RecordCases(schema, tag + rest, pos, ToInt32(Wire64(tag) / 8), Wire64(tag) % 8);
    if ToInt32(Wire64(tag) / 8) !in schema {
      SkipErrors(tag + rest, 0, 0);
      if Wire64(tag) % 8 >= 6 {
        IllegalIsSkipped(tag + rest);
      }
    }
    VarintErrors(tag + rest, 0);
    VarintErrors((tag + rest)[|tag|..], 0);
  }

  /** A known bytes field: its length is refused when an index would no longer fit an int, and the
      buffer when it ends before the field does. */
  lemma RefusedLengths(schema: Schema, tag: seq<byte>, length: seq<byte>, rest: seq<byte>)
    requires IsVarint(tag) && Wire64(tag) % 8 == 2 && IsVarint(length)
    requires var num := ToInt32(Wire64(tag) / 8); num > 0 && num in schema && schema[num].BytesKind?
    ensures RecordAt(schema, tag + length + rest, 0).err
         == if Wire64(length) + |tag| + |length| >= TWO_63 then Some(InvalidLength)
            else if Wire64(length) > |rest| then Some(UnexpectedEof)
            else None
  {
    hide VarintAt, UnknownRecord;
    var s := tag + length + rest;
    assert s == tag + (length + rest) && s[|tag|..] == length + rest;
    VarintPrefix(tag, length + rest, 0);
    VarintPrefix(length, rest, 0);
  }

  /** The same for a bytes field that the message does not know. */
  lemma RefusedUnknownLengths(schema: Schema, tag: seq<byte>, length: seq<byte>, rest: seq<byte>)
    requires IsVarint(tag) && Wire64(tag) % 8 == 2 && IsVarint(length)
    requires var num := ToInt32(Wire64(tag) / 8); num > 0 && num !in schema
    ensures RecordAt(schema, tag + length + rest, 0).err
         == if Wire64(length) + |tag| + |length| >= TWO_63 then Some(InvalidLength)
            else if Wire64(length) > |rest| then Some(UnexpectedEof)
            else None
  {
    hide VarintAt, ScalarRecord, BytesRecord;
    var s := tag + length + rest;
    assert s == tag + (length + rest) && s[|tag|..] == length + rest;
    VarintPrefix(tag, length + rest, 0);
    VarintPrefix(length, rest, 0);
  }

  /** What a skip refuses at its first tag. */
  lemma RefusedSkips(tag: seq<byte>, rest: seq<byte>, at: nat, depth: nat)
    requires IsVarint(tag)
    ensures SkipFrom([], at, depth).err == Some(UnexpectedEof)
    ensures Wire64(tag) % 8 == 4 && depth == 0 ==> SkipFrom(tag + rest, at, depth).err == Some(UnexpectedEndOfGroup)
    ensures Wire64(tag) % 8 >= 6 ==> SkipFrom(tag + rest, at, depth).err == Some(IllegalWireType)
  {
    hide VarintAt;
    VarintPrefix(tag, rest, 0);
  }

  lemma IllegalIsSkipped(s: seq<byte>)
    requires VarintAt(s, 0).err.None? && VarintAt(s, 0).value % TWO_64 % 8 >= 6
    ensures SkipFrom(s, 0, 0).err == Some(IllegalWireType)
  {
  }

  predicate IsOuterError(err: Option<Error>) {
    err == Some(EndGroupForNonGroup) || err == Some(IllegalTag) || err == Some(WrongWireType)
  }

  lemma ElementErrors(s: seq<byte>, depth: nat)
    ensures !IsOuterError(ElementAt(s, depth).err)
  {
    hide VarintAt;
    VarintErrors(s, 0);
    if VarintAt(s, 0).err.None? {
      VarintErrors(s[VarintAt(s, 0).size..], 0);
    }
  }

  /** A skip never reports one of the errors of the outer loop. */
  lemma {:induction false} SkipErrors(s: seq<byte>, at: nat, depth: nat)
    ensures !IsOuterError(SkipFrom(s, at, depth).err)
    decreases |s|
  {
    hide ElementAt;
    ElementErrors(s, depth);
    var e := ElementAt(s, depth);
    if e.err.None? && e.size <= |s| {
      SkipErrors(s[e.size..], at + e.size, e.depth);
    }
  }

  /** The bytes of a varint all ask for a next one. */
  predicate Continues(s: seq<byte>) {
    forall i | 0 <= i < |s| :: s[i] >= 128
  }

  /** A varint of which k bytes have been read fails exactly when it goes on past the tenth byte,
      or past the end of the buffer before that. */
  lemma {:induction false} VarintErrors(s: seq<byte>, k: nat)
    requires k <= 10
    ensures VarintAt(s, k).err == Some(IntOverflow) <==> |s| >= 10 - k && Continues(s[..10 - k])
    ensures VarintAt(s, k).err == Some(UnexpectedEof) <==> |s| < 10 - k && Continues(s)
    ensures VarintAt(s, k).err in {None, Some(IntOverflow), Some(UnexpectedEof)}
    decreases |s|
  {
    if k < 10 && s != [] {
      VarintErrors(s[1..], k + 1);
      if |s| >= 10 - k {
        assert s[..10 - k] == [s[0]] + s[1..][..10 - (k + 1)];
      }
      assert s == [s[0]] + s[1..];
    }
  }
}
