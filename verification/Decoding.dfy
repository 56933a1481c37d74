/** Decoding a buffer into a message, for any message that is filled record by record. */
module Decoding {
  import opened Bits
  import opened Common
  import opened Wire
  import opened Records
  import opened RecordLaws
  import opened Writing

  /** A message type: the fields it knows and what a record does to a message. */
  datatype Format<!M> = Format(schema: Schema, apply: (M, Item) -> M)

  datatype Decoded<+M> = Decoded(message: M, err: Option<Error>)

  function ApplyAll<M>(fmt: Format<M>, m: M, items: seq<Item>): M
    decreases items
  {
    if items == [] then m else ApplyAll(fmt, fmt.apply(m, items[0]), items[1..])
  }

  /** Decodes `data`, which starts at index `pos` of the buffer, into `m`. */
  function DecodeFrom<M>(fmt: Format<M>, m: M, data: seq<byte>, pos: nat): Decoded<M> {
    var p := Parse(fmt.schema, data, pos);
    Decoded(ApplyAll(fmt, m, p.items), p.err)
  }

  ghost predicate IgnoresNothing<M(!new)>(fmt: Format<M>) {
    forall m: M :: fmt.apply(m, Nothing) == m
  }

  lemma ApplyOptional<M>(fmt: Format<M>, m: M, present: bool, item: Item)
    ensures ApplyAll(fmt, m, Optional(present, item)) == if present then fmt.apply(m, item) else m
  {
  }

  lemma {:induction false} ApplyConcat<M>(fmt: Format<M>, m: M, a: seq<Item>, b: seq<Item>)
    ensures ApplyAll(fmt, m, a + b) == ApplyAll(fmt, ApplyAll(fmt, m, a), b)
    decreases a
  {
    if a == [] {
      assert a + b == b;
    } else {
      assert (a + b)[1..] == a[1..] + b;
      ApplyConcat(fmt, fmt.apply(m, a[0]), a[1..], b);
    }
  }

  /** One turn of the decoding loop. */
  lemma DecodeTurn<M>(fmt: Format<M>, m: M, s: seq<byte>, pos: nat)
    requires s != []
    ensures var r := RecordAt(fmt.schema, s, pos);
            DecodeFrom(fmt, m, s, pos) ==
            if r.err.Some? then Decoded(fmt.apply(m, r.item), r.err)
            else DecodeFrom(fmt, fmt.apply(m, r.item), s[r.size..], pos + r.size)
  {
    hide RecordAt;
    var r := RecordAt(fmt.schema, s, pos);
    if r.err.Some? {
      ApplyOptional(fmt, m, true, r.item);
    } else {
      ParseTurn(fmt.schema, s, pos);
      var rest := Parse(fmt.schema, s[r.size..], pos + r.size).items;
      assert ([r.item] + rest)[1..] == rest;
    }
  }

  lemma DecodeEnds<M>(fmt: Format<M>, m: M, data: seq<byte>)
    ensures DecodeFrom(fmt, m, data, 0) == DecodeFrom(fmt, m, data[0..], 0)
    ensures DecodeFrom(fmt, m, data[|data|..], |data|) == Decoded(m, None)
  {
    assert data[0..] == data;
  }

  /** Decoding written records applies exactly those records. */
  lemma DecodeInvertsWriting<M>(fmt: Format<M>, m: M, items: seq<Item>)
    requires ValidItems(fmt.schema, items) && |ItemsBytes(items)| < TWO_63
    ensures DecodeFrom(fmt, m, ItemsBytes(items), 0) == Decoded(ApplyAll(fmt, m, items), None)
  {
    hide Parse, ApplyAll, ItemsBytes;
    ParseRoundTrip(fmt.schema, items, 0);
  }

  /** Decoding a concatenation is decoding the second part into the result of the first. */
  lemma DecodeConcat<M>(fmt: Format<M>, m: M, a: seq<byte>, b: seq<byte>)
    requires |a + b| < TWO_63 && DecodeFrom(fmt, m, a, 0).err.None?
    ensures var first := DecodeFrom(fmt, m, a, 0).message;
            && DecodeFrom(fmt, m, a + b, 0) == DecodeFrom(fmt, first, b, |a|)
            && DecodeFrom(fmt, m, a + b, 0).message == DecodeFrom(fmt, first, b, 0).message
            && (DecodeFrom(fmt, m, a + b, 0).err.None? <==> DecodeFrom(fmt, first, b, 0).err.None?)
  {
    hide Parse, ApplyAll;
    ParseConcat(fmt.schema, a, b, 0);
    ParseAnywhere(fmt.schema, b, |a|, 0);
    ApplyConcat(fmt, m, Parse(fmt.schema, a, 0).items, Parse(fmt.schema, b, |a|).items);
  }

  lemma {:induction false} ApplyNothing<M(!new)>(fmt: Format<M>, m: M, items: seq<Item>)
    requires IgnoresNothing(fmt) && forall i | i in items :: i == Nothing
    ensures ApplyAll(fmt, m, items) == m
    decreases items
  {
    if items != [] {
      assert items[0] in items && forall i | i in items[1..] :: i in items;
      ApplyNothing(fmt, m, items[1..]);
    }
  }

  /** Silent bytes after any decodable prefix do not change what is decoded. */
  lemma SilentBytesIgnored<M(!new)>(fmt: Format<M>, m: M, a: seq<byte>, u: seq<byte>, b: seq<byte>)
    requires IgnoresNothing(fmt) && Silent(fmt.schema, u) && |a + u + b| < TWO_63
    requires DecodeFrom(fmt, m, a, 0).err.None?
    ensures var with, without := DecodeFrom(fmt, m, a + u + b, 0), DecodeFrom(fmt, m, a + b, 0);
            with.message == without.message && (with.err.None? <==> without.err.None?)
  {
    hide Parse, ApplyAll;
    InsertSilent(fmt.schema, a, u, b);
    var first, none := Parse(fmt.schema, a, 0).items, Parse(fmt.schema, u, 0).items;
    var rest := Parse(fmt.schema, a + b, 0).items[|first|..];
    assert Parse(fmt.schema, a + b, 0).items == first + rest;
    ApplyConcat(fmt, m, first + none, rest);
    ApplyConcat(fmt, m, first, none);
    ApplyConcat(fmt, m, first, rest);
    ApplyNothing(fmt, ApplyAll(fmt, m, first), none);
  }

  /** A well-formed unknown field after any decodable prefix does not change what is decoded. */
  lemma UnknownFieldIgnored<M(!new)>(fmt: Format<M>, m: M, a: seq<byte>, f: Field, b: seq<byte>)
    requires IgnoresNothing(fmt) && UnknownTo(fmt.schema, f) && |a + FieldBytes(f) + b| < TWO_63
    requires DecodeFrom(fmt, m, a, 0).err.None?
    ensures var with, without := DecodeFrom(fmt, m, a + FieldBytes(f) + b, 0), DecodeFrom(fmt, m, a + b, 0);
            with.message == without.message && (with.err.None? <==> without.err.None?)
  {
    hide Parse, FieldBytes, ApplyAll;
    UnknownFieldIsSilent(fmt.schema, f);
    SilentBytesIgnored(fmt, m, a, FieldBytes(f), b);
  }

  /** In particular it may stand between any two records of an encoding. */
  lemma UnknownFieldBetween<M(!new)>(fmt: Format<M>, m: M, items: seq<Item>, k: nat, f: Field)
    requires IgnoresNothing(fmt) && ValidItems(fmt.schema, items) && k <= |items|
    requires UnknownTo(fmt.schema, f)
    requires |ItemsBytes(items)| + |FieldBytes(f)| < TWO_63
    ensures forall i | i in items[..k] :: Writable(i)
    ensures forall i | i in items[k..] :: Writable(i)
    ensures DecodeFrom(fmt, m, ItemsBytes(items[..k]) + FieldBytes(f) + ItemsBytes(items[k..]), 0)
         == Decoded(ApplyAll(fmt, m, items), None)
  {
    hide Parse, ApplyAll, ItemsBytes, FieldBytes;
    assert items == items[..k] + items[k..];
    ItemsConcat(items[..k], items[k..]);
    assert forall i | i in items[..k] :: i in items;
    DecodeInvertsWriting(fmt, m, items[..k]);
    UnknownFieldIgnored(fmt, m, ItemsBytes(items[..k]), f, ItemsBytes(items[k..]));
    DecodeInvertsWriting(fmt, m, items);
  }
}
