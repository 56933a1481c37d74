/** The converse of skipping: whatever the decoder skips as one record is a well-formed field. */
module UnknownFields {
  import opened Bits
  import opened Common
  import opened Wire
  import opened Records
  import opened RecordLaws

  /** The bytes of a varint at the front of `s` are a varint by themselves. */
  lemma {:induction false} VarintTrim(s: seq<byte>, k: nat)
    requires VarintAt(s, k).err.None?
    ensures VarintAt(s[..VarintAt(s, k).size], k) == VarintAt(s, k)
  {
    if s[0] >= 128 {
      var n := VarintAt(s, k).size;
      VarintTrim(s[1..], k + 1);
      assert s[..n][1..] == s[1..][..n - 1];
    }
  }

  lemma FrontVarint(s: seq<byte>)
    requires VarintAt(s, 0).err.None?
    ensures var v := VarintAt(s, 0);
            IsVarint(s[..v.size]) && Wire64(s[..v.size]) == v.value % TWO_64
  {
    hide VarintAt;
    VarintTrim(s, 0);
  }

  /** The wire type of the tag at the front of `s`. */
  function FrontType(s: seq<byte>): nat {
    VarintAt(s, 0).value % TWO_64 % 8
  }

  /** An element that is not a group tag is a well-formed field. */
  lemma LeafOf(s: seq<byte>, depth: nat) returns (f: Field)
    requires var e := ElementAt(s, depth); e.err.None? && e.size <= |s|
    requires FrontType(s) != 3 && FrontType(s) != 4
    ensures WellFormed(f) && FieldBytes(f) == s[..ElementAt(s, depth).size]
    ensures f.tag == s[..VarintAt(s, 0).size] && ElementAt(s, depth).depth == depth
  {
    hide VarintAt;
    var z, n := VarintAt(s, 0).size, ElementAt(s, depth).size;
    var tag, rest := s[..z], s[z..];
    FrontVarint(s);
    match FrontType(s)
    case 0 =>
      FrontVarint(rest);
      f := VarintField(tag, s[z..n]);
      assert s[z..n] == rest[..n - z];
    case 1 =>
      f := Fixed64Field(tag, s[z..n]);
    case 2 =>
      var l := VarintAt(rest, 0).size;
      FrontVarint(rest);
      f := BytesField(tag, s[z..z + l], s[z + l..n]);
      assert s[z..z + l] == rest[..l];
      assert tag + s[z..z + l] + s[z + l..n] == s[..n];
    case 5 =>
      f := Fixed32Field(tag, s[z..n]);
  }

  /** A group tag is an element of its own. */
  lemma GroupTagOf(s: seq<byte>, depth: nat)
    requires ElementAt(s, depth).err.None? && (FrontType(s) == 3 || FrontType(s) == 4)
    ensures var e := ElementAt(s, depth);
            && e.size == VarintAt(s, 0).size
            && e.depth == (if FrontType(s) == 3 then depth + 1 else depth - 1)
            && (FrontType(s) == 4 ==> depth > 0)
            && IsVarint(s[..e.size]) && Wire64(s[..e.size]) % 8 == FrontType(s)
  {
    hide VarintAt;
    FrontVarint(s);
  }

  lemma SkipStart(s: seq<byte>, at: nat, depth: nat)
    requires SkipFrom(s, at, depth).err.None? && SkipFrom(s, at, depth).size <= |s|
    ensures var e := ElementAt(s, depth);
            && s != [] && e.err.None? && 1 <= e.size <= |s|
            && (e.depth == 0 ==> SkipFrom(s, at, depth).size == e.size)
            && (e.depth != 0 ==>
                  SkipFrom(s, at, depth).size >= e.size
                  && SkipFrom(s[e.size..], at + e.size, e.depth) == Skipped(SkipFrom(s, at, depth).size - e.size, None))
  {
    hide ElementAt;
  }

  /** What is left of a skip after the first k bytes, one level up. */
  ghost predicate Resumes(s: seq<byte>, at: nat, depth: nat, k: nat) {
    && SkipFrom(s, at, depth).err.None? && k <= SkipFrom(s, at, depth).size <= |s|
    && if depth <= 1 then k == SkipFrom(s, at, depth).size
       else SkipFrom(s[k..], at + k, depth - 1) == Skipped(SkipFrom(s, at, depth).size - k, None)
  }

  lemma ResumesLater(s: seq<byte>, at: nat, depth: nat, n: nat, k: nat)
    requires depth > 0 && SkipFrom(s, at, depth).err.None? && n <= SkipFrom(s, at, depth).size <= |s|
    requires SkipFrom(s[n..], at + n, depth) == Skipped(SkipFrom(s, at, depth).size - n, None)
    requires Resumes(s[n..], at + n, depth, k)
    ensures Resumes(s, at, depth, n + k)
  {
    hide SkipFrom;
    assert s[n..][k..] == s[n + k..];
  }

  lemma Cut(s: seq<byte>, i: nat, j: nat)
    requires i + j <= |s|
    ensures s[..i] + s[i..][..j] == s[..i + j]
  {
  }

  /** Inside a group, a skip that succeeds reads fields and then the end of the group. */
  lemma {:induction false} FieldsOf(s: seq<byte>, at: nat, depth: nat) returns (fs: seq<Field>, end: seq<byte>)
    requires depth > 0 && SkipFrom(s, at, depth).err.None? && SkipFrom(s, at, depth).size <= |s|
    ensures (forall g | g in fs :: WellFormed(g)) && IsVarint(end) && Wire64(end) % 8 == 4
    ensures FieldsBytes(fs) + end <= s && Resumes(s, at, depth, |FieldsBytes(fs) + end|)
    decreases |s|, 1
  {
    hide SkipFrom, ElementAt, VarintAt, FieldBytes, Resumes;
    SkipStart(s, at, depth);
    var e := ElementAt(s, depth);
    var n := e.size;
    if FrontType(s) == 4 {
      GroupTagOf(s, depth);
      fs, end := [], s[..n];
      assert [] + end == end;
      EndResumes(s, at, depth);
    } else {
      var f: Field;
      if FrontType(s) == 3 {
        f := GroupOf(s, at, depth);
        n := |FieldBytes(f)|;
      } else {
        f := LeafOf(s, depth);
      }
      var rest, last := FieldsOf(s[n..], at + n, depth);
      fs, end := [f] + rest, last;
      assert fs[1..] == rest;
      var body := FieldsBytes(rest) + end;
      assert FieldsBytes(fs) + end == FieldBytes(f) + body;
      Cut(s, n, |body|);
      ResumesLater(s, at, depth, n, |body|);
    }
  }

  lemma EndResumes(s: seq<byte>, at: nat, depth: nat)
    requires depth > 0 && SkipFrom(s, at, depth).err.None? && SkipFrom(s, at, depth).size <= |s|
    requires FrontType(s) == 4
    ensures Resumes(s, at, depth, ElementAt(s, depth).size)
  {
    hide SkipFrom, ElementAt, VarintAt;
    SkipStart(s, at, depth);
    GroupTagOf(s, depth);
  }

  /** A group that a skip starts with is a well-formed field, and the skip goes on behind it. */
  lemma {:induction false} GroupOf(s: seq<byte>, at: nat, depth: nat) returns (f: Field)
    requires SkipFrom(s, at, depth).err.None? && SkipFrom(s, at, depth).size <= |s| && FrontType(s) == 3
    ensures f.GroupField? && WellFormed(f) && FieldBytes(f) <= s && f.tag == s[..VarintAt(s, 0).size]
    ensures |FieldBytes(f)| <= SkipFrom(s, at, depth).size
    ensures if depth == 0 then |FieldBytes(f)| == SkipFrom(s, at, depth).size
            else SkipFrom(s[|FieldBytes(f)|..], at + |FieldBytes(f)|, depth)
                 == Skipped(SkipFrom(s, at, depth).size - |FieldBytes(f)|, None)
    decreases |s|, 0
  {
    hide SkipFrom, ElementAt, VarintAt;
    SkipStart(s, at, depth);
    GroupTagOf(s, depth);
    var n := ElementAt(s, depth).size;
    var fields, end := FieldsOf(s[n..], at + n, depth + 1);
    f := GroupField(s[..n], fields, end);
    var body := FieldsBytes(fields) + end;
    Cut(s, n, |body|);
    assert FieldBytes(f) == s[..n] + body;
    assert s[n..][|body|..] == s[n + |body|..];
  }

  /** What a skip at depth 0 consumes is one well-formed field. */
  lemma FieldOf(u: seq<byte>) returns (f: Field)
    requires SkipFrom(u, 0, 0).err.None? && SkipFrom(u, 0, 0).size <= |u|
    ensures WellFormed(f) && FieldBytes(f) == u[..SkipFrom(u, 0, 0).size] && f.tag == u[..VarintAt(u, 0).size]
  {
    hide SkipFrom, ElementAt, VarintAt, FieldBytes;
    SkipStart(u, 0, 0);
    if FrontType(u) == 3 || FrontType(u) == 4 {
      GroupTagOf(u, 0);
      f := GroupOf(u, 0, 0);
    } else {
      f := LeafOf(u, 0);
    }
  }

  lemma RecordWithoutEffect(schema: Schema, u: seq<byte>, pos: nat) returns (f: Field)
    requires var r := RecordAt(schema, u, pos); r.err.None? && r.item == Nothing
    ensures UnknownTo(schema, f) && FieldBytes(f) == u[..RecordAt(schema, u, pos).size]
  {
    hide SkipFrom, VarintAt, FieldBytes;
    f := FieldOf(u);
    FrontVarint(u);
  }

  ghost predicate AllUnknown(schema: Schema, fs: seq<Field>) {
    forall f | f in fs :: UnknownTo(schema, f)
  }

  /** The decoder reads bytes without an error and without an effect if and only if they are a
      sequence of well-formed fields with numbers that the message does not use. */
  lemma SilentExactly(schema: Schema, u: seq<byte>)
    requires |u| < TWO_63
    ensures Silent(schema, u) <==> exists fs: seq<Field> :: AllUnknown(schema, fs) && FieldsBytes(fs) == u
  {
    hide Parse, FieldBytes;
    if Silent(schema, u) {
      var fs := SilentFields(schema, u);
    }
    forall fs: seq<Field> | AllUnknown(schema, fs) && FieldsBytes(fs) == u
      ensures Silent(schema, u)
    {
      FieldsAreSilent(schema, fs);
    }
  }

  lemma {:induction false} FieldsAreSilent(schema: Schema, fs: seq<Field>)
    requires AllUnknown(schema, fs) && |FieldsBytes(fs)| < TWO_63
    ensures Silent(schema, FieldsBytes(fs))
  {
    hide Parse, FieldBytes, WellFormed;
    if fs == [] {
      ParseEmpty(schema, 0);
    } else {
      assert fs[0] in fs && forall f | f in fs[1..] :: f in fs;
      var a, b := FieldBytes(fs[0]), FieldsBytes(fs[1..]);
      FieldsAreSilent(schema, fs[1..]);
      UnknownFieldIsSilent(schema, fs[0]);
      ParseConcat(schema, a, b, 0);
      ParseAnywhere(schema, b, 0, |a|);
    }
  }

  lemma {:induction false} SilentFields(schema: Schema, u: seq<byte>) returns (fs: seq<Field>)
    requires |u| < TWO_63 && Silent(schema, u)
    ensures AllUnknown(schema, fs) && FieldsBytes(fs) == u
    decreases |u|
  {
    hide Parse, FieldBytes, RecordAt, WellFormed;
    fs := [];
    if u != [] {
      ParseStart(schema, u, 0);
      ParseTurn(schema, u, 0);
      var n := RecordAt(schema, u, 0).size;
      assert Parse(schema, u, 0).items[0] in Parse(schema, u, 0).items;
      var f := RecordWithoutEffect(schema, u, 0);
      ParseAnywhere(schema, u[n..], n, 0);
      var items := Parse(schema, u[n..], n).items;
      assert forall i | i in items :: i in [Nothing] + items;
      var rest := SilentFields(schema, u[n..]);
      fs := [f] + rest;
      assert fs[1..] == rest;
      assert u == u[..n] + u[n..];
    }
  }
}
