/**
 The Protocol Buffers wire format as the generated codecs read and write it:
 base-128 varints, tags, length-delimited payloads, and the skipping of fields a
 message does not know.  Everything here is a specification on byte sequences;
 module WireIO holds the loops that compute it.
 */
module Wire {
  import opened Common

  datatype DecodeError =
    | IntOverflow
    | UnexpectedEOF
    | InvalidLength
    | EndGroup
    | IllegalTag
    | WrongWireType
    | IllegalWireType

  // ---------------------------------------------------------------- varints

  /** The minimal base-128 encoding, least significant group first. */
  function Varint(v: nat): (s: bytes)
    ensures |s| >= 1
  {
    if v < 128 then [v] else [v % 128 + 128] + Varint(v / 128)
  }

  /**
   Reads one varint of at most groups bytes from the front of s, as an unbounded
   number, together with the number of bytes it took.
   */
  function VarintAt(s: bytes, groups: nat): (r: Result<(nat, nat), DecodeError>)
    ensures r.Ok? ==> 1 <= r.value.1 <= |s| && r.value.1 <= groups
  {
    if groups == 0 then Err(IntOverflow)
    else if s == [] then Err(UnexpectedEOF)
    else if s[0] < 128 then Ok((s[0], 1))
    else
      var (v, n) :- VarintAt(s[1..], groups - 1);
      Ok((s[0] % 128 + 128 * v, n + 1))
  }

  /** A 64-bit varint: ten groups at most, the bits above 63 are lost. */
  function ReadVarint(s: bytes): (r: Result<(uint64, nat), DecodeError>)
    ensures r.Ok? ==> 1 <= r.value.1 <= |s|
  {
    var (v, n) :- VarintAt(s, 10);
    Ok((v % TWO_64, n))
  }

  function Pow128(k: nat): (p: nat)
    ensures p >= 1
  {
    if k == 0 then 1 else 128 * Pow128(k - 1)
  }

  lemma {:induction false} VarintAtAppend(s: bytes, t: bytes, groups: nat)
    requires VarintAt(s, groups).Ok?
    ensures VarintAt(s + t, groups) == VarintAt(s, groups)
  {
    assert (s + t)[0] == s[0];
    if s[0] >= 128 {
      assert (s + t)[1..] == s[1..] + t;
      VarintAtAppend(s[1..], t, groups - 1);
    }
  }

  lemma ReadVarintAppend(s: bytes, t: bytes)
    requires ReadVarint(s).Ok?
    ensures ReadVarint(s + t) == ReadVarint(s)
  {
    VarintAtAppend(s, t, 10);
  }

  /** A varint is determined by the bytes it takes. */
  lemma {:induction false} VarintAtPrefix(s: bytes, groups: nat)
    requires VarintAt(s, groups).Ok?
    ensures VarintAt(s[..VarintAt(s, groups).value.1], groups) == VarintAt(s, groups)
  {
    var n := VarintAt(s, groups).value.1;
    if s[0] >= 128 {
      VarintAtPrefix(s[1..], groups - 1);
      assert s[..n][1..] == s[1..][..n - 1];
    }
  }

  lemma ReadVarintPrefix(s: bytes)
    requires ReadVarint(s).Ok?
    ensures ReadVarint(s[..ReadVarint(s).value.1]) == ReadVarint(s)
  {
    VarintAtPrefix(s, 10);
  }

  lemma {:induction false} VarintAtRoundTrip(v: nat, t: bytes, groups: nat)
    requires groups >= 1 && v < Pow128(groups)
    ensures VarintAt(Varint(v) + t, groups) == Ok((v, |Varint(v)|))
  {
    if v >= 128 {
      assert Pow128(groups) == 128 * Pow128(groups - 1);
      assert groups > 1;
      VarintAtRoundTrip(v / 128, t, groups - 1);
      assert (Varint(v) + t)[1..] == Varint(v / 128) + t;
    }
  }

  lemma TenGroupsHold64Bits()
    ensures Pow128(10) > TWO_64
  {
    assert Pow128(2) == 16384 by { assert Pow128(1) == 128 * Pow128(0); }
    assert Pow128(4) == 16384 * 16384 by { assert Pow128(3) == 128 * Pow128(2); }
    assert Pow128(6) == 16384 * 16384 * 16384 by { assert Pow128(5) == 128 * Pow128(4); }
    assert Pow128(8) == 16384 * 16384 * 16384 * 16384 by { assert Pow128(7) == 128 * Pow128(6); }
    assert Pow128(10) == 128 * (128 * Pow128(8)) by { assert Pow128(9) == 128 * Pow128(8); }
  }

  /** Every 64-bit number survives being written and read back, whatever follows it. */
  lemma VarintRoundTrip(v: uint64, t: bytes)
    ensures ReadVarint(Varint(v) + t) == Ok((v, |Varint(v)|))
  {
    TenGroupsHold64Bits();
    VarintAtRoundTrip(v, t, 10);
  }

  // ---------------------------------------------------------------- skipping

  /** The length of the field at the front of s, judged by its wire type alone. */
  function Skip(s: bytes): (r: Result<nat, DecodeError>)
    ensures r.Ok? ==> r.value >= 1
    decreases |s|, 0
  {
    var (wire, i) :- ReadVarint(s);
    match wire % 8
    case 0 => var (_, n) :- ReadVarint(s[i..]); Ok(i + n)
    case 1 => Ok(i + 8)
    case 2 =>
      var (length, n) :- ReadVarint(s[i..]);
      if length >= TWO_63 then Err(InvalidLength) else Ok(i + n + length)
    case 3 => var n :- SkipGroup(s[i..]); Ok(i + n)
    case 4 => Ok(i)
    case 5 => Ok(i + 4)
    case _ => Err(IllegalWireType)
  }

  /** The length of the rest of a group: fields up to and including an end-group tag. */
  function SkipGroup(s: bytes): (r: Result<nat, DecodeError>)
    ensures r.Ok? ==> 1 <= r.value <= |s|
    decreases |s|, 1
  {
    var (wire, n) :- ReadVarint(s);
    if wire % 8 == 4 then Ok(n)
    else
      var next :- Skip(s);
      if next > |s| then Err(UnexpectedEOF)
      else
        var rest :- SkipGroup(s[next..]);
        Ok(next + rest)
  }

  lemma {:induction false} SkipAppend(s: bytes, t: bytes)
    requires Skip(s).Ok?
    ensures Skip(s + t) == Skip(s)
    decreases |s|, 0
  {
    hide VarintAt;
    ReadVarintAppend(s, t);
    var (wire, i) := ReadVarint(s).value;
    assert (s + t)[i..] == s[i..] + t;
    if wire % 8 == 0 || wire % 8 == 2 {
      ReadVarintAppend(s[i..], t);
    } else if wire % 8 == 3 {
      SkipGroupAppend(s[i..], t);
    }
  }

  lemma {:induction false} SkipGroupAppend(s: bytes, t: bytes)
    requires SkipGroup(s).Ok?
    ensures SkipGroup(s + t) == SkipGroup(s)
    decreases |s|, 1
  {
    hide ReadVarint;
    ReadVarintAppend(s, t);
    if ReadVarint(s).value.0 % 8 != 4 {
      SkipAppend(s, t);
      var next := Skip(s).value;
      assert (s + t)[next..] == s[next..] + t;
      SkipGroupAppend(s[next..], t);
    }
  }

  // ------------------------------------------- the fields that skipping recognises

  /** A field of any wire type, with the exact bytes of its tag and payload. */
  datatype WireField =
    | VarintField(tag: bytes, payload: bytes)
    | Fixed64Field(tag: bytes, payload: bytes)
    | LengthField(tag: bytes, length: bytes, payload: bytes)
    | GroupField(tag: bytes, items: seq<WireField>, endTag: bytes)
    | Fixed32Field(tag: bytes, payload: bytes)

  /** s is exactly one varint, minimal or not, with value v. */
  ghost predicate IsVarint(s: bytes, v: uint64) {
    ReadVarint(s) == Ok((v, |s|))
  }

  ghost predicate IsTag(s: bytes, wireType: nat) {
    exists v: uint64 :: IsVarint(s, v) && v % 8 == wireType
  }

  function WireType(f: WireField): nat {
    match f
    case VarintField(_, _) => 0
    case Fixed64Field(_, _) => 1
    case LengthField(_, _, _) => 2
    case GroupField(_, _, _) => 3
    case Fixed32Field(_, _) => 5
  }

  ghost predicate WellFormed(f: WireField) {
    && IsTag(f.tag, WireType(f))
    && match f
       case VarintField(_, payload) => exists v: uint64 :: IsVarint(payload, v)
       case Fixed64Field(_, payload) => |payload| == 8
       case LengthField(_, length, payload) => |payload| < TWO_63 && IsVarint(length, |payload|)
       case GroupField(_, items, endTag) => IsTag(endTag, 4) && forall g <- items :: WellFormed(g)
       case Fixed32Field(_, payload) => |payload| == 4
  }

  /** What follows the tag. */
  function Body(f: WireField): bytes
    decreases f, 0
  {
    match f
    case VarintField(_, payload) => payload
    case Fixed64Field(_, payload) => payload
    case LengthField(_, length, payload) => length + payload
    case GroupField(_, items, endTag) => Images(items) + endTag
    case Fixed32Field(_, payload) => payload
  }

  function Image(f: WireField): bytes
    decreases f, 1
  {
    f.tag + Body(f)
  }

  function Images(fs: seq<WireField>): bytes
    decreases fs, 0
  {
    if fs == [] then [] else Image(fs[0]) + Images(fs[1..])
  }

  lemma TagRead(tag: bytes, t: bytes)
    requires ReadVarint(tag).Ok? && ReadVarint(tag).value.1 == |tag|
    ensures ReadVarint(tag + t) == ReadVarint(tag)
    ensures (tag + t)[|tag|..] == t
  {
    ReadVarintAppend(tag, t);
  }

  /** A field's image starts with its tag. */
  lemma FieldStart(f: WireField, t: bytes)
    requires ReadVarint(f.tag).Ok? && ReadVarint(f.tag).value.1 == |f.tag|
    ensures ReadVarint(Image(f) + t) == ReadVarint(f.tag)
    ensures (Image(f) + t)[|f.tag|..] == Body(f) + t
  {
    assert Image(f) + t == f.tag + (Body(f) + t);
    TagRead(f.tag, Body(f) + t);
  }

  /** Skipping consumes a well-formed field exactly, whatever follows it. */
  lemma {:induction false} SkipExact(f: WireField, t: bytes)
    requires WellFormed(f)
    ensures Skip(Image(f) + t) == Ok(|Image(f)|)
    decreases f, 0
  {
    FieldStart(f, t);
    match f
    case VarintField(_, payload) =>
      ReadVarintAppend(payload, t);
    case Fixed64Field(_, _) =>
    case LengthField(_, length, payload) =>
      assert Body(f) + t == length + (payload + t);
      ReadVarintAppend(length, payload + t);
    case GroupField(_, items, endTag) =>
      SkipGroupExact(items, endTag, t);
    case Fixed32Field(_, _) =>
  }

  lemma {:induction false} SkipGroupExact(items: seq<WireField>, endTag: bytes, t: bytes)
    requires IsTag(endTag, 4) && forall g <- items :: WellFormed(g)
    ensures SkipGroup(Images(items) + endTag + t) == Ok(|Images(items)| + |endTag|)
    decreases items, 1
  {
    hide ReadVarint, Image;
    if items == [] {
      assert Images(items) + endTag + t == endTag + t;
      TagRead(endTag, t);
    } else {
      var rest := Images(items[1..]) + endTag + t;
      var first := Image(items[0]);
      assert Images(items) + endTag + t == first + rest;
      SkipExact(items[0], rest);
      FieldStart(items[0], rest);
      assert (first + rest)[|first|..] == rest;
      SkipGroupExact(items[1..], endTag, t);
    }
  }

  /** Conversely, whatever skipping accepts within the buffer is a well-formed field. */
  lemma {:induction false} SkippedIsField(s: bytes) returns (f: WireField)
    requires Skip(s).Ok? && Skip(s).value <= |s| && ReadVarint(s).value.0 % 8 != 4
    ensures WellFormed(f) && Image(f) == s[..Skip(s).value]
    decreases |s|, 0
  {
    var n := Skip(s).value;
    var (wire, i) := ReadVarint(s).value;
    var tag := s[..i];
    ReadVarintPrefix(s);
    assert IsVarint(tag, wire) && IsTag(tag, wire % 8);
    assert s[..n] == tag + s[i..][..n - i];
    if wire % 8 == 3 {
      var items, endTag := SkippedIsGroup(s[i..]);
      f := GroupField(tag, items, endTag);
    } else {
      f := SkippedIsFlat(tag, wire, s[i..], n - i);
    }
  }

  lemma SkippedIsFlat(tag: bytes, wire: uint64, s: bytes, n: nat) returns (f: WireField)
    requires IsVarint(tag, wire) && n <= |s|
    requires wire % 8 == 0 ==> ReadVarint(s).Ok? && n == ReadVarint(s).value.1
    requires wire % 8 == 1 ==> n == 8
    requires wire % 8 == 2 ==> ReadVarint(s).Ok? && ReadVarint(s).value.0 < TWO_63
                               && n == ReadVarint(s).value.1 + ReadVarint(s).value.0
    requires wire % 8 == 5 ==> n == 4
    requires wire % 8 in {0, 1, 2, 5}
    ensures WellFormed(f) && Image(f) == tag + s[..n]
  {
    if wire % 8 == 0 {
      ReadVarintPrefix(s);
      assert IsVarint(s[..n], ReadVarint(s).value.0);
      f := VarintField(tag, s[..n]);
    } else if wire % 8 == 1 {
      f := Fixed64Field(tag, s[..n]);
    } else if wire % 8 == 2 {
      ReadVarintPrefix(s);
      var k := ReadVarint(s).value.1;
      assert s[..n] == s[..k] + s[k..n];
      f := LengthField(tag, s[..k], s[k..n]);
    } else {
      f := Fixed32Field(tag, s[..n]);
    }
  }

  lemma {:induction false} SkippedIsGroup(s: bytes) returns (items: seq<WireField>, endTag: bytes)
    requires SkipGroup(s).Ok?
    ensures IsTag(endTag, 4) && forall g <- items :: WellFormed(g)
    ensures Images(items) + endTag == s[..SkipGroup(s).value]
    decreases |s|, 1
  {
    var (wire, n) := ReadVarint(s).value;
    if wire % 8 == 4 {
      ReadVarintPrefix(s);
      items, endTag := [], s[..n];
      assert IsVarint(endTag, wire);
    } else {
      var next := Skip(s).value;
      var first := SkippedIsField(s);
      var rest;
      rest, endTag := SkippedIsGroup(s[next..]);
      items := [first] + rest;
      JoinImages(first, rest, endTag, s, next, SkipGroup(s[next..]).value);
    }
  }

  lemma JoinImages(first: WireField, rest: seq<WireField>, endTag: bytes, s: bytes, n: nat, k: nat)
    requires n <= |s| && n + k <= |s|
    requires Image(first) == s[..n] && Images(rest) + endTag == s[n..][..k]
    ensures Images([first] + rest) + endTag == s[..n + k]
  {
    assert ([first] + rest)[1..] == rest;
    assert s[..n + k] == s[..n] + s[n..][..k];
    assert Image(first) + Images(rest) + endTag == Image(first) + (Images(rest) + endTag);
  }

  // ---------------------------------------------------------------- fields of a message

  /** What a message expects of each of its fields, numbered from 1. */
  datatype Kind = Number | Text

  datatype Field =
    | NumberField(num: nat, number: uint64)
    | TextField(num: nat, text: bytes)
    | UnknownField(raw: bytes)

  datatype Tag = Tag(num: nat, wireType: nat, size: nat)

  function ReadTag(s: bytes): (r: Result<Tag, DecodeError>)
    ensures r.Ok? ==> 1 <= r.value.size <= |s| && r.value.num >= 1
  {
    var (wire, i) :- ReadVarint(s);
    var num := ToInt32(wire / 8);
    if wire % 8 == 4 then Err(EndGroup)
    else if num <= 0 then Err(IllegalTag)
    else Ok(Tag(num, wire % 8, i))
  }

  function ReadText(s: bytes): (r: Result<(bytes, nat), DecodeError>)
    ensures r.Ok? ==> 1 <= r.value.1 <= |s|
  {
    var (length, n) :- ReadVarint(s);
    if length >= TWO_63 then Err(InvalidLength)
    else if n + length > |s| then Err(UnexpectedEOF)
    else Ok((s[n..n + length], n + length))
  }

  function ReadField(schema: seq<Kind>, s: bytes): (r: Result<(Field, nat), DecodeError>)
    ensures r.Ok? ==> 1 <= r.value.1 <= |s|
  {
    var Tag(num, wireType, i) :- ReadTag(s);
    if num > |schema| then
      var n :- Skip(s);
      if n > |s| then Err(UnexpectedEOF) else Ok((UnknownField(s[..n]), n))
    else if wireType != (if schema[num - 1].Number? then 0 else 2) then Err(WrongWireType)
    else if schema[num - 1].Number? then
      var (v, n) :- ReadVarint(s[i..]);
      Ok((NumberField(num, v), i + n))
    else
      var (text, n) :- ReadText(s[i..]);
      Ok((TextField(num, text), i + n))
  }

  /** Decodes s on top of m, one field after the other. */
  function Decode<M>(schema: seq<Kind>, put: (M, Field) -> Result<M, DecodeError>, m: M, s: bytes)
    : Result<M, DecodeError>
    decreases |s|
  {
    if s == [] then Ok(m)
    else
      var (f, n) :- ReadField(schema, s);
      var m' :- put(m, f);
      Decode(schema, put, m', s[n..])
  }

  /** Decoding goes on, unless it has failed. */
  function DecodeRest<M>(
      schema: seq<Kind>, put: (M, Field) -> Result<M, DecodeError>, r: Result<M, DecodeError>, s: bytes)
    : Result<M, DecodeError>
  {
    var m :- r;
    Decode(schema, put, m, s)
  }

  lemma DecodeNothing<M>(schema: seq<Kind>, put: (M, Field) -> Result<M, DecodeError>, m: M)
    ensures Decode(schema, put, m, []) == Ok(m)
  {
  }

  /** Decoding at index i of d, one field at a time. */
  lemma DecodeStep<M>(schema: seq<Kind>, put: (M, Field) -> Result<M, DecodeError>, m: M, d: bytes, i: nat)
    requires i < |d|
    ensures match ReadField(schema, d[i..])
            case Err(e) => Decode(schema, put, m, d[i..]) == Err(e)
            case Ok((f, n)) =>
              && i + n <= |d|
              && (put(m, f).Err? ==> Decode(schema, put, m, d[i..]) == Err(put(m, f).error))
              && (put(m, f).Ok? ==>
                Decode(schema, put, m, d[i..]) == Decode(schema, put, put(m, f).value, d[i + n..]))
  {
    hide ReadField;
    var r := ReadField(schema, d[i..]);
    if r.Ok? {
      assert d[i..][r.value.1..] == d[i + r.value.1..];
    }
  }

  lemma ReadTextAppend(s: bytes, t: bytes)
    requires ReadText(s).Ok?
    ensures ReadText(s + t) == ReadText(s)
  {
    ReadVarintAppend(s, t);
    var (length, n) := ReadVarint(s).value;
    assert (s + t)[n..n + length] == s[n..n + length];
  }

  lemma ReadFieldAppend(schema: seq<Kind>, s: bytes, t: bytes)
    requires ReadField(schema, s).Ok?
    ensures ReadField(schema, s + t) == ReadField(schema, s)
  {
    ReadVarintAppend(s, t);
    var Tag(num, _, i) := ReadTag(s).value;
    if num > |schema| {
      SkipAppend(s, t);
      var n := Skip(s).value;
      assert (s + t)[..n] == s[..n];
    } else {
      assert (s + t)[i..] == s[i..] + t;
      if schema[num - 1].Number? {
        ReadVarintAppend(s[i..], t);
      } else {
        ReadTextAppend(s[i..], t);
      }
    }
  }

  /** Decoding a concatenation is decoding its parts one after the other. */
  lemma {:induction false} DecodeAppend<M>(
      schema: seq<Kind>, put: (M, Field) -> Result<M, DecodeError>, m: M, s: bytes, t: bytes)
    requires Decode(schema, put, m, s).Ok?
    ensures Decode(schema, put, m, s + t) == Decode(schema, put, Decode(schema, put, m, s).value, t)
    decreases |s|
  {
    if s == [] {
      assert s + t == t;
    } else {
      ReadFieldAppend(schema, s, t);
      var (f, n) := ReadField(schema, s).value;
      assert (s + t)[n..] == s[n..] + t;
      DecodeAppend(schema, put, put(m, f).value, s[n..], t);
    }
  }

  /** The field number a decoder sees in a tag: the low 32 bits of the tag over 8. */
  function FieldNumber(f: WireField): int
    requires ReadVarint(f.tag).Ok?
  {
    ToInt32(ReadVarint(f.tag).value.0 / 8)
  }

  /** A field with a number outside the schema reads as one unknown field. */
  lemma ReadUnknown(schema: seq<Kind>, f: WireField, t: bytes)
    requires WellFormed(f) && FieldNumber(f) > |schema|
    ensures ReadField(schema, Image(f) + t) == Ok((UnknownField(Image(f)), |Image(f)|))
  {
    SkipExact(f, t);
    FieldStart(f, t);
    assert (Image(f) + t)[..|Image(f)|] == Image(f);
  }

  // ---------------------------------------------------------------- writing fields

  /** A number field: absent when zero, as proto3 leaves out default values. */
  function NumberImage(num: nat, v: int64): bytes
    requires 1 <= num <= 15
  {
    if v == 0 then [] else [num * 8] + Varint(ToUint64(v))
  }

  /** A length-delimited field that is always present. */
  function PayloadImage(num: nat, text: bytes): (r: bytes)
    requires 1 <= num <= 15
    ensures |r| == 1 + |Varint(|text|)| + |text|
  {
    [num * 8 + 2] + (Varint(|text|) + text)
  }

  /** A string field: absent when empty. */
  function TextImage(num: nat, text: bytes): (r: bytes)
    requires 1 <= num <= 15
    ensures |r| >= |text|
  {
    if text == [] then [] else PayloadImage(num, text)
  }

  lemma ReadSmallTag(num: nat, wireType: nat, t: bytes)
    requires 1 <= num <= 15 && wireType < 8 && wireType != 4
    ensures ReadTag([num * 8 + wireType] + t) == Ok(Tag(num, wireType, 1))
    ensures ([num * 8 + wireType] + t)[1..] == t
  {
    var tag := num * 8 + wireType;
    assert Varint(tag) == [tag];
    VarintRoundTrip(tag, t);
  }

  lemma DecodeNumber<M>(
      schema: seq<Kind>, put: (M, Field) -> Result<M, DecodeError>, m: M, num: nat, v: int64, t: bytes)
    requires 1 <= num <= |schema| <= 15 && schema[num - 1].Number? && v != 0
    requires put(m, NumberField(num, ToUint64(v))).Ok?
    ensures Decode(schema, put, m, NumberImage(num, v) + t)
         == Decode(schema, put, put(m, NumberField(num, ToUint64(v))).value, t)
  {
    hide Varint, VarintAt, Skip;
    var body := Varint(ToUint64(v)) + t;
    var s := [num * 8] + body;
    assert NumberImage(num, v) + t == s;
    ReadSmallTag(num, 0, body);
    VarintRoundTrip(ToUint64(v), t);
    assert ReadField(schema, s) == Ok((NumberField(num, ToUint64(v)), 1 + |Varint(ToUint64(v))|));
    assert s[1 + |Varint(ToUint64(v))|..] == t;
  }

  lemma DecodePayload<M>(
      schema: seq<Kind>, put: (M, Field) -> Result<M, DecodeError>, m: M, num: nat, text: bytes, t: bytes)
    requires 1 <= num <= |schema| <= 15 && schema[num - 1].Text? && |text| < TWO_63
    ensures Decode(schema, put, m, PayloadImage(num, text) + t)
         == DecodeRest(schema, put, put(m, TextField(num, text)), t)
  {
    hide Varint, VarintAt, Skip;
    var body := Varint(|text|) + (text + t);
    var s := [num * 8 + 2] + body;
    assert PayloadImage(num, text) + t == s;
    ReadSmallTag(num, 2, body);
    VarintRoundTrip(|text|, text + t);
    var n := |Varint(|text|)|;
    assert body[n..n + |text|] == text;
    assert ReadField(schema, s) == Ok((TextField(num, text), 1 + n + |text|));
    assert s[1 + n + |text|..] == t;
  }

  lemma NumberOnto<M>(
      schema: seq<Kind>, put: (M, Field) -> Result<M, DecodeError>, m: M, num: nat, v: int64, t: bytes, m': M)
    requires 1 <= num <= |schema| <= 15 && schema[num - 1].Number?
    requires if v == 0 then m' == m else put(m, NumberField(num, ToUint64(v))) == Ok(m')
    ensures Decode(schema, put, m, NumberImage(num, v) + t) == Decode(schema, put, m', t)
  {
    if v == 0 {
      assert NumberImage(num, v) + t == t;
    } else {
      DecodeNumber(schema, put, m, num, v, t);
    }
  }

  lemma TextOnto<M>(
      schema: seq<Kind>, put: (M, Field) -> Result<M, DecodeError>, m: M, num: nat, text: bytes, t: bytes, m': M)
    requires 1 <= num <= |schema| <= 15 && schema[num - 1].Text? && |text| < TWO_63
    requires if text == [] then m' == m else put(m, TextField(num, text)) == Ok(m')
    ensures Decode(schema, put, m, TextImage(num, text) + t) == Decode(schema, put, m', t)
  {
    if text == [] {
      assert TextImage(num, text) + t == t;
    } else {
      DecodePayload(schema, put, m, num, text, t);
    }
  }
}
