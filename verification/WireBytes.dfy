/**
 The messages byte by byte, against a second definition of the Protocol Buffers encoding
 that is written from its documentation and the declared field numbers alone.
 */
module WireBytes {
  import opened Common
  import opened Wire
  import opened StatsSpec
  import opened AnnotatedSpec

  // ---------------------------------------------------------------- base 128

  /** The number written by groups of seven bits, least significant group first. */
  function Base128(s: bytes): nat {
    if s == [] then 0 else s[0] % 128 + 128 * Base128(s[1..])
  }

  /** All bytes but the last have their highest bit set. */
  predicate Continued(s: bytes) {
    s != [] && s[|s| - 1] < 128 && forall i :: 0 <= i < |s| - 1 ==> s[i] >= 128
  }

  /** The encoding of a number is its base-128 form, without superfluous groups. */
  lemma {:induction false} VarintIsBase128(v: nat)
    ensures var s := Varint(v);
      Continued(s) && Base128(s) == v && (|s| > 1 ==> s[|s| - 1] != 0)
  {
    if v >= 128 {
      VarintIsBase128(v / 128);
      var rest := Varint(v / 128);
      assert Varint(v) == [v % 128 + 128] + rest && Varint(v)[1..] == rest;
      if |rest| == 1 { assert rest[0] == v / 128; }
    }
  }

  lemma {:induction false} ReadGroups(s: bytes, t: bytes, groups: nat)
    requires Continued(s) && |s| <= groups
    ensures VarintAt(s + t, groups) == Ok((Base128(s), |s|))
    decreases |s|
  {
    assert (s + t)[0] == s[0];
    if |s| > 1 {
      assert (s + t)[1..] == s[1..] + t;
      ReadGroups(s[1..], t, groups - 1);
    } else {
      assert s[1..] == [];
    }
  }

  lemma {:induction false} ReadOpen(s: bytes, groups: nat)
    requires forall i :: 0 <= i < |s| && i < groups ==> s[i] >= 128
    ensures VarintAt(s, groups) == Err(if |s| < groups then UnexpectedEOF else IntOverflow)
    decreases |s|
  {
    if groups > 0 && s != [] { ReadOpen(s[1..], groups - 1); }
  }

  /** Reading accepts up to ten groups, superfluous ones too, keeps 64 bits, and fails on all else. */
  lemma ReadingVarints(s: bytes, t: bytes)
    ensures Continued(s) && |s| <= 10 ==> ReadVarint(s + t) == Ok((Base128(s) % TWO_64, |s|))
    ensures |s| < 10 && (forall i :: 0 <= i < |s| ==> s[i] >= 128) ==> ReadVarint(s) == Err(UnexpectedEOF)
    ensures |s| == 10 && (forall i :: 0 <= i < 10 ==> s[i] >= 128) ==> ReadVarint(s + t) == Err(IntOverflow)
  {
    hide VarintAt;
    if Continued(s) && |s| <= 10 { ReadGroups(s, t, 10); }
    if |s| < 10 && forall i :: 0 <= i < |s| ==> s[i] >= 128 { ReadOpen(s, 10); }
    if |s| == 10 && forall i :: 0 <= i < 10 ==> s[i] >= 128 {
      assert forall i :: 0 <= i < 10 ==> (s + t)[i] == s[i];
      ReadOpen(s + t, 10);
    }
  }

  // ---------------------------------------------------------------- skipping by wire type

  lemma OneByteTag(b: byte, t: bytes)
    requires b < 128
    ensures ReadVarint([b] + t) == Ok((b, 1)) && ([b] + t)[1..] == t
  {
    ReadGroups([b], t, 10);
    assert Base128([b]) == b by { assert [b][1..] == []; }
  }

  /** What is skipped for each wire type, after a tag of one byte; six and seven do not exist. */
  lemma SkipByWireType(b: byte, u: uint64, t: bytes)
    requires b < 128
    ensures b % 8 == 0 ==> Skip([b] + (Varint(u) + t)) == Ok(1 + |Varint(u)|)
    ensures b % 8 == 1 ==> Skip([b] + t) == Ok(9)
    ensures b % 8 == 2 && u < TWO_63 ==> Skip([b] + (Varint(u) + t)) == Ok(1 + |Varint(u)| + u)
    ensures b % 8 == 2 && u >= TWO_63 ==> Skip([b] + (Varint(u) + t)) == Err(InvalidLength)
    ensures b % 8 == 4 ==> Skip([b] + t) == Ok(1)
    ensures b % 8 == 5 ==> Skip([b] + t) == Ok(5)
    ensures b % 8 >= 6 ==> Skip([b] + t) == Err(IllegalWireType)
  {
    hide ReadVarint, Varint;
    OneByteTag(b, t);
    OneByteTag(b, Varint(u) + t);
    VarintRoundTrip(u, t);
  }

  /** A group ends with the end-group tag, whatever complete fields come before it. */
  lemma SkipGroups(b: byte, e: byte, f: WireField, t: bytes)
    requires b < 128 && b % 8 == 3 && e < 128 && e % 8 == 4
    ensures Skip([b] + ([e] + t)) == Ok(2)
    ensures WellFormed(f) ==> Skip([b] + (Image(f) + ([e] + t))) == Ok(2 + |Image(f)|)
  {
    hide ReadVarint, Image, WellFormed;
    OneByteTag(b, [e] + t);
    OneByteTag(e, t);
    if WellFormed(f) {
      OneByteTag(b, Image(f) + ([e] + t));
      OneByteTag(e, []);
      assert [e] + [] == [e];
      assert IsVarint([e], e);
      GroupOfOne(f);
      SkipGroupExact([f], [e], t);
      assert Image(f) + [e] + t == Image(f) + ([e] + t);
    }
  }

  lemma GroupOfOne(f: WireField)
    ensures Images([f]) == Image(f)
  {
    assert [f][1..] == [];
    assert Images([f]) == Image(f) + Images([]);
  }

  // ---------------------------------------------------------------- what is rejected

  /** A tag of one byte that a message cannot take. */
  lemma FieldRejections(schema: seq<Kind>, b: byte, u: uint64, t: bytes)
    requires b < 128
    ensures b % 8 == 4 ==> ReadField(schema, [b] + t) == Err(EndGroup)
    ensures b < 8 && b % 8 != 4 ==> ReadField(schema, [b] + t) == Err(IllegalTag)
    ensures 1 <= b / 8 <= |schema| && schema[b / 8 - 1].Number? && b % 8 != 0 && b % 8 != 4 ==>
      ReadField(schema, [b] + t) == Err(WrongWireType)
    ensures 1 <= b / 8 <= |schema| && schema[b / 8 - 1].Text? && b % 8 != 2 && b % 8 != 4 ==>
      ReadField(schema, [b] + t) == Err(WrongWireType)
    ensures 1 <= b / 8 <= |schema| && schema[b / 8 - 1].Text? && b % 8 == 2 ==>
      && (u >= TWO_63 ==> ReadField(schema, [b] + (Varint(u) + t)) == Err(InvalidLength))
      && (|t| < u < TWO_63 ==> ReadField(schema, [b] + (Varint(u) + t)) == Err(UnexpectedEOF))
  {
    hide ReadVarint, Varint, Skip;
    OneByteTag(b, t);
    OneByteTag(b, Varint(u) + t);
    VarintRoundTrip(u, t);
  }

  // ---------------------------------------------------------------- encodings, piece by piece

  /** A field as its message declares it: number, type, value. */
  datatype Piece =
    | Number(num: nat, v: int64)
    | Text(num: nat, text: bytes)
    | Message(num: nat, body: bytes)

  /** Number and wire type in the tag; numbers as unsigned two's complement; defaults left out, messages never. */
  function PieceBytes(p: Piece): seq<int> {
    match p
    case Number(num, v) => if v == 0 then [] else [num * 8] + Varint(if v < 0 then v + TWO_64 else v)
    case Text(num, text) => if text == [] then [] else [num * 8 + 2] + Varint(|text|) + text
    case Message(num, body) => [num * 8 + 2] + Varint(|body|) + body
  }

  function PiecesBytes(ps: seq<Piece>): seq<int> {
    if ps == [] then [] else PieceBytes(ps[0]) + PiecesBytes(ps[1..])
  }

  lemma First(p: Piece, ps: seq<Piece>)
    ensures PiecesBytes([p] + ps) == PieceBytes(p) + PiecesBytes(ps)
  {
    assert ([p] + ps)[1..] == ps;
  }

  lemma NumberBytes(num: nat, v: int64)
    requires 1 <= num <= 15
    ensures NumberImage(num, v) == PieceBytes(Piece.Number(num, v))
  {
    hide Varint, ToUint64;
    Unsigned(v);
  }

  lemma Unsigned(v: int64)
    ensures ToUint64(v) == if v < 0 then v + TWO_64 else v
  {
  }

  lemma TextBytes(num: nat, text: bytes)
    requires 1 <= num <= 15
    ensures TextImage(num, text) == PieceBytes(Piece.Text(num, text))
  {
    PayloadBytes(num, text);
  }

  lemma PayloadBytes(num: nat, text: bytes)
    requires 1 <= num <= 15
    ensures PayloadImage(num, text) == PieceBytes(Message(num, text))
  {
  }

  /** Five pieces in a row. */
  lemma Five(a: Piece, b: Piece, c: Piece, d: Piece, e: Piece)
    ensures PiecesBytes([a, b, c, d, e])
         == PieceBytes(a) + (PieceBytes(b) + (PieceBytes(c) + (PieceBytes(d) + PieceBytes(e))))
  {
    hide PieceBytes, PiecesBytes;
    assert [a, b, c, d, e] == [a] + [b, c, d, e];
    First(a, [b, c, d, e]);
    assert [b, c, d, e] == [b] + [c, d, e];
    First(b, [c, d, e]);
    assert [c, d, e] == [c] + [d, e];
    First(c, [d, e]);
    Two(d, e);
  }

  lemma Two(d: Piece, e: Piece)
    ensures PiecesBytes([d, e]) == PieceBytes(d) + PieceBytes(e)
  {
    assert [d, e] == [d] + [e] && [e] == [e] + [];
    First(d, [e]);
    First(e, []);
  }

  lemma LinkBytes(m: LinkValue)
    ensures EncodeLink(m) == PiecesBytes([
      Piece.Text(1, m.name), Piece.Text(2, m.uri), Piece.Number(3, m.waiting), Piece.Number(4, m.inProgress),
      Piece.Number(5, m.acknowledged)])
  {
    hide PieceBytes, PiecesBytes, TextImage, NumberImage;
    TextBytes(1, m.name);
    TextBytes(2, m.uri);
    NumberBytes(3, m.waiting);
    NumberBytes(4, m.inProgress);
    NumberBytes(5, m.acknowledged);
    Five(Piece.Text(1, m.name), Piece.Text(2, m.uri), Piece.Number(3, m.waiting), Piece.Number(4, m.inProgress),
         Piece.Number(5, m.acknowledged));
  }

  lemma InputBytes(m: InputValue)
    ensures EncodeInput(m) == PiecesBytes([
      Piece.Text(1, m.name), Piece.Number(2, m.received), Piece.Number(3, m.inProgress), Piece.Number(4, m.processed),
      Piece.Number(5, m.skipped)])
  {
    hide PieceBytes, PiecesBytes, TextImage, NumberImage;
    TextBytes(1, m.name);
    NumberBytes(2, m.received);
    NumberBytes(3, m.inProgress);
    NumberBytes(4, m.processed);
    NumberBytes(5, m.skipped);
    Five(Piece.Text(1, m.name), Piece.Number(2, m.received), Piece.Number(3, m.inProgress), Piece.Number(4, m.processed),
         Piece.Number(5, m.skipped));
  }

  lemma OutputBytes(m: OutputValue)
    ensures EncodeOutput(m) == PiecesBytes([Piece.Text(1, m.name), Piece.Number(2, m.published)])
  {
    hide PieceBytes, PiecesBytes, TextImage, NumberImage;
    TextBytes(1, m.name);
    NumberBytes(2, m.published);
    Two(Piece.Text(1, m.name), Piece.Number(2, m.published));
  }

  function InputPieces(ms: seq<InputValue>): (r: seq<Piece>)
    ensures |r| == |ms| && forall i :: 0 <= i < |ms| ==> r[i] == Message(3, EncodeInput(ms[i]))
  {
    seq(|ms|, i requires 0 <= i < |ms| => Message(3, EncodeInput(ms[i])))
  }

  function OutputPieces(ms: seq<OutputValue>): (r: seq<Piece>)
    ensures |r| == |ms| && forall i :: 0 <= i < |ms| ==> r[i] == Message(4, EncodeOutput(ms[i]))
  {
    seq(|ms|, i requires 0 <= i < |ms| => Message(4, EncodeOutput(ms[i])))
  }

  lemma {:induction false} InputsBytes(ms: seq<InputValue>)
    ensures EncodeInputs(ms) == PiecesBytes(InputPieces(ms))
    decreases |ms|
  {
    hide PayloadImage, EncodeInput, PieceBytes;
    if ms != [] {
      InputsBytes(ms[1..]);
      PayloadBytes(3, EncodeInput(ms[0]));
      assert InputPieces(ms)[1..] == InputPieces(ms[1..]);
    }
  }

  lemma {:induction false} OutputsBytes(ms: seq<OutputValue>)
    ensures EncodeOutputs(ms) == PiecesBytes(OutputPieces(ms))
    decreases |ms|
  {
    hide PayloadImage, EncodeOutput, PieceBytes;
    if ms != [] {
      OutputsBytes(ms[1..]);
      PayloadBytes(4, EncodeOutput(ms[0]));
      assert OutputPieces(ms)[1..] == OutputPieces(ms[1..]);
    }
  }

  lemma Four(a: Piece, b: Piece, c: Piece, d: Piece)
    ensures PiecesBytes([a, b, c, d]) == PieceBytes(a) + (PieceBytes(b) + (PieceBytes(c) + PieceBytes(d)))
  {
    hide PieceBytes, PiecesBytes;
    assert [a, b, c, d] == [a] + [b, c, d];
    First(a, [b, c, d]);
    assert [b, c, d] == [b] + [c, d];
    First(b, [c, d]);
    Two(c, d);
  }

  /** The fields of a task statistic in the order of their numbers. */
  lemma TaskBytes(m: TaskValue)
    ensures EncodeTask(m)
         == PiecesBytes([Piece.Text(1, m.name), Piece.Text(2, m.uri)])
            + (PiecesBytes(InputPieces(m.inputs)) + (PiecesBytes(OutputPieces(m.outputs))
            + PiecesBytes([Piece.Number(5, m.waiting), Piece.Number(6, m.inProgress), Piece.Number(7, m.succeeded),
                           Piece.Number(8, m.failed)])))
  {
    hide PieceBytes, PiecesBytes, TextImage, NumberImage, EncodeInputs, EncodeOutputs;
    TextBytes(1, m.name);
    TextBytes(2, m.uri);
    Two(Piece.Text(1, m.name), Piece.Text(2, m.uri));
    InputsBytes(m.inputs);
    OutputsBytes(m.outputs);
    NumberBytes(5, m.waiting);
    NumberBytes(6, m.inProgress);
    NumberBytes(7, m.succeeded);
    NumberBytes(8, m.failed);
    Four(Piece.Number(5, m.waiting), Piece.Number(6, m.inProgress), Piece.Number(7, m.succeeded), Piece.Number(8, m.failed));
  }

  function IdPieces(ids: seq<bytes>): (r: seq<Piece>)
    ensures |r| == |ids| && forall i :: 0 <= i < |ids| ==> r[i] == Message(1, ids[i])
  {
    seq(|ids|, i requires 0 <= i < |ids| => Message(1, ids[i]))
  }

  lemma {:induction false} IdsBytes(ids: seq<bytes>)
    ensures EncodeIds(ids) == PiecesBytes(IdPieces(ids))
    decreases |ids|
  {
    hide PayloadImage, PieceBytes;
    if ids != [] {
      IdsBytes(ids[1..]);
      PayloadBytes(1, ids[0]);
      assert IdPieces(ids)[1..] == IdPieces(ids[1..]);
    }
  }

  /** The acknowledgement messages: known fields by number, then the unknown bytes as they came. */
  lemma AnnotatedBytes(sub: SubscriptionValue, ack: AckValue, source: SourceValue)
    ensures EncodeSubscription(sub) == PieceBytes(Piece.Number(1, sub.id)) + sub.unrecognized
    ensures EncodeAck(ack)
         == (if ack.subscription.Some? then PieceBytes(Message(1, EncodeSubscription(ack.subscription.value))) else [])
            + (PieceBytes(Piece.Text(2, ack.valueId)) + ack.unrecognized)
    ensures EncodeSource(source)
         == PiecesBytes(IdPieces(source.ids)) + (PieceBytes(Piece.Text(2, source.inputName)) + source.unrecognized)
  {
    hide PieceBytes, PiecesBytes, TextImage, NumberImage, PayloadImage, EncodeIds, EncodeSubscription;
    NumberBytes(1, sub.id);
    SubscriptionParts(sub);
    if ack.subscription.Some? { PayloadBytes(1, EncodeSubscription(ack.subscription.value)); }
    TextBytes(2, ack.valueId);
    IdsBytes(source.ids);
    TextBytes(2, source.inputName);
  }

  lemma SubscriptionParts(sub: SubscriptionValue)
    ensures EncodeSubscription(sub) == NumberImage(1, sub.id) + sub.unrecognized
  {
  }

  // ---------------------------------------------------------------- decoding, field by field

  /** A number field on the wire, zero or not, and however its varint is written. */
  lemma ReadNumber<M>(
      schema: seq<Kind>, put: (M, Field) -> Result<M, DecodeError>, m: M, num: nat, v: int64, t: bytes)
    requires 1 <= num <= |schema| <= 15 && schema[num - 1] == Kind.Number
    ensures Decode(schema, put, m, [num * 8] + (Varint(if v < 0 then v + TWO_64 else v) + t))
         == DecodeRest(schema, put, put(m, NumberField(num, if v < 0 then v + TWO_64 else v)), t)
  {
    hide Varint, VarintAt, Skip;
    var u: uint64 := if v < 0 then v + TWO_64 else v;
    var body := Varint(u) + t;
    var s := [num * 8] + body;
    ReadSmallTag(num, 0, body);
    VarintRoundTrip(u, t);
    assert ReadField(schema, s) == Ok((NumberField(num, u), 1 + |Varint(u)|));
    assert s[1 + |Varint(u)|..] == t;
  }

  lemma SignedBack(v: int64)
    ensures ToInt64(if v < 0 then v + TWO_64 else v) == v
  {
  }

  /** A field of one piece, put on top of a message, replaces what was there, defaults too. */
  lemma LinkFields(m: LinkValue, x: bytes, v: int64)
    requires |x| < TWO_63
    ensures var u := Varint(if v < 0 then v + TWO_64 else v);
      && DecodeLink(m, [0x0a] + Varint(|x|) + x) == Ok(m.(name := x))
      && DecodeLink(m, [0x12] + Varint(|x|) + x) == Ok(m.(uri := x))
      && DecodeLink(m, [0x18] + u) == Ok(m.(waiting := v))
      && DecodeLink(m, [0x20] + u) == Ok(m.(inProgress := v))
      && DecodeLink(m, [0x28] + u) == Ok(m.(acknowledged := v))
  {
    hide Decode, Varint, PayloadImage, ToInt64;
    SignedBack(v);
    TextSet(LINK, PutLink, m, 1, x);
    TextSet(LINK, PutLink, m, 2, x);
    NumberSet(LINK, PutLink, m, 3, v);
    NumberSet(LINK, PutLink, m, 4, v);
    NumberSet(LINK, PutLink, m, 5, v);
  }

  lemma InputFields(m: InputValue, x: bytes, v: int64)
    requires |x| < TWO_63
    ensures var u := Varint(if v < 0 then v + TWO_64 else v);
      && DecodeInput(m, [0x0a] + Varint(|x|) + x) == Ok(m.(name := x))
      && DecodeInput(m, [0x10] + u) == Ok(m.(received := v))
      && DecodeInput(m, [0x18] + u) == Ok(m.(inProgress := v))
      && DecodeInput(m, [0x20] + u) == Ok(m.(processed := v))
      && DecodeInput(m, [0x28] + u) == Ok(m.(skipped := v))
  {
    hide Decode, Varint, PayloadImage, ToInt64;
    SignedBack(v);
    TextSet(INPUT, PutInput, m, 1, x);
    NumberSet(INPUT, PutInput, m, 2, v);
    NumberSet(INPUT, PutInput, m, 3, v);
    NumberSet(INPUT, PutInput, m, 4, v);
    NumberSet(INPUT, PutInput, m, 5, v);
  }

  lemma OutputFields(m: OutputValue, x: bytes, v: int64)
    requires |x| < TWO_63
    ensures DecodeOutput(m, [0x0a] + Varint(|x|) + x) == Ok(m.(name := x))
    ensures DecodeOutput(m, [0x10] + Varint(if v < 0 then v + TWO_64 else v)) == Ok(m.(published := v))
  {
    hide Decode, Varint, PayloadImage, ToInt64;
    SignedBack(v);
    TextSet(OUTPUT, PutOutput, m, 1, x);
    NumberSet(OUTPUT, PutOutput, m, 2, v);
  }

  /** Nested messages are decoded by themselves and appended, or fail the whole. */
  lemma TaskFields(m: TaskValue, x: bytes, v: int64)
    requires |x| < TWO_63
    ensures var u := Varint(if v < 0 then v + TWO_64 else v);
      && DecodeTask(m, [0x0a] + Varint(|x|) + x) == Ok(m.(name := x))
      && DecodeTask(m, [0x12] + Varint(|x|) + x) == Ok(m.(uri := x))
      && DecodeTask(m, [0x28] + u) == Ok(m.(waiting := v))
      && DecodeTask(m, [0x30] + u) == Ok(m.(inProgress := v))
      && DecodeTask(m, [0x38] + u) == Ok(m.(succeeded := v))
      && DecodeTask(m, [0x40] + u) == Ok(m.(failed := v))
    ensures DecodeTask(m, [0x1a] + Varint(|x|) + x) == NestedInput(m, x)
    ensures DecodeTask(m, [0x22] + Varint(|x|) + x) == NestedOutput(m, x)
  {
    hide Decode, Varint, PayloadImage, ToInt64, DecodeInput, DecodeOutput;
    SignedBack(v);
    TextSet(TASK, PutTask, m, 1, x);
    TextSet(TASK, PutTask, m, 2, x);
    NumberSet(TASK, PutTask, m, 5, v);
    NumberSet(TASK, PutTask, m, 6, v);
    NumberSet(TASK, PutTask, m, 7, v);
    NumberSet(TASK, PutTask, m, 8, v);
    TextSet(TASK, PutTask, m, 3, x);
    TextSet(TASK, PutTask, m, 4, x);
  }

  function NestedInput(m: TaskValue, x: bytes): Result<TaskValue, DecodeError> {
    if DecodeInput(NO_INPUT, x).Ok? then Ok(m.(inputs := m.inputs + [DecodeInput(NO_INPUT, x).value]))
    else Err(DecodeInput(NO_INPUT, x).error)
  }

  function NestedOutput(m: TaskValue, x: bytes): Result<TaskValue, DecodeError> {
    if DecodeOutput(NO_OUTPUT, x).Ok? then Ok(m.(outputs := m.outputs + [DecodeOutput(NO_OUTPUT, x).value]))
    else Err(DecodeOutput(NO_OUTPUT, x).error)
  }

  /** Ids are collected, other fields replaced, and a repeated subscription is decoded onto the one there is. */
  lemma AnnotatedFields(sub: SubscriptionValue, ack: AckValue, source: SourceValue, x: bytes, v: int64)
    requires |x| < TWO_63
    ensures DecodeSubscription(sub, [0x08] + Varint(if v < 0 then v + TWO_64 else v)) == Ok(sub.(id := v))
    ensures DecodeAck(ack, [0x12] + Varint(|x|) + x) == Ok(ack.(valueId := x))
    ensures var onto := DecodeSubscription(if ack.subscription.Some? then ack.subscription.value else NO_SUBSCRIPTION, x);
      DecodeAck(ack, [0x0a] + Varint(|x|) + x)
        == if onto.Ok? then Ok(ack.(subscription := Some(onto.value))) else Err(onto.error)
    ensures DecodeSource(source, [0x0a] + Varint(|x|) + x) == Ok(source.(ids := source.ids + [x]))
    ensures DecodeSource(source, [0x12] + Varint(|x|) + x) == Ok(source.(inputName := x))
  {
    hide Decode, Varint, PayloadImage, ToInt64;
    SignedBack(v);
    NumberSet(SUBSCRIPTION, PutSubscription, sub, 1, v);
    TextSet(ACK, PutAck, ack, 1, x);
    TextSet(ACK, PutAck, ack, 2, x);
    TextSet(SOURCE, PutSource, source, 1, x);
    TextSet(SOURCE, PutSource, source, 2, x);
  }

  lemma NumberSet<M>(schema: seq<Kind>, put: (M, Field) -> Result<M, DecodeError>, m: M, num: nat, v: int64)
    requires 1 <= num <= |schema| <= 15 && schema[num - 1] == Kind.Number
    ensures Decode(schema, put, m, [num * 8] + Varint(if v < 0 then v + TWO_64 else v))
         == put(m, NumberField(num, if v < 0 then v + TWO_64 else v))
  {
    hide Decode, Varint;
    var u: uint64 := if v < 0 then v + TWO_64 else v;
    ReadNumber(schema, put, m, num, v, []);
    assert Varint(u) + [] == Varint(u);
    Alone(schema, put, put(m, NumberField(num, u)));
  }

  lemma TextSet<M>(schema: seq<Kind>, put: (M, Field) -> Result<M, DecodeError>, m: M, num: nat, x: bytes)
    requires 1 <= num <= |schema| <= 15 && schema[num - 1] == Kind.Text && |x| < TWO_63
    ensures Decode(schema, put, m, [num * 8 + 2] + Varint(|x|) + x) == put(m, TextField(num, x))
  {
    hide Decode, Varint;
    DecodePayload(schema, put, m, num, x, []);
    assert PayloadImage(num, x) + [] == [num * 8 + 2] + Varint(|x|) + x;
    Alone(schema, put, put(m, TextField(num, x)));
  }

  lemma Alone<M>(schema: seq<Kind>, put: (M, Field) -> Result<M, DecodeError>, r: Result<M, DecodeError>)
    ensures DecodeRest(schema, put, r, []) == r
  {
    hide Decode;
    if r.Ok? { DecodeNothing(schema, put, r.value); }
  }

  // ---------------------------------------------------------------- last one wins

  /** One encoding decoded onto a message: what is not a default replaces, the lists are appended. */
  lemma LastOneWins(a: TaskValue, b: TaskValue)
    requires |EncodeTask(b)| < TWO_63
    ensures DecodeTask(a, EncodeTask(b)).Ok?
    ensures var r := DecodeTask(a, EncodeTask(b)).value;
      && r.name == (if b.name != [] then b.name else a.name)
      && r.uri == (if b.uri != [] then b.uri else a.uri)
      && r.inputs == a.inputs + b.inputs && r.outputs == a.outputs + b.outputs
      && r.waiting == (if b.waiting != 0 then b.waiting else a.waiting)
      && r.inProgress == (if b.inProgress != 0 then b.inProgress else a.inProgress)
      && r.succeeded == (if b.succeeded != 0 then b.succeeded else a.succeeded)
      && r.failed == (if b.failed != 0 then b.failed else a.failed)
  {
    TaskOnto(a, b);
  }
}
