/**
 The acknowledgement messages of the annotated-value service as values.  Unlike the
 statistics, these messages keep the bytes of fields they do not know and write them
 back at the end of their encoding.
 */
module AnnotatedSpec {
  import opened Common
  import opened Wire

  datatype SubscriptionValue = SubscriptionValue(id: int64, unrecognized: bytes)

  datatype AckValue = AckValue(subscription: Option<SubscriptionValue>, valueId: bytes, unrecognized: bytes)

  datatype SourceValue = SourceValue(ids: seq<bytes>, inputName: bytes, unrecognized: bytes)

  const NO_SUBSCRIPTION := SubscriptionValue(0, [])
  const NO_ACK := AckValue(None, [], [])
  const NO_SOURCE := SourceValue([], [], [])

  // ---------------------------------------------------------------- encoding

  function EncodeSubscription(m: SubscriptionValue): bytes {
    NumberImage(1, m.id) + m.unrecognized
  }

  function EncodeAckSubscription(m: AckValue): bytes {
    if m.subscription.None? then [] else PayloadImage(1, EncodeSubscription(m.subscription.value))
  }

  function EncodeAck(m: AckValue): bytes {
    EncodeAckSubscription(m) + (TextImage(2, m.valueId) + m.unrecognized)
  }

  /** Every id is written, empty ones too. */
  function EncodeIds(ids: seq<bytes>): bytes {
    if ids == [] then [] else PayloadImage(1, ids[0]) + EncodeIds(ids[1..])
  }

  function EncodeSource(m: SourceValue): bytes {
    EncodeIds(m.ids) + (TextImage(2, m.inputName) + m.unrecognized)
  }

  // ---------------------------------------------------------------- decoding

  const SUBSCRIPTION: seq<Kind> := [Number]
  const ACK: seq<Kind> := [Text, Text]
  const SOURCE: seq<Kind> := [Text, Text]

  function PutSubscription(m: SubscriptionValue, f: Field): Result<SubscriptionValue, DecodeError> {
    match f
    case NumberField(1, v) => Ok(m.(id := ToInt64(v)))
    case UnknownField(raw) => Ok(m.(unrecognized := m.unrecognized + raw))
    case _ => Ok(m)
  }

  /** A repeated Subscription field is decoded on top of the one already there. */
  function PutAck(m: AckValue, f: Field): Result<AckValue, DecodeError> {
    match f
    case TextField(1, text) =>
      var sub :- DecodeSubscription(if m.subscription.None? then NO_SUBSCRIPTION else m.subscription.value, text);
      Ok(m.(subscription := Some(sub)))
    case TextField(2, text) => Ok(m.(valueId := text))
    case UnknownField(raw) => Ok(m.(unrecognized := m.unrecognized + raw))
    case _ => Ok(m)
  }

  function PutSource(m: SourceValue, f: Field): Result<SourceValue, DecodeError> {
    match f
    case TextField(1, text) => Ok(m.(ids := m.ids + [text]))
    case TextField(2, text) => Ok(m.(inputName := text))
    case UnknownField(raw) => Ok(m.(unrecognized := m.unrecognized + raw))
    case _ => Ok(m)
  }

  function DecodeSubscription(m: SubscriptionValue, s: bytes): Result<SubscriptionValue, DecodeError> {
    Decode(SUBSCRIPTION, PutSubscription, m, s)
  }

  function DecodeAck(m: AckValue, s: bytes): Result<AckValue, DecodeError> {
    Decode(ACK, PutAck, m, s)
  }

  function DecodeSource(m: SourceValue, s: bytes): Result<SourceValue, DecodeError> {
    Decode(SOURCE, PutSource, m, s)
  }

  // ------------------------------------------------------- bytes that only hold unknown fields

  /** u is a run of complete fields with numbers outside the schema. */
  ghost predicate OnlyUnknown(schema: seq<Kind>, u: bytes)
    decreases |u|
  {
    u == [] ||
    match ReadField(schema, u)
    case Ok((UnknownField(raw), n)) => n <= |u| && OnlyUnknown(schema, u[n..])
    case _ => false
  }

  lemma {:induction false} OnlyUnknownAppend(schema: seq<Kind>, u: bytes, v: bytes)
    requires OnlyUnknown(schema, u) && OnlyUnknown(schema, v)
    ensures OnlyUnknown(schema, u + v)
    decreases |u|
  {
    hide ReadField;
    if u == [] {
      assert u + v == v;
    } else {
      ReadFieldAppend(schema, u, v);
      var n := ReadField(schema, u).value.1;
      assert (u + v)[n..] == u[n..] + v;
      OnlyUnknownAppend(schema, u[n..], v);
    }
  }

  /** A single unknown field read from s is such a run on its own. */
  lemma ReadUnknownAlone(schema: seq<Kind>, s: bytes)
    requires ReadField(schema, s).Ok? && ReadField(schema, s).value.0.UnknownField?
    ensures var (f, n) := ReadField(schema, s).value; f.raw == s[..n] && OnlyUnknown(schema, f.raw)
  {
    var n := ReadField(schema, s).value.1;
    ReadFieldPrefix(schema, s);
    assert s[..n][n..] == [];
  }

  lemma ReadFieldPrefix(schema: seq<Kind>, s: bytes)
    requires ReadField(schema, s).Ok? && ReadField(schema, s).value.0.UnknownField?
    ensures var n := ReadField(schema, s).value.1;
      ReadField(schema, s[..n]) == Ok((UnknownField(s[..n]), n))
  {
    hide VarintAt;
    var n := ReadField(schema, s).value.1;
    var f := SkippedIsField(s);
    assert Image(f) + [] == s[..n];
    SkipExact(f, []);
    FieldStart(f, []);
    FieldStart(f, s[n..]);
    assert Image(f) + s[n..] == s;
    assert s[..n][..n] == s[..n];
  }

  /** Decoding a run of unknown fields only appends it to what the message keeps. */
  lemma {:induction false} UnknownOnto<M>(
      schema: seq<Kind>, put: (M, Field) -> Result<M, DecodeError>, keep: (M, bytes) -> M, m: M, u: bytes)
    requires OnlyUnknown(schema, u)
    requires forall x: M, raw :: put(x, UnknownField(raw)) == Ok(keep(x, raw))
    requires forall x: M, a, b :: keep(keep(x, a), b) == keep(x, a + b)
    requires forall x: M :: keep(x, []) == x
    ensures Decode(schema, put, m, u) == Ok(keep(m, u))
    decreases |u|
  {
    hide ReadField;
    if u != [] {
      var (f, n) := ReadField(schema, u).value;
      ReadUnknownAlone(schema, u);
      UnknownOnto(schema, put, keep, keep(m, f.raw), u[n..]);
      assert f.raw + u[n..] == u;
    }
  }

  function KeepSubscription(m: SubscriptionValue, raw: bytes): SubscriptionValue {
    m.(unrecognized := m.unrecognized + raw)
  }

  lemma KeepSubscriptionLaws()
    ensures forall x, a, b :: KeepSubscription(KeepSubscription(x, a), b) == KeepSubscription(x, a + b)
    ensures forall x :: KeepSubscription(x, []) == x
  {
    forall x: SubscriptionValue, a: bytes, b: bytes
      ensures KeepSubscription(KeepSubscription(x, a), b) == KeepSubscription(x, a + b)
    {
      assert x.unrecognized + a + b == x.unrecognized + (a + b);
    }
  }

  function KeepAck(m: AckValue, raw: bytes): AckValue {
    m.(unrecognized := m.unrecognized + raw)
  }

  lemma KeepAckLaws()
    ensures forall x, a, b :: KeepAck(KeepAck(x, a), b) == KeepAck(x, a + b)
    ensures forall x :: KeepAck(x, []) == x
  {
    forall x: AckValue, a: bytes, b: bytes
      ensures KeepAck(KeepAck(x, a), b) == KeepAck(x, a + b)
    {
      assert x.unrecognized + a + b == x.unrecognized + (a + b);
    }
  }

  function KeepSource(m: SourceValue, raw: bytes): SourceValue {
    m.(unrecognized := m.unrecognized + raw)
  }

  lemma KeepSourceLaws()
    ensures forall x, a, b :: KeepSource(KeepSource(x, a), b) == KeepSource(x, a + b)
    ensures forall x :: KeepSource(x, []) == x
  {
    forall x: SourceValue, a: bytes, b: bytes
      ensures KeepSource(KeepSource(x, a), b) == KeepSource(x, a + b)
    {
      assert x.unrecognized + a + b == x.unrecognized + (a + b);
    }
  }

  // ---------------------------------------------------------------- decoding an encoding

  /** Messages whose kept bytes are complete unknown fields, as decoding leaves them. */
  ghost predicate CleanSubscription(m: SubscriptionValue) {
    OnlyUnknown(SUBSCRIPTION, m.unrecognized)
  }

  ghost predicate CleanAck(m: AckValue) {
    OnlyUnknown(ACK, m.unrecognized) && (m.subscription.Some? ==> CleanSubscription(m.subscription.value))
  }

  ghost predicate CleanSource(m: SourceValue) {
    OnlyUnknown(SOURCE, m.unrecognized)
  }

  lemma SubscriptionRestored(m: SubscriptionValue)
    requires CleanSubscription(m)
    ensures DecodeSubscription(NO_SUBSCRIPTION, EncodeSubscription(m)) == Ok(m)
  {
    hide Decode, OnlyUnknown;
    var m1 := NO_SUBSCRIPTION.(id := m.id);
    NumberOnto(SUBSCRIPTION, PutSubscription, NO_SUBSCRIPTION, 1, m.id, m.unrecognized, m1);
    KeepSubscriptionLaws();
    UnknownOnto(SUBSCRIPTION, PutSubscription, KeepSubscription, m1, m.unrecognized);
    assert [] + m.unrecognized == m.unrecognized;
  }

  /** Decoding what was encoded gives the message back, kept bytes included. */
  lemma AckRestored(m: AckValue)
    requires CleanAck(m) && |EncodeAck(m)| < TWO_63
    ensures DecodeAck(NO_ACK, EncodeAck(m)) == Ok(m)
  {
    hide Decode, OnlyUnknown, TextImage, PayloadImage, EncodeSubscription;
    var m1 := NO_ACK.(subscription := m.subscription);
    var m2 := m1.(valueId := m.valueId);
    var t := TextImage(2, m.valueId) + m.unrecognized;
    if m.subscription.Some? {
      var text := EncodeSubscription(m.subscription.value);
      SubscriptionRestored(m.subscription.value);
      assert PutAck(NO_ACK, TextField(1, text)) == Ok(m1);
      DecodePayload(ACK, PutAck, NO_ACK, 1, text, t);
    } else {
      assert EncodeAck(m) == t;
    }
    TextOnto(ACK, PutAck, m1, 2, m.valueId, m.unrecognized, m2);
    KeepAckLaws();
    UnknownOnto(ACK, PutAck, KeepAck, m2, m.unrecognized);
    assert [] + m.unrecognized == m.unrecognized;
  }

  lemma {:induction false} IdsOnto(m: SourceValue, ids: seq<bytes>, t: bytes)
    requires |EncodeIds(ids)| < TWO_63
    ensures DecodeSource(m, EncodeIds(ids) + t) == DecodeSource(m.(ids := m.ids + ids), t)
    decreases |ids|
  {
    hide Decode, PayloadImage;
    if ids == [] {
      assert EncodeIds(ids) + t == t && m.ids + ids == m.ids;
    } else {
      var rest := EncodeIds(ids[1..]) + t;
      assert EncodeIds(ids) + t == PayloadImage(1, ids[0]) + rest;
      DecodePayload(SOURCE, PutSource, m, 1, ids[0], rest);
      var next := m.(ids := m.ids + [ids[0]]);
      IdsOnto(next, ids[1..], t);
      assert next.ids + ids[1..] == m.ids + ids;
    }
  }

  lemma SourceRestored(m: SourceValue)
    requires CleanSource(m) && |EncodeSource(m)| < TWO_63
    ensures DecodeSource(NO_SOURCE, EncodeSource(m)) == Ok(m)
  {
    hide Decode, OnlyUnknown, TextImage, EncodeIds;
    var m1 := NO_SOURCE.(ids := [] + m.ids);
    var m2 := m1.(inputName := m.inputName);
    IdsOnto(NO_SOURCE, m.ids, TextImage(2, m.inputName) + m.unrecognized);
    TextOnto(SOURCE, PutSource, m1, 2, m.inputName, m.unrecognized, m2);
    KeepSourceLaws();
    UnknownOnto(SOURCE, PutSource, KeepSource, m2, m.unrecognized);
    assert [] + m.unrecognized == m.unrecognized && [] + m.ids == m.ids;
  }

  // ------------------------------------------- what decoding leaves behind is clean

  lemma {:induction false} SubscriptionClean(m: SubscriptionValue, s: bytes)
    requires CleanSubscription(m) && DecodeSubscription(m, s).Ok?
    ensures CleanSubscription(DecodeSubscription(m, s).value)
    decreases |s|
  {
    hide ReadField, OnlyUnknown;
    if s != [] {
      var (f, n) := ReadField(SUBSCRIPTION, s).value;
      if f.UnknownField? {
        ReadUnknownAlone(SUBSCRIPTION, s);
        OnlyUnknownAppend(SUBSCRIPTION, m.unrecognized, f.raw);
      }
      SubscriptionClean(PutSubscription(m, f).value, s[n..]);
    }
  }

  lemma EmptyIsClean()
    ensures CleanSubscription(NO_SUBSCRIPTION) && CleanAck(NO_ACK) && CleanSource(NO_SOURCE)
  {
  }

  lemma PutAckClean(m: AckValue, s: bytes)
    requires CleanAck(m) && ReadField(ACK, s).Ok? && PutAck(m, ReadField(ACK, s).value.0).Ok?
    ensures CleanAck(PutAck(m, ReadField(ACK, s).value.0).value)
  {
    hide ReadField, OnlyUnknown, Decode;
    EmptyIsClean();
    var f := ReadField(ACK, s).value.0;
    if f.UnknownField? {
      ReadUnknownAlone(ACK, s);
      OnlyUnknownAppend(ACK, m.unrecognized, f.raw);
    } else if f.TextField? && f.num == 1 {
      SubscriptionClean(if m.subscription.None? then NO_SUBSCRIPTION else m.subscription.value, f.text);
    }
  }

  lemma {:induction false} AckClean(m: AckValue, s: bytes)
    requires CleanAck(m) && DecodeAck(m, s).Ok?
    ensures CleanAck(DecodeAck(m, s).value)
    decreases |s|
  {
    hide ReadField, OnlyUnknown, CleanAck, PutAck;
    if s != [] {
      var (f, n) := ReadField(ACK, s).value;
      PutAckClean(m, s);
      AckClean(PutAck(m, f).value, s[n..]);
    }
  }

  lemma {:induction false} SourceClean(m: SourceValue, s: bytes)
    requires CleanSource(m) && DecodeSource(m, s).Ok?
    ensures CleanSource(DecodeSource(m, s).value)
    decreases |s|
  {
    hide ReadField, OnlyUnknown;
    if s != [] {
      var (f, n) := ReadField(SOURCE, s).value;
      if f.UnknownField? {
        ReadUnknownAlone(SOURCE, s);
        OnlyUnknownAppend(SOURCE, m.unrecognized, f.raw);
      }
      SourceClean(PutSource(m, f).value, s[n..]);
    }
  }

  // ------------------------------------------- re-encoding never grows

  lemma {:induction false} VarintMonotone(a: nat, b: nat)
    requires a <= b
    ensures |Varint(a)| <= |Varint(b)|
    decreases b
  {
    if a >= 128 {
      VarintMonotone(a / 128, b / 128);
    }
  }

  /** No varint is shorter than the minimal one. */
  lemma {:induction false} VarintMinimal(s: bytes, groups: nat)
    requires VarintAt(s, groups).Ok?
    ensures |Varint(VarintAt(s, groups).value.0)| <= VarintAt(s, groups).value.1
    decreases groups
  {
    if s[0] >= 128 {
      VarintMinimal(s[1..], groups - 1);
      var v := VarintAt(s[1..], groups - 1).value.0;
      assert (s[0] % 128 + 128 * v) / 128 == v;
    }
  }

  lemma ReadVarintMinimal(s: bytes)
    requires ReadVarint(s).Ok?
    ensures |Varint(ReadVarint(s).value.0)| <= ReadVarint(s).value.1
  {
    VarintMinimal(s, 10);
    var v := VarintAt(s, 10).value.0;
    VarintMonotone(v % TWO_64, v);
  }

  lemma {:induction false} VarintDouble(a: nat)
    ensures |Varint(2 * a + 1)| <= |Varint(a)| + 1
    decreases a
  {
    if a >= 128 {
      VarintDouble(a / 128);
      VarintMonotone((2 * a + 1) / 128, 2 * (a / 128) + 1);
    } else if a >= 64 {
      assert (2 * a + 1) / 128 < 128;
    }
  }

  lemma VarintSum(a: nat, b: nat)
    ensures |Varint(a + b)| <= |Varint(a)| + |Varint(b)|
  {
    var m := if a < b then b else a;
    VarintMonotone(a + b, 2 * m + 1);
    VarintDouble(m);
  }

  /** A known field takes at least as many bytes in the input as it will when written. */
  lemma FieldNotShorter(schema: seq<Kind>, s: bytes)
    requires |schema| <= 15 && ReadField(schema, s).Ok?
    ensures var (f, n) := ReadField(schema, s).value;
      match f
      case NumberField(num, v) => 1 <= num <= 15 && |NumberImage(num, ToInt64(v))| <= n
      case TextField(num, text) => 1 <= num <= 15 && |PayloadImage(num, text)| <= n
      case UnknownField(raw) => |raw| == n
  {
    hide VarintAt, Skip;
    var tag := ReadTag(s).value;
    if tag.num <= |schema| {
      ReadVarintMinimal(s[tag.size..]);
      var v := ReadVarint(s[tag.size..]).value.0;
      assert ToUint64(ToInt64(v)) == v;
    }
  }

  lemma {:induction false} SubscriptionNotLonger(m: SubscriptionValue, s: bytes)
    requires DecodeSubscription(m, s).Ok?
    ensures |EncodeSubscription(DecodeSubscription(m, s).value)| <= |EncodeSubscription(m)| + |s|
    decreases |s|
  {
    hide ReadField, NumberImage;
    if s != [] {
      var (f, n) := ReadField(SUBSCRIPTION, s).value;
      FieldNotShorter(SUBSCRIPTION, s);
      ReadFieldNumber(SUBSCRIPTION, s);
      SubscriptionNotLonger(PutSubscription(m, f).value, s[n..]);
    }
  }

  /** A known field has the number and the payload kind of the schema. */
  lemma ReadFieldNumber(schema: seq<Kind>, s: bytes)
    requires ReadField(schema, s).Ok?
    ensures var f := ReadField(schema, s).value.0;
      && (f.NumberField? ==> 1 <= f.num <= |schema| && schema[f.num - 1].Number?)
      && (f.TextField? ==> 1 <= f.num <= |schema| && schema[f.num - 1].Text?)
  {
  }

  lemma PutAckNotLonger(m: AckValue, s: bytes)
    requires ReadField(ACK, s).Ok? && PutAck(m, ReadField(ACK, s).value.0).Ok?
    ensures |EncodeAck(PutAck(m, ReadField(ACK, s).value.0).value)| <= |EncodeAck(m)| + ReadField(ACK, s).value.1
  {
    hide ReadField, EncodeSubscription, Varint;
    var f := ReadField(ACK, s).value.0;
    FieldNotShorter(ACK, s);
    ReadFieldNumber(ACK, s);
    if f.TextField? && f.num == 1 {
      var base := if m.subscription.None? then NO_SUBSCRIPTION else m.subscription.value;
      SubscriptionNotLonger(base, f.text);
      var a, b := |EncodeSubscription(base)|, |f.text|;
      EmptySubscription();
      VarintSum(a, b);
      VarintMonotone(|EncodeSubscription(DecodeSubscription(base, f.text).value)|, a + b);
    }
  }

  lemma EmptySubscription()
    ensures EncodeSubscription(NO_SUBSCRIPTION) == []
  {
  }

  lemma {:induction false} AckNotLonger(m: AckValue, s: bytes)
    requires DecodeAck(m, s).Ok?
    ensures |EncodeAck(DecodeAck(m, s).value)| <= |EncodeAck(m)| + |s|
    decreases |s|
  {
    hide ReadField, EncodeAck, PutAck;
    if s != [] {
      var (f, n) := ReadField(ACK, s).value;
      PutAckNotLonger(m, s);
      AckNotLonger(PutAck(m, f).value, s[n..]);
    }
  }

  lemma {:induction false} IdsLast(ids: seq<bytes>, id: bytes)
    ensures |EncodeIds(ids + [id])| == |EncodeIds(ids)| + |PayloadImage(1, id)|
  {
    hide PayloadImage;
    if ids == [] {
      assert ids + [id] == [id] && EncodeIds([id]) == PayloadImage(1, id) + EncodeIds([]);
    } else {
      assert (ids + [id])[1..] == ids[1..] + [id];
      IdsLast(ids[1..], id);
    }
  }

  lemma {:induction false} SourceNotLonger(m: SourceValue, s: bytes)
    requires DecodeSource(m, s).Ok?
    ensures |EncodeSource(DecodeSource(m, s).value)| <= |EncodeSource(m)| + |s|
    decreases |s|
  {
    hide ReadField, PayloadImage, EncodeIds;
    if s != [] {
      var (f, n) := ReadField(SOURCE, s).value;
      FieldNotShorter(SOURCE, s);
      ReadFieldNumber(SOURCE, s);
      if f.TextField? && f.num == 1 { IdsLast(m.ids, f.text); }
      SourceNotLonger(PutSource(m, f).value, s[n..]);
    }
  }

  // ---------------------------------------------------------------- the promises

  /** Decoding, encoding and decoding again gives the same message. */
  lemma AckFixpoint(s: bytes)
    requires |s| < TWO_63 && DecodeAck(NO_ACK, s).Ok?
    ensures DecodeAck(NO_ACK, EncodeAck(DecodeAck(NO_ACK, s).value)) == DecodeAck(NO_ACK, s)
  {
    hide Decode, CleanAck;
    EmptyIsClean();
    AckClean(NO_ACK, s);
    AckNotLonger(NO_ACK, s);
    AckRestored(DecodeAck(NO_ACK, s).value);
  }

  lemma SourceFixpoint(s: bytes)
    requires |s| < TWO_63 && DecodeSource(NO_SOURCE, s).Ok?
    ensures DecodeSource(NO_SOURCE, EncodeSource(DecodeSource(NO_SOURCE, s).value)) == DecodeSource(NO_SOURCE, s)
  {
    hide Decode, CleanSource;
    EmptyIsClean();
    SourceClean(NO_SOURCE, s);
    SourceNotLonger(NO_SOURCE, s);
    SourceRestored(DecodeSource(NO_SOURCE, s).value);
  }

  /** The images of the unknown fields of s, in order. */
  function UnknownBytes(schema: seq<Kind>, s: bytes): bytes
    decreases |s|
  {
    if s == [] then []
    else
      match ReadField(schema, s)
      case Err(_) => []
      case Ok((f, n)) => (if f.UnknownField? then f.raw else []) + UnknownBytes(schema, s[n..])
  }

  /** The payloads of all Subscription fields of s, one after the other. */
  function SubscriptionBytes(s: bytes): bytes
    decreases |s|
  {
    if s == [] then []
    else
      match ReadField(ACK, s)
      case Err(_) => []
      case Ok((f, n)) => (if f.TextField? && f.num == 1 then f.text else []) + SubscriptionBytes(s[n..])
  }

  /** Unknown bytes are kept in order, and so are those of the nested message. */
  lemma {:induction false} AckKeepsUnknown(m: AckValue, s: bytes)
    requires DecodeAck(m, s).Ok?
    ensures var r := DecodeAck(m, s).value;
      && r.unrecognized == m.unrecognized + UnknownBytes(ACK, s)
      && (r.subscription.None? ==> m.subscription.None? && SubscriptionBytes(s) == [])
      && (r.subscription.Some? ==>
        DecodeSubscription(if m.subscription.None? then NO_SUBSCRIPTION else m.subscription.value, SubscriptionBytes(s))
        == Ok(r.subscription.value))
    decreases |s|
  {
    hide ReadField;
    if s != [] {
      var (f, n) := ReadField(ACK, s).value;
      ReadFieldNumber(ACK, s);
      var next := PutAck(m, f).value;
      AckKeepsUnknown(next, s[n..]);
      var rest := SubscriptionBytes(s[n..]);
      if f.TextField? && f.num == 1 {
        var base := if m.subscription.None? then NO_SUBSCRIPTION else m.subscription.value;
        DecodeAppend(SUBSCRIPTION, PutSubscription, base, f.text, rest);
      } else {
        assert [] + rest == rest;
      }
    }
  }

  lemma {:induction false} SubscriptionKeepsUnknown(m: SubscriptionValue, s: bytes)
    requires DecodeSubscription(m, s).Ok?
    ensures DecodeSubscription(m, s).value.unrecognized == m.unrecognized + UnknownBytes(SUBSCRIPTION, s)
    decreases |s|
  {
    hide ReadField;
    if s != [] {
      var (f, n) := ReadField(SUBSCRIPTION, s).value;
      SubscriptionKeepsUnknown(PutSubscription(m, f).value, s[n..]);
    }
  }

  lemma {:induction false} SourceKeepsUnknown(m: SourceValue, s: bytes)
    requires DecodeSource(m, s).Ok?
    ensures DecodeSource(m, s).value.unrecognized == m.unrecognized + UnknownBytes(SOURCE, s)
    decreases |s|
  {
    hide ReadField;
    if s != [] {
      var (f, n) := ReadField(SOURCE, s).value;
      SourceKeepsUnknown(PutSource(m, f).value, s[n..]);
    }
  }
}
