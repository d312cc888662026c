/**
 The statistics messages as values: what their encoding is, what decoding does to a
 message field by field, and what merging means.
 */
module StatsSpec {
  import opened Common
  import opened Wire

  datatype LinkValue = LinkValue(
    name: bytes, uri: bytes, waiting: int64, inProgress: int64, acknowledged: int64)

  datatype InputValue = InputValue(
    name: bytes, received: int64, inProgress: int64, processed: int64, skipped: int64)

  datatype OutputValue = OutputValue(name: bytes, published: int64)

  datatype TaskValue = TaskValue(
    name: bytes, uri: bytes, inputs: seq<InputValue>, outputs: seq<OutputValue>,
    waiting: int64, inProgress: int64, succeeded: int64, failed: int64)

  const NO_LINK := LinkValue([], [], 0, 0, 0)
  const NO_INPUT := InputValue([], 0, 0, 0, 0)
  const NO_OUTPUT := OutputValue([], 0)
  const NO_TASK := TaskValue([], [], [], [], 0, 0, 0, 0)

  // ---------------------------------------------------------------- encoding

  function EncodeLink(m: LinkValue): bytes {
    TextImage(1, m.name) + (TextImage(2, m.uri) + (NumberImage(3, m.waiting)
    + (NumberImage(4, m.inProgress) + NumberImage(5, m.acknowledged))))
  }

  function EncodeInput(m: InputValue): bytes {
    TextImage(1, m.name) + (NumberImage(2, m.received) + (NumberImage(3, m.inProgress)
    + (NumberImage(4, m.processed) + NumberImage(5, m.skipped))))
  }

  function EncodeOutput(m: OutputValue): bytes {
    TextImage(1, m.name) + NumberImage(2, m.published)
  }

  function EncodeInputs(ms: seq<InputValue>): bytes {
    if ms == [] then [] else PayloadImage(3, EncodeInput(ms[0])) + EncodeInputs(ms[1..])
  }

  function EncodeOutputs(ms: seq<OutputValue>): bytes {
    if ms == [] then [] else PayloadImage(4, EncodeOutput(ms[0])) + EncodeOutputs(ms[1..])
  }

  function EncodeCounters(m: TaskValue): bytes {
    NumberImage(5, m.waiting) + (NumberImage(6, m.inProgress)
    + (NumberImage(7, m.succeeded) + NumberImage(8, m.failed)))
  }

  function EncodeTask(m: TaskValue): bytes {
    TextImage(1, m.name) + (TextImage(2, m.uri)
    + (EncodeInputs(m.inputs) + (EncodeOutputs(m.outputs) + EncodeCounters(m))))
  }

  // ---------------------------------------------------------------- decoding

  const LINK: seq<Kind> := [Text, Text, Number, Number, Number]
  const INPUT: seq<Kind> := [Text, Number, Number, Number, Number]
  const OUTPUT: seq<Kind> := [Text, Number]
  const TASK: seq<Kind> := [Text, Text, Text, Text, Number, Number, Number, Number]

  /** A field overwrites the value it finds; unknown fields are dropped. */
  function PutLink(m: LinkValue, f: Field): Result<LinkValue, DecodeError> {
    match f
    case TextField(1, text) => Ok(m.(name := text))
    case TextField(2, text) => Ok(m.(uri := text))
    case NumberField(3, v) => Ok(m.(waiting := ToInt64(v)))
    case NumberField(4, v) => Ok(m.(inProgress := ToInt64(v)))
    case NumberField(5, v) => Ok(m.(acknowledged := ToInt64(v)))
    case _ => Ok(m)
  }

  function PutInput(m: InputValue, f: Field): Result<InputValue, DecodeError> {
    match f
    case TextField(1, text) => Ok(m.(name := text))
    case NumberField(2, v) => Ok(m.(received := ToInt64(v)))
    case NumberField(3, v) => Ok(m.(inProgress := ToInt64(v)))
    case NumberField(4, v) => Ok(m.(processed := ToInt64(v)))
    case NumberField(5, v) => Ok(m.(skipped := ToInt64(v)))
    case _ => Ok(m)
  }

  function PutOutput(m: OutputValue, f: Field): Result<OutputValue, DecodeError> {
    match f
    case TextField(1, text) => Ok(m.(name := text))
    case NumberField(2, v) => Ok(m.(published := ToInt64(v)))
    case _ => Ok(m)
  }

  /** A nested message is decoded into a fresh entry at the end of its list. */
  function PutTask(m: TaskValue, f: Field): Result<TaskValue, DecodeError> {
    match f
    case TextField(1, text) => Ok(m.(name := text))
    case TextField(2, text) => Ok(m.(uri := text))
    case TextField(3, text) => var e :- DecodeInput(NO_INPUT, text); Ok(m.(inputs := m.inputs + [e]))
    case TextField(4, text) => var e :- DecodeOutput(NO_OUTPUT, text); Ok(m.(outputs := m.outputs + [e]))
    case NumberField(5, v) => Ok(m.(waiting := ToInt64(v)))
    case NumberField(6, v) => Ok(m.(inProgress := ToInt64(v)))
    case NumberField(7, v) => Ok(m.(succeeded := ToInt64(v)))
    case NumberField(8, v) => Ok(m.(failed := ToInt64(v)))
    case _ => Ok(m)
  }

  function DecodeLink(m: LinkValue, s: bytes): Result<LinkValue, DecodeError> {
    Decode(LINK, PutLink, m, s)
  }

  function DecodeInput(m: InputValue, s: bytes): Result<InputValue, DecodeError> {
    Decode(INPUT, PutInput, m, s)
  }

  function DecodeOutput(m: OutputValue, s: bytes): Result<OutputValue, DecodeError> {
    Decode(OUTPUT, PutOutput, m, s)
  }

  function DecodeTask(m: TaskValue, s: bytes): Result<TaskValue, DecodeError> {
    Decode(TASK, PutTask, m, s)
  }

  // ---------------------------------------------------------------- merging

  function LaterText(a: bytes, b: bytes): bytes {
    if b == [] then a else b
  }

  function LaterNumber(a: int64, b: int64): int64 {
    if b == 0 then a else b
  }

  /** b on top of a: non-default scalars win, lists are appended. */
  function MergeLink(a: LinkValue, b: LinkValue): LinkValue {
    LinkValue(LaterText(a.name, b.name), LaterText(a.uri, b.uri), LaterNumber(a.waiting, b.waiting),
              LaterNumber(a.inProgress, b.inProgress), LaterNumber(a.acknowledged, b.acknowledged))
  }

  function MergeInput(a: InputValue, b: InputValue): InputValue {
    InputValue(LaterText(a.name, b.name), LaterNumber(a.received, b.received),
               LaterNumber(a.inProgress, b.inProgress), LaterNumber(a.processed, b.processed),
               LaterNumber(a.skipped, b.skipped))
  }

  function MergeOutput(a: OutputValue, b: OutputValue): OutputValue {
    OutputValue(LaterText(a.name, b.name), LaterNumber(a.published, b.published))
  }

  function MergeTask(a: TaskValue, b: TaskValue): TaskValue {
    TaskValue(LaterText(a.name, b.name), LaterText(a.uri, b.uri), a.inputs + b.inputs, a.outputs + b.outputs,
              LaterNumber(a.waiting, b.waiting), LaterNumber(a.inProgress, b.inProgress),
              LaterNumber(a.succeeded, b.succeeded), LaterNumber(a.failed, b.failed))
  }

  // ------------------------------------------- decoding an encoding is merging

  lemma LinkOnto(a: LinkValue, b: LinkValue)
    requires |EncodeLink(b)| < TWO_63
    ensures DecodeLink(a, EncodeLink(b)) == Ok(MergeLink(a, b))
  {
    hide Decode, TextImage, NumberImage;
    var m1 := a.(name := LaterText(a.name, b.name));
    var m2 := m1.(uri := LaterText(a.uri, b.uri));
    var m3 := m2.(waiting := LaterNumber(a.waiting, b.waiting));
    var m4 := m3.(inProgress := LaterNumber(a.inProgress, b.inProgress));
    var m5 := m4.(acknowledged := LaterNumber(a.acknowledged, b.acknowledged));
    var t5 := NumberImage(5, b.acknowledged);
    var t4 := NumberImage(4, b.inProgress) + t5;
    var t3 := NumberImage(3, b.waiting) + t4;
    TextOnto(LINK, PutLink, a, 1, b.name, TextImage(2, b.uri) + t3, m1);
    TextOnto(LINK, PutLink, m1, 2, b.uri, t3, m2);
    NumberOnto(LINK, PutLink, m2, 3, b.waiting, t4, m3);
    NumberOnto(LINK, PutLink, m3, 4, b.inProgress, t5, m4);
    NumberOnto(LINK, PutLink, m4, 5, b.acknowledged, [], m5);
    DecodeNothing(LINK, PutLink, m5);
    assert t5 + [] == t5;
  }

  lemma InputOnto(a: InputValue, b: InputValue)
    requires |EncodeInput(b)| < TWO_63
    ensures DecodeInput(a, EncodeInput(b)) == Ok(MergeInput(a, b))
  {
    hide Decode, TextImage, NumberImage;
    var m1 := a.(name := LaterText(a.name, b.name));
    var m2 := m1.(received := LaterNumber(a.received, b.received));
    var m3 := m2.(inProgress := LaterNumber(a.inProgress, b.inProgress));
    var m4 := m3.(processed := LaterNumber(a.processed, b.processed));
    var m5 := m4.(skipped := LaterNumber(a.skipped, b.skipped));
    var t5 := NumberImage(5, b.skipped);
    var t4 := NumberImage(4, b.processed) + t5;
    var t3 := NumberImage(3, b.inProgress) + t4;
    TextOnto(INPUT, PutInput, a, 1, b.name, NumberImage(2, b.received) + t3, m1);
    NumberOnto(INPUT, PutInput, m1, 2, b.received, t3, m2);
    NumberOnto(INPUT, PutInput, m2, 3, b.inProgress, t4, m3);
    NumberOnto(INPUT, PutInput, m3, 4, b.processed, t5, m4);
    NumberOnto(INPUT, PutInput, m4, 5, b.skipped, [], m5);
    DecodeNothing(INPUT, PutInput, m5);
    assert t5 + [] == t5;
  }

  lemma OutputOnto(a: OutputValue, b: OutputValue)
    requires |EncodeOutput(b)| < TWO_63
    ensures DecodeOutput(a, EncodeOutput(b)) == Ok(MergeOutput(a, b))
  {
    hide Decode, TextImage, NumberImage;
    var m1 := a.(name := LaterText(a.name, b.name));
    var m2 := m1.(published := LaterNumber(a.published, b.published));
    var t2 := NumberImage(2, b.published);
    TextOnto(OUTPUT, PutOutput, a, 1, b.name, t2, m1);
    NumberOnto(OUTPUT, PutOutput, m1, 2, b.published, [], m2);
    DecodeNothing(OUTPUT, PutOutput, m2);
    assert t2 + [] == t2;
  }

  lemma {:induction false} InputsOnto(a: TaskValue, ms: seq<InputValue>, t: bytes)
    requires |EncodeInputs(ms)| < TWO_63
    ensures DecodeTask(a, EncodeInputs(ms) + t) == DecodeTask(a.(inputs := a.inputs + ms), t)
    decreases |ms|
  {
    hide Decode, PayloadImage, EncodeInput;
    if ms == [] {
      assert EncodeInputs(ms) + t == t && a.inputs + ms == a.inputs;
    } else {
      var first := EncodeInput(ms[0]);
      InputOnto(NO_INPUT, ms[0]);
      assert MergeInput(NO_INPUT, ms[0]) == ms[0];
      var rest := EncodeInputs(ms[1..]) + t;
      assert EncodeInputs(ms) + t == PayloadImage(3, first) + rest;
      var next := a.(inputs := a.inputs + [ms[0]]);
      assert PutTask(a, TextField(3, first)) == Ok(next);
      DecodePayload(TASK, PutTask, a, 3, first, rest);
      InputsOnto(next, ms[1..], t);
      assert next.inputs + ms[1..] == a.inputs + ms;
    }
  }

  lemma {:induction false} OutputsOnto(a: TaskValue, ms: seq<OutputValue>, t: bytes)
    requires |EncodeOutputs(ms)| < TWO_63
    ensures DecodeTask(a, EncodeOutputs(ms) + t) == DecodeTask(a.(outputs := a.outputs + ms), t)
    decreases |ms|
  {
    hide Decode, PayloadImage, EncodeOutput;
    if ms == [] {
      assert EncodeOutputs(ms) + t == t && a.outputs + ms == a.outputs;
    } else {
      var first := EncodeOutput(ms[0]);
      OutputOnto(NO_OUTPUT, ms[0]);
      assert MergeOutput(NO_OUTPUT, ms[0]) == ms[0];
      var rest := EncodeOutputs(ms[1..]) + t;
      assert EncodeOutputs(ms) + t == PayloadImage(4, first) + rest;
      var next := a.(outputs := a.outputs + [ms[0]]);
      assert PutTask(a, TextField(4, first)) == Ok(next);
      DecodePayload(TASK, PutTask, a, 4, first, rest);
      OutputsOnto(next, ms[1..], t);
      assert next.outputs + ms[1..] == a.outputs + ms;
    }
  }

  function WithCounter(a: TaskValue, num: nat, v: int64): TaskValue
    requires 5 <= num <= 8
  {
    if v == 0 then a
    else if num == 5 then a.(waiting := v)
    else if num == 6 then a.(inProgress := v)
    else if num == 7 then a.(succeeded := v)
    else a.(failed := v)
  }

  lemma CounterOnto(a: TaskValue, num: nat, v: int64, t: bytes)
    requires 5 <= num <= 8
    ensures DecodeTask(a, NumberImage(num, v) + t) == DecodeTask(WithCounter(a, num, v), t)
  {
    hide Decode;
    NumberOnto(TASK, PutTask, a, num, v, t, WithCounter(a, num, v));
  }

  lemma CountersOnto(a: TaskValue, b: TaskValue)
    ensures DecodeTask(a, EncodeCounters(b))
         == Ok(a.(waiting := LaterNumber(a.waiting, b.waiting),
                  inProgress := LaterNumber(a.inProgress, b.inProgress),
                  succeeded := LaterNumber(a.succeeded, b.succeeded),
                  failed := LaterNumber(a.failed, b.failed)))
  {
    hide Decode;
    var t8 := NumberImage(8, b.failed);
    var t7 := NumberImage(7, b.succeeded) + t8;
    var m1 := WithCounter(a, 5, b.waiting);
    var m2 := WithCounter(m1, 6, b.inProgress);
    var m3 := WithCounter(m2, 7, b.succeeded);
    CounterOnto(a, 5, b.waiting, NumberImage(6, b.inProgress) + t7);
    CounterOnto(m1, 6, b.inProgress, t7);
    CounterOnto(m2, 7, b.succeeded, t8);
    CounterOnto(m3, 8, b.failed, []);
    assert t8 + [] == t8;
    DecodeNothing(TASK, PutTask, WithCounter(m3, 8, b.failed));
  }

  /** Decoding the encoding of b into a message holding a merges b into it. */
  lemma TaskOnto(a: TaskValue, b: TaskValue)
    requires |EncodeTask(b)| < TWO_63
    ensures DecodeTask(a, EncodeTask(b)) == Ok(MergeTask(a, b))
  {
    hide Decode;
    var m1 := a.(name := LaterText(a.name, b.name));
    var m2 := m1.(uri := LaterText(a.uri, b.uri));
    var m3 := m2.(inputs := m2.inputs + b.inputs);
    var m4 := m3.(outputs := m3.outputs + b.outputs);
    var t4 := EncodeOutputs(b.outputs) + EncodeCounters(b);
    var t3 := EncodeInputs(b.inputs) + t4;
    TextOnto(TASK, PutTask, a, 1, b.name, TextImage(2, b.uri) + t3, m1);
    TextOnto(TASK, PutTask, m1, 2, b.uri, t3, m2);
    InputsOnto(m2, b.inputs, t4);
    OutputsOnto(m3, b.outputs, EncodeCounters(b));
    CountersOnto(m4, b);
  }

  // ---------------------------------------------------------------- the promises

  /** Unmarshal into a fresh message gives back what was marshalled. */
  lemma TaskRoundTrip(m: TaskValue)
    requires |EncodeTask(m)| < TWO_63
    ensures DecodeTask(NO_TASK, EncodeTask(m)) == Ok(m)
  {
    TaskOnto(NO_TASK, m);
    assert MergeTask(NO_TASK, m) == m;
  }

  lemma LinkRoundTrip(m: LinkValue)
    requires |EncodeLink(m)| < TWO_63
    ensures DecodeLink(NO_LINK, EncodeLink(m)) == Ok(m)
  {
    LinkOnto(NO_LINK, m);
  }

  /** No two messages share an encoding. */
  lemma EncodingIsInjective(a: TaskValue, b: TaskValue)
    requires |EncodeTask(a)| < TWO_63 && EncodeTask(a) == EncodeTask(b)
    ensures a == b
  {
    TaskRoundTrip(a);
    TaskRoundTrip(b);
  }

  /** Concatenating two encodings is merging the two messages. */
  lemma ConcatenationIsMerge(a: TaskValue, b: TaskValue)
    requires |EncodeTask(a)| < TWO_63 && |EncodeTask(b)| < TWO_63
    ensures DecodeTask(NO_TASK, EncodeTask(a) + EncodeTask(b)) == Ok(MergeTask(a, b))
  {
    TaskRoundTrip(a);
    DecodeAppend(TASK, PutTask, NO_TASK, EncodeTask(a), EncodeTask(b));
    TaskOnto(a, b);
  }

  lemma MergeAssociative(a: TaskValue, b: TaskValue, c: TaskValue)
    ensures MergeTask(MergeTask(a, b), c) == MergeTask(a, MergeTask(b, c))
  {
    assert a.inputs + b.inputs + c.inputs == a.inputs + (b.inputs + c.inputs);
    assert a.outputs + b.outputs + c.outputs == a.outputs + (b.outputs + c.outputs);
  }

  function EncodeAll(ms: seq<TaskValue>): bytes {
    if ms == [] then [] else EncodeTask(ms[0]) + EncodeAll(ms[1..])
  }

  /** The messages merged, the later ones first. */
  function MergeAll(ms: seq<TaskValue>): TaskValue {
    if ms == [] then NO_TASK else MergeTask(ms[0], MergeAll(ms[1..]))
  }

  /**
   Any number of encodings in a row, decoded into a message, merge into it one after the
   other, which is the same as merging them beforehand.
   */
  lemma {:induction false} ManyMerge(m: TaskValue, ms: seq<TaskValue>)
    requires forall x <- ms :: |EncodeTask(x)| < TWO_63
    ensures DecodeTask(m, EncodeAll(ms)) == Ok(MergeTask(m, MergeAll(ms)))
    decreases |ms|
  {
    hide Decode, EncodeTask;
    if ms == [] {
      DecodeNothing(TASK, PutTask, m);
      assert m.inputs + [] == m.inputs && m.outputs + [] == m.outputs;
    } else {
      TaskOnto(m, ms[0]);
      DecodeAppend(TASK, PutTask, m, EncodeTask(ms[0]), EncodeAll(ms[1..]));
      ManyMerge(MergeTask(m, ms[0]), ms[1..]);
      MergeAssociative(m, ms[0], MergeAll(ms[1..]));
    }
  }

  /**
   A field with an unused number, put between complete fields of an encoding at any
   level that drops unknown fields, leaves the decoded message as it was.
   */
  lemma UnknownIsIgnored<M>(
      schema: seq<Kind>, put: (M, Field) -> Result<M, DecodeError>, m: M, before: bytes, f: WireField, after: bytes)
    requires WellFormed(f) && FieldNumber(f) > |schema|
    requires forall x: M, raw :: put(x, UnknownField(raw)) == Ok(x)
    requires Decode(schema, put, m, before).Ok?
    ensures Decode(schema, put, m, before + Image(f) + after) == Decode(schema, put, m, before + after)
  {
    hide Decode, Image, WellFormed, FieldNumber;
    var x: M := Decode(schema, put, m, before).value;
    assert before + Image(f) + after == before + (Image(f) + after);
    DecodeAppend(schema, put, m, before, Image(f) + after);
    DecodeAppend(schema, put, m, before, after);
    UnknownFirst(schema, put, x, f, after);
  }

  /** An unknown field at the front is dropped. */
  lemma UnknownFirst<M>(
      schema: seq<Kind>, put: (M, Field) -> Result<M, DecodeError>, x: M, f: WireField, after: bytes)
    requires WellFormed(f) && FieldNumber(f) > |schema|
    requires forall y: M, raw :: put(y, UnknownField(raw)) == Ok(y)
    ensures Decode(schema, put, x, Image(f) + after) == Decode(schema, put, x, after)
  {
    hide ReadField, Image, WellFormed, FieldNumber;
    var s := Image(f) + after;
    ReadUnknown(schema, f, after);
    assert s[|Image(f)|..] == after;
    assert s[0..] == s;
    ImageNotEmpty(f);
    var raw: bytes := Image(f);
    assert put(x, UnknownField(raw)) == Ok(x);
    DecodeStep(schema, put, x, s, 0);
    assert ReadField(schema, s[0..]) == Ok((UnknownField(raw), |raw|));
  }

  lemma ImageNotEmpty(f: WireField)
    requires WellFormed(f)
    ensures Image(f) != []
  {
    TagRead(f.tag, []);
  }

  lemma UnknownIsIgnoredByTask(m: TaskValue, before: bytes, f: WireField, after: bytes)
    requires WellFormed(f) && FieldNumber(f) > 8 && DecodeTask(m, before).Ok?
    ensures DecodeTask(m, before + Image(f) + after) == DecodeTask(m, before + after)
  {
    UnknownIsIgnored(TASK, PutTask, m, before, f, after);
  }

  lemma UnknownIsIgnoredByLink(m: LinkValue, before: bytes, f: WireField, after: bytes)
    requires WellFormed(f) && FieldNumber(f) > 5 && DecodeLink(m, before).Ok?
    ensures DecodeLink(m, before + Image(f) + after) == DecodeLink(m, before + after)
  {
    UnknownIsIgnored(LINK, PutLink, m, before, f, after);
  }

  /** The same inside a nested input or output statistic, between any of its fields. */
  lemma UnknownIsIgnoredInside(m: TaskValue, before: bytes, f: WireField, after: bytes, t: bytes)
    requires WellFormed(f) && |before| + |Image(f)| + |after| < TWO_63
    ensures FieldNumber(f) > 5 && DecodeInput(NO_INPUT, before).Ok? ==>
      DecodeTask(m, PayloadImage(3, before + Image(f) + after) + t) == DecodeTask(m, PayloadImage(3, before + after) + t)
    ensures FieldNumber(f) > 2 && DecodeOutput(NO_OUTPUT, before).Ok? ==>
      DecodeTask(m, PayloadImage(4, before + Image(f) + after) + t) == DecodeTask(m, PayloadImage(4, before + after) + t)
  {
    if FieldNumber(f) > 5 && DecodeInput(NO_INPUT, before).Ok? { UnknownInInput(m, before, f, after, t); }
    if FieldNumber(f) > 2 && DecodeOutput(NO_OUTPUT, before).Ok? { UnknownInOutput(m, before, f, after, t); }
  }

  lemma UnknownInputDropped()
    ensures forall x: InputValue, raw :: PutInput(x, UnknownField(raw)) == Ok(x)
  {
  }

  lemma UnknownOutputDropped()
    ensures forall x: OutputValue, raw :: PutOutput(x, UnknownField(raw)) == Ok(x)
  {
  }

  lemma UnknownInInput(m: TaskValue, before: bytes, f: WireField, after: bytes, t: bytes)
    requires WellFormed(f) && FieldNumber(f) > 5 && DecodeInput(NO_INPUT, before).Ok?
    requires |before| + |Image(f)| + |after| < TWO_63
    ensures DecodeTask(m, PayloadImage(3, before + Image(f) + after) + t)
         == DecodeTask(m, PayloadImage(3, before + after) + t)
  {
    hide Decode, Image, PayloadImage, PutInput, WellFormed, FieldNumber;
    UnknownInputDropped();
    UnknownIsIgnored(INPUT, PutInput, NO_INPUT, before, f, after);
    DecodePayload(TASK, PutTask, m, 3, before + Image(f) + after, t);
    DecodePayload(TASK, PutTask, m, 3, before + after, t);
  }

  lemma UnknownInOutput(m: TaskValue, before: bytes, f: WireField, after: bytes, t: bytes)
    requires WellFormed(f) && FieldNumber(f) > 2 && DecodeOutput(NO_OUTPUT, before).Ok?
    requires |before| + |Image(f)| + |after| < TWO_63
    ensures DecodeTask(m, PayloadImage(4, before + Image(f) + after) + t)
         == DecodeTask(m, PayloadImage(4, before + after) + t)
  {
    hide Decode, Image, PayloadImage, PutOutput, WellFormed, FieldNumber;
    UnknownOutputDropped();
    UnknownIsIgnored(OUTPUT, PutOutput, NO_OUTPUT, before, f, after);
    DecodePayload(TASK, PutTask, m, 4, before + Image(f) + after, t);
    DecodePayload(TASK, PutTask, m, 4, before + after, t);
  }

  // ---------------------------------------------------------------- pieces of an encoding

  lemma {:induction false} PayloadsFit(ms: seq<InputValue>)
    ensures forall m <- ms :: |EncodeInput(m)| < |EncodeInputs(ms)|
    decreases |ms|
  {
    if ms != [] {
      PayloadsFit(ms[1..]);
    }
  }

  lemma {:induction false} OutputPayloadsFit(ms: seq<OutputValue>)
    ensures forall m <- ms :: |EncodeOutput(m)| < |EncodeOutputs(ms)|
    decreases |ms|
  {
    if ms != [] {
      OutputPayloadsFit(ms[1..]);
    }
  }
}
