/**
 The statistics messages as the objects the agent shares and updates in place: their
 codec (Size, MarshalTo, Marshal, Unmarshal) and the merging of statistics by name.
 */
module Tracking {
  import opened Common
  import opened Wire
  import opened WireIO
  import opened StatsSpec
  import opened Keyed

  type Outcome = Result<(), DecodeError>

  // ---------------------------------------------------------------- adding, on values

  /** The first non-empty name seen is kept. */
  function FirstText(a: bytes, b: bytes): bytes {
    if a == [] then b else a
  }

  function AddLink(t: LinkValue, s: LinkValue): LinkValue {
    LinkValue(FirstText(t.name, s.name), FirstText(t.uri, s.uri), Wrapped(t.waiting, s.waiting),
              Wrapped(t.inProgress, s.inProgress), Wrapped(t.acknowledged, s.acknowledged))
  }

  function AddInput(t: InputValue, s: InputValue): InputValue {
    InputValue(FirstText(t.name, s.name), Wrapped(t.received, s.received), Wrapped(t.inProgress, s.inProgress),
               Wrapped(t.processed, s.processed), Wrapped(t.skipped, s.skipped))
  }

  function AddOutput(t: OutputValue, s: OutputValue): OutputValue {
    OutputValue(FirstText(t.name, s.name), Wrapped(t.published, s.published))
  }

  function InputEntry(v: InputValue): Entry {
    Entry(v.name, Counts(v.received, v.inProgress, v.processed, v.skipped))
  }

  function OutputEntry(v: OutputValue): Entry {
    Entry(v.name, Counts(v.published, 0, 0, 0))
  }

  function InputEntries(vs: seq<InputValue>): (r: seq<Entry>)
    ensures |r| == |vs| && forall i :: 0 <= i < |vs| ==> r[i] == InputEntry(vs[i])
  {
    seq(|vs|, i requires 0 <= i < |vs| => InputEntry(vs[i]))
  }

  function OutputEntries(vs: seq<OutputValue>): (r: seq<Entry>)
    ensures |r| == |vs| && forall i :: 0 <= i < |vs| ==> r[i] == OutputEntry(vs[i])
  {
    seq(|vs|, i requires 0 <= i < |vs| => OutputEntry(vs[i]))
  }

  lemma InputSum(t: InputValue, s: InputValue)
    requires t.name == s.name
    ensures InputEntry(AddInput(t, s)) == Entry(s.name, Plus(InputEntry(t).counts, InputEntry(s).counts))
  {
  }

  lemma OutputSum(t: OutputValue, s: OutputValue)
    requires t.name == s.name
    ensures OutputEntry(AddOutput(t, s)) == Entry(s.name, Plus(OutputEntry(t).counts, OutputEntry(s).counts))
  {
  }

  // ---------------------------------------------------------------- link statistics

  class LinkStatistics {
    var name: bytes
    var uri: bytes
    var waiting: int64
    var inProgress: int64
    var acknowledged: int64

    constructor ()
      ensures View() == NO_LINK
    {
      name, uri, waiting, inProgress, acknowledged := [], [], 0, 0, 0;
    }

    function View(): LinkValue
      reads this
    {
      LinkValue(name, uri, waiting, inProgress, acknowledged)
    }

    method Add(source: LinkValue)
      modifies this
      ensures View() == AddLink(old(View()), source)
    {
      if name == [] { name := source.name; }
      if uri == [] { uri := source.uri; }
      waiting := Wrap(waiting + source.waiting);
      inProgress := Wrap(inProgress + source.inProgress);
      acknowledged := Wrap(acknowledged + source.acknowledged);
    }

    method Size() returns (n: nat)
      requires |EncodeLink(View())| < TWO_63
      ensures n == |EncodeLink(View())|
    {
      var a := TextSize(name, 1);
      var b := TextSize(uri, 2);
      var c := NumberSize(waiting, 3);
      var d := NumberSize(inProgress, 4);
      var e := NumberSize(acknowledged, 5);
      n := a + b + c + d + e;
    }

    method MarshalTo(buf: array<byte>, start: nat) returns (i: nat)
      requires start + |EncodeLink(View())| <= buf.Length && |EncodeLink(View())| < TWO_63
      modifies buf
      ensures i == start + |EncodeLink(View())|
      ensures buf[..] == Splice(old(buf[..]), start, EncodeLink(View()))
    {
      hide Splice, TextImage, NumberImage, EncodeLink, View;
      ghost var t4 := NumberImage(4, inProgress) + NumberImage(5, acknowledged);
      ghost var t3 := NumberImage(3, waiting) + t4;
      ghost var t2 := TextImage(2, uri) + t3;
      Parts();
      SpliceNext(buf[..], start, TextImage(1, name), t2);
      i := PutText(buf, start, 0x0a, name, 1);
      SpliceNext(buf[..], i, TextImage(2, uri), t3);
      i := PutText(buf, i, 0x12, uri, 2);
      SpliceNext(buf[..], i, NumberImage(3, waiting), t4);
      i := PutNumber(buf, i, 0x18, waiting, 3);
      SpliceNext(buf[..], i, NumberImage(4, inProgress), NumberImage(5, acknowledged));
      i := PutNumber(buf, i, 0x20, inProgress, 4);
      i := PutNumber(buf, i, 0x28, acknowledged, 5);
    }

    lemma Parts()
      ensures EncodeLink(View()) == TextImage(1, name) + (TextImage(2, uri)
        + (NumberImage(3, waiting) + (NumberImage(4, inProgress) + NumberImage(5, acknowledged))))
    {
      hide TextImage, NumberImage;
    }

    method Marshal() returns (d: array<byte>)
      requires |EncodeLink(View())| < TWO_63
      ensures fresh(d) && d[..] == EncodeLink(View())
    {
      var size := Size();
      d := new byte[size];
      var n := MarshalTo(d, 0);
    }

    method Unmarshal(d: bytes) returns (r: Outcome)
      modifies this
      ensures r.Err? ==> DecodeLink(old(View()), d) == Err(r.error)
      ensures r.Ok? ==> DecodeLink(old(View()), d) == Ok(View())
    {
      hide Decode, ReadField;
      var i := 0;
      while i < |d|
        invariant i <= |d| && DecodeLink(View(), d[i..]) == DecodeLink(old(View()), d)
      {
        DecodeStep(LINK, PutLink, View(), d, i);
        var got :- DecodeField(LINK, d, i);
        match got.0 {
          case TextField(1, text) => name := text;
          case TextField(2, text) => uri := text;
          case NumberField(3, v) => waiting := ToInt64(v);
          case NumberField(4, v) => inProgress := ToInt64(v);
          case NumberField(5, v) => acknowledged := ToInt64(v);
          case _ =>
        }
        i := got.1;
      }
      assert d[i..] == [];
      DecodeNothing(LINK, PutLink, View());
      return Ok(());
    }
  }

  // ---------------------------------------------------------------- input statistics

  class TaskInputStatistics {
    var name: bytes
    var received: int64
    var inProgress: int64
    var processed: int64
    var skipped: int64

    constructor (n: bytes)
      ensures View() == InputValue(n, 0, 0, 0, 0)
    {
      name, received, inProgress, processed, skipped := n, 0, 0, 0, 0;
    }

    function View(): InputValue
      reads this
    {
      InputValue(name, received, inProgress, processed, skipped)
    }

    method Add(source: InputValue)
      modifies this
      ensures View() == AddInput(old(View()), source)
    {
      if name == [] { name := source.name; }
      received := Wrap(received + source.received);
      inProgress := Wrap(inProgress + source.inProgress);
      processed := Wrap(processed + source.processed);
      skipped := Wrap(skipped + source.skipped);
    }

    method Size() returns (n: nat)
      requires |EncodeInput(View())| < TWO_63
      ensures n == |EncodeInput(View())|
    {
      var a := TextSize(name, 1);
      var b := NumberSize(received, 2);
      var c := NumberSize(inProgress, 3);
      var d := NumberSize(processed, 4);
      var e := NumberSize(skipped, 5);
      n := a + b + c + d + e;
    }

    method MarshalTo(buf: array<byte>, start: nat) returns (i: nat)
      requires start + |EncodeInput(View())| <= buf.Length && |EncodeInput(View())| < TWO_63
      modifies buf
      ensures i == start + |EncodeInput(View())|
      ensures buf[..] == Splice(old(buf[..]), start, EncodeInput(View()))
    {
      hide Splice, TextImage, NumberImage, EncodeInput, View;
      ghost var t4 := NumberImage(4, processed) + NumberImage(5, skipped);
      ghost var t3 := NumberImage(3, inProgress) + t4;
      ghost var t2 := NumberImage(2, received) + t3;
      Parts();
      SpliceNext(buf[..], start, TextImage(1, name), t2);
      i := PutText(buf, start, 0x0a, name, 1);
      SpliceNext(buf[..], i, NumberImage(2, received), t3);
      i := PutNumber(buf, i, 0x10, received, 2);
      SpliceNext(buf[..], i, NumberImage(3, inProgress), t4);
      i := PutNumber(buf, i, 0x18, inProgress, 3);
      SpliceNext(buf[..], i, NumberImage(4, processed), NumberImage(5, skipped));
      i := PutNumber(buf, i, 0x20, processed, 4);
      i := PutNumber(buf, i, 0x28, skipped, 5);
    }

    lemma Parts()
      ensures EncodeInput(View()) == TextImage(1, name) + (NumberImage(2, received)
        + (NumberImage(3, inProgress) + (NumberImage(4, processed) + NumberImage(5, skipped))))
    {
      hide TextImage, NumberImage;
    }

    method Unmarshal(d: bytes) returns (r: Outcome)
      modifies this
      ensures r.Err? ==> DecodeInput(old(View()), d) == Err(r.error)
      ensures r.Ok? ==> DecodeInput(old(View()), d) == Ok(View())
    {
      hide Decode, ReadField;
      var i := 0;
      while i < |d|
        invariant i <= |d| && DecodeInput(View(), d[i..]) == DecodeInput(old(View()), d)
      {
        DecodeStep(INPUT, PutInput, View(), d, i);
        var got :- DecodeField(INPUT, d, i);
        match got.0 {
          case TextField(1, text) => name := text;
          case NumberField(2, v) => received := ToInt64(v);
          case NumberField(3, v) => inProgress := ToInt64(v);
          case NumberField(4, v) => processed := ToInt64(v);
          case NumberField(5, v) => skipped := ToInt64(v);
          case _ =>
        }
        i := got.1;
      }
      assert d[i..] == [];
      DecodeNothing(INPUT, PutInput, View());
      return Ok(());
    }
  }

  // ---------------------------------------------------------------- output statistics

  class TaskOutputStatistics {
    var name: bytes
    var published: int64

    constructor (n: bytes)
      ensures View() == OutputValue(n, 0)
    {
      name, published := n, 0;
    }

    function View(): OutputValue
      reads this
    {
      OutputValue(name, published)
    }

    method Add(source: OutputValue)
      modifies this
      ensures View() == AddOutput(old(View()), source)
    {
      if name == [] { name := source.name; }
      published := Wrap(published + source.published);
    }

    method Size() returns (n: nat)
      requires |EncodeOutput(View())| < TWO_63
      ensures n == |EncodeOutput(View())|
    {
      var a := TextSize(name, 1);
      var b := NumberSize(published, 2);
      n := a + b;
    }

    method MarshalTo(buf: array<byte>, start: nat) returns (i: nat)
      requires start + |EncodeOutput(View())| <= buf.Length && |EncodeOutput(View())| < TWO_63
      modifies buf
      ensures i == start + |EncodeOutput(View())|
      ensures buf[..] == Splice(old(buf[..]), start, EncodeOutput(View()))
    {
      hide Splice, TextImage, NumberImage;
      SpliceNext(buf[..], start, TextImage(1, name), NumberImage(2, published));
      i := PutText(buf, start, 0x0a, name, 1);
      i := PutNumber(buf, i, 0x10, published, 2);
    }

    method Unmarshal(d: bytes) returns (r: Outcome)
      modifies this
      ensures r.Err? ==> DecodeOutput(old(View()), d) == Err(r.error)
      ensures r.Ok? ==> DecodeOutput(old(View()), d) == Ok(View())
    {
      hide Decode, ReadField;
      var i := 0;
      while i < |d|
        invariant i <= |d| && DecodeOutput(View(), d[i..]) == DecodeOutput(old(View()), d)
      {
        DecodeStep(OUTPUT, PutOutput, View(), d, i);
        var got :- DecodeField(OUTPUT, d, i);
        match got.0 {
          case TextField(1, text) => name := text;
          case NumberField(2, v) => published := ToInt64(v);
          case _ =>
        }
        i := got.1;
      }
      assert d[i..] == [];
      DecodeNothing(OUTPUT, PutOutput, View());
      return Ok(());
    }
  }

  // ---------------------------------------------------------------- sort.Slice

  /** The order in which sort.Slice leaves a list with these names. */
  method SortSlice(names: seq<bytes>) returns (p: seq<nat>)
    ensures Permutation(p, |names|)
    ensures forall i, j :: 0 <= i < j < |p| ==> !Before(names[p[j]], names[p[i]])
  {
    p := [];
    for k := 0 to |names|
      invariant Permutation(p, k)
      invariant forall i, j :: 0 <= i < j < |p| ==> !Before(names[p[j]], names[p[i]])
    {
      p := InsertInOrder(names, p, k);
    }
  }

  method InsertInOrder(names: seq<bytes>, p: seq<nat>, k: nat) returns (q: seq<nat>)
    requires k < |names| && Permutation(p, k)
    requires forall i, j :: 0 <= i < j < |p| ==> !Before(names[p[j]], names[p[i]])
    ensures Permutation(q, k + 1)
    ensures forall i, j :: 0 <= i < j < |q| ==> !Before(names[q[j]], names[q[i]])
  {
    hide Before;
    var at := 0;
    while at < |p| && !Before(names[k], names[p[at]])
      invariant at <= |p| && forall i :: 0 <= i < at ==> !Before(names[k], names[p[i]])
    {
      at := at + 1;
    }
    q := p[..at] + [k] + p[at..];
    forall j | at <= j < |p|
      ensures !Before(names[p[j]], names[k])
    {
      BeforeIsTotal(names[p[at]], names[p[at]]);
      AfterInsertion(names[k], names[p[at]], names[p[j]]);
    }
    forall x: nat | x < k + 1
      ensures x in q
    {
      if x < k { assert x in p; }
    }
  }

  lemma AfterInsertion(x: bytes, a: bytes, b: bytes)
    requires Before(x, a) && !Before(b, a)
    ensures !Before(b, x)
  {
    if Before(b, x) { BeforeIsTransitive(b, x, a); }
  }
}
