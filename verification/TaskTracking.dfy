/**
 The statistics of a task: lists of shared input and output statistics, looked up by
 name, merged by name, and encoded as nested messages.
 */
module TaskTracking {
  import opened Common
  import opened Wire
  import opened WireIO
  import opened StatsSpec
  import opened Keyed
  import opened Tracking

  function InputViews(xs: seq<TaskInputStatistics>): (r: seq<InputValue>)
    reads xs
    ensures |r| == |xs| && forall i :: 0 <= i < |xs| ==> r[i] == xs[i].View()
  {
    seq(|xs|, i requires 0 <= i < |xs| reads xs => xs[i].View())
  }

  function OutputViews(xs: seq<TaskOutputStatistics>): (r: seq<OutputValue>)
    reads xs
    ensures |r| == |xs| && forall i :: 0 <= i < |xs| ==> r[i] == xs[i].View()
  {
    seq(|xs|, i requires 0 <= i < |xs| reads xs => xs[i].View())
  }

  /** The entries of a list of inputs, as the keyed list they stand for. */
  function InputKeys(xs: seq<TaskInputStatistics>): (r: seq<Entry>)
    reads xs
    ensures |r| == |xs| && forall i :: 0 <= i < |xs| ==> r[i] == InputEntry(xs[i].View())
  {
    InputEntries(InputViews(xs))
  }

  function OutputKeys(xs: seq<TaskOutputStatistics>): (r: seq<Entry>)
    reads xs
    ensures |r| == |xs| && forall i :: 0 <= i < |xs| ==> r[i] == OutputEntry(xs[i].View())
  {
    OutputEntries(OutputViews(xs))
  }

  class TaskStatistics {
    var name: bytes
    var uri: bytes
    var inputs: seq<TaskInputStatistics>
    var outputs: seq<TaskOutputStatistics>
    var waiting: int64
    var inProgress: int64
    var succeeded: int64
    var failed: int64

    constructor ()
      ensures View() == NO_TASK && Distinct() && inputs == [] && outputs == []
    {
      name, uri, inputs, outputs := [], [], [], [];
      waiting, inProgress, succeeded, failed := 0, 0, 0, 0;
    }

    /** Every entry is an object of its own. */
    ghost predicate Distinct()
      reads this
    {
      && (forall i, j :: 0 <= i < j < |inputs| ==> inputs[i] != inputs[j])
      && (forall i, j :: 0 <= i < j < |outputs| ==> outputs[i] != outputs[j])
    }

    function View(): TaskValue
      reads this, inputs, outputs
    {
      TaskValue(name, uri, InputViews(inputs), OutputViews(outputs), waiting, inProgress, succeeded, failed)
    }

    // -------------------------------------------------------------- by name

    /** The input with the given name; a new one, put in its place, when there is none. */
    method InputByName(n: bytes) returns (x: TaskInputStatistics)
      requires Distinct()
      modifies this`inputs
      ensures Distinct() && x in inputs && x.name == n
      ensures forall o :: o in inputs <==> o in old(inputs) || o == x
      ensures forall i :: 0 <= i < |inputs| ==> inputs[i] in old(inputs) || fresh(inputs[i])
      ensures Has(old(InputKeys(inputs)), n) ==> inputs == old(inputs)
      ensures !Has(old(InputKeys(inputs)), n) ==> fresh(x) && x.View() == InputValue(n, 0, 0, 0, 0)
      ensures Sorted(old(InputKeys(inputs))) ==>
        InputKeys(inputs) == AddEntry(old(InputKeys(inputs)), Entry(n, ZERO))
    {
      for k := 0 to |inputs|
        invariant forall i :: 0 <= i < k ==> inputs[i].name != n
      {
        if inputs[k].name == n {
          x := inputs[k];
          ghost var keys := InputKeys(inputs);
          assert keys[k].name == n;
          if Sorted(keys) {
            AddInPlace(keys, k, ZERO);
            PlusZero(keys[k].counts);
          }
          return;
        }
      }
      assert !Has(InputKeys(inputs), n);
      x := NewInput(n);
    }

    /** Sorts the list by name. */
    method SortInputs() returns (ghost p: seq<nat>)
      requires Distinct()
      modifies this`inputs
      ensures Distinct() && forall o :: o in inputs <==> o in old(inputs)
      ensures IsSorting(old(InputKeys(inputs)), p) && InputKeys(inputs) == Arranged(old(InputKeys(inputs)), p)
    {
      hide Before;
      var all := inputs;
      var names := seq(|all|, i requires 0 <= i < |all| reads all => all[i].name);
      var q := SortSlice(names);
      inputs := seq(|q|, i requires 0 <= i < |q| => all[q[i]]);
      Reordered(all, q, inputs);
      p := q;
    }

    /** Appends a new input and sorts the list. */
    method NewInput(n: bytes) returns (x: TaskInputStatistics)
      requires Distinct() && !Has(InputKeys(inputs), n)
      modifies this`inputs
      ensures Distinct() && fresh(x) && x.View() == InputValue(n, 0, 0, 0, 0)
      ensures forall o :: o in inputs <==> o in old(inputs) || o == x
      ensures forall i :: 0 <= i < |inputs| ==> inputs[i] in old(inputs) || fresh(inputs[i])
      ensures Sorted(old(InputKeys(inputs))) ==>
        InputKeys(inputs) == AddEntry(old(InputKeys(inputs)), Entry(n, ZERO))
    {
      hide AddEntry, Before, Sorted, Has, Permutation, InputKeys, IsSorting, Arranged;
      ghost var keys := InputKeys(inputs);
      x := new TaskInputStatistics(n);
      InputKeysAppend(inputs, x);
      inputs := inputs + [x];
      assert x in inputs;
      ghost var p := SortInputs();
      if Sorted(keys) { AppendAndSort(keys, n, p); }
    }

    /** The output with the given name; a new one, put in its place, when there is none. */
    method OutputByName(n: bytes) returns (x: TaskOutputStatistics)
      requires Distinct()
      modifies this`outputs
      ensures Distinct() && x in outputs && x.name == n
      ensures forall o :: o in outputs <==> o in old(outputs) || o == x
      ensures forall i :: 0 <= i < |outputs| ==> outputs[i] in old(outputs) || fresh(outputs[i])
      ensures Has(old(OutputKeys(outputs)), n) ==> outputs == old(outputs)
      ensures !Has(old(OutputKeys(outputs)), n) ==> fresh(x) && x.View() == OutputValue(n, 0)
      ensures Sorted(old(OutputKeys(outputs))) ==>
        OutputKeys(outputs) == AddEntry(old(OutputKeys(outputs)), Entry(n, ZERO))
    {
      for k := 0 to |outputs|
        invariant forall i :: 0 <= i < k ==> outputs[i].name != n
      {
        if outputs[k].name == n {
          x := outputs[k];
          ghost var keys := OutputKeys(outputs);
          assert keys[k].name == n;
          if Sorted(keys) {
            AddInPlace(keys, k, ZERO);
            PlusZero(keys[k].counts);
          }
          return;
        }
      }
      assert !Has(OutputKeys(outputs), n);
      x := NewOutput(n);
    }

    /** Sorts the list by name. */
    method SortOutputs() returns (ghost p: seq<nat>)
      requires Distinct()
      modifies this`outputs
      ensures Distinct() && forall o :: o in outputs <==> o in old(outputs)
      ensures IsSorting(old(OutputKeys(outputs)), p) && OutputKeys(outputs) == Arranged(old(OutputKeys(outputs)), p)
    {
      hide Before;
      var all := outputs;
      var names := seq(|all|, i requires 0 <= i < |all| reads all => all[i].name);
      var q := SortSlice(names);
      outputs := seq(|q|, i requires 0 <= i < |q| => all[q[i]]);
      Reordered(all, q, outputs);
      p := q;
    }

    /** Appends a new output and sorts the list. */
    method NewOutput(n: bytes) returns (x: TaskOutputStatistics)
      requires Distinct() && !Has(OutputKeys(outputs), n)
      modifies this`outputs
      ensures Distinct() && fresh(x) && x.View() == OutputValue(n, 0)
      ensures forall o :: o in outputs <==> o in old(outputs) || o == x
      ensures forall i :: 0 <= i < |outputs| ==> outputs[i] in old(outputs) || fresh(outputs[i])
      ensures Sorted(old(OutputKeys(outputs))) ==>
        OutputKeys(outputs) == AddEntry(old(OutputKeys(outputs)), Entry(n, ZERO))
    {
      hide AddEntry, Before, Sorted, Has, Permutation, OutputKeys, IsSorting, Arranged;
      ghost var keys := OutputKeys(outputs);
      x := new TaskOutputStatistics(n);
      OutputKeysAppend(outputs, x);
      outputs := outputs + [x];
      assert x in outputs;
      ghost var p := SortOutputs();
      if Sorted(keys) { AppendAndSort(keys, n, p); }
    }

    // -------------------------------------------------------------- merging

    /** Adds to the entry at index k. */
    method AddAtInput(t: TaskInputStatistics, s: InputValue, ghost k: nat)
      requires Distinct() && k < |inputs| && inputs[k] == t && t.name == s.name
      modifies t
      ensures t.name == old(t.name)
      ensures k < |InputKeys(inputs)| && InputKeys(inputs)
        == old(InputKeys(inputs))[k := Entry(s.name, Plus(old(InputKeys(inputs))[k].counts, InputEntry(s).counts))]
    {
      hide Plus, Tracking.AddInput;
      InputSum(t.View(), s);
      t.Add(s);
    }

    method AddInput(s: InputValue)
      requires Distinct()
      modifies this`inputs, inputs
      ensures Distinct()
      ensures forall o :: o in old(inputs) ==> o in inputs && o.name == old(o.name)
      ensures forall i :: 0 <= i < |inputs| ==> inputs[i] in old(inputs) || fresh(inputs[i])
      ensures Sorted(old(InputKeys(inputs))) ==> InputKeys(inputs) == AddEntry(old(InputKeys(inputs)), InputEntry(s))
    {
      hide Before, AddEntry, Sorted, Has, InputKeys, Plus;
      ghost var before := InputKeys(inputs);
      var t := InputByName(s.name);
      ghost var keys := InputKeys(inputs);
      ghost var k :| 0 <= k < |inputs| && inputs[k] == t;
      AddAtInput(t, s, k);
      if Sorted(before) { AddFound(before, keys, k, InputEntry(s)); }
    }

    /** Adds to the entry at index k. */
    method AddAtOutput(t: TaskOutputStatistics, s: OutputValue, ghost k: nat)
      requires Distinct() && k < |outputs| && outputs[k] == t && t.name == s.name
      modifies t
      ensures t.name == old(t.name)
      ensures k < |OutputKeys(outputs)| && OutputKeys(outputs)
        == old(OutputKeys(outputs))[k := Entry(s.name, Plus(old(OutputKeys(outputs))[k].counts, OutputEntry(s).counts))]
    {
      hide Plus, Tracking.AddOutput;
      OutputSum(t.View(), s);
      t.Add(s);
    }

    method AddOutput(s: OutputValue)
      requires Distinct()
      modifies this`outputs, outputs
      ensures Distinct()
      ensures forall o :: o in old(outputs) ==> o in outputs && o.name == old(o.name)
      ensures forall i :: 0 <= i < |outputs| ==> outputs[i] in old(outputs) || fresh(outputs[i])
      ensures Sorted(old(OutputKeys(outputs))) ==>
        OutputKeys(outputs) == AddEntry(old(OutputKeys(outputs)), OutputEntry(s))
    {
      hide Before, AddEntry, Sorted, Has, OutputKeys, Plus;
      ghost var before := OutputKeys(outputs);
      var t := OutputByName(s.name);
      ghost var keys := OutputKeys(outputs);
      ghost var k :| 0 <= k < |outputs| && outputs[k] == t;
      AddAtOutput(t, s, k);
      if Sorted(before) { AddFound(before, keys, k, OutputEntry(s)); }
    }

    /** Adds the counters of source, entry by entry under the name of each. */
    method Add(source: TaskValue)
      requires Distinct()
      modifies this, inputs, outputs
      ensures Distinct()
      ensures name == FirstText(old(name), source.name) && uri == FirstText(old(uri), source.uri)
      ensures waiting == Wrapped(old(waiting), source.waiting)
      ensures inProgress == Wrapped(old(inProgress), source.inProgress)
      ensures succeeded == Wrapped(old(succeeded), source.succeeded)
      ensures failed == Wrapped(old(failed), source.failed)
      ensures forall o :: o in old(inputs) ==> o in inputs && o.name == old(o.name)
      ensures forall o :: o in old(outputs) ==> o in outputs && o.name == old(o.name)
      ensures forall i :: 0 <= i < |inputs| ==> inputs[i] in old(inputs) || fresh(inputs[i])
      ensures forall i :: 0 <= i < |outputs| ==> outputs[i] in old(outputs) || fresh(outputs[i])
      ensures Sorted(old(InputKeys(inputs))) ==>
        InputKeys(inputs) == AddAll(old(InputKeys(inputs)), InputEntries(source.inputs))
      ensures Sorted(old(OutputKeys(outputs))) ==>
        OutputKeys(outputs) == AddAll(old(OutputKeys(outputs)), OutputEntries(source.outputs))
    {
      hide AddAll, AddEntry, Sorted, InputKeys, OutputKeys, InputEntries, OutputEntries, Wrapped, FirstText;
      AddCounters(source);
      AddInputs(source.inputs);
      AddOutputs(source.outputs);
    }

    method AddCounters(source: TaskValue)
      modifies this`name, this`uri, this`waiting, this`inProgress, this`succeeded, this`failed
      ensures name == FirstText(old(name), source.name) && uri == FirstText(old(uri), source.uri)
      ensures waiting == Wrapped(old(waiting), source.waiting)
      ensures inProgress == Wrapped(old(inProgress), source.inProgress)
      ensures succeeded == Wrapped(old(succeeded), source.succeeded)
      ensures failed == Wrapped(old(failed), source.failed)
    {
      if name == [] { name := source.name; }
      if uri == [] { uri := source.uri; }
      waiting := Wrap(waiting + source.waiting);
      inProgress := Wrap(inProgress + source.inProgress);
      succeeded := Wrap(succeeded + source.succeeded);
      failed := Wrap(failed + source.failed);
    }

    method AddInputs(sources: seq<InputValue>)
      requires Distinct()
      modifies this`inputs, inputs
      ensures Distinct()
      ensures forall o :: o in old(inputs) ==> o in inputs && o.name == old(o.name)
      ensures forall i :: 0 <= i < |inputs| ==> inputs[i] in old(inputs) || fresh(inputs[i])
      ensures Sorted(old(InputKeys(inputs))) ==>
        InputKeys(inputs) == AddAll(old(InputKeys(inputs)), InputEntries(sources))
    {
      hide Before, AddEntry, AddAll;
      ghost var before := InputKeys(inputs);
      AddAllNone(before);
      for k := 0 to |sources|
        invariant Distinct()
        invariant forall o :: o in old(inputs) ==> o in inputs && o.name == old(o.name)
        invariant forall i :: 0 <= i < |inputs| ==> inputs[i] in old(inputs) || fresh(inputs[i])
        invariant Sorted(before) ==> InputKeys(inputs) == AddAll(before, InputEntries(sources[..k]))
      {
        if Sorted(before) { AddAllOneMore(before, InputEntries(sources[..k]), InputEntry(sources[k])); }
        assert InputEntries(sources[..k + 1]) == InputEntries(sources[..k]) + [InputEntry(sources[k])];
        AddInput(sources[k]);
      }
      assert sources[..|sources|] == sources;
    }

    method AddOutputs(sources: seq<OutputValue>)
      requires Distinct()
      modifies this`outputs, outputs
      ensures Distinct()
      ensures forall o :: o in old(outputs) ==> o in outputs && o.name == old(o.name)
      ensures forall i :: 0 <= i < |outputs| ==> outputs[i] in old(outputs) || fresh(outputs[i])
      ensures Sorted(old(OutputKeys(outputs))) ==>
        OutputKeys(outputs) == AddAll(old(OutputKeys(outputs)), OutputEntries(sources))
    {
      hide Before, AddEntry, AddAll;
      ghost var before := OutputKeys(outputs);
      AddAllNone(before);
      for k := 0 to |sources|
        invariant Distinct()
        invariant forall o :: o in old(outputs) ==> o in outputs && o.name == old(o.name)
        invariant forall i :: 0 <= i < |outputs| ==> outputs[i] in old(outputs) || fresh(outputs[i])
        invariant Sorted(before) ==> OutputKeys(outputs) == AddAll(before, OutputEntries(sources[..k]))
      {
        if Sorted(before) { AddAllOneMore(before, OutputEntries(sources[..k]), OutputEntry(sources[k])); }
        assert OutputEntries(sources[..k + 1]) == OutputEntries(sources[..k]) + [OutputEntry(sources[k])];
        AddOutput(sources[k]);
      }
      assert sources[..|sources|] == sources;
    }

    // -------------------------------------------------------------- codec

    method Size() returns (n: nat)
      requires |EncodeTask(View())| < TWO_63
      ensures n == |EncodeTask(View())|
    {
      hide EncodeInputs, EncodeOutputs, TextImage, NumberImage, InputViews, OutputViews;
      var a := TextSize(name, 1);
      var b := TextSize(uri, 2);
      var ins := InputsSize();
      var outs := OutputsSize();
      var c := NumberSize(waiting, 5);
      var d := NumberSize(inProgress, 6);
      var e := NumberSize(succeeded, 7);
      var f := NumberSize(failed, 8);
      n := a + b + ins + outs + c + d + e + f;
    }

    method InputsSize() returns (n: nat)
      requires |EncodeInputs(InputViews(inputs))| < TWO_63
      ensures n == |EncodeInputs(InputViews(inputs))|
    {
      hide EncodeInput, InputViews;
      ghost var vs := InputViews(inputs);
      PayloadsFit(vs);
      n := 0;
      for k := 0 to |inputs|
        invariant n + |EncodeInputs(vs[k..])| == |EncodeInputs(vs)|
      {
        assert vs[k] in vs && vs[k..][1..] == vs[k + 1..];
        var l := inputs[k].Size();
        l := PayloadSize(l);
        n := n + l;
      }
    }

    method OutputsSize() returns (n: nat)
      requires |EncodeOutputs(OutputViews(outputs))| < TWO_63
      ensures n == |EncodeOutputs(OutputViews(outputs))|
    {
      hide EncodeOutput, OutputViews;
      ghost var ws := OutputViews(outputs);
      OutputPayloadsFit(ws);
      n := 0;
      for k := 0 to |outputs|
        invariant n + |EncodeOutputs(ws[k..])| == |EncodeOutputs(ws)|
      {
        assert ws[k] in ws && ws[k..][1..] == ws[k + 1..];
        var l := outputs[k].Size();
        l := PayloadSize(l);
        n := n + l;
      }
    }

    method MarshalTo(buf: array<byte>, start: nat) returns (i: nat)
      requires start + |EncodeTask(View())| <= buf.Length && |EncodeTask(View())| < TWO_63
      modifies buf
      ensures i == start + |EncodeTask(View())|
      ensures buf[..] == Splice(old(buf[..]), start, EncodeTask(View()))
    {
      hide Splice, TextImage, EncodeInputs, EncodeOutputs, EncodeCounters, InputViews, OutputViews, EncodeTask, View;
      ghost var lists := EncodeInputs(InputViews(inputs)) + EncodeOutputs(OutputViews(outputs));
      ghost var counters := EncodeCounters(View());
      ghost var texts := TextImage(1, name) + TextImage(2, uri);
      TaskParts();
      SpliceNext(buf[..], start, texts, lists + counters);
      i := PutTexts(buf, start);
      SpliceNext(buf[..], i, lists, counters);
      i := PutLists(buf, i);
      i := PutCounters(buf, i);
    }

    lemma TaskParts()
      ensures EncodeTask(View()) == (TextImage(1, name) + TextImage(2, uri))
        + ((EncodeInputs(InputViews(inputs)) + EncodeOutputs(OutputViews(outputs))) + EncodeCounters(View()))
    {
      hide TextImage, EncodeInputs, EncodeOutputs, EncodeCounters, InputViews, OutputViews;
    }

    method PutTexts(buf: array<byte>, start: nat) returns (i: nat)
      requires |TextImage(1, name) + TextImage(2, uri)| < TWO_63
      requires start + |TextImage(1, name) + TextImage(2, uri)| <= buf.Length
      modifies buf
      ensures i == start + |TextImage(1, name) + TextImage(2, uri)|
      ensures buf[..] == Splice(old(buf[..]), start, TextImage(1, name) + TextImage(2, uri))
    {
      hide Splice, TextImage;
      SpliceNext(buf[..], start, TextImage(1, name), TextImage(2, uri));
      i := PutText(buf, start, 0x0a, name, 1);
      i := PutText(buf, i, 0x12, uri, 2);
    }

    method PutLists(buf: array<byte>, start: nat) returns (i: nat)
      requires |EncodeInputs(InputViews(inputs)) + EncodeOutputs(OutputViews(outputs))| < TWO_63
      requires start + |EncodeInputs(InputViews(inputs)) + EncodeOutputs(OutputViews(outputs))| <= buf.Length
      modifies buf
      ensures i == start + |EncodeInputs(InputViews(inputs)) + EncodeOutputs(OutputViews(outputs))|
      ensures buf[..] == Splice(old(buf[..]), start,
                                EncodeInputs(InputViews(inputs)) + EncodeOutputs(OutputViews(outputs)))
    {
      hide Splice, EncodeInputs, EncodeOutputs, InputViews, OutputViews;
      SpliceNext(buf[..], start, EncodeInputs(InputViews(inputs)), EncodeOutputs(OutputViews(outputs)));
      i := PutInputs(buf, start);
      i := PutOutputs(buf, i);
    }

    method PutInput(x: TaskInputStatistics, buf: array<byte>, start: nat) returns (i: nat)
      requires |EncodeInput(x.View())| < TWO_63 && start + |PayloadImage(3, EncodeInput(x.View()))| <= buf.Length
      modifies buf
      ensures i == start + |PayloadImage(3, EncodeInput(x.View()))|
      ensures buf[..] == Splice(old(buf[..]), start, PayloadImage(3, EncodeInput(x.View())))
    {
      hide Splice, EncodeInput, Varint, PayloadImage;
      ghost var part := EncodeInput(x.View());
      var size := x.Size();
      PayloadParts(3, part);
      SpliceNext(buf[..], start, [0x1a] + Varint(size), part);
      i := PutHeader(buf, start, 0x1a, size);
      i := x.MarshalTo(buf, i);
    }

    method PutInputs(buf: array<byte>, start: nat) returns (i: nat)
      requires |EncodeInputs(InputViews(inputs))| < TWO_63
      requires start + |EncodeInputs(InputViews(inputs))| <= buf.Length
      modifies buf
      ensures i == start + |EncodeInputs(InputViews(inputs))|
      ensures buf[..] == Splice(old(buf[..]), start, EncodeInputs(InputViews(inputs)))
    {
      hide Splice, EncodeInput, InputViews, PayloadImage;
      ghost var vs := InputViews(inputs);
      PayloadsFit(vs);
      SpliceNothing(buf[..], start);
      i := start;
      ghost var done: bytes := [];
      for k := 0 to |inputs|
        invariant i == start + |done| && done + EncodeInputs(vs[k..]) == EncodeInputs(vs)
        invariant buf[..] == Splice(old(buf[..]), start, done)
      {
        assert vs[k] in vs && vs[k..][1..] == vs[k + 1..];
        ghost var part := PayloadImage(3, EncodeInput(vs[k]));
        WriteNext(old(buf[..]), start, done, part, EncodeInputs(vs[k + 1..]));
        i := PutInput(inputs[k], buf, i);
        done := done + part;
      }
      assert vs[|inputs|..] == [] && done + [] == done;
    }

    method PutOutput(x: TaskOutputStatistics, buf: array<byte>, start: nat) returns (i: nat)
      requires |EncodeOutput(x.View())| < TWO_63 && start + |PayloadImage(4, EncodeOutput(x.View()))| <= buf.Length
      modifies buf
      ensures i == start + |PayloadImage(4, EncodeOutput(x.View()))|
      ensures buf[..] == Splice(old(buf[..]), start, PayloadImage(4, EncodeOutput(x.View())))
    {
      hide Splice, EncodeOutput, Varint, PayloadImage;
      ghost var part := EncodeOutput(x.View());
      var size := x.Size();
      PayloadParts(4, part);
      SpliceNext(buf[..], start, [0x22] + Varint(size), part);
      i := PutHeader(buf, start, 0x22, size);
      i := x.MarshalTo(buf, i);
    }

    method PutOutputs(buf: array<byte>, start: nat) returns (i: nat)
      requires |EncodeOutputs(OutputViews(outputs))| < TWO_63
      requires start + |EncodeOutputs(OutputViews(outputs))| <= buf.Length
      modifies buf
      ensures i == start + |EncodeOutputs(OutputViews(outputs))|
      ensures buf[..] == Splice(old(buf[..]), start, EncodeOutputs(OutputViews(outputs)))
    {
      hide Splice, EncodeOutput, OutputViews, PayloadImage;
      ghost var vs := OutputViews(outputs);
      OutputPayloadsFit(vs);
      SpliceNothing(buf[..], start);
      i := start;
      ghost var done: bytes := [];
      for k := 0 to |outputs|
        invariant i == start + |done| && done + EncodeOutputs(vs[k..]) == EncodeOutputs(vs)
        invariant buf[..] == Splice(old(buf[..]), start, done)
      {
        assert vs[k] in vs && vs[k..][1..] == vs[k + 1..];
        ghost var part := PayloadImage(4, EncodeOutput(vs[k]));
        WriteNext(old(buf[..]), start, done, part, EncodeOutputs(vs[k + 1..]));
        i := PutOutput(outputs[k], buf, i);
        done := done + part;
      }
      assert vs[|outputs|..] == [] && done + [] == done;
    }

    method PutCounters(buf: array<byte>, start: nat) returns (i: nat)
      requires start + |EncodeCounters(View())| <= buf.Length
      modifies buf
      ensures i == start + |EncodeCounters(View())|
      ensures buf[..] == Splice(old(buf[..]), start, EncodeCounters(View()))
    {
      hide Splice, NumberImage, EncodeCounters, View;
      ghost var t7 := NumberImage(7, succeeded) + NumberImage(8, failed);
      ghost var t6 := NumberImage(6, inProgress) + t7;
      CounterParts();
      SpliceNext(buf[..], start, NumberImage(5, waiting), t6);
      i := PutNumber(buf, start, 0x28, waiting, 5);
      SpliceNext(buf[..], i, NumberImage(6, inProgress), t7);
      i := PutNumber(buf, i, 0x30, inProgress, 6);
      i := PutOutcomes(buf, i);
    }

    method PutOutcomes(buf: array<byte>, start: nat) returns (i: nat)
      requires start + |NumberImage(7, succeeded) + NumberImage(8, failed)| <= buf.Length
      modifies buf
      ensures i == start + |NumberImage(7, succeeded) + NumberImage(8, failed)|
      ensures buf[..] == Splice(old(buf[..]), start, NumberImage(7, succeeded) + NumberImage(8, failed))
    {
      hide Splice, NumberImage;
      SpliceNext(buf[..], start, NumberImage(7, succeeded), NumberImage(8, failed));
      i := PutNumber(buf, start, 0x38, succeeded, 7);
      i := PutNumber(buf, i, 0x40, failed, 8);
    }

    lemma CounterParts()
      ensures EncodeCounters(View())
        == NumberImage(5, waiting) + (NumberImage(6, inProgress) + (NumberImage(7, succeeded) + NumberImage(8, failed)))
    {
      hide NumberImage, InputViews, OutputViews;
    }

    /** The buffer is allocated by Size and filled completely. */
    method Marshal() returns (d: array<byte>)
      requires |EncodeTask(View())| < TWO_63
      ensures fresh(d) && d[..] == EncodeTask(View())
    {
      hide EncodeTask, InputViews, OutputViews;
      var size := Size();
      d := new byte[size];
      var n := MarshalTo(d, 0);
    }

    /** Decodes d on top of what the message holds; nested entries are new objects. */
    method Unmarshal(d: bytes) returns (r: Outcome)
      modifies this
      ensures r.Err? ==> DecodeTask(old(View()), d) == Err(r.error)
      ensures r.Ok? ==> DecodeTask(old(View()), d) == Ok(View())
    {
      hide Decode, ReadField, InputViews, OutputViews, PutTask, View;
      var i := 0;
      while i < |d|
        invariant i <= |d| && DecodeTask(View(), d[i..]) == DecodeTask(old(View()), d)
      {
        DecodeStep(TASK, PutTask, View(), d, i);
        var got :- DecodeField(TASK, d, i);
        var _ :- Take(got.0);
        i := got.1;
      }
      assert d[i..] == [];
      DecodeNothing(TASK, PutTask, View());
      return Ok(());
    }

    /** The branch of the loop for the field just read. */
    method Take(f: Field) returns (r: Outcome)
      modifies this
      ensures match PutTask(old(View()), f)
              case Err(e) => r == Err(e)
              case Ok(v) => r.Ok? && View() == v
    {
      hide InputViews, OutputViews, DecodeInput, DecodeOutput, ToInt64;
      match f {
        case TextField(1, text) => name := text;
        case TextField(2, text) => uri := text;
        case TextField(3, text) =>
          var x :- AppendInput(text);
        case TextField(4, text) =>
          var x :- AppendOutput(text);
        case NumberField(5, v) => waiting := ToInt64(v);
        case NumberField(6, v) => inProgress := ToInt64(v);
        case NumberField(7, v) => succeeded := ToInt64(v);
        case NumberField(8, v) => failed := ToInt64(v);
        case _ =>
      }
      return Ok(());
    }

    method AppendInput(text: bytes) returns (r: Result<TaskInputStatistics, DecodeError>)
      modifies this`inputs
      ensures match DecodeInput(NO_INPUT, text)
              case Err(e) => r == Err(e)
              case Ok(v) => r.Ok? && fresh(r.value) && inputs == old(inputs) + [r.value]
                            && View() == old(View()).(inputs := old(View()).inputs + [v])
    {
      hide DecodeInput;
      ghost var before := View();
      var x := new TaskInputStatistics([]);
      inputs := inputs + [x];
      var _ :- x.Unmarshal(text);
      assert View().inputs == before.inputs + [x.View()];
      return Ok(x);
    }

    method AppendOutput(text: bytes) returns (r: Result<TaskOutputStatistics, DecodeError>)
      modifies this`outputs
      ensures match DecodeOutput(NO_OUTPUT, text)
              case Err(e) => r == Err(e)
              case Ok(v) => r.Ok? && fresh(r.value) && outputs == old(outputs) + [r.value]
                            && View() == old(View()).(outputs := old(View()).outputs + [v])
    {
      hide DecodeOutput;
      ghost var before := View();
      var x := new TaskOutputStatistics([]);
      outputs := outputs + [x];
      var _ :- x.Unmarshal(text);
      assert View().outputs == before.outputs + [x.View()];
      return Ok(x);
    }
  }

  lemma InputKeysAppend(xs: seq<TaskInputStatistics>, x: TaskInputStatistics)
    ensures InputKeys(xs + [x]) == InputKeys(xs) + [InputEntry(x.View())]
  {
  }

  lemma OutputKeysAppend(xs: seq<TaskOutputStatistics>, x: TaskOutputStatistics)
    ensures OutputKeys(xs + [x]) == OutputKeys(xs) + [OutputEntry(x.View())]
  {
  }

  lemma Reordered<T>(all: seq<T>, p: seq<nat>, sorted: seq<T>)
    requires Permutation(p, |all|) && |sorted| == |all|
    requires forall i :: 0 <= i < |all| ==> sorted[i] == all[p[i]]
    ensures forall o :: o in sorted <==> o in all
    ensures (forall i, j :: 0 <= i < j < |all| ==> all[i] != all[j]) ==>
              forall i, j :: 0 <= i < j < |all| ==> sorted[i] != sorted[j]
  {
    forall o | o in all
      ensures o in sorted
    {
      var k :| 0 <= k < |all| && all[k] == o;
      assert k in p;
      var i :| 0 <= i < |p| && p[i] == k;
      assert sorted[i] == o;
    }
  }
}
