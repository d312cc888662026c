/** What a merged statistic holds, counter by counter, in terms of the statistics merged into it. */
module StatsTotals {
  import opened Common
  import opened StatsSpec
  import opened Keyed
  import opened Tracking
  import opened TaskTracking
  import opened StatsMerge

  datatype InputCounter = Received | InProgress | Processed | Skipped

  datatype TaskCounter = Waiting | Running | Succeeded | Failed

  function ReadInput(v: InputValue, k: InputCounter): int {
    match k
    case Received => v.received
    case InProgress => v.inProgress
    case Processed => v.processed
    case Skipped => v.skipped
  }

  function ReadTask(v: TaskValue, k: TaskCounter): int {
    match k
    case Waiting => v.waiting
    case Running => v.inProgress
    case Succeeded => v.succeeded
    case Failed => v.failed
  }

  /** One counter of all inputs with a name, repeated ones included. */
  function InputTotal(vs: seq<InputValue>, name: bytes, k: InputCounter): int {
    if vs == [] then 0 else (if vs[0].name == name then ReadInput(vs[0], k) else 0) + InputTotal(vs[1..], name, k)
  }

  function OutputTotal(vs: seq<OutputValue>, name: bytes): int {
    if vs == [] then 0 else (if vs[0].name == name then vs[0].published else 0) + OutputTotal(vs[1..], name)
  }

  /** The same over everything merged; lookups add nothing. */
  function InputHistory(ops: seq<Op>, name: bytes, k: InputCounter): int {
    if ops == [] then 0
    else (if ops[0].Merge? then InputTotal(ops[0].source.inputs, name, k) else 0) + InputHistory(ops[1..], name, k)
  }

  function OutputHistory(ops: seq<Op>, name: bytes): int {
    if ops == [] then 0
    else (if ops[0].Merge? then OutputTotal(ops[0].source.outputs, name) else 0) + OutputHistory(ops[1..], name)
  }

  function TaskHistory(ops: seq<Op>, k: TaskCounter): int {
    if ops == [] then 0
    else (if ops[0].Merge? then ReadTask(ops[0].source, k) else 0) + TaskHistory(ops[1..], k)
  }

  // ---------------------------------------------------------------- the sums of the keyed lists

  function Place(k: InputCounter): nat {
    match k
    case Received => 0
    case InProgress => 1
    case Processed => 2
    case Skipped => 3
  }

  function TaskPlace(k: TaskCounter): nat {
    match k
    case Waiting => 0
    case Running => 1
    case Succeeded => 2
    case Failed => 3
  }

  lemma {:induction false} InputSums(vs: seq<InputValue>, name: bytes, k: InputCounter)
    ensures Sum(InputEntries(vs), name, Place(k)) == InputTotal(vs, name, k)
    decreases |vs|
  {
    if vs != [] {
      InputSums(vs[1..], name, k);
      assert InputEntries(vs)[1..] == InputEntries(vs[1..]);
    }
  }

  lemma {:induction false} OutputSums(vs: seq<OutputValue>, name: bytes)
    ensures Sum(OutputEntries(vs), name, 0) == OutputTotal(vs, name)
    decreases |vs|
  {
    if vs != [] {
      OutputSums(vs[1..], name);
      assert OutputEntries(vs)[1..] == OutputEntries(vs[1..]);
    }
  }

  lemma ZeroSum(name: bytes, n: bytes, i: nat)
    requires i < 4
    ensures Sum([Entry(n, ZERO)], name, i) == 0 && Sum([], name, i) == 0
  {
    assert [Entry(n, ZERO)][1..] == [];
  }

  lemma {:induction false} InputHistorySums(ops: seq<Op>, name: bytes, k: InputCounter)
    ensures Sum(Gather(ToInputs, ops), name, Place(k)) == InputHistory(ops, name, k)
    decreases |ops|
  {
    hide Sum, Place, InputTotal, InputEntries;
    if ops != [] {
      InputHistorySums(ops[1..], name, k);
      PlaceFits(k);
      SumAppend(ToInputs(ops[0]), Gather(ToInputs, ops[1..]), name, Place(k));
      match ops[0]
      case Merge(source) => InputSums(source.inputs, name, k);
      case TouchInput(n) => ZeroSum(name, n, Place(k));
      case TouchOutput(n) => ZeroSum(name, n, Place(k));
    } else {
      PlaceFits(k);
      ZeroSum(name, [], Place(k));
    }
  }

  lemma PlaceFits(k: InputCounter)
    ensures Place(k) < 4
  {
  }

  lemma {:induction false} OutputHistorySums(ops: seq<Op>, name: bytes)
    ensures Sum(Gather(ToOutputs, ops), name, 0) == OutputHistory(ops, name)
    decreases |ops|
  {
    hide Sum, OutputTotal, OutputEntries;
    if ops != [] {
      OutputHistorySums(ops[1..], name);
      SumAppend(ToOutputs(ops[0]), Gather(ToOutputs, ops[1..]), name, 0);
      match ops[0]
      case Merge(source) => OutputSums(source.outputs, name);
      case TouchInput(n) => ZeroSum(name, n, 0);
      case TouchOutput(n) => ZeroSum(name, n, 0);
    } else {
      ZeroSum(name, [], 0);
    }
  }

  lemma {:induction false} TaskHistorySums(ops: seq<Op>, k: TaskCounter)
    ensures Sum(Gather(ToCounters, ops), [], TaskPlace(k)) == TaskHistory(ops, k)
    decreases |ops|
  {
    if ops != [] {
      TaskHistorySums(ops[1..], k);
      SumAppend(ToCounters(ops[0]), Gather(ToCounters, ops[1..]), [], TaskPlace(k));
      assert ops[0].Merge? ==> ToCounters(ops[0])[1..] == [];
    }
  }

  // ---------------------------------------------------------------- the objects

  /** In a sorted list the counters kept for a name are those of its entry. */
  lemma {:induction false} AtEntry(es: seq<Entry>, i: nat)
    requires Sorted(es) && i < |es|
    ensures At(es, es[i].name) == es[i].counts
    decreases |es|
  {
    if i > 0 {
      BeforeIsTotal(es[0].name, es[i].name);
      AtEntry(es[1..], i - 1);
    }
  }

  lemma InputReads(ops: seq<Op>, keys: seq<Entry>, i: nat, v: InputValue)
    requires keys == AddAll([], Gather(ToInputs, ops)) && i < |keys| && keys[i] == InputEntry(v)
    ensures v.received == Wrap(InputHistory(ops, v.name, Received))
    ensures v.inProgress == Wrap(InputHistory(ops, v.name, InProgress))
    ensures v.processed == Wrap(InputHistory(ops, v.name, Processed))
    ensures v.skipped == Wrap(InputHistory(ops, v.name, Skipped))
  {
    hide AddAll, Gather, At, Sum, InputHistory, Wrap, Sorted;
    var name := v.name;
    HistoryMeaning(ops, name, 0);
    HistoryMeaning(ops, name, 1);
    HistoryMeaning(ops, name, 2);
    HistoryMeaning(ops, name, 3);
    AtEntry(keys, i);
    InputHistorySums(ops, name, Received);
    InputHistorySums(ops, name, InProgress);
    InputHistorySums(ops, name, Processed);
    InputHistorySums(ops, name, Skipped);
  }

  lemma OutputReads(ops: seq<Op>, keys: seq<Entry>, i: nat, v: OutputValue)
    requires keys == AddAll([], Gather(ToOutputs, ops)) && i < |keys| && keys[i] == OutputEntry(v)
    ensures v.published == Wrap(OutputHistory(ops, v.name))
  {
    hide AddAll, Gather, At, Sum, OutputHistory, Wrap, Sorted;
    HistoryMeaning(ops, v.name, 0);
    AtEntry(keys, i);
    OutputHistorySums(ops, v.name);
  }

  lemma TaskReads(ops: seq<Op>, v: TaskValue)
    requires TaskCounts(v) == At(AddAll([], Gather(ToCounters, ops)), [])
    ensures v.waiting == Wrap(TaskHistory(ops, Waiting)) && v.inProgress == Wrap(TaskHistory(ops, Running))
    ensures v.succeeded == Wrap(TaskHistory(ops, Succeeded)) && v.failed == Wrap(TaskHistory(ops, Failed))
  {
    hide AddAll, Gather, At, Sum, TaskHistory, Wrap;
    HistoryMeaning(ops, [], 0);
    HistoryMeaning(ops, [], 1);
    HistoryMeaning(ops, [], 2);
    HistoryMeaning(ops, [], 3);
    TaskHistorySums(ops, Waiting);
    TaskHistorySums(ops, Running);
    TaskHistorySums(ops, Succeeded);
    TaskHistorySums(ops, Failed);
  }

  /**
   From an empty object, after any sequence of merges and lookups: every counter of the
   task and of each of its inputs and outputs is the int64 sum of that counter over
   everything merged under that name, and the entries are in the order of their names.
   */
  method PerformTotals(ops: seq<Op>) returns (t: TaskStatistics)
    ensures fresh(t)
    ensures forall x <- t.inputs ::
      && x.received == Wrap(InputHistory(ops, x.name, Received))
      && x.inProgress == Wrap(InputHistory(ops, x.name, InProgress))
      && x.processed == Wrap(InputHistory(ops, x.name, Processed))
      && x.skipped == Wrap(InputHistory(ops, x.name, Skipped))
    ensures forall x <- t.outputs :: x.published == Wrap(OutputHistory(ops, x.name))
    ensures t.waiting == Wrap(TaskHistory(ops, Waiting)) && t.inProgress == Wrap(TaskHistory(ops, Running))
    ensures t.succeeded == Wrap(TaskHistory(ops, Succeeded)) && t.failed == Wrap(TaskHistory(ops, Failed))
    ensures forall i, j :: 0 <= i < j < |t.inputs| ==> Before(t.inputs[i].name, t.inputs[j].name)
    ensures forall i, j :: 0 <= i < j < |t.outputs| ==> Before(t.outputs[i].name, t.outputs[j].name)
  {
    hide AddAll, Gather, At, InputHistory, OutputHistory, TaskHistory, Wrap, Before, Has, InputViews, OutputViews;
    t := Perform(ops);
    TaskReads(ops, t.View());
    HistoryMeaning(ops, [], 0);
    ghost var ins, outs := InputKeys(t.inputs), OutputKeys(t.outputs);
    forall i | 0 <= i < |t.inputs|
      ensures t.inputs[i].received == Wrap(InputHistory(ops, t.inputs[i].name, Received))
      ensures t.inputs[i].inProgress == Wrap(InputHistory(ops, t.inputs[i].name, InProgress))
      ensures t.inputs[i].processed == Wrap(InputHistory(ops, t.inputs[i].name, Processed))
      ensures t.inputs[i].skipped == Wrap(InputHistory(ops, t.inputs[i].name, Skipped))
    {
      InputReads(ops, ins, i, t.inputs[i].View());
    }
    forall i | 0 <= i < |t.outputs|
      ensures t.outputs[i].published == Wrap(OutputHistory(ops, t.outputs[i].name))
    {
      OutputReads(ops, outs, i, t.outputs[i].View());
    }
    forall i, j | 0 <= i < j < |t.inputs| ensures Before(t.inputs[i].name, t.inputs[j].name) {
      assert Before(ins[i].name, ins[j].name);
    }
    forall i, j | 0 <= i < j < |t.outputs| ensures Before(t.outputs[i].name, t.outputs[j].name) {
      assert Before(outs[i].name, outs[j].name);
    }
  }
}
