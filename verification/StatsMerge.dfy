/**
 Whole histories of a task statistic: any sequence of merging further statistics and
 looking up entries, starting from an empty one.
 */
module StatsMerge {
  import opened Common
  import opened StatsSpec
  import opened Keyed
  import opened Tracking
  import opened TaskTracking

  datatype Op = Merge(source: TaskValue) | TouchInput(name: bytes) | TouchOutput(name: bytes)

  /** What one operation adds to the inputs, to the outputs and to the task's own counters. */
  function ToInputs(op: Op): seq<Entry> {
    match op
    case Merge(source) => InputEntries(source.inputs)
    case TouchInput(n) => [Entry(n, ZERO)]
    case TouchOutput(_) => []
  }

  function ToOutputs(op: Op): seq<Entry> {
    match op
    case Merge(source) => OutputEntries(source.outputs)
    case TouchInput(_) => []
    case TouchOutput(n) => [Entry(n, ZERO)]
  }

  function ToCounters(op: Op): seq<Entry> {
    match op
    case Merge(source) => [Entry([], TaskCounts(source))]
    case _ => []
  }

  function TaskCounts(v: TaskValue): Counts {
    Counts(v.waiting, v.inProgress, v.succeeded, v.failed)
  }

  function Gather(what: Op -> seq<Entry>, ops: seq<Op>): seq<Entry> {
    if ops == [] then [] else what(ops[0]) + Gather(what, ops[1..])
  }

  lemma {:induction false} GatherAppend(what: Op -> seq<Entry>, a: seq<Op>, b: seq<Op>)
    ensures Gather(what, a + b) == Gather(what, a) + Gather(what, b)
    decreases |a|
  {
    if a == [] {
      assert a + b == b;
    } else {
      assert (a + b)[1..] == a[1..] + b;
      GatherAppend(what, a[1..], b);
    }
  }

  lemma GatherLast(what: Op -> seq<Entry>, ops: seq<Op>, op: Op)
    ensures Gather(what, ops + [op]) == Gather(what, ops) + what(op)
  {
    GatherAppend(what, ops, [op]);
    assert Gather(what, [op]) == what(op) + Gather(what, []);
  }

  lemma {:induction false} GatherSplit(what: Op -> seq<Entry>, b: seq<Op>, k: nat)
    requires k < |b|
    ensures Gather(what, b) == Gather(what, b[..k]) + what(b[k]) + Gather(what, b[k + 1..])
    decreases k
  {
    if k > 0 {
      assert b[1..][..k - 1] == b[..k][1..];
      GatherSplit(what, b[1..], k - 1);
    }
  }

  lemma GatherWithout(what: Op -> seq<Entry>, b: seq<Op>, k: nat)
    requires k < |b|
    ensures multiset(Gather(what, b)) == multiset(what(b[k])) + multiset(Gather(what, b[..k] + b[k + 1..]))
  {
    hide Gather;
    GatherSplit(what, b, k);
    GatherAppend(what, b[..k], b[k + 1..]);
  }

  lemma {:induction false} GatherPermutation(what: Op -> seq<Entry>, a: seq<Op>, b: seq<Op>)
    requires multiset(a) == multiset(b)
    ensures multiset(Gather(what, a)) == multiset(Gather(what, b))
    decreases |a|
  {
    if a == [] {
      assert |multiset(b)| == 0;
    } else {
      var k := TakeOut(a, b);
      GatherWithout(what, b, k);
      GatherPermutation(what, a[1..], b[..k] + b[k + 1..]);
    }
  }

  /** The statistic that a history leaves behind, computed by the objects themselves. */
  method Perform(ops: seq<Op>) returns (t: TaskStatistics)
    ensures fresh(t) && t.Distinct()
    ensures InputKeys(t.inputs) == AddAll([], Gather(ToInputs, ops))
    ensures OutputKeys(t.outputs) == AddAll([], Gather(ToOutputs, ops))
    ensures TaskCounts(t.View()) == At(AddAll([], Gather(ToCounters, ops)), [])
  {
    hide AddAll, AddEntry, Gather, At;
    t := new TaskStatistics();
    Start();
    for k := 0 to |ops|
      invariant t.Distinct() && fresh(t)
      invariant forall i :: 0 <= i < |t.inputs| ==> fresh(t.inputs[i])
      invariant forall i :: 0 <= i < |t.outputs| ==> fresh(t.outputs[i])
      invariant InputKeys(t.inputs) == AddAll([], Gather(ToInputs, ops[..k]))
      invariant OutputKeys(t.outputs) == AddAll([], Gather(ToOutputs, ops[..k]))
      invariant TaskCounts(t.View()) == At(AddAll([], Gather(ToCounters, ops[..k])), [])
    {
      assert ops[..k + 1] == ops[..k] + [ops[k]];
      OneMore(ToInputs, ops[..k], ops[k]);
      OneMore(ToOutputs, ops[..k], ops[k]);
      OneMore(ToCounters, ops[..k], ops[k]);
      CountersStep(ops[..k], ops[k]);
      PerformOne(t, ops[k]);
    }
    assert ops[..|ops|] == ops;
  }

  method PerformOne(t: TaskStatistics, op: Op)
    requires t.Distinct() && Sorted(InputKeys(t.inputs)) && Sorted(OutputKeys(t.outputs))
    modifies t, t.inputs, t.outputs
    ensures t.Distinct() && Sorted(InputKeys(t.inputs)) && Sorted(OutputKeys(t.outputs))
    ensures forall o :: o in old(t.inputs) ==> o in t.inputs && o.name == old(o.name)
    ensures forall o :: o in old(t.outputs) ==> o in t.outputs && o.name == old(o.name)
    ensures forall i :: 0 <= i < |t.inputs| ==> t.inputs[i] in old(t.inputs) || fresh(t.inputs[i])
    ensures forall i :: 0 <= i < |t.outputs| ==> t.outputs[i] in old(t.outputs) || fresh(t.outputs[i])
    ensures InputKeys(t.inputs) == AddAll(old(InputKeys(t.inputs)), ToInputs(op))
    ensures OutputKeys(t.outputs) == AddAll(old(OutputKeys(t.outputs)), ToOutputs(op))
    ensures TaskCounts(t.View())
         == if op.Merge? then Plus(old(TaskCounts(t.View())), TaskCounts(op.source)) else old(TaskCounts(t.View()))
  {
    hide AddEntry, InputViews, OutputViews, InputEntries, OutputEntries, Before, AddAll, Sorted, InputKeys, OutputKeys, At,
      Has, Wrapped;
    AddAllMeaning(InputKeys(t.inputs), ToInputs(op), [], 0);
    AddAllMeaning(OutputKeys(t.outputs), ToOutputs(op), [], 0);
    AddAllSingle(InputKeys(t.inputs), OutputKeys(t.outputs), op);
    if op.Merge? {
      t.Add(op.source);
    } else {
      Touch(t, op);
    }
  }

  method Touch(t: TaskStatistics, op: Op)
    requires t.Distinct() && !op.Merge?
    requires Sorted(InputKeys(t.inputs)) && Sorted(OutputKeys(t.outputs))
    modifies t`inputs, t`outputs
    ensures t.Distinct()
    ensures forall o :: o in old(t.inputs) ==> o in t.inputs
    ensures forall o :: o in old(t.outputs) ==> o in t.outputs
    ensures forall i :: 0 <= i < |t.inputs| ==> t.inputs[i] in old(t.inputs) || fresh(t.inputs[i])
    ensures forall i :: 0 <= i < |t.outputs| ==> t.outputs[i] in old(t.outputs) || fresh(t.outputs[i])
    ensures InputKeys(t.inputs)
         == if op.TouchInput? then AddEntry(old(InputKeys(t.inputs)), Entry(op.name, ZERO)) else old(InputKeys(t.inputs))
    ensures OutputKeys(t.outputs)
         == if op.TouchInput? then old(OutputKeys(t.outputs))
            else AddEntry(old(OutputKeys(t.outputs)), Entry(op.name, ZERO))
  {
    hide Sorted, InputKeys, OutputKeys;
    if op.TouchInput? {
      var x := t.InputByName(op.name);
    } else {
      var x := t.OutputByName(op.name);
    }
  }

  lemma AddAllSingle(ins: seq<Entry>, outs: seq<Entry>, op: Op)
    ensures op.TouchInput? ==>
      AddAll(ins, ToInputs(op)) == AddEntry(ins, Entry(op.name, ZERO)) && AddAll(outs, ToOutputs(op)) == outs
    ensures op.TouchOutput? ==>
      AddAll(outs, ToOutputs(op)) == AddEntry(outs, Entry(op.name, ZERO)) && AddAll(ins, ToInputs(op)) == ins
  {
    assert forall es, e :: AddAll(es, [e]) == AddEntry(es, e);
  }

  lemma Start()
    ensures forall what :: AddAll([], Gather(what, [])) == []
    ensures At([], []) == ZERO
  {
  }

  lemma OneMore(what: Op -> seq<Entry>, ops: seq<Op>, op: Op)
    ensures AddAll([], Gather(what, ops + [op])) == AddAll(AddAll([], Gather(what, ops)), what(op))
    ensures Sorted(AddAll([], Gather(what, ops)))
  {
    GatherLast(what, ops, op);
    AddAllAppend([], Gather(what, ops), what(op));
    AddAllMeaning([], Gather(what, ops), [], 0);
  }

  lemma CountersStep(ops: seq<Op>, op: Op)
    ensures At(AddAll([], Gather(ToCounters, ops + [op])), [])
         == if op.Merge? then Plus(At(AddAll([], Gather(ToCounters, ops)), []), TaskCounts(op.source))
            else At(AddAll([], Gather(ToCounters, ops)), [])
  {
    OneMore(ToCounters, ops, op);
    var es := AddAll([], Gather(ToCounters, ops));
    if op.Merge? {
      var e := Entry([], TaskCounts(op.source));
      assert AddAll(es, [e]) == AddEntry(es, e);
      AddEntryCounts(es, e, []);
    }
  }

  /**
   The meaning of a history: entries strictly sorted by name, an entry exactly for the
   names that occur, and every counter the int64 sum over all entries of that name.
   */
  lemma HistoryMeaning(ops: seq<Op>, name: bytes, i: nat)
    requires i < 4
    ensures Sorted(AddAll([], Gather(ToInputs, ops)))
    ensures Has(AddAll([], Gather(ToInputs, ops)), name) <==> Has(Gather(ToInputs, ops), name)
    ensures At(AddAll([], Gather(ToInputs, ops)), name).Pick(i) == Wrap(Sum(Gather(ToInputs, ops), name, i))
    ensures Sorted(AddAll([], Gather(ToOutputs, ops)))
    ensures Has(AddAll([], Gather(ToOutputs, ops)), name) <==> Has(Gather(ToOutputs, ops), name)
    ensures At(AddAll([], Gather(ToOutputs, ops)), name).Pick(i) == Wrap(Sum(Gather(ToOutputs, ops), name, i))
    ensures At(AddAll([], Gather(ToCounters, ops)), []).Pick(i) == Wrap(Sum(Gather(ToCounters, ops), [], i))
  {
    hide AddAll, Gather, Sum, At, Has, Before;
    AddAllFromNothing(Gather(ToInputs, ops), name, i);
    AddAllFromNothing(Gather(ToOutputs, ops), name, i);
    AddAllFromNothing(Gather(ToCounters, ops), [], i);
  }

  /** The order of the operations makes no difference. */
  lemma HistoryOrder(a: seq<Op>, b: seq<Op>)
    requires multiset(a) == multiset(b)
    ensures AddAll([], Gather(ToInputs, a)) == AddAll([], Gather(ToInputs, b))
    ensures AddAll([], Gather(ToOutputs, a)) == AddAll([], Gather(ToOutputs, b))
    ensures AddAll([], Gather(ToCounters, a)) == AddAll([], Gather(ToCounters, b))
  {
    GatherPermutation(ToInputs, a, b);
    AddAllPermutation([], Gather(ToInputs, a), Gather(ToInputs, b));
    GatherPermutation(ToOutputs, a, b);
    AddAllPermutation([], Gather(ToOutputs, a), Gather(ToOutputs, b));
    GatherPermutation(ToCounters, a, b);
    AddAllPermutation([], Gather(ToCounters, a), Gather(ToCounters, b));
  }

  /** Entries once in the lists stay there, under their names. */
  method PerformKeeping(t: TaskStatistics, ops: seq<Op>)
    requires t.Distinct() && Sorted(InputKeys(t.inputs)) && Sorted(OutputKeys(t.outputs))
    modifies t, t.inputs, t.outputs
    ensures t.Distinct() && Sorted(InputKeys(t.inputs)) && Sorted(OutputKeys(t.outputs))
    ensures forall o :: o in old(t.inputs) ==> o in t.inputs && o.name == old(o.name)
    ensures forall o :: o in old(t.outputs) ==> o in t.outputs && o.name == old(o.name)
    ensures forall i :: 0 <= i < |t.inputs| ==> t.inputs[i] in old(t.inputs) || fresh(t.inputs[i])
    ensures forall i :: 0 <= i < |t.outputs| ==> t.outputs[i] in old(t.outputs) || fresh(t.outputs[i])
  {
    hide Sorted, AddAll, ToInputs, ToOutputs, InputKeys, OutputKeys;
    for k := 0 to |ops|
      invariant t.Distinct() && Sorted(InputKeys(t.inputs)) && Sorted(OutputKeys(t.outputs))
      invariant forall i :: 0 <= i < |t.inputs| ==> t.inputs[i] in old(t.inputs) || fresh(t.inputs[i])
      invariant forall i :: 0 <= i < |t.outputs| ==> t.outputs[i] in old(t.outputs) || fresh(t.outputs[i])
      invariant forall o :: o in old(t.inputs) ==> o in t.inputs && o.name == old(o.name)
      invariant forall o :: o in old(t.outputs) ==> o in t.outputs && o.name == old(o.name)
    {
      PerformOne(t, ops[k]);
    }
  }

  /** A pointer to an entry stays the entry of its name, through merging and lookups alike. */
  method PointerStays(t: TaskStatistics, n: bytes, ops: seq<Op>) returns (x: TaskInputStatistics, y: TaskInputStatistics)
    requires t.Distinct() && Sorted(InputKeys(t.inputs)) && Sorted(OutputKeys(t.outputs))
    modifies t, t.inputs, t.outputs
    ensures x == y && x.name == n
  {
    hide AddAll, AddEntry, Before, ToInputs, ToOutputs, Has, Sorted, OutputKeys;
    hide InputViews, OutputViews, InputEntries, OutputEntries;
    x := t.InputByName(n);
    AddEntrySorted(old(InputKeys(t.inputs)), Entry(n, ZERO));
    PerformKeeping(t, ops);
    ghost var keys := InputKeys(t.inputs);
    ghost var i :| 0 <= i < |t.inputs| && t.inputs[i] == x;
    FoundIsIt(keys, i, n);
    y := t.InputByName(n);
    ghost var j :| 0 <= j < |t.inputs| && t.inputs[j] == y;
    assert keys[j].name == n;
  }

  method OutputPointerStays(t: TaskStatistics, n: bytes, ops: seq<Op>)
    returns (x: TaskOutputStatistics, y: TaskOutputStatistics)
    requires t.Distinct() && Sorted(InputKeys(t.inputs)) && Sorted(OutputKeys(t.outputs))
    modifies t, t.inputs, t.outputs
    ensures x == y && x.name == n
  {
    hide AddAll, AddEntry, Before, ToInputs, ToOutputs, Has, Sorted, InputKeys;
    hide InputViews, OutputViews, InputEntries, OutputEntries;
    x := t.OutputByName(n);
    AddEntrySorted(old(OutputKeys(t.outputs)), Entry(n, ZERO));
    PerformKeeping(t, ops);
    ghost var keys := OutputKeys(t.outputs);
    ghost var i :| 0 <= i < |t.outputs| && t.outputs[i] == x;
    FoundIsIt(keys, i, n);
    y := t.OutputByName(n);
    ghost var j :| 0 <= j < |t.outputs| && t.outputs[j] == y;
    assert keys[j].name == n;
  }

  /** In a sorted list a name is found at one index only. */
  lemma FoundIsIt(keys: seq<Entry>, i: nat, n: bytes)
    requires Sorted(keys) && i < |keys| && keys[i].name == n
    ensures Has(keys, n) && forall j :: 0 <= j < |keys| && keys[j].name == n ==> j == i
  {
    BeforeIsTotal(n, n);
  }

  // ---------------------------------------------------------------- histories of a link statistic

  function Waiting(s: LinkValue): int {
    s.waiting
  }

  function InProgress(s: LinkValue): int {
    s.inProgress
  }

  function Acknowledged(s: LinkValue): int {
    s.acknowledged
  }

  function NameOf(s: LinkValue): bytes {
    s.name
  }

  function UriOf(s: LinkValue): bytes {
    s.uri
  }

  function TotalOf(ss: seq<LinkValue>, what: LinkValue -> int): int {
    if ss == [] then 0 else what(ss[0]) + TotalOf(ss[1..], what)
  }

  /** The first text that is not empty, if there is one. */
  function FirstOf(ss: seq<LinkValue>, what: LinkValue -> bytes): bytes {
    if ss == [] then [] else if what(ss[0]) != [] then what(ss[0]) else FirstOf(ss[1..], what)
  }

  /** A link statistic after all of ss were added one by one. */
  function AddLinks(t: LinkValue, ss: seq<LinkValue>): LinkValue
    decreases |ss|
  {
    if ss == [] then t else AddLinks(AddLink(t, ss[0]), ss[1..])
  }

  /**
   Any number of additions leaves the int64 sums over everything added and the first
   texts that are not empty, no matter when sums on the way overflow.
   */
  lemma {:induction false} LinkSums(t: LinkValue, ss: seq<LinkValue>)
    ensures var r := AddLinks(t, ss);
      && r.waiting == Wrap(t.waiting + TotalOf(ss, Waiting))
      && r.inProgress == Wrap(t.inProgress + TotalOf(ss, InProgress))
      && r.acknowledged == Wrap(t.acknowledged + TotalOf(ss, Acknowledged))
      && r.name == (if t.name != [] then t.name else FirstOf(ss, NameOf))
      && r.uri == (if t.uri != [] then t.uri else FirstOf(ss, UriOf))
    decreases |ss|
  {
    hide Wrap;
    if ss == [] {
      WrapFits(t.waiting);
      WrapFits(t.inProgress);
      WrapFits(t.acknowledged);
    } else {
      LinkSums(AddLink(t, ss[0]), ss[1..]);
      WrapAbsorbs(t.waiting + ss[0].waiting, TotalOf(ss[1..], Waiting));
      WrapAbsorbs(t.inProgress + ss[0].inProgress, TotalOf(ss[1..], InProgress));
      WrapAbsorbs(t.acknowledged + ss[0].acknowledged, TotalOf(ss[1..], Acknowledged));
    }
  }

  lemma {:induction false} TotalAppend(a: seq<LinkValue>, b: seq<LinkValue>, what: LinkValue -> int)
    ensures TotalOf(a + b, what) == TotalOf(a, what) + TotalOf(b, what)
    decreases |a|
  {
    if a == [] {
      assert a + b == b;
    } else {
      TotalAppend(a[1..], b, what);
      assert (a + b)[1..] == a[1..] + b;
    }
  }

  lemma TotalWithout(b: seq<LinkValue>, k: nat, what: LinkValue -> int)
    requires k < |b|
    ensures TotalOf(b, what) == what(b[k]) + TotalOf(b[..k] + b[k + 1..], what)
  {
    hide TotalOf;
    assert b == b[..k] + b[k..];
    TotalAppend(b[..k], b[k..], what);
    TotalAppend(b[..k], b[k + 1..], what);
    TotalFirst(b, k, what);
  }

  lemma TotalFirst(b: seq<LinkValue>, k: nat, what: LinkValue -> int)
    requires k < |b|
    ensures TotalOf(b[k..], what) == what(b[k]) + TotalOf(b[k + 1..], what)
  {
    assert b[k..][1..] == b[k + 1..];
  }

  /** Sums do not depend on the order of the additions. */
  lemma {:induction false} TotalOrder(a: seq<LinkValue>, b: seq<LinkValue>, what: LinkValue -> int)
    requires multiset(a) == multiset(b)
    ensures TotalOf(a, what) == TotalOf(b, what)
    decreases |a|
  {
    if a == [] {
      assert |multiset(b)| == 0;
    } else {
      var k := TakeOut(a, b);
      TotalWithout(b, k, what);
      TotalOrder(a[1..], b[..k] + b[k + 1..], what);
    }
  }

  /** The same additions in any order leave the same counters. */
  lemma LinkOrder(t: LinkValue, a: seq<LinkValue>, b: seq<LinkValue>)
    requires multiset(a) == multiset(b)
    ensures var x, y := AddLinks(t, a), AddLinks(t, b);
      x.waiting == y.waiting && x.inProgress == y.inProgress && x.acknowledged == y.acknowledged
  {
    hide AddLinks, TotalOf, FirstOf, Wrap;
    LinkSums(t, a);
    LinkSums(t, b);
    TotalOrder(a, b, Waiting);
    TotalOrder(a, b, InProgress);
    TotalOrder(a, b, Acknowledged);
  }

  /** The same, computed by the object itself. */
  method PerformLinks(t: LinkStatistics, sources: seq<LinkValue>)
    modifies t
    ensures t.waiting == Wrap(old(t.waiting) + TotalOf(sources, Waiting))
    ensures t.inProgress == Wrap(old(t.inProgress) + TotalOf(sources, InProgress))
    ensures t.acknowledged == Wrap(old(t.acknowledged) + TotalOf(sources, Acknowledged))
    ensures t.name == if old(t.name) != [] then old(t.name) else FirstOf(sources, NameOf)
    ensures t.uri == if old(t.uri) != [] then old(t.uri) else FirstOf(sources, UriOf)
  {
    hide AddLink, Wrap;
    LinkSums(t.View(), sources);
    for k := 0 to |sources|
      invariant AddLinks(t.View(), sources[k..]) == AddLinks(old(t.View()), sources)
    {
      assert sources[k..][1..] == sources[k + 1..];
      t.Add(sources[k]);
    }
  }
}
