/**
 Task specifications and input snapshots as values: what Set, Clone, Slide, RemoveAck and
 Delete do to the sequences of a snapshot.
 */
module SnapshotSpec {
  import opened Common

  // ---------------------------------------------------------------- task inputs

  /** An input of a task: its name, the input it feeds when merged, and its bounds. */
  datatype TaskInput = TaskInput(name: string, mergeInto: string, min: nat, max: nat, slide: nat)

  datatype SnapshotPolicy = AllNew | SlidingWindow | SwapNew4Old

  datatype LaunchPolicy = Auto | Restart

  datatype Config = Config(task: seq<TaskInput>, policy: SnapshotPolicy, launch: LaunchPolicy)

  /** A watcher is known by the index of the task input it watches. */
  type Watcher = nat

  function InputByName(ts: seq<TaskInput>, name: string): (r: TaskInput)
    requires exists i :: 0 <= i < |ts| && ts[i].name == name
    ensures r in ts && r.name == name
  {
    if ts[0].name == name then ts[0] else InputByName(ts[1..], name)
  }

  /** The inputs that appear in snapshots: those not merged into another. */
  function Names(c: Config): set<string> {
    set t | t in c.task && t.mergeInto == "" :: t.name
  }

  function SpecOf(c: Config, name: string): (r: TaskInput)
    requires name in Names(c)
    ensures r in c.task && r.name == name
  {
    InputByName(c.task, name)
  }

  /** The snapshot input a watcher puts its values into. */
  function Target(c: Config, w: Watcher): string
    requires w < |c.task|
  {
    if c.task[w].mergeInto == "" then c.task[w].name else c.task[w].mergeInto
  }

  /** What validation of a task and its inputs guarantees; the policies' extra bounds are not needed here. */
  ghost predicate ValidConfig(c: Config) {
    && (forall i, j :: 0 <= i < j < |c.task| ==> c.task[i].name != c.task[j].name)
    && (forall t <- c.task :: 1 <= t.min <= t.max && t.slide >= 1)
    && (forall t <- c.task :: t.mergeInto != "" ==> t.mergeInto in Names(c))
    && c.task != []
  }

  lemma TargetIsInput(c: Config, w: Watcher)
    requires ValidConfig(c) && w < |c.task|
    ensures Target(c, w) in Names(c)
  {
    assert c.task[w] in c.task;
  }

  lemma SomeInput(c: Config) returns (name: string)
    requires ValidConfig(c)
    ensures name in Names(c)
  {
    TargetIsInput(c, 0);
    name := Target(c, 0);
  }

  // ---------------------------------------------------------------- entries

  /** One delivery of an annotated value: who delivered it, and its number from there. */
  datatype Value = Value(source: Watcher, seqno: nat)

  /** A value in a snapshot, with the watcher whose callback acknowledges it, if any. */
  datatype Entry = Entry(val: Value, ack: Option<Watcher>)

  datatype Pair = Pair(entries: seq<Entry>, min: nat)

  type Members = map<string, Pair>

  function Vals(es: seq<Entry>): (r: seq<Value>)
    ensures |r| == |es| && forall i :: 0 <= i < |es| ==> r[i] == es[i].val
  {
    seq(|es|, i requires 0 <= i < |es| => es[i].val)
  }

  /** The callbacks removed. */
  function Forget(es: seq<Entry>): (r: seq<Entry>)
    ensures |r| == |es| && forall i :: 0 <= i < |es| ==> r[i] == Entry(es[i].val, None)
  {
    seq(|es|, i requires 0 <= i < |es| => Entry(es[i].val, None))
  }

  /** The acknowledgements a sequence of entries asks for, in order. */
  function Owed(es: seq<Entry>): seq<(Watcher, Value)> {
    if es == [] then []
    else (if es[0].ack.Some? then [(es[0].ack.value, es[0].val)] else []) + Owed(es[1..])
  }

  lemma {:induction false} OwedAppend(a: seq<Entry>, b: seq<Entry>)
    ensures Owed(a + b) == Owed(a) + Owed(b)
    decreases |a|
  {
    if a == [] {
      assert a + b == b;
    } else {
      OwedAppend(a[1..], b);
      assert a + b == [a[0]] + (a[1..] + b);
      assert (a + b)[1..] == a[1..] + b;
    }
  }

  function Min(a: nat, b: nat): nat {
    if a < b then a else b
  }

  // ---------------------------------------------------------------- operations

  /** How many entries Add removes to make room: none below max, else down to max - 1. */
  function Evictions(length: nat, max: nat): (n: nat)
    ensures n <= length
  {
    if length < max then 0 else if max == 0 then length else length - max + 1
  }

  function AddTo(p: Pair, e: Entry, max: nat): Pair {
    p.(entries := p.entries[Evictions(|p.entries|, max)..] + [e])
  }

  function SeqOf(ms: Members, name: string): seq<Entry> {
    if name in ms then ms[name].entries else []
  }

  function SetIn(ms: Members, name: string, e: Entry, min: nat, max: nat): Members {
    ms[name := AddTo(if name in ms then ms[name] else Pair([], min), e, max)]
  }

  ghost predicate Ready(ms: Members, expected: nat) {
    |ms| == expected && forall n <- ms :: |ms[n].entries| >= ms[n].min
  }

  function Slid(p: Pair, count: nat): Pair {
    p.(entries := p.entries[Min(count, |p.entries|)..])
  }

  function Forgot(p: Pair): Pair {
    p.(entries := Forget(p.entries))
  }

  function SlideIn(ms: Members, name: string, count: nat): Members {
    if name in ms then ms[name := Slid(ms[name], count)] else ms
  }

  function ForgetIn(ms: Members, name: string): Members {
    if name in ms then ms[name := Forgot(ms[name])] else ms
  }

  function DeleteIn(ms: Members, name: string): Members {
    ms - {name}
  }

  /** A clone has the sequences of the original; the minimum lengths are not copied. */
  function CloneOf(ms: Members): Members {
    map n | n in ms :: Pair(ms[n].entries, 0)
  }

  /** What happens to one input after a clone was taken. */
  function PrepareOne(c: Config, ms: Members, name: string): Members
    requires name in Names(c)
  {
    match c.policy
    case AllNew => DeleteIn(ms, name)
    case SlidingWindow => ForgetIn(SlideIn(ms, name, SpecOf(c, name).slide), name)
    case SwapNew4Old => ForgetIn(ms, name)
  }

  /** How far the live sequence of an input moves on when a clone of the given length is taken. */
  function Advance(policy: SnapshotPolicy, slide: nat, length: nat): (n: nat)
    ensures n <= length
  {
    match policy
    case AllNew => length
    case SlidingWindow => Min(slide, length)
    case SwapNew4Old => 0
  }

  /** All inputs prepared at once. */
  function Prepared(c: Config, ms: Members): Members
    requires ms.Keys <= Names(c)
  {
    map n | n in ms && c.policy != AllNew ::
      var es := ms[n].entries;
      Pair(Forget(es[Advance(c.policy, SpecOf(c, n).slide, |es|)..]), ms[n].min)
  }

  lemma PreparedSeq(c: Config, ms: Members, n: string)
    requires ms.Keys <= Names(c) && n in Names(c)
    ensures var es := SeqOf(ms, n);
      SeqOf(Prepared(c, ms), n) == Forget(es[Advance(c.policy, SpecOf(c, n).slide, |es|)..])
  {
  }

  /** Preparing the inputs one by one, in any order, is preparing them all. */
  lemma PrepareStep(c: Config, ms: Members, now: Members, done: set<string>, name: string)
    requires ms.Keys <= Names(c) && done <= Names(c) && name in Names(c) && name !in done
    requires Halfway(c, ms, now, done)
    ensures Halfway(c, ms, PrepareOne(c, now, name), done + {name})
  {
  }

  /** Inputs in done are prepared, the others are as they were. */
  ghost predicate Halfway(c: Config, ms: Members, now: Members, done: set<string>)
    requires ms.Keys <= Names(c)
  {
    var all := Prepared(c, ms);
    && (forall n :: n in now <==> n in (if n in done then all else ms))
    && (forall n <- now :: now[n] == if n in done then all[n] else ms[n])
  }

  lemma Finished(c: Config, ms: Members, now: Members)
    requires ms.Keys <= Names(c) && Halfway(c, ms, now, Names(c))
    ensures now == Prepared(c, ms)
  {
    assert forall n :: n in now <==> n in Prepared(c, ms);
  }
}
