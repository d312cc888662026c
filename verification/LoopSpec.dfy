/**
 The input loop as a step system.  Each step is either a maximal region the source runs
 under the loop's mutex, or one action outside it: receiving, sleeping, handing a clone
 to the executor loop, and the stages of an execution.
 */
module LoopSpec {
  import opened Common
  import opened SnapshotSpec

  type Clone = map<string, seq<Entry>>

  /** What the mutex protects, with the history of everything ever stored and cloned. */
  datatype Store = Store(live: Members, sets: map<string, seq<Value>>, clones: seq<Clone>, skipped: nat)

  /** A watcher goroutine: between values, holding one, asleep with one, or pushing clone k. */
  datatype PC = Idle | Holding(val: Value) | Sleeping(val: Value) | Pushing(k: nat)

  /**
   The life of a clone.  todo lists the acknowledgements its execution owes, in the order
   in which they are sent; the first n of them have been sent.
   */
  datatype Phase =
    | Queued
    | Launched(cancelled: bool)
    | Running(cancelled: bool)
    | Acking(todo: seq<(Watcher, Value)>, n: nat)
    | Returning(ok: bool, todo: seq<(Watcher, Value)>, n: nat)
    | Finished(ok: bool, todo: seq<(Watcher, Value)>, n: nat)

  datatype Event =
    | Started(k: nat)
    | Executed(k: nat, ok: bool)
    | AckCalled(k: nat, n: nat, callback: Watcher, val: Value, ok: bool)

  datatype Exec = Exec(
    phases: seq<Phase>, log: seq<Event>, executionCount: int,
    waiting: int, inProgress: int, succeeded: int, failed: int,
    valuesInProgress: int, valuesProcessed: int,
    busy: Option<nat>, last: Option<nat>, stopped: bool, cancelled: bool)

  datatype State = State(store: Store, pcs: seq<PC>, received: seq<nat>, dropped: nat, exec: Exec)

  datatype Step =
    | Receive(w: Watcher)
    | Sleep(w: Watcher)
    | Wake(w: Watcher)
    | Drop(w: Watcher)
    | Put(w: Watcher)
    | HandOver(w: Watcher)
    | Begin(k: nat)
    | Execute(k: nat, err: bool, order: seq<string>)
    | SendAck(k: nat, err: bool)
    | AckDone(k: nat)
    | Return(k: nat)
    | Cancel
    | StopLoop

  // ---------------------------------------------------------------- initial state

  function Init(c: Config): State {
    State(
      Store(map[], map n | n in Names(c) :: [], [], 0),
      seq(|c.task|, _ => Idle), seq(|c.task|, _ => 0), 0,
      Exec([], [], 0, 0, 0, 0, 0, 0, 0, None, None, false, false))
  }

  // ---------------------------------------------------------------- the mutex-held region

  function Contents(ms: Members): Clone {
    map n | n in ms :: ms[n].entries
  }

  ghost predicate HasRoom(c: Config, s: Store, name: string)
    requires name in Names(c)
  {
    |SeqOf(s.live, name)| < SpecOf(c, name).max
  }

  /** The live members after the value was set, before anything else. */
  function AfterSet(c: Config, s: Store, name: string, v: Value): Members
    requires name in Names(c)
  {
    SetIn(s.live, name, Entry(v, Some(v.source)), SpecOf(c, name).min, SpecOf(c, name).max)
  }

  /** Set, then clone and prepare when every input is ready. */
  ghost function PutValue(c: Config, s: Store, name: string, v: Value): Store
    requires name in Names(c) && s.live.Keys <= Names(c) && name in s.sets
  {
    var live := AfterSet(c, s, name, v);
    var sets := s.sets[name := s.sets[name] + [v]];
    var skipped := s.skipped + Evictions(|SeqOf(s.live, name)|, SpecOf(c, name).max);
    if Ready(live, |Names(c)|)
    then Store(Prepared(c, live), sets, s.clones + [Contents(live)], skipped)
    else Store(live, sets, s.clones, skipped)
  }

  // ---------------------------------------------------------------- acknowledgement order

  /** The order in which the members of a clone are visited: any, each once. */
  ghost predicate IsOrder(clone: Clone, order: seq<string>) {
    && (forall i, j :: 0 <= i < j < |order| ==> order[i] != order[j])
    && (forall n :: n in order <==> n in clone)
  }

  /** The callbacks AckAll invokes, each with its value. */
  function AckList(clone: Clone, order: seq<string>): seq<(Watcher, Value)>
    requires forall n <- order :: n in clone
  {
    if order == [] then [] else Owed(clone[order[0]]) + AckList(clone, order[1..])
  }

  // ---------------------------------------------------------------- sizes

  /** Values per input, summed over the snapshot inputs. */
  function Count<T>(ts: seq<TaskInput>, m: map<string, seq<T>>): nat {
    if ts == [] then 0
    else (if ts[0].mergeInto == "" && ts[0].name in m then |m[ts[0].name]| else 0) + Count(ts[1..], m)
  }

  function Sizes(c: Config, clones: seq<Clone>): (r: seq<nat>)
    ensures |r| == |clones| && forall k :: 0 <= k < |clones| ==> r[k] == Count(c.task, clones[k])
  {
    seq(|clones|, k requires 0 <= k < |clones| => Count(c.task, clones[k]))
  }

  // ---------------------------------------------------------------- steps

  /** The executor loop takes a clone: cancelling the previous run under Restart. */
  function Handed(c: Config, ex: Exec, k: nat): Exec
    requires k < |ex.phases|
  {
    var phases := ex.phases[k := Launched(false)];
    match c.launch
    case Auto => ex.(phases := phases, busy := Some(k))
    case Restart =>
      ex.(phases := if ex.last.Some? && ex.last.value < |phases| then CancelRun(phases, ex.last.value) else phases,
          last := Some(k))
  }

  function CancelRun(phases: seq<Phase>, k: nat): seq<Phase>
    requires k < |phases|
  {
    match phases[k]
    case Launched(_) => phases[k := Launched(true)]
    case Running(_) => phases[k := Running(true)]
    case _ => phases
  }

  /** What the steps below need to make sense of a state. */
  ghost predicate Shape(c: Config, s: State) {
    && ValidConfig(c)
    && |s.pcs| == |s.received| == |c.task| && |s.exec.phases| == |s.store.clones|
    && s.store.live.Keys <= Names(c) == s.store.sets.Keys
  }

  ghost predicate Enabled(c: Config, s: State, step: Step)
    requires Shape(c, s)
  {
    match step
    case Receive(w) => w < |s.pcs| && s.pcs[w].Idle?
    case Sleep(w) =>
      w < |s.pcs| && s.pcs[w].Holding? && (TargetIsInput(c, w); !HasRoom(c, s.store, Target(c, w)))
    case Wake(w) => w < |s.pcs| && s.pcs[w].Sleeping?
    case Drop(w) => w < |s.pcs| && s.pcs[w].Sleeping? && s.exec.cancelled
    case Put(w) =>
      w < |s.pcs| && s.pcs[w].Holding? && (TargetIsInput(c, w); HasRoom(c, s.store, Target(c, w)))
    case HandOver(w) =>
      && w < |s.pcs| && s.pcs[w].Pushing? && s.pcs[w].k < |s.exec.phases|
      && !s.exec.stopped && s.exec.busy.None?
    case Begin(k) => k < |s.exec.phases| && s.exec.phases[k].Launched?
    case Execute(k, _, order) =>
      k < |s.exec.phases| && s.exec.phases[k].Running? && IsOrder(s.store.clones[k], order)
    case SendAck(k, _) =>
      k < |s.exec.phases| && s.exec.phases[k].Acking? && s.exec.phases[k].n < |s.exec.phases[k].todo|
    case AckDone(k) =>
      k < |s.exec.phases| && s.exec.phases[k].Acking? && s.exec.phases[k].n == |s.exec.phases[k].todo|
    case Return(k) => k < |s.exec.phases| && s.exec.phases[k].Returning?
    case Cancel => true
    case StopLoop => s.exec.cancelled && s.exec.busy.None?
  }

  function WithPC(s: State, w: Watcher, pc: PC): State
    requires w < |s.pcs|
  {
    s.(pcs := s.pcs[w := pc])
  }

  function WithPhase(ex: Exec, k: nat, phase: Phase): Exec
    requires k < |ex.phases|
  {
    ex.(phases := ex.phases[k := phase])
  }

  /** The execution of clone k begins: execOnSnapshot up to the call of the executor. */
  function BeginRun(c: Config, clones: seq<Clone>, ex: Exec, k: nat): Exec
    requires k < |ex.phases| == |clones| && ex.phases[k].Launched?
  {
    WithPhase(ex, k, Running(ex.phases[k].cancelled)).(
      waiting := ex.waiting - 1,
      inProgress := ex.inProgress + 1,
      valuesInProgress := ex.valuesInProgress + Count(c.task, clones[k]),
      log := ex.log + [Started(k)])
  }

  /** The executor returned; err says whether with an error.  A cancelled run has failed in any case. */
  function ExecuteRun(clones: seq<Clone>, ex: Exec, k: nat, err: bool, order: seq<string>): Exec
    requires k < |ex.phases| == |clones| && ex.phases[k].Running?
    requires forall n <- order :: n in clones[k]
  {
    if ex.cancelled || ex.phases[k].cancelled || err
    then WithPhase(ex, k, Returning(false, [], 0)).(
           failed := ex.failed + 1, log := ex.log + [Executed(k, false)])
    else WithPhase(ex, k, Acking(AckList(clones[k], order), 0)).(
           succeeded := ex.succeeded + 1, log := ex.log + [Executed(k, true)])
  }

  /** AckAll invokes one callback and stops at the first error. */
  function SendOne(ex: Exec, k: nat, err: bool): Exec
    requires k < |ex.phases| && ex.phases[k].Acking? && ex.phases[k].n < |ex.phases[k].todo|
  {
    var Acking(todo, n) := ex.phases[k];
    WithPhase(ex, k, if err then Returning(true, todo, n + 1) else Acking(todo, n + 1)).(
      log := ex.log + [AckCalled(k, n, todo[n].0, todo[n].1, !err)])
  }

  /** The deferred updates, and the executor loop going on under Auto. */
  function ReturnRun(c: Config, clones: seq<Clone>, ex: Exec, k: nat): Exec
    requires k < |ex.phases| == |clones| && ex.phases[k].Returning?
  {
    var Returning(ok, todo, n) := ex.phases[k];
    WithPhase(ex, k, Finished(ok, todo, n)).(
      inProgress := ex.inProgress - 1,
      valuesInProgress := ex.valuesInProgress - Count(c.task, clones[k]),
      valuesProcessed := ex.valuesProcessed + Count(c.task, clones[k]),
      busy := if c.launch.Auto? then None else ex.busy,
      stopped := ex.stopped || (c.launch.Auto? && ex.cancelled))
  }

  ghost function Next(c: Config, s: State, step: Step): State
    requires Shape(c, s) && Enabled(c, s, step)
  {
    match step
    case Receive(w) =>
      WithPC(s, w, Holding(Value(w, s.received[w]))).(received := s.received[w := s.received[w] + 1])
    case Sleep(w) => WithPC(s, w, Sleeping(s.pcs[w].val))
    case Wake(w) => WithPC(s, w, Holding(s.pcs[w].val))
    case Drop(w) => WithPC(s, w, Idle).(dropped := s.dropped + 1)
    case Put(w) =>
      TargetIsInput(c, w);
      var st := PutValue(c, s.store, Target(c, w), s.pcs[w].val);
      if |st.clones| == |s.store.clones| then WithPC(s, w, Idle).(store := st)
      else
        WithPC(s, w, Pushing(|s.store.clones|)).(
          store := st,
          exec := s.exec.(phases := s.exec.phases + [Queued],
                          executionCount := s.exec.executionCount + 1,
                          waiting := s.exec.waiting + 1))
    case HandOver(w) => WithPC(s, w, Idle).(exec := Handed(c, s.exec, s.pcs[w].k))
    case Begin(k) => s.(exec := BeginRun(c, s.store.clones, s.exec, k))
    case Execute(k, err, order) => s.(exec := ExecuteRun(s.store.clones, s.exec, k, err, order))
    case SendAck(k, err) => s.(exec := SendOne(s.exec, k, err))
    case AckDone(k) =>
      s.(exec := WithPhase(s.exec, k, Returning(true, s.exec.phases[k].todo, s.exec.phases[k].n)))
    case Return(k) => s.(exec := ReturnRun(c, s.store.clones, s.exec, k))
    case Cancel => s.(exec := s.exec.(cancelled := true))
    case StopLoop => s.(exec := s.exec.(stopped := true))
  }

  /** A run: states joined by enabled steps, from the initial state on. */
  ghost predicate Run(c: Config, states: seq<State>, steps: seq<Step>) {
    && |states| == |steps| + 1
    && states[0] == Init(c)
    && forall i :: 0 <= i < |steps| ==>
         Shape(c, states[i]) && Enabled(c, states[i], steps[i]) && states[i + 1] == Next(c, states[i], steps[i])
  }
}
