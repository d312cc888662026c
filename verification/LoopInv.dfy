/** The invariant of the whole input loop, and its preservation by every step of every run. */
module LoopInv {
  import opened Common
  import opened SnapshotSpec
  import opened LoopSpec
  import StoreInv
  import ExecInv

  // ---------------------------------------------------------------- whose values

  /** The value a watcher holds. */
  predicate Holds(pc: PC) {
    pc.Holding? || pc.Sleeping?
  }

  /**
   The stream of an input holds deliveries of the watchers that feed it, each once, and
   those of one watcher in the order in which it received them.
   */
  ghost predicate IdInv(c: Config, received: seq<nat>, n: string, stream: seq<Value>)
    requires |received| == |c.task|
  {
    && (forall p :: 0 <= p < |stream| ==>
         var v := stream[p];
         v.source < |c.task| && Target(c, v.source) == n && v.seqno < received[v.source])
    && (forall p, q :: 0 <= p < q < |stream| && stream[p].source == stream[q].source ==>
         stream[p].seqno < stream[q].seqno)
  }

  /** A value being held is its watcher's latest, and not yet in any stream. */
  ghost predicate HolderInv(c: Config, s: State, w: Watcher)
    requires Shape(c, s) && w < |s.pcs|
  {
    Holds(s.pcs[w]) ==>
      && s.received[w] > 0 && s.pcs[w].val == Value(w, s.received[w] - 1)
      && (TargetIsInput(c, w); forall v <- s.store.sets[Target(c, w)] :: v.source == w ==> v.seqno < s.received[w] - 1)
  }

  /** Watchers that push and clones that wait for it correspond one to one. */
  ghost predicate PushInv(s: State) {
    && (forall w :: 0 <= w < |s.pcs| && s.pcs[w].Pushing? ==>
         s.pcs[w].k < |s.exec.phases| && s.exec.phases[s.pcs[w].k].Queued?)
    && (forall w, x :: 0 <= w < x < |s.pcs| && s.pcs[w].Pushing? ==> s.pcs[w] != s.pcs[x])
    && (forall k :: 0 <= k < |s.exec.phases| && s.exec.phases[k].Queued? ==> Pushing(k) in s.pcs)
  }

  // ---------------------------------------------------------------- where received values are

  function Sum(xs: seq<nat>): nat {
    if xs == [] then 0 else xs[0] + Sum(xs[1..])
  }

  lemma {:induction false} SumUpdate(xs: seq<nat>, i: nat, x: nat)
    requires i < |xs|
    ensures Sum(xs[i := x]) == Sum(xs) - xs[i] + x
    decreases |xs|
  {
    if i > 0 {
      assert xs[i := x][1..] == xs[1..][i - 1 := x];
      SumUpdate(xs[1..], i - 1, x);
    } else {
      assert xs[i := x][1..] == xs[1..];
    }
  }

  lemma {:induction false} SumZero(xs: seq<nat>)
    requires forall i :: 0 <= i < |xs| ==> xs[i] == 0
    ensures Sum(xs) == 0
  {
    if xs != [] {
      SumZero(xs[1..]);
    }
  }

  function HeldBits(pcs: seq<PC>): (r: seq<nat>)
    ensures |r| == |pcs| && forall w :: 0 <= w < |pcs| ==> r[w] == if Holds(pcs[w]) then 1 else 0
  {
    seq(|pcs|, w requires 0 <= w < |pcs| => if Holds(pcs[w]) then 1 else 0)
  }

  /** How many watchers hold a value. */
  function Held(pcs: seq<PC>): nat {
    Sum(HeldBits(pcs))
  }

  lemma HeldUpdate(pcs: seq<PC>, w: nat, pc: PC)
    requires w < |pcs|
    ensures Held(pcs[w := pc]) == Held(pcs) - (if Holds(pcs[w]) then 1 else 0) + (if Holds(pc) then 1 else 0)
  {
    SumUpdate(HeldBits(pcs), w, if Holds(pc) then 1 else 0);
    assert HeldBits(pcs[w := pc]) == HeldBits(pcs)[w := if Holds(pc) then 1 else 0];
  }

  ghost predicate FlowInv(c: Config, s: State) {
    Sum(s.received) == Count(c.task, s.store.sets) + Held(s.pcs) + s.dropped
  }

  lemma {:induction false} CountAbsent<T>(ts: seq<TaskInput>, m: map<string, seq<T>>, name: string, xs: seq<T>)
    requires forall t <- ts :: t.name != name
    ensures Count(ts, m[name := xs]) == Count(ts, m)
  {
    if ts != [] {
      CountAbsent(ts[1..], m, name, xs);
    }
  }

  lemma {:induction false} CountUpdate<T>(ts: seq<TaskInput>, m: map<string, seq<T>>, i: nat, xs: seq<T>)
    requires i < |ts| && ts[i].mergeInto == "" && ts[i].name in m
    requires forall j, k :: 0 <= j < k < |ts| ==> ts[j].name != ts[k].name
    ensures Count(ts, m[ts[i].name := xs]) == Count(ts, m) - |m[ts[i].name]| + |xs|
  {
    if i == 0 {
      CountAbsent(ts[1..], m, ts[0].name, xs);
    } else {
      CountUpdate(ts[1..], m, i - 1, xs);
    }
  }

  lemma OneMoreSet(c: Config, sets: map<string, seq<Value>>, name: string, v: Value)
    requires ValidConfig(c) && name in Names(c) && name in sets
    ensures Count(c.task, sets[name := sets[name] + [v]]) == Count(c.task, sets) + 1
  {
    var t :| t in c.task && t.mergeInto == "" && t.name == name;
    var i :| 0 <= i < |c.task| && c.task[i] == t;
    CountUpdate(c.task, sets, i, sets[name] + [v]);
  }

  // ---------------------------------------------------------------- the invariant

  ghost predicate Inv(c: Config, s: State) {
    && Shape(c, s)
    && StoreInv.Inv(c, s.store)
    && ExecInv.Inv(c, s.store.clones, s.exec)
    && (forall n <- Names(c) :: IdInv(c, s.received, n, s.store.sets[n]))
    && (forall w :: 0 <= w < |s.pcs| ==> HolderInv(c, s, w))
    && PushInv(s)
    && FlowInv(c, s)
  }

  lemma {:induction false} CountEmpty<T>(ts: seq<TaskInput>, m: map<string, seq<T>>)
    requires forall n <- m :: m[n] == []
    ensures Count(ts, m) == 0
  {
    if ts != [] {
      CountEmpty(ts[1..], m);
    }
  }

  lemma InitHolds(c: Config)
    requires ValidConfig(c)
    ensures Inv(c, Init(c))
  {
    hide StoreInv.Inv, ExecInv.Inv, Sum;
    StoreInv.InitHolds(c);
    ExecInv.InitHolds(c);
    NothingFlowed(c, Init(c));
  }

  lemma NothingFlowed(c: Config, s: State)
    requires s.dropped == 0 && forall n <- s.store.sets :: s.store.sets[n] == []
    requires forall i :: 0 <= i < |s.received| ==> s.received[i] == 0
    requires forall w :: 0 <= w < |s.pcs| ==> s.pcs[w].Idle?
    ensures FlowInv(c, s)
  {
    SumZero(s.received);
    SumZero(HeldBits(s.pcs));
    CountEmpty(c.task, s.store.sets);
  }

  // ---------------------------------------------------------------- watchers on their own

  lemma ReceiveKeeps(c: Config, s: State, w: Watcher)
    requires Inv(c, s) && Enabled(c, s, Receive(w))
    ensures Inv(c, Next(c, s, Receive(w)))
  {
    hide StoreInv.Inv, ExecInv.Inv, Sum, Held, Names;
    var s' := Next(c, s, Receive(w));
    StillPushing(s, w, s'.pcs[w]);
    SumUpdate(s.received, w, s.received[w] + 1);
    HeldUpdate(s.pcs, w, s'.pcs[w]);
    forall n | n in Names(c)
      ensures IdInv(c, s'.received, n, s.store.sets[n])
    {
      assert IdInv(c, s.received, n, s.store.sets[n]);
    }
    TargetIsInput(c, w);
    assert IdInv(c, s.received, Target(c, w), s.store.sets[Target(c, w)]);
    forall x | 0 <= x < |s'.pcs|
      ensures HolderInv(c, s', x)
    {
      assert HolderInv(c, s, x);
    }
  }

  /** Sleeping, waking and dropping change one program counter. */
  lemma WaitKeeps(c: Config, s: State, w: Watcher, pc: PC, dropped: nat)
    requires Inv(c, s) && w < |s.pcs| && Holds(s.pcs[w])
    requires (Holds(pc) && pc.val == s.pcs[w].val && dropped == s.dropped) || (pc.Idle? && dropped == s.dropped + 1)
    ensures Inv(c, WithPC(s, w, pc).(dropped := dropped))
  {
    hide StoreInv.Inv, ExecInv.Inv, Sum, Held, IdInv;
    var s' := WithPC(s, w, pc).(dropped := dropped);
    HeldUpdate(s.pcs, w, pc);
    forall x | 0 <= x < |s'.pcs|
      ensures HolderInv(c, s', x)
    {
      assert HolderInv(c, s, x);
    }
    StillPushing(s, w, pc);
  }

  /** A watcher that does not push may do something else that is not pushing. */
  lemma StillPushing(s: State, w: Watcher, pc: PC)
    requires PushInv(s) && w < |s.pcs| && !s.pcs[w].Pushing? && !pc.Pushing?
    ensures PushInv(WithPC(s, w, pc))
  {
    forall k | 0 <= k < |s.exec.phases| && s.exec.phases[k].Queued?
      ensures Pushing(k) in s.pcs[w := pc]
    {
      var x :| 0 <= x < |s.pcs| && s.pcs[x] == Pushing(k);
      assert s.pcs[w := pc][x] == Pushing(k);
    }
  }

  // ---------------------------------------------------------------- storing a value

  lemma PutIds(c: Config, s: State, w: Watcher, n: string)
    requires Inv(c, s) && w < |s.pcs| && s.pcs[w].Holding? && n in Names(c) && Target(c, w) in Names(c)
    ensures var name := Target(c, w);
      IdInv(c, s.received, n, s.store.sets[name := s.store.sets[name] + [s.pcs[w].val]][n])
  {
    hide StoreInv.Inv, ExecInv.Inv, FlowInv, PushInv;
    assert IdInv(c, s.received, n, s.store.sets[n]);
    assert HolderInv(c, s, w);
  }

  lemma PutHolders(c: Config, s: State, w: Watcher, x: Watcher)
    requires Inv(c, s) && Enabled(c, s, Put(w)) && x < |s.pcs| && Shape(c, Next(c, s, Put(w)))
    ensures HolderInv(c, Next(c, s, Put(w)), x)
  {
    hide StoreInv.Inv, ExecInv.Inv, Ready, Prepared, SetIn, FlowInv, PushInv, IdInv, Names;
    assert HolderInv(c, s, x);
    assert HolderInv(c, s, w);
  }

  lemma PutPushes(c: Config, s: State, w: Watcher)
    requires Inv(c, s) && Enabled(c, s, Put(w))
    ensures PushInv(Next(c, s, Put(w)))
  {
    hide StoreInv.Inv, ExecInv.Inv, Ready, Prepared, AfterSet, FlowInv, IdInv, HolderInv, Names, HasRoom, Contents;
    var s' := Next(c, s, Put(w));
    forall k | 0 <= k < |s'.exec.phases| && s'.exec.phases[k].Queued?
      ensures Pushing(k) in s'.pcs
    {
      if k == |s.exec.phases| {
        assert s'.pcs[w] == Pushing(k);
      } else {
        var x :| 0 <= x < |s.pcs| && s.pcs[x] == Pushing(k);
        assert s'.pcs[x] == Pushing(k);
      }
    }
  }

  lemma PutFlow(c: Config, s: State, w: Watcher)
    requires Inv(c, s) && Enabled(c, s, Put(w))
    ensures FlowInv(c, Next(c, s, Put(w)))
  {
    hide StoreInv.Inv, ExecInv.Inv, Ready, Prepared, SetIn, Sum, Count, Held;
    TargetIsInput(c, w);
    var name, s' := Target(c, w), Next(c, s, Put(w));
    OneMoreSet(c, s.store.sets, name, s.pcs[w].val);
    HeldUpdate(s.pcs, w, s'.pcs[w]);
  }

  lemma PutKeeps(c: Config, s: State, w: Watcher)
    requires Inv(c, s) && Enabled(c, s, Put(w))
    ensures Inv(c, Next(c, s, Put(w)))
  {
    hide StoreInv.Inv, ExecInv.Inv, Ready, Prepared, AfterSet, FlowInv, IdInv, HolderInv, PushInv, Names, HasRoom;
    TargetIsInput(c, w);
    var s' := Next(c, s, Put(w));
    StoreInv.PutKeeps(c, s.store, Target(c, w), s.pcs[w].val);
    StoreShape(c, s'.store);
    if |s'.store.clones| != |s.store.clones| {
      ExecInv.NewClone(c, s.store.clones, s.exec, s'.store.clones[|s.store.clones|]);
    }
    forall n | n in Names(c)
      ensures IdInv(c, s'.received, n, s'.store.sets[n])
    {
      PutIds(c, s, w, n);
      assert s'.store.sets == s.store.sets[Target(c, w) := s.store.sets[Target(c, w)] + [s.pcs[w].val]];
    }
    forall x | 0 <= x < |s'.pcs|
      ensures HolderInv(c, s', x)
    {
      PutHolders(c, s, w, x);
    }
    PutPushes(c, s, w);
    PutFlow(c, s, w);
  }

  lemma StoreShape(c: Config, st: Store)
    requires StoreInv.Inv(c, st)
    ensures st.live.Keys <= Names(c) == st.sets.Keys
  {
  }

  // ---------------------------------------------------------------- executions

  /** Steps that touch nothing but the executions, and leave no clone waiting that did not wait. */
  lemma ExecKeeps(c: Config, s: State, ex: Exec)
    requires Inv(c, s) && ExecInv.Inv(c, s.store.clones, ex)
    requires forall k :: 0 <= k < |ex.phases| ==> (ex.phases[k].Queued? <==> s.exec.phases[k].Queued?)
    ensures Inv(c, s.(exec := ex))
  {
    hide StoreInv.Inv, Sum, Held, IdInv, Names;
    hide ExecInv.CountersInv, ExecInv.PhaseInv, ExecInv.LogInv, ExecInv.LaunchInv;
    var s' := s.(exec := ex);
    forall x | 0 <= x < |s'.pcs|
      ensures HolderInv(c, s', x)
    {
      assert HolderInv(c, s, x);
    }
  }

  lemma HandOverKeeps(c: Config, s: State, w: Watcher)
    requires Inv(c, s) && Enabled(c, s, HandOver(w))
    ensures Inv(c, Next(c, s, HandOver(w)))
  {
    hide StoreInv.Inv, ExecInv.Inv, Sum, Held, IdInv;
    var s' := Next(c, s, HandOver(w));
    ExecInv.HandedKeeps(c, s.store.clones, s.exec, s.pcs[w].k);
    HeldUpdate(s.pcs, w, Idle);
    forall x | 0 <= x < |s'.pcs|
      ensures HolderInv(c, s', x)
    {
      assert HolderInv(c, s, x);
    }
    HandOverPushes(c, s, w);
  }

  lemma HandOverPushes(c: Config, s: State, w: Watcher)
    requires Inv(c, s) && Enabled(c, s, HandOver(w))
    ensures PushInv(Next(c, s, HandOver(w)))
  {
    hide StoreInv.Inv, ExecInv.Inv, FlowInv, IdInv;
    var s', l := Next(c, s, HandOver(w)), s.pcs[w].k;
    assert forall k :: 0 <= k < |s.exec.phases| ==>
      (s'.exec.phases[k].Queued? <==> s.exec.phases[k].Queued? && k != l);
    forall k | 0 <= k < |s'.exec.phases| && s'.exec.phases[k].Queued?
      ensures Pushing(k) in s'.pcs
    {
      var x :| 0 <= x < |s.pcs| && s.pcs[x] == Pushing(k);
      assert s'.pcs[x] == Pushing(k);
    }
  }

  // ---------------------------------------------------------------- every step, every run

  lemma StepKeeps(c: Config, s: State, step: Step)
    requires Inv(c, s) && Enabled(c, s, step)
    ensures Inv(c, Next(c, s, step))
  {
    hide StoreInv.Inv, ExecInv.Inv, FlowInv, IdInv, PushInv, HolderInv, HasRoom, PutValue, AckList;
    var clones, ex := s.store.clones, s.exec;
    match step {
      case Receive(w) => ReceiveKeeps(c, s, w);
      case Sleep(w) => WaitKeeps(c, s, w, Sleeping(s.pcs[w].val), s.dropped);
      case Wake(w) => WaitKeeps(c, s, w, Holding(s.pcs[w].val), s.dropped);
      case Drop(w) => WaitKeeps(c, s, w, Idle, s.dropped + 1);
      case Put(w) => PutKeeps(c, s, w);
      case HandOver(w) => HandOverKeeps(c, s, w);
      case Begin(k) =>
        ExecInv.BeginKeeps(c, clones, ex, k);
        ExecKeeps(c, s, BeginRun(c, clones, ex, k));
      case Execute(k, err, order) =>
        ExecInv.ExecuteKeeps(c, clones, ex, k, err, order);
        ExecKeeps(c, s, ExecuteRun(clones, ex, k, err, order));
      case SendAck(k, err) =>
        ExecInv.SendKeeps(c, clones, ex, k, err);
        ExecKeeps(c, s, SendOne(ex, k, err));
      case AckDone(k) =>
        ExecInv.AckDoneKeeps(c, clones, ex, k);
        ExecKeeps(c, s, WithPhase(ex, k, Returning(true, ex.phases[k].todo, ex.phases[k].n)));
      case Return(k) =>
        ExecInv.ReturnKeeps(c, clones, ex, k);
        ExecKeeps(c, s, ReturnRun(c, clones, ex, k));
      case Cancel =>
        ExecInv.SignalKeeps(c, clones, ex, ex.stopped, true);
        ExecKeeps(c, s, ex.(stopped := ex.stopped, cancelled := true));
      case StopLoop =>
        ExecInv.SignalKeeps(c, clones, ex, true, ex.cancelled);
        ExecKeeps(c, s, ex.(stopped := true, cancelled := ex.cancelled));
    }
  }

  /** The invariant holds in every state of every run, whatever the interleaving. */
  lemma {:induction false} RunInv(c: Config, states: seq<State>, steps: seq<Step>, i: nat)
    requires ValidConfig(c) && Run(c, states, steps) && i < |states|
    ensures Inv(c, states[i])
    decreases i
  {
    hide Inv, Next, Enabled;
    if i == 0 {
      InitHolds(c);
    } else {
      RunInv(c, states, steps, i - 1);
      StepKeeps(c, states[i - 1], steps[i - 1]);
    }
  }
}
