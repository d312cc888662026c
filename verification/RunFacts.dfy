/**
 Facts about whole runs of the input loop beyond its invariant: when values are dropped,
 what becomes of received values, when callbacks stop, and that executions go on.
 */
module RunFacts {
  import opened Common
  import opened SnapshotSpec
  import opened LoopSpec
  import opened LoopTheorems
  import ExecInv
  import LoopInv

  // ---------------------------------------------------------------- waiting for room

  /** A watcher with a value stores it when its sequence is below the maximum, and sleeps when it is not. */
  lemma RoomDecides(c: Config, s: State, w: Watcher)
    requires ValidConfig(c) && Reachable(c, s) && w < |s.pcs| && w < |c.task| && s.pcs[w].Holding?
    ensures Shape(c, s) && Target(c, w) in Names(c)
    ensures var n := Target(c, w);
      && (Enabled(c, s, Put(w)) <==> |SeqOf(s.store.live, n)| < SpecOf(c, n).max)
      && (Enabled(c, s, Sleep(w)) <==> |SeqOf(s.store.live, n)| >= SpecOf(c, n).max)
  {
    hide Names, SpecOf, ValidConfig, Reachable;
    ReachableShape(c, s);
    TargetIsInput(c, w);
  }

  // ---------------------------------------------------------------- nothing dropped without cancellation

  /** A value received is in the stream of its input, or its watcher still holds it. */
  ghost predicate Kept(c: Config, s: State, w: Watcher, q: nat)
    requires w < |c.task| && w < |s.pcs|
  {
    || (Target(c, w) in s.store.sets && Value(w, q) in s.store.sets[Target(c, w)])
    || (LoopInv.Holds(s.pcs[w]) && s.pcs[w].val == Value(w, q))
  }

  ghost predicate NothingLost(c: Config, s: State) {
    && |s.pcs| == |s.received| == |c.task|
    && (s.dropped > 0 ==> s.exec.cancelled)
    && (!s.exec.cancelled ==> forall w: nat, q: nat :: w < |s.pcs| && q < s.received[w] ==> Kept(c, s, w, q))
  }

  lemma StepLosesNothing(c: Config, s: State, step: Step)
    requires Shape(c, s) && Enabled(c, s, step) && NothingLost(c, s)
    requires !step.Put? && !step.Receive?
    ensures NothingLost(c, Next(c, s, step))
  {
    hide Names, SpecOf, ValidConfig, HasRoom, Handed, BeginRun, ExecuteRun, SendOne, ReturnRun, WithPhase;
    ExecKeepsSignal(c, s, step);
    var s' := Next(c, s, step);
    if !s'.exec.cancelled {
      forall w: nat, q: nat | w < |s'.pcs| && q < s'.received[w]
        ensures Kept(c, s', w, q)
      {
        assert Kept(c, s, w, q);
      }
    }
  }

  /** Cancellation is never taken back, and only Cancel brings it about. */
  lemma ExecKeepsSignal(c: Config, s: State, step: Step)
    requires Shape(c, s) && Enabled(c, s, step)
    ensures Next(c, s, step).exec.cancelled <==> s.exec.cancelled || step.Cancel?
  {
    hide Names, SpecOf, ValidConfig, HasRoom, PutValue, Count, AckList, CancelRun;
  }

  lemma ReceiveLosesNothing(c: Config, s: State, w: Watcher)
    requires Shape(c, s) && Enabled(c, s, Receive(w)) && NothingLost(c, s)
    ensures NothingLost(c, Next(c, s, Receive(w)))
  {
    hide Names, SpecOf, ValidConfig;
    var s' := Next(c, s, Receive(w));
    if !s'.exec.cancelled {
      forall x: nat, q: nat | x < |s'.pcs| && q < s'.received[x]
        ensures Kept(c, s', x, q)
      {
        if x != w || q < s.received[w] { assert Kept(c, s, x, q); }
      }
    }
  }

  lemma PutLosesNothing(c: Config, s: State, w: Watcher)
    requires Shape(c, s) && Enabled(c, s, Put(w)) && NothingLost(c, s)
    ensures NothingLost(c, Next(c, s, Put(w)))
  {
    hide Names, SpecOf, ValidConfig, HasRoom, Ready, Prepared, AfterSet;
    var s' := Next(c, s, Put(w));
    TargetIsInput(c, w);
    if !s'.exec.cancelled {
      forall x: nat, q: nat | x < |s'.pcs| && q < s'.received[x]
        ensures Kept(c, s', x, q)
      {
        assert Kept(c, s, x, q);
      }
    }
  }

  lemma {:induction false} RunLosesNothing(c: Config, states: seq<State>, steps: seq<Step>, i: nat)
    requires Run(c, states, steps) && i < |states|
    ensures NothingLost(c, states[i])
    decreases i
  {
    hide Enabled, Next, Shape, NothingLost;
    if i == 0 {
      InitLosesNothing(c);
    } else {
      RunLosesNothing(c, states, steps, i - 1);
      var s, step := states[i - 1], steps[i - 1];
      match step
      case Put(w) => PutLosesNothing(c, s, w);
      case Receive(w) => ReceiveLosesNothing(c, s, w);
      case _ => StepLosesNothing(c, s, step);
    }
  }

  lemma InitLosesNothing(c: Config)
    ensures NothingLost(c, Init(c))
  {
  }

  /** Values are dropped only once the loop was cancelled. */
  lemma DroppedOnlyWhenCancelled(c: Config, s: State)
    requires ValidConfig(c) && Reachable(c, s)
    ensures s.dropped > 0 ==> s.exec.cancelled
  {
    hide Run;
    var states, steps :| Run(c, states, steps) && s in states;
    var i :| 0 <= i < |states| && states[i] == s;
    RunLosesNothing(c, states, steps, i);
  }

  /** Until then every value received, merged inputs included, is in its stream or in its watcher's hand. */
  lemma ReceivedIsKept(c: Config, s: State, w: Watcher, q: nat)
    requires ValidConfig(c) && Reachable(c, s) && !s.exec.cancelled
    requires w < |s.received| && q < s.received[w]
    ensures w < |c.task| && w < |s.pcs| && Target(c, w) in s.store.sets
    ensures Value(w, q) in s.store.sets[Target(c, w)] || (LoopInv.Holds(s.pcs[w]) && s.pcs[w].val == Value(w, q))
  {
    hide Run;
    var states, steps :| Run(c, states, steps) && s in states;
    var i :| 0 <= i < |states| && states[i] == s;
    RunLosesNothing(c, states, steps, i);
    ReachableShape(c, s);
    TargetIsInput(c, w);
    assert Kept(c, s, w, q);
  }

  // ---------------------------------------------------------------- why acknowledging stops

  predicate Ended(x: Phase) {
    x.Returning? || x.Finished?
  }

  predicate Failing(e: Event, k: nat) {
    e.AckCalled? && e.k == k && !e.ok
  }

  ghost predicate FailedAt(log: seq<Event>, k: nat, n: int) {
    exists j :: 0 <= j < |log| && Failing(log[j], k) && log[j].n == n
  }

  /** A failed callback is the last its clone invokes, and only a failed callback leaves others uninvoked. */
  ghost predicate StopsAtFailure(log: seq<Event>, k: nat, x: Phase) {
    && (forall j :: 0 <= j < |log| && Failing(log[j], k) ==> Ended(x) && log[j].n == x.n - 1)
    && (Ended(x) && x.ok && x.n < |x.todo| ==> FailedAt(log, k, x.n - 1))
  }

  ghost predicate OutcomeInv(log: seq<Event>, phases: seq<Phase>) {
    && (forall j :: 0 <= j < |log| ==> log[j].k < |phases|)
    && forall k: nat :: k < |phases| ==> StopsAtFailure(log, k, phases[k])
  }

  /** A phase changes without a callback. */
  lemma QuietKeeps(log: seq<Event>, phases: seq<Phase>, k: nat, y: Phase)
    requires OutcomeInv(log, phases) && k < |phases|
    requires Ended(phases[k]) ==> Ended(y) && (y.ok, y.todo, y.n) == (phases[k].ok, phases[k].todo, phases[k].n)
    requires Ended(y) && !Ended(phases[k]) ==> y.n == |y.todo|
    ensures OutcomeInv(log, phases[k := y])
  {
    var phases' := phases[k := y];
    forall l: nat | l < |phases'|
      ensures StopsAtFailure(log, l, phases'[l])
    {
      assert StopsAtFailure(log, l, phases[l]);
    }
  }

  lemma FailedAtMore(log: seq<Event>, e: Event, k: nat, n: int)
    ensures FailedAt(log + [e], k, n) <==> FailedAt(log, k, n) || (Failing(e, k) && e.n == n)
  {
    if FailedAt(log, k, n) {
      var j :| 0 <= j < |log| && Failing(log[j], k) && log[j].n == n;
      assert Failing((log + [e])[j], k) && (log + [e])[j].n == n;
    }
    assert (log + [e])[|log|] == e;
  }

  /** An event that is not a failed callback. */
  lemma EventKeeps(log: seq<Event>, phases: seq<Phase>, e: Event)
    requires OutcomeInv(log, phases) && e.k < |phases| && !Failing(e, e.k)
    ensures OutcomeInv(log + [e], phases)
  {
    forall l: nat | l < |phases|
      ensures StopsAtFailure(log + [e], l, phases[l])
    {
      assert StopsAtFailure(log, l, phases[l]);
      FailedAtMore(log, e, l, if Ended(phases[l]) then phases[l].n - 1 else 0);
    }
  }

  lemma FailureKeeps(log: seq<Event>, phases: seq<Phase>, k: nat, todo: seq<(Watcher, Value)>, n: nat, e: Event)
    requires OutcomeInv(log, phases) && k < |phases| && phases[k] == Acking(todo, n)
    requires Failing(e, k) && e.n == n
    ensures OutcomeInv(log + [e], phases[k := Returning(true, todo, n + 1)])
  {
    var phases' := phases[k := Returning(true, todo, n + 1)];
    forall l: nat | l < |phases'|
      ensures StopsAtFailure(log + [e], l, phases'[l])
    {
      assert StopsAtFailure(log, l, phases[l]);
      FailedAtMore(log, e, l, if Ended(phases'[l]) then phases'[l].n - 1 else 0);
    }
  }

  lemma NewCloneKeeps(log: seq<Event>, phases: seq<Phase>)
    requires OutcomeInv(log, phases)
    ensures OutcomeInv(log, phases + [Queued])
  {
    var phases' := phases + [Queued];
    forall l: nat | l < |phases'|
      ensures StopsAtFailure(log, l, phases'[l])
    {
      if l < |phases| { assert StopsAtFailure(log, l, phases[l]); }
    }
  }

  lemma OutcomeStep(c: Config, s: State, step: Step)
    requires LoopInv.PushInv(s) && Shape(c, s) && Enabled(c, s, step) && OutcomeInv(s.exec.log, s.exec.phases)
    ensures var ex := Next(c, s, step).exec;
      OutcomeInv(ex.log, ex.phases)
  {
    hide Names, SpecOf, ValidConfig, HasRoom, PutValue, Count, AckList, OutcomeInv, Handed;
    var log, phases := s.exec.log, s.exec.phases;
    match step
    case Put(_) => NewCloneKeeps(log, phases);
    case HandOver(w) =>
      HandedOutcome(c, s.exec, s.pcs[w].k);
    case Begin(k) =>
      QuietKeeps(log, phases, k, Running(phases[k].cancelled));
      EventKeeps(log, phases[k := Running(phases[k].cancelled)], Started(k));
    case Execute(k, err, order) =>
      var failed := s.exec.cancelled || phases[k].cancelled || err;
      var y := if failed then Returning(false, [], 0) else Acking(AckList(s.store.clones[k], order), 0);
      QuietKeeps(log, phases, k, y);
      EventKeeps(log, phases[k := y], Executed(k, !failed));
    case SendAck(k, err) =>
      var Acking(todo, n) := phases[k];
      var e := AckCalled(k, n, todo[n].0, todo[n].1, !err);
      if err {
        FailureKeeps(log, phases, k, todo, n, e);
      } else {
        QuietKeeps(log, phases, k, Acking(todo, n + 1));
        EventKeeps(log, phases[k := Acking(todo, n + 1)], e);
      }
    case AckDone(k) =>
      QuietKeeps(log, phases, k, Returning(true, phases[k].todo, phases[k].n));
    case Return(k) =>
      QuietKeeps(log, phases, k, Finished(phases[k].ok, phases[k].todo, phases[k].n));
    case _ =>
  }

  lemma HandedOutcome(c: Config, ex: Exec, k: nat)
    requires k < |ex.phases| && ex.phases[k].Queued? && OutcomeInv(ex.log, ex.phases)
    ensures OutcomeInv(Handed(c, ex, k).log, Handed(c, ex, k).phases)
  {
    hide OutcomeInv;
    var phases := ex.phases[k := Launched(false)];
    QuietKeeps(ex.log, ex.phases, k, Launched(false));
    if c.launch.Restart? && ex.last.Some? && ex.last.value < |phases| {
      var l := ex.last.value;
      var y := CancelRun(phases, l)[l];
      QuietKeeps(ex.log, phases, l, y);
      assert CancelRun(phases, l) == phases[l := y];
    }
  }

  lemma {:induction false} RunOutcomes(c: Config, states: seq<State>, steps: seq<Step>, i: nat)
    requires ValidConfig(c) && Run(c, states, steps) && i < |states|
    ensures OutcomeInv(states[i].exec.log, states[i].exec.phases)
    decreases i
  {
    hide Enabled, Next, Shape, OutcomeInv, ValidConfig, LoopInv.PushInv;
    if i == 0 {
      NoOutcomesYet(c);
    } else {
      RunOutcomes(c, states, steps, i - 1);
      LoopInv.RunInv(c, states, steps, i - 1);
      OutcomeStep(c, states[i - 1], steps[i - 1]);
    }
  }

  lemma NoOutcomesYet(c: Config)
    ensures OutcomeInv(Init(c).exec.log, Init(c).exec.phases)
  {
  }

  lemma ReachableOutcomes(c: Config, s: State)
    requires ValidConfig(c) && Reachable(c, s)
    ensures OutcomeInv(s.exec.log, s.exec.phases)
  {
    hide Run, OutcomeInv;
    var states, steps :| Run(c, states, steps) && s in states;
    var i :| 0 <= i < |states| && states[i] == s;
    RunOutcomes(c, states, steps, i);
  }

  /**
   When an execution that succeeded is past acknowledging, every callback of its clone was
   invoked, or the one invoked last failed; and no callback but the last one failed.
   */
  lemma AckStopsOnlyAtFailure(c: Config, s: State, k: nat)
    requires ValidConfig(c) && Reachable(c, s) && k < |s.exec.phases|
    ensures var x := s.exec.phases[k];
      (x.Returning? || x.Finished?) && x.ok && x.n < |x.todo| ==>
        exists j :: 0 <= j < |s.exec.log| && Failing(s.exec.log[j], k) && s.exec.log[j].n == x.n - 1
    ensures forall j :: 0 <= j < |s.exec.log| && s.exec.log[j].AckCalled? && s.exec.log[j].k == k && !s.exec.log[j].ok ==>
      var x := s.exec.phases[k];
      (x.Returning? || x.Finished?) && s.exec.log[j].n == x.n - 1
  {
    hide Reachable, ValidConfig;
    ReachableOutcomes(c, s);
    assert StopsAtFailure(s.exec.log, k, s.exec.phases[k]);
  }

  // ---------------------------------------------------------------- executions go on

  /** Under Auto the executor loop is busy only with a clone that is launched and not yet returned. */
  ghost predicate BusyInv(c: Config, ex: Exec) {
    c.launch == Auto && ex.busy.Some? ==>
      ex.busy.value < |ex.phases| && (ex.phases[ex.busy.value].Launched? || ExecInv.Active(ex.phases[ex.busy.value]))
  }

  lemma BusyStep(c: Config, s: State, step: Step)
    requires ExecInv.LaunchInv(c, s.exec) && Shape(c, s) && Enabled(c, s, step) && BusyInv(c, s.exec)
    ensures BusyInv(c, Next(c, s, step).exec)
  {
    hide Names, SpecOf, ValidConfig, HasRoom, PutValue, Count, AckList;
  }

  lemma {:induction false} RunBusy(c: Config, states: seq<State>, steps: seq<Step>, i: nat)
    requires ValidConfig(c) && Run(c, states, steps) && i < |states|
    ensures BusyInv(c, states[i].exec)
    decreases i
  {
    hide Enabled, Next, Shape, ValidConfig, ExecInv.LaunchInv, BusyInv;
    if i == 0 {
      assert BusyInv(c, Init(c).exec) by { NotBusyYet(c); }
    } else {
      RunBusy(c, states, steps, i - 1);
      LoopInv.RunInv(c, states, steps, i - 1);
      BusyStep(c, states[i - 1], steps[i - 1]);
    }
  }

  lemma NotBusyYet(c: Config)
    ensures BusyInv(c, Init(c).exec)
  {
  }

  lemma {:induction false} RunStops(c: Config, states: seq<State>, steps: seq<Step>, i: nat)
    requires Run(c, states, steps) && i < |states|
    ensures states[i].exec.stopped ==> states[i].exec.cancelled
    decreases i
  {
    hide Enabled, Next, Shape;
    if i > 0 {
      RunStops(c, states, steps, i - 1);
      StopsWhenCancelled(c, states[i - 1], steps[i - 1]);
    }
  }

  lemma StopsWhenCancelled(c: Config, s: State, step: Step)
    requires Shape(c, s) && Enabled(c, s, step) && (s.exec.stopped ==> s.exec.cancelled)
    ensures Next(c, s, step).exec.stopped ==> Next(c, s, step).exec.cancelled
  {
    hide Names, SpecOf, ValidConfig, HasRoom, PutValue, Count, AckList, CancelRun;
  }

  /** The executor loop stops only once it was cancelled. */
  lemma StoppedOnlyWhenCancelled(c: Config, s: State)
    requires Reachable(c, s)
    ensures s.exec.stopped ==> s.exec.cancelled
  {
    hide Run;
    var states, steps :| Run(c, states, steps) && s in states;
    var i :| 0 <= i < |states| && states[i] == s;
    RunStops(c, states, steps, i);
  }

  /** The step that takes a clone that is launched or running further. */
  lemma StageGoesOn(c: Config, s: State, k: nat) returns (step: Step)
    requires Shape(c, s) && k < |s.exec.phases| && !s.exec.phases[k].Queued? && !s.exec.phases[k].Finished?
    requires ExecInv.PhaseInv(s.store.clones[k], s.exec.phases[k])
    ensures Enabled(c, s, step) && (step.Begin? || step.Execute? || step.SendAck? || step.AckDone? || step.Return?)
    ensures step.k == k
  {
    hide Names, SpecOf, ValidConfig, HasRoom;
    match s.exec.phases[k]
    case Launched(_) => step := Begin(k);
    case Running(_) =>
      var order := SomeOrder(s.store.clones[k]);
      step := Execute(k, false, order);
    case Acking(todo, n) => step := if n < |todo| then SendAck(k, false) else AckDone(k);
    case Returning(_, _, _) => step := Return(k);
  }

  lemma SomeOrder(clone: Clone) returns (order: seq<string>)
    ensures IsOrder(clone, order)
  {
    order := [];
    var rest := clone.Keys;
    while rest != {}
      invariant forall i, j :: 0 <= i < j < |order| ==> order[i] != order[j]
      invariant forall n :: n in clone <==> n in order || n in rest
      invariant forall n :: n in order ==> n !in rest
      decreases |rest|
    {
      var n :| n in rest;
      order, rest := order + [n], rest - {n};
    }
  }

  /**
   Until the executor loop stops, no clone is left behind: while one is not finished, it or
   the clone the executor is busy with can take its next step.
   */
  lemma ClonesGoOn(c: Config, s: State, k: nat) returns (step: Step)
    requires ValidConfig(c) && Reachable(c, s) && k < |s.exec.phases| && !s.exec.phases[k].Finished? && !s.exec.stopped
    ensures Shape(c, s) && Enabled(c, s, step)
    ensures step.HandOver? || step.Begin? || step.Execute? || step.SendAck? || step.AckDone? || step.Return?
    ensures step.HandOver? ==> s.exec.phases[k].Queued?
    ensures !step.HandOver? ==> step.k == k || (s.exec.phases[k].Queued? && c.launch == Auto && s.exec.busy == Some(step.k))
  {
    hide Names, SpecOf, ValidConfig, HasRoom, Run, Next, Enabled, ExecInv.PhaseInv, ExecInv.CountersInv, ExecInv.LogInv;
    ReachableShape(c, s);
    ExecFacts(c, s);
    if !s.exec.phases[k].Queued? {
      step := StageGoesOn(c, s, k);
    } else if s.exec.busy.Some? {
      BusyFact(c, s);
      step := StageGoesOn(c, s, s.exec.busy.value);
    } else {
      step := PushGoesOn(c, s, k);
    }
  }

  lemma BusyFact(c: Config, s: State)
    requires ValidConfig(c) && Reachable(c, s)
    ensures BusyInv(c, s.exec)
  {
    hide Run, BusyInv;
    var states, steps :| Run(c, states, steps) && s in states;
    var i :| 0 <= i < |states| && states[i] == s;
    RunBusy(c, states, steps, i);
  }

  /** A watcher waits to hand over every queued clone. */
  lemma PushGoesOn(c: Config, s: State, k: nat) returns (step: Step)
    requires ValidConfig(c) && Reachable(c, s) && k < |s.exec.phases| && s.exec.phases[k].Queued?
    requires !s.exec.stopped && s.exec.busy.None? && Shape(c, s)
    ensures Enabled(c, s, step) && step.HandOver?
  {
    hide Names, SpecOf, ValidConfig, HasRoom, Reachable;
    ReachableInv(c, s);
    var w :| 0 <= w < |s.pcs| && s.pcs[w] == Pushing(k);
    step := HandOver(w);
  }

  // ---------------------------------------------------------------- success is recorded

  lemma LogOnlyGrows(c: Config, s: State, step: Step)
    requires Shape(c, s) && Enabled(c, s, step)
    ensures s.exec.log <= Next(c, s, step).exec.log
  {
    hide Names, SpecOf, ValidConfig, HasRoom, PutValue, Count, AckList, CancelRun;
  }

  /**
   An execution that returns without error and is not cancelled at the check is recorded
   as a success for good, and its acknowledgements are those of its clone.
   */
  lemma {:induction false} GoodRunSucceeds(c: Config, states: seq<State>, steps: seq<Step>, i: nat, m: nat)
    requires Run(c, states, steps) && i < m < |states| && steps[i].Execute? && !steps[i].err
    requires steps[i].k < |states[i].exec.phases| && states[i].exec.phases[steps[i].k] == Running(false)
    requires !states[i].exec.cancelled
    ensures Executed(steps[i].k, true) in states[m].exec.log
    ensures m == i + 1 ==> var k := steps[i].k;
      && k < |states[i].store.clones| && IsOrder(states[i].store.clones[k], steps[i].order)
      && k < |states[m].exec.phases|
      && states[m].exec.phases[k] == Acking(AckList(states[i].store.clones[k], steps[i].order), 0)
    decreases m
  {
    hide Next, Enabled, Shape, AckList, IsOrder;
    if m == i + 1 {
      GoodStep(c, states[i], steps[i]);
    } else {
      GoodRunSucceeds(c, states, steps, i, m - 1);
      LogOnlyGrows(c, states[m - 1], steps[m - 1]);
    }
  }

  lemma GoodStep(c: Config, s: State, step: Step)
    requires Shape(c, s) && Enabled(c, s, step) && step.Execute? && !step.err
    requires step.k < |s.exec.phases| && s.exec.phases[step.k] == Running(false) && !s.exec.cancelled
    ensures var k, s' := step.k, Next(c, s, step);
      && Executed(k, true) in s'.exec.log
      && k < |s.store.clones| && IsOrder(s.store.clones[k], step.order)
      && k < |s'.exec.phases| && s'.exec.phases[k] == Acking(AckList(s.store.clones[k], step.order), 0)
  {
    hide Names, SpecOf, ValidConfig, AckList;
    var log := Next(c, s, step).exec.log;
    assert log[|log| - 1] == Executed(step.k, true);
  }
}
