/**
 The mutex-held region of processAnnotatedValue on the shared objects, shown to take
 exactly the step the step system takes.
 */
module InputLoop {
  import opened Common
  import opened SnapshotSpec
  import opened LoopSpec
  import opened Snapshot

  /** How the region ends: asleep for want of room, done, or with a clone to hand over. */
  datatype Outcome = NoRoom | Stored | Launch(clone: InputSnapshot)

  class InputLoop {
    const config: Config
    const snapshot: InputSnapshot
    var executionCount: int
    var snapshotsWaiting: int64
    var snapshotsInProgress: int64
    var snapshotsSucceeded: int64
    var snapshotsFailed: int64

    constructor (config: Config)
      ensures this.config == config && fresh(snapshot) && fresh(snapshot.Repr)
      ensures Valid() && snapshot.View() == Init(config).store.live
      ensures executionCount == 0
      ensures snapshotsWaiting == 0 && snapshotsInProgress == 0 && snapshotsSucceeded == 0 && snapshotsFailed == 0
    {
      this.config := config;
      snapshot := new InputSnapshot();
      executionCount := 0;
      snapshotsWaiting, snapshotsInProgress, snapshotsSucceeded, snapshotsFailed := 0, 0, 0, 0;
    }

    ghost predicate Valid()
      reads this, snapshot, snapshot.Repr
    {
      this !in snapshot.Repr && snapshot.Valid()
    }

    /** The inputs that appear in snapshots. */
    method SnapshotInputs() returns (inputs: seq<TaskInput>)
      requires ValidConfig(config)
      ensures |inputs| == |Names(config)| && AreInputs(config, inputs)
    {
      hide ValidConfig, AreInputs;
      inputs := [];
      for i := 0 to |config.task|
        invariant inputs == Plain(config.task[..i])
      {
        assert config.task[..i + 1] == config.task[..i] + [config.task[i]];
        if config.task[i].mergeInto == "" {
          inputs := inputs + [config.task[i]];
        }
      }
      assert config.task[..|config.task|] == config.task;
      PlainNames(config);
    }

    /** One input made ready for the next snapshot, as the policy says. */
    method Prepare(inp: TaskInput)
      requires snapshot.Valid() && inp.name in Names(config) && inp == SpecOf(config, inp.name)
      modifies snapshot.Repr
      ensures snapshot.Valid() && fresh(snapshot.Repr - old(snapshot.Repr))
      ensures snapshot.View() == PrepareOne(config, old(snapshot.View()), inp.name)
    {
      hide Names, SpecOf, InputSnapshot.Valid, InputSnapshot.View, SlideIn, ForgetIn, DeleteIn;
      match config.policy
      case AllNew =>
        snapshot.Delete(inp.name);
      case SlidingWindow =>
        snapshot.Slide(inp.name, inp.slide);
        snapshot.RemoveAck(inp.name);
      case SwapNew4Old =>
        snapshot.RemoveAck(inp.name);
    }

    method PrepareAll(inputs: seq<TaskInput>)
      requires snapshot.Valid() && snapshot.View().Keys <= Names(config)
      requires AreInputs(config, inputs)
      modifies snapshot.Repr
      ensures snapshot.Valid() && fresh(snapshot.Repr - old(snapshot.Repr))
      ensures snapshot.View() == Prepared(config, old(snapshot.View()))
    {
      hide Names, SpecOf, InputSnapshot.Valid, InputSnapshot.View, Prepared, Halfway, PrepareOne;
      ghost var before, done := snapshot.View(), {};
      NotYet(config, before);
      for i := 0 to |inputs|
        invariant snapshot.Valid() && fresh(snapshot.Repr - old(snapshot.Repr))
        invariant done <= Names(config) && forall n :: n in done <==> n in NamesOf(inputs[..i])
        invariant Halfway(config, before, snapshot.View(), done)
      {
        PrepareStep(config, before, snapshot.View(), done, inputs[i].name);
        Prepare(inputs[i]);
        assert inputs[..i + 1] == inputs[..i] + [inputs[i]];
        done := done + {inputs[i].name};
      }
      assert inputs[..|inputs|] == inputs;
      assert done == Names(config);
      SnapshotSpec.Finished(config, before, snapshot.View());
    }

    /**
     A watcher with a value takes the mutex.  Without room in the sequence of its input it
     goes back to sleep; otherwise this is one Put step of the step system, s being the
     store so far.  Room having been checked, Set drops nothing and calls nobody back.
     */
    method ProcessAnnotatedValue(w: Watcher, v: Value, st: InputStats, cb: Callbacks, ghost s: Store)
      returns (outcome: Outcome)
      requires ValidConfig(config) && w < |config.task| && v.source == w
      requires Valid() && snapshot.View() == s.live && s.live.Keys <= Names(config) == s.sets.Keys
      modifies this`executionCount, this`snapshotsWaiting, snapshot.Repr, st`skipped, cb
      ensures Valid() && fresh(snapshot.Repr - old(snapshot.Repr))
      ensures Target(config, w) in Names(config)
      ensures outcome.NoRoom? <==> !HasRoom(config, s, Target(config, w))
      ensures snapshot.View() == if outcome.NoRoom? then s.live else PutValue(config, s, Target(config, w), v).live
      ensures ClonesAfter(outcome, s, PutValue(config, s, Target(config, w), v))
      ensures outcome.Launch? ==> outcome.clone.Valid() && fresh(outcome.clone.Repr)
      ensures executionCount == old(executionCount) + if outcome.Launch? then 1 else 0
      ensures snapshotsWaiting == if outcome.Launch? then Wrap(old(snapshotsWaiting) + 1) else old(snapshotsWaiting)
      ensures cb.calls == old(cb.calls) && cb.outcomes == old(cb.outcomes) && st.skipped == old(st.skipped)
    {
      hide Names, SpecOf, ValidConfig, InputSnapshot.Valid, InputSnapshot.View, Prepared, Ready, AreInputs, CloneOf,
        AfterSet, SeqOf;
      TargetIsInput(config, w);
      var name := Target(config, w);
      var tis := SpecOf(config, name);
      var seqLen := snapshot.GetSequenceLengthForInput(name);
      if seqLen >= tis.max { return NoRoom; }
      SetAsRoom(name, v, st, cb, s);
      outcome := TakeClone();
    }

    /** Clones the snapshot when every input is ready, and prepares it for the next clone. */
    method TakeClone() returns (outcome: Outcome)
      requires ValidConfig(config) && Valid() && snapshot.View().Keys <= Names(config)
      modifies this`executionCount, this`snapshotsWaiting, snapshot.Repr
      ensures Valid() && fresh(snapshot.Repr - old(snapshot.Repr))
      ensures Ready(old(snapshot.View()), |Names(config)|) <==> outcome.Launch?
      ensures !outcome.Launch? ==> outcome.Stored? && snapshot.View() == old(snapshot.View())
      ensures outcome.Launch? ==> snapshot.View() == Prepared(config, old(snapshot.View()))
      ensures outcome.Launch? ==> outcome.clone.Valid() && fresh(outcome.clone.Repr)
      ensures outcome.Launch? ==> Contents(outcome.clone.View()) == Contents(old(snapshot.View()))
      ensures executionCount == old(executionCount) + if outcome.Launch? then 1 else 0
      ensures snapshotsWaiting == if outcome.Launch? then Wrap(old(snapshotsWaiting) + 1) else old(snapshotsWaiting)
    {
      hide Names, SpecOf, ValidConfig, InputSnapshot.Valid, InputSnapshot.View, Prepared, Ready, AreInputs, CloneOf,
        Contents, Wrap;
      var inputs := SnapshotInputs();
      var ready := snapshot.IsReadyForExecution(|inputs|);
      if !ready { return Stored; }
      var clone := snapshot.Clone();
      executionCount := executionCount + 1;
      CloneContents(snapshot.View());
      PrepareAll(inputs);
      snapshotsWaiting := Wrap(snapshotsWaiting + 1);
      outcome := Launch(clone);
    }

    /**
     One execution from beginning to end, failed telling whether the executor returned an
     error or the context was cancelled.  Only a success is acknowledged, up to the first
     failing callback; what was counted in progress is counted back, and as processed.
     */
    method ExecOnSnapshot(clone: InputSnapshot, failed: bool, cb: Callbacks)
      returns (ghost order: seq<string>, ghost acked: bool, ghost sent: nat)
      requires clone.Valid() && this !in clone.Repr
      modifies this`snapshotsWaiting, this`snapshotsInProgress, this`snapshotsSucceeded, this`snapshotsFailed
      modifies clone.Stats()`inProgress, clone.Stats()`processed, cb
      ensures unchanged(clone) && IsOrder(Contents(old(clone.View())), order)
      ensures forall n <- order :: n in clone.members
      ensures forall st <- clone.Stats() :: st.inProgress == old(st.inProgress)
      ensures forall st <- clone.Stats() :: st.processed == Grown(old(st.processed), 1, Load(clone.Shares(order), st))
      ensures snapshotsWaiting == Wrap(old(snapshotsWaiting) - 1) && snapshotsInProgress == old(snapshotsInProgress)
      ensures snapshotsSucceeded == if failed then old(snapshotsSucceeded) else Wrap(old(snapshotsSucceeded) + 1)
      ensures snapshotsFailed == if failed then Wrap(old(snapshotsFailed) + 1) else old(snapshotsFailed)
      ensures sent <= |AckList(Contents(old(clone.View())), order)| && (failed ==> sent == 0)
      ensures !failed ==> if acked then sent == |AckList(Contents(old(clone.View())), order)| else sent > 0
      ensures cb.calls == old(cb.calls) + AckList(Contents(old(clone.View())), order)[..sent]
      ensures Outcomes(old(cb.outcomes), cb.outcomes, sent, failed || acked)
    {
      hide InputSnapshot.Valid, InputSnapshot.View, InputSnapshot.Shares, InputPair.Valid, InputPair.View, InputPair.Entries,
        Wrap, Grown, Load, AckList, IsOrder, Contents, Owed, Outcomes;
      WrapTwice(snapshotsInProgress);
      ghost var first := Begin(clone);
      order, acked, sent := Conclude(clone, failed, cb, first);
      Settle(clone, order);
      forall st | st in clone.Stats()
        ensures st.inProgress == old(st.inProgress)
      {
        OrdersAgree(clone, first, order, st);
        GrownBack(old(st.inProgress), Load(clone.Shares(order), st));
      }
    }

    /** The statistics updated when an execution begins. */
    method Begin(clone: InputSnapshot) returns (ghost order: seq<string>)
      requires clone.Valid() && this !in clone.Repr
      modifies this`snapshotsWaiting, this`snapshotsInProgress, clone.Stats()`inProgress
      ensures clone.Valid() && clone.View() == old(clone.View()) && IsOrder(Contents(clone.View()), order)
      ensures forall n <- order :: n in clone.members
      ensures forall st <- clone.Stats() :: st.inProgress == Grown(old(st.inProgress), 1, Load(clone.Shares(order), st))
      ensures snapshotsWaiting == Wrap(old(snapshotsWaiting) - 1)
      ensures snapshotsInProgress == Wrap(old(snapshotsInProgress) + 1)
    {
      hide InputSnapshot.Valid, InputSnapshot.View, Wrap, Grown, Load, IsOrder;
      snapshotsWaiting := Wrap(snapshotsWaiting - 1);
      snapshotsInProgress := Wrap(snapshotsInProgress + 1);
      order := clone.AddInProgressStatistics(1);
      OrderMembers(clone, order);
    }

    /** The executor has returned: count the outcome, acknowledge a success. */
    method Conclude(clone: InputSnapshot, failed: bool, cb: Callbacks, ghost first: seq<string>)
      returns (ghost order: seq<string>, ghost acked: bool, ghost sent: nat)
      requires clone.Valid() && this !in clone.Repr && IsOrder(Contents(clone.View()), first)
      modifies this`snapshotsSucceeded, this`snapshotsFailed, cb
      ensures clone.Valid() && clone.View() == old(clone.View()) && IsOrder(Contents(clone.View()), order)
      ensures snapshotsSucceeded == if failed then old(snapshotsSucceeded) else Wrap(old(snapshotsSucceeded) + 1)
      ensures snapshotsFailed == if failed then Wrap(old(snapshotsFailed) + 1) else old(snapshotsFailed)
      ensures sent <= |AckList(Contents(old(clone.View())), order)| && (failed ==> sent == 0)
      ensures !failed ==> if acked then sent == |AckList(Contents(old(clone.View())), order)| else sent > 0
      ensures cb.calls == old(cb.calls) + AckList(Contents(clone.View()), order)[..sent]
      ensures Outcomes(old(cb.outcomes), cb.outcomes, sent, failed || acked)
    {
      hide InputSnapshot.Valid, InputSnapshot.View, Wrap, AckList, Outcomes;
      NoOutcomes(cb.outcomes);
      order, acked, sent := first, false, 0;
      if failed {
        snapshotsFailed := Wrap(snapshotsFailed + 1);
      } else {
        snapshotsSucceeded := Wrap(snapshotsSucceeded + 1);
        var ok;
        ok, order, sent := clone.AckAll(cb);
        acked := ok;
      }
    }

    /** The statistics updated when an execution returns; order is any order of the members. */
    method Settle(clone: InputSnapshot, ghost order: seq<string>)
      requires clone.Valid() && this !in clone.Repr && IsOrder(Contents(clone.View()), order)
      modifies this`snapshotsInProgress, clone.Stats()`inProgress, clone.Stats()`processed
      ensures clone.Valid() && clone.View() == old(clone.View()) && forall n <- order :: n in clone.members
      ensures forall st <- clone.Stats() :: st.inProgress == Grown(old(st.inProgress), -1, Load(clone.Shares(order), st))
      ensures forall st <- clone.Stats() :: st.processed == Grown(old(st.processed), 1, Load(clone.Shares(order), st))
      ensures snapshotsInProgress == Wrap(old(snapshotsInProgress) - 1)
    {
      hide InputSnapshot.Valid, InputSnapshot.View, Wrap, Grown, Load, IsOrder;
      ghost var taken := clone.AddInProgressStatistics(-1);
      ghost var given := clone.AddProcessedStatistics(1);
      snapshotsInProgress := Wrap(snapshotsInProgress - 1);
      OrderMembers(clone, order);
      OrderMembers(clone, taken);
      OrderMembers(clone, given);
      forall st | st in clone.Stats()
        ensures Load(clone.Shares(taken), st) == Load(clone.Shares(order), st) == Load(clone.Shares(given), st)
      {
        OrdersAgree(clone, taken, order, st);
        OrdersAgree(clone, given, order, st);
      }
    }

    /** Set where there is room. */
    method SetAsRoom(name: string, v: Value, st: InputStats, cb: Callbacks, ghost s: Store)
      requires snapshot.Valid() && snapshot.View() == s.live && s.live.Keys <= Names(config)
      requires name in Names(config) && HasRoom(config, s, name)
      modifies snapshot.Repr, st`skipped, cb
      ensures snapshot.Valid() && fresh(snapshot.Repr - old(snapshot.Repr))
      ensures snapshot.View() == AfterSet(config, s, name, v) && snapshot.View().Keys <= Names(config)
      ensures cb.calls == old(cb.calls) && cb.outcomes == old(cb.outcomes) && st.skipped == old(st.skipped)
    {
      hide Names, SpecOf, InputSnapshot.Valid, InputSnapshot.View, Wrap;
      var tis := SpecOf(config, name);
      WrapSame(st.skipped);
      var ok;
      ghost var removed;
      ok, removed := snapshot.Set(name, Some(v), tis.min, tis.max, st, v.source, cb);
    }
  }

  lemma WrapTwice(x: int64)
    ensures Wrap(Wrap(x + 1) - 1) == x
  {
    WrapAbsorbs(x + 1, -1);
    WrapSame(x);
  }

  lemma OrderMembers(clone: InputSnapshot, order: seq<string>)
    requires clone.Valid() && IsOrder(Contents(clone.View()), order)
    ensures forall n <- order :: n in clone.members
  {
  }

  lemma OrdersAgree(clone: InputSnapshot, a: seq<string>, b: seq<string>, st: InputStats)
    requires clone.Valid() && IsOrder(Contents(clone.View()), a) && IsOrder(Contents(clone.View()), b)
    ensures forall n <- a :: n in clone.members
    ensures forall n <- b :: n in clone.members
    ensures Load(clone.Shares(a), st) == Load(clone.Shares(b), st)
  {
    OrderMembers(clone, a);
    LoadOrder(clone, a, b, st);
  }

  /** The outcome tells whether, and with what contents, a clone was added to the store. */
  ghost predicate ClonesAfter(outcome: Outcome, s: Store, s': Store)
    reads if outcome.Launch? then {outcome.clone} + outcome.clone.Repr else {}
  {
    match outcome
    case NoRoom => true
    case Stored => s'.clones == s.clones
    case Launch(clone) => clone.Valid() && s'.clones == s.clones + [Contents(clone.View())]
  }

  lemma CloneContents(ms: Members)
    ensures Contents(CloneOf(ms)) == Contents(ms)
  {
  }

  lemma NotYet(c: Config, ms: Members)
    requires ms.Keys <= Names(c)
    ensures Halfway(c, ms, ms, {})
  {
  }

  /** The inputs not merged into another. */
  function Plain(ts: seq<TaskInput>): seq<TaskInput> {
    if ts == [] then []
    else Plain(ts[..|ts| - 1]) + if ts[|ts| - 1].mergeInto == "" then [ts[|ts| - 1]] else []
  }

  function NamesOf(ts: seq<TaskInput>): (r: seq<string>)
    ensures |r| == |ts| && forall i :: 0 <= i < |ts| ==> r[i] == ts[i].name
  {
    seq(|ts|, i requires 0 <= i < |ts| => ts[i].name)
  }

  /** All snapshot inputs, each once, as the task specifies them. */
  ghost predicate AreInputs(c: Config, inputs: seq<TaskInput>) {
    && (forall i, j :: 0 <= i < j < |inputs| ==> inputs[i].name != inputs[j].name)
    && (forall n :: n in Names(c) <==> n in NamesOf(inputs))
    && (forall t <- inputs :: t.name in Names(c) && t == SpecOf(c, t.name))
  }

  lemma {:induction false} PlainPart(ts: seq<TaskInput>)
    requires forall i, j :: 0 <= i < j < |ts| ==> ts[i].name != ts[j].name
    ensures forall t :: t in Plain(ts) <==> t in ts && t.mergeInto == ""
    ensures forall i, j :: 0 <= i < j < |Plain(ts)| ==> Plain(ts)[i].name != Plain(ts)[j].name
  {
    if ts != [] {
      var k := |ts| - 1;
      PlainPart(ts[..k]);
      assert ts == ts[..k] + [ts[k]];
    }
  }

  lemma PlainNames(c: Config)
    requires ValidConfig(c)
    ensures AreInputs(c, Plain(c.task)) && |Plain(c.task)| == |Names(c)|
  {
    var inputs := Plain(c.task);
    PlainPart(c.task);
    forall n
      ensures n in Names(c) <==> n in NamesOf(inputs)
    {
      NameListed(inputs, n);
    }
    SpecsAre(c);
    DistinctCount(NamesOf(inputs), Names(c));
  }

  lemma NameListed(ts: seq<TaskInput>, name: string)
    ensures name in NamesOf(ts) <==> exists t <- ts :: t.name == name
  {
    if t :| t in ts && t.name == name {
      var i :| 0 <= i < |ts| && ts[i] == t;
      assert NamesOf(ts)[i] == name;
    }
  }

  lemma SpecsAre(c: Config)
    requires ValidConfig(c)
    ensures forall t <- c.task :: t.mergeInto == "" ==> t.name in Names(c) && t == SpecOf(c, t.name)
  {
    hide InputByName;
  }

  lemma {:induction false} DistinctCount(xs: seq<string>, names: set<string>)
    requires forall i, j :: 0 <= i < j < |xs| ==> xs[i] != xs[j]
    requires forall n :: n in names <==> n in xs
    ensures |names| == |xs|
    decreases |xs|
  {
    if xs == [] {
      assert names == {};
    } else {
      var k := |xs| - 1;
      DistinctCount(xs[..k], names - {xs[k]});
    }
  }
}
