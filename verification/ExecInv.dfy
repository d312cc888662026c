/** What every step keeps of the executions: counters, the log, and who may run. */
module ExecInv {
  import opened Common
  import opened SnapshotSpec
  import opened LoopSpec

  // ---------------------------------------------------------------- counting clones by phase

  /** The weights of the clones whose phase satisfies p, added up. */
  function Total(phases: seq<Phase>, weights: seq<nat>, p: Phase -> bool): nat
    requires |phases| == |weights|
  {
    if phases == [] then 0
    else
      var n := |phases| - 1;
      Total(phases[..n], weights[..n], p) + if p(phases[n]) then weights[n] else 0
  }

  lemma {:induction false} TotalUpdate(phases: seq<Phase>, weights: seq<nat>, p: Phase -> bool, k: nat, x: Phase)
    requires |phases| == |weights| && k < |phases|
    ensures Total(phases[k := x], weights, p)
         == Total(phases, weights, p) - (if p(phases[k]) then weights[k] else 0) + (if p(x) then weights[k] else 0)
    decreases |phases|
  {
    var n := |phases| - 1;
    if k == n {
      assert phases[k := x][..n] == phases[..n];
    } else {
      assert phases[k := x][..n] == phases[..n][k := x];
      TotalUpdate(phases[..n], weights[..n], p, k, x);
    }
  }

  lemma TotalAppend(phases: seq<Phase>, weights: seq<nat>, p: Phase -> bool, x: Phase, w: nat)
    requires |phases| == |weights|
    ensures Total(phases + [x], weights + [w], p) == Total(phases, weights, p) + if p(x) then w else 0
  {
    assert (phases + [x])[..|phases|] == phases && (weights + [w])[..|weights|] == weights;
  }

  function Ones(n: nat): (r: seq<nat>)
    ensures |r| == n && forall i :: 0 <= i < n ==> r[i] == 1
  {
    seq(n, _ => 1)
  }

  predicate Unstarted(x: Phase) {
    x.Queued? || x.Launched?
  }

  predicate Active(x: Phase) {
    x.Running? || x.Acking? || x.Returning?
  }

  predicate Success(x: Phase) {
    x.Acking? || ((x.Returning? || x.Finished?) && x.ok)
  }

  predicate Failure(x: Phase) {
    (x.Returning? || x.Finished?) && !x.ok
  }

  /** The outcome is counted, the deferred decrement is still to come. */
  predicate Settling(x: Phase) {
    x.Acking? || x.Returning?
  }

  predicate Over(x: Phase) {
    x.Finished?
  }

  ghost predicate CountersInv(c: Config, clones: seq<Clone>, ex: Exec)
    requires |ex.phases| == |clones|
  {
    var ones, sizes := Ones(|clones|), Sizes(c, clones);
    && ex.executionCount == |clones|
    && ex.waiting == Total(ex.phases, ones, Unstarted)
    && ex.inProgress == Total(ex.phases, ones, Active)
    && ex.succeeded == Total(ex.phases, ones, Success)
    && ex.failed == Total(ex.phases, ones, Failure)
    && ex.valuesInProgress == Total(ex.phases, sizes, Active)
    && ex.valuesProcessed == Total(ex.phases, sizes, Over)
  }

  // ---------------------------------------------------------------- what an execution owes

  /** The acknowledgements of a clone in the order in which its execution sends them. */
  function Todo(x: Phase): seq<(Watcher, Value)> {
    if x.Acking? || x.Returning? || x.Finished? then x.todo else []
  }

  /** How many of them have been sent. */
  function Sent(x: Phase): nat {
    if x.Acking? || x.Returning? || x.Finished? then x.n else 0
  }

  ghost predicate IsTodo(clone: Clone, todo: seq<(Watcher, Value)>) {
    exists order :: IsOrder(clone, order) && todo == AckList(clone, order)
  }

  ghost predicate PhaseInv(clone: Clone, x: Phase) {
    && Sent(x) <= |Todo(x)|
    && (Success(x) ==> IsTodo(clone, Todo(x)))
    && (Failure(x) ==> Todo(x) == [])
  }

  // ---------------------------------------------------------------- who may run

  /**
   Auto runs one clone at a time; under Restart at most one run has not been cancelled,
   that of the clone handed over last.
   */
  ghost predicate LaunchInv(c: Config, ex: Exec) {
    match c.launch
    case Auto =>
      forall k :: 0 <= k < |ex.phases| && (ex.phases[k].Launched? || Active(ex.phases[k])) ==> ex.busy == Some(k)
    case Restart =>
      && ex.busy.None?
      && (ex.last.Some? ==> ex.last.value < |ex.phases|)
      && forall k :: 0 <= k < |ex.phases| && (ex.phases[k] == Launched(false) || ex.phases[k] == Running(false)) ==>
           ex.last == Some(k)
  }

  // ---------------------------------------------------------------- the log

  predicate HasStarted(x: Phase) {
    !Unstarted(x)
  }

  predicate HasExecuted(x: Phase, ok: bool) {
    if ok then Success(x) else Failure(x)
  }

  predicate IsAck(e: Event, k: nat, n: nat) {
    e.AckCalled? && e.k == k && e.n == n
  }

  ghost predicate EventOk(log: seq<Event>, phases: seq<Phase>, j: nat)
    requires j < |log|
  {
    && log[j].k < |phases|
    && var x := phases[log[j].k];
       match log[j]
       case Started(_) => HasStarted(x)
       case Executed(_, ok) => HasExecuted(x, ok)
       case AckCalled(k, n, callback, val, _) =>
         && n < Sent(x) <= |Todo(x)| && Todo(x)[n] == (callback, val)
         && Executed(k, true) in log[..j]
  }

  predicate SameEvent(a: Event, b: Event) {
    && a.k == b.k
    && ((a.Started? && b.Started?) || (a.Executed? && b.Executed?) || (a.AckCalled? && b.AckCalled? && a.n == b.n))
  }

  ghost predicate AckLogged(log: seq<Event>, k: nat, n: nat) {
    exists j :: 0 <= j < |log| && IsAck(log[j], k, n)
  }

  /** Everything the phase of clone k says has happened is in the log. */
  ghost predicate PhaseLogged(log: seq<Event>, k: nat, x: Phase) {
    && (HasStarted(x) ==> Started(k) in log)
    && (Success(x) ==> Executed(k, true) in log)
    && (Failure(x) ==> Executed(k, false) in log)
    && forall n :: 0 <= n < Sent(x) ==> AckLogged(log, k, n)
  }

  ghost predicate LogInv(log: seq<Event>, phases: seq<Phase>) {
    && (forall j :: 0 <= j < |log| ==> EventOk(log, phases, j))
    && (forall i, j :: 0 <= i < j < |log| ==> !SameEvent(log[i], log[j]))
    && (forall k :: 0 <= k < |phases| ==> PhaseLogged(log, k, phases[k]))
  }

  ghost predicate Inv(c: Config, clones: seq<Clone>, ex: Exec) {
    && |ex.phases| == |clones|
    && CountersInv(c, clones, ex)
    && (forall k :: 0 <= k < |clones| ==> PhaseInv(clones[k], ex.phases[k]))
    && LaunchInv(c, ex)
    && LogInv(ex.log, ex.phases)
  }

  lemma InitHolds(c: Config)
    ensures Inv(c, [], Init(c).exec)
  {
    assert Sizes(c, []) == [] && Ones(0) == [];
  }

  // ---------------------------------------------------------------- a new clone

  lemma NewClone(c: Config, clones: seq<Clone>, ex: Exec, clone: Clone)
    requires Inv(c, clones, ex)
    ensures Inv(c, clones + [clone],
                ex.(phases := ex.phases + [Queued], executionCount := ex.executionCount + 1, waiting := ex.waiting + 1))
  {
    hide Total, CountersInv;
    var phases := ex.phases + [Queued];
    CountersNew(c, clones, ex, clone);
    forall j | 0 <= j < |ex.log|
      ensures EventOk(ex.log, phases, j)
    {
      assert EventOk(ex.log, ex.phases, j);
    }
    forall k | 0 <= k < |phases|
      ensures PhaseLogged(ex.log, k, phases[k])
    {
      if k < |ex.phases| { assert PhaseLogged(ex.log, k, ex.phases[k]); }
    }
  }

  lemma CountersNew(c: Config, clones: seq<Clone>, ex: Exec, clone: Clone)
    requires |ex.phases| == |clones| && CountersInv(c, clones, ex)
    ensures CountersInv(c, clones + [clone],
              ex.(phases := ex.phases + [Queued], executionCount := ex.executionCount + 1, waiting := ex.waiting + 1))
  {
    hide Total;
    var ones, sizes := Ones(|clones|), Sizes(c, clones);
    assert Ones(|clones| + 1) == ones + [1];
    assert Sizes(c, clones + [clone]) == sizes + [Count(c.task, clone)];
    TotalAppend(ex.phases, ones, Unstarted, Queued, 1);
    TotalAppend(ex.phases, ones, Active, Queued, 1);
    TotalAppend(ex.phases, ones, Success, Queued, 1);
    TotalAppend(ex.phases, ones, Failure, Queued, 1);
    TotalAppend(ex.phases, sizes, Active, Queued, Count(c.task, clone));
    TotalAppend(ex.phases, sizes, Over, Queued, Count(c.task, clone));
  }

  // ---------------------------------------------------------------- one clone changes its phase

  /** The counters that go with changing the phase of clone k from x to y. */
  function Move(p: Phase -> bool, x: Phase, y: Phase): int {
    (if p(y) then 1 else 0) - (if p(x) then 1 else 0)
  }

  lemma CountersMove(c: Config, clones: seq<Clone>, ex: Exec, k: nat, y: Phase, ex': Exec)
    requires |ex.phases| == |clones| && k < |clones| && CountersInv(c, clones, ex)
    requires ex'.phases == ex.phases[k := y] && ex'.executionCount == ex.executionCount
    requires var x, size := ex.phases[k], Count(c.task, clones[k]);
      && ex'.waiting == ex.waiting + Move(Unstarted, x, y)
      && ex'.inProgress == ex.inProgress + Move(Active, x, y)
      && ex'.succeeded == ex.succeeded + Move(Success, x, y)
      && ex'.failed == ex.failed + Move(Failure, x, y)
      && ex'.valuesInProgress == ex.valuesInProgress + size * Move(Active, x, y)
      && ex'.valuesProcessed == ex.valuesProcessed + size * Move(Over, x, y)
    ensures CountersInv(c, clones, ex')
  {
    hide Total;
    var ones, sizes := Ones(|clones|), Sizes(c, clones);
    TotalUpdate(ex.phases, ones, Unstarted, k, y);
    TotalUpdate(ex.phases, ones, Active, k, y);
    TotalUpdate(ex.phases, ones, Success, k, y);
    TotalUpdate(ex.phases, ones, Failure, k, y);
    TotalUpdate(ex.phases, sizes, Active, k, y);
    TotalUpdate(ex.phases, sizes, Over, k, y);
  }

  /** Phases only ever add to what has happened. */
  predicate Evolves(x: Phase, y: Phase) {
    && (HasStarted(x) ==> HasStarted(y))
    && (Success(x) ==> Success(y)) && (Failure(x) ==> Failure(y))
    && Sent(x) <= Sent(y) <= |Todo(y)|
    && (Sent(x) > 0 ==> Todo(x) == Todo(y))
  }

  /** A phase changes without an event: everything it says had already happened. */
  lemma LogQuiet(log: seq<Event>, phases: seq<Phase>, k: nat, y: Phase)
    requires LogInv(log, phases) && k < |phases| && Evolves(phases[k], y)
    requires (HasStarted(y) ==> HasStarted(phases[k])) && (Success(y) ==> Success(phases[k]))
    requires (Failure(y) ==> Failure(phases[k])) && Sent(y) == Sent(phases[k])
    ensures LogInv(log, phases[k := y])
  {
    var phases' := phases[k := y];
    forall j | 0 <= j < |log|
      ensures EventOk(log, phases', j)
    {
      assert EventOk(log, phases, j);
    }
    forall l | 0 <= l < |phases'|
      ensures PhaseLogged(log, l, phases'[l])
    {
      assert PhaseLogged(log, l, phases[l]);
    }
  }

  /** The new event is one the new phase accounts for and the old one does not. */
  ghost predicate Fits(log: seq<Event>, k: nat, x: Phase, y: Phase, e: Event) {
    && e.k == k && Evolves(x, y)
    && (match e
        case Started(_) => !HasStarted(x) && HasStarted(y)
        case Executed(_, ok) => !Success(x) && !Failure(x) && HasExecuted(y, ok)
        case AckCalled(_, n, callback, val, _) =>
          n == Sent(x) < Sent(y) && Todo(y)[n] == (callback, val) && Success(x))
    && (HasStarted(y) ==> HasStarted(x) || e.Started?)
    && (Success(y) ==> Success(x) || e == Executed(k, true))
    && (Failure(y) ==> Failure(x) || e == Executed(k, false))
    && (Sent(y) == if e.AckCalled? then Sent(x) + 1 else Sent(x))
  }

  lemma LogEvent(log: seq<Event>, phases: seq<Phase>, k: nat, y: Phase, e: Event)
    requires LogInv(log, phases) && k < |phases| && Fits(log, k, phases[k], y, e)
    ensures LogInv(log + [e], phases[k := y])
  {
    var log', phases' := log + [e], phases[k := y];
    forall j | 0 <= j < |log'|
      ensures EventOk(log', phases', j)
    {
      NewEventOk(log, phases, k, y, e, j);
    }
    forall i, j | 0 <= i < j < |log'|
      ensures !SameEvent(log'[i], log'[j])
    {
      if j == |log| { assert EventOk(log, phases, i); }
    }
    forall l | 0 <= l < |phases|
      ensures PhaseLogged(log', l, phases'[l])
    {
      NewPhaseLogged(log, phases, k, y, e, l);
    }
  }

  lemma NewEventOk(log: seq<Event>, phases: seq<Phase>, k: nat, y: Phase, e: Event, j: nat)
    requires LogInv(log, phases) && k < |phases| && Fits(log, k, phases[k], y, e) && j <= |log|
    ensures EventOk(log + [e], phases[k := y], j)
  {
    assert (log + [e])[..j] == log[..j];
    if j < |log| {
      assert EventOk(log, phases, j);
    } else {
      assert PhaseLogged(log, k, phases[k]);
      assert log[..j] == log;
    }
  }

  lemma NewPhaseLogged(log: seq<Event>, phases: seq<Phase>, k: nat, y: Phase, e: Event, l: nat)
    requires LogInv(log, phases) && k < |phases| && Fits(log, k, phases[k], y, e) && l < |phases|
    ensures PhaseLogged(log + [e], l, phases[k := y][l])
  {
    var log' := log + [e];
    assert PhaseLogged(log, l, phases[l]);
    assert log'[|log|] == e;
    forall n | 0 <= n < Sent(phases[k := y][l])
      ensures AckLogged(log', l, n)
    {
      if n < Sent(phases[l]) {
        assert AckLogged(log, l, n);
        var j :| 0 <= j < |log| && IsAck(log[j], l, n);
        assert IsAck(log'[j], l, n);
      } else {
        assert IsAck(log'[|log|], l, n);
      }
    }
  }

  // ---------------------------------------------------------------- the steps

  /** The counters do not depend on the state of the executor loop. */
  lemma CountersFrame(
      c: Config, clones: seq<Clone>, ex: Exec, busy: Option<nat>, last: Option<nat>, stopped: bool, cancelled: bool)
    requires |ex.phases| == |clones| && CountersInv(c, clones, ex)
    ensures CountersInv(c, clones, ex.(busy := busy, last := last, stopped := stopped, cancelled := cancelled))
  {
  }

  lemma HandedKeeps(c: Config, clones: seq<Clone>, ex: Exec, k: nat)
    requires Inv(c, clones, ex) && k < |clones| && ex.phases[k].Queued? && ex.busy.None?
    ensures Inv(c, clones, Handed(c, ex, k))
  {
    hide CountersInv, LogInv;
    var mid := ex.(phases := ex.phases[k := Launched(false)]);
    CountersMove(c, clones, ex, k, Launched(false), mid);
    LogQuiet(ex.log, ex.phases, k, Launched(false));
    if c.launch.Restart? && ex.last.Some? {
      CancelKeeps(c, clones, mid, ex.last.value);
      mid := mid.(phases := CancelRun(mid.phases, ex.last.value));
    }
    HandedLaunch(c, ex, k);
    var ex' := Handed(c, ex, k);
    CountersFrame(c, clones, mid, ex'.busy, ex'.last, ex'.stopped, ex'.cancelled);
    assert ex' == mid.(busy := ex'.busy, last := ex'.last);
  }

  /** Cancelling a run changes nothing but its being cancelled. */
  lemma CancelKeeps(c: Config, clones: seq<Clone>, ex: Exec, l: nat)
    requires |ex.phases| == |clones| && CountersInv(c, clones, ex) && LogInv(ex.log, ex.phases) && l < |ex.phases|
    requires forall k :: 0 <= k < |clones| ==> PhaseInv(clones[k], ex.phases[k])
    ensures var ex' := ex.(phases := CancelRun(ex.phases, l));
      && |ex'.phases| == |clones| && CountersInv(c, clones, ex') && LogInv(ex'.log, ex'.phases)
      && forall k :: 0 <= k < |clones| ==> PhaseInv(clones[k], ex'.phases[k])
  {
    hide CountersInv, LogInv;
    var phases' := CancelRun(ex.phases, l);
    var y := phases'[l];
    assert phases' == ex.phases[l := y];
    CountersMove(c, clones, ex, l, y, ex.(phases := phases'));
    LogQuiet(ex.log, ex.phases, l, y);
  }

  lemma HandedLaunch(c: Config, ex: Exec, k: nat)
    requires LaunchInv(c, ex) && k < |ex.phases| && ex.phases[k].Queued? && ex.busy.None?
    ensures LaunchInv(c, Handed(c, ex, k))
  {
  }

  lemma BeginKeeps(c: Config, clones: seq<Clone>, ex: Exec, k: nat)
    requires Inv(c, clones, ex) && k < |clones| && ex.phases[k].Launched?
    ensures Inv(c, clones, BeginRun(c, clones, ex, k))
  {
    hide CountersInv, LogInv;
    var y := Running(ex.phases[k].cancelled);
    CountersMove(c, clones, ex, k, y, BeginRun(c, clones, ex, k));
    LogEvent(ex.log, ex.phases, k, y, Started(k));
  }

  lemma ExecuteKeeps(c: Config, clones: seq<Clone>, ex: Exec, k: nat, err: bool, order: seq<string>)
    requires Inv(c, clones, ex) && k < |clones| && ex.phases[k].Running? && IsOrder(clones[k], order)
    ensures Inv(c, clones, ExecuteRun(clones, ex, k, err, order))
  {
    hide CountersInv, LogInv, AckList;
    var failed := ex.cancelled || ex.phases[k].cancelled || err;
    var y := if failed then Returning(false, [], 0) else Acking(AckList(clones[k], order), 0);
    CountersMove(c, clones, ex, k, y, ExecuteRun(clones, ex, k, err, order));
    LogEvent(ex.log, ex.phases, k, y, Executed(k, !failed));
  }

  lemma SendKeeps(c: Config, clones: seq<Clone>, ex: Exec, k: nat, err: bool)
    requires Inv(c, clones, ex) && k < |clones| && ex.phases[k].Acking? && ex.phases[k].n < |ex.phases[k].todo|
    ensures Inv(c, clones, SendOne(ex, k, err))
  {
    hide CountersInv, LogInv, IsTodo;
    var Acking(todo, n) := ex.phases[k];
    var y := if err then Returning(true, todo, n + 1) else Acking(todo, n + 1);
    CountersMove(c, clones, ex, k, y, SendOne(ex, k, err));
    LogEvent(ex.log, ex.phases, k, y, AckCalled(k, n, todo[n].0, todo[n].1, !err));
  }

  lemma AckDoneKeeps(c: Config, clones: seq<Clone>, ex: Exec, k: nat)
    requires Inv(c, clones, ex) && k < |clones| && ex.phases[k].Acking?
    ensures Inv(c, clones, WithPhase(ex, k, Returning(true, ex.phases[k].todo, ex.phases[k].n)))
  {
    hide CountersInv, LogInv, IsTodo;
    var y := Returning(true, ex.phases[k].todo, ex.phases[k].n);
    CountersMove(c, clones, ex, k, y, WithPhase(ex, k, y));
    LogQuiet(ex.log, ex.phases, k, y);
  }

  lemma ReturnKeeps(c: Config, clones: seq<Clone>, ex: Exec, k: nat)
    requires Inv(c, clones, ex) && k < |clones| && ex.phases[k].Returning?
    ensures Inv(c, clones, ReturnRun(c, clones, ex, k))
  {
    hide CountersInv, LogInv, IsTodo;
    var Returning(ok, todo, n) := ex.phases[k];
    var y := Finished(ok, todo, n);
    CountersMove(c, clones, ex, k, y, ReturnRun(c, clones, ex, k));
    LogQuiet(ex.log, ex.phases, k, y);
  }

  lemma SignalKeeps(c: Config, clones: seq<Clone>, ex: Exec, stopped: bool, cancelled: bool)
    requires Inv(c, clones, ex)
    ensures Inv(c, clones, ex.(stopped := stopped, cancelled := cancelled))
  {
    hide CountersInv, LogInv, PhaseInv;
    CountersFrame(c, clones, ex, ex.busy, ex.last, stopped, cancelled);
    assert ex.(stopped := stopped, cancelled := cancelled)
        == ex.(busy := ex.busy, last := ex.last, stopped := stopped, cancelled := cancelled);
  }
}
