/** What holds in every state that any run of the input loop reaches. */
module LoopTheorems {
  import opened Common
  import opened SnapshotSpec
  import opened Windows
  import opened LoopSpec
  import opened StoreInv
  import ExecInv
  import LoopInv

  /** Some interleaving of the watchers, the executor loop and the executions leads to s. */
  ghost predicate Reachable(c: Config, s: State) {
    exists states, steps :: Run(c, states, steps) && s in states
  }

  lemma ReachableInv(c: Config, s: State)
    requires ValidConfig(c) && Reachable(c, s)
    ensures LoopInv.Inv(c, s)
  {
    var states, steps :| Run(c, states, steps) && s in states;
    var i :| 0 <= i < |states| && states[i] == s;
    LoopInv.RunInv(c, states, steps, i);
  }

  /** What the invariant says of one input. */
  lemma InputFacts(c: Config, s: State, n: string)
    requires ValidConfig(c) && Reachable(c, s) && n in Names(c)
    ensures n in s.store.sets && StreamInv(c, s.store, n)
    ensures forall k :: 0 <= k < |s.store.clones| ==>
      n in s.store.clones[k] && SpecOf(c, n).min <= |s.store.clones[k][n]| <= SpecOf(c, n).max
  {
    hide StreamInv, LiveInv, ShortInv, Run;
    ReachableInv(c, s);
  }

  lemma ShortFact(c: Config, s: State)
    requires ValidConfig(c) && Reachable(c, s)
    ensures ShortInv(c, s.store)
  {
    hide StreamInv, LiveInv, ShortInv, Run, ClonesInv;
    ReachableInv(c, s);
  }

  lemma ExecFacts(c: Config, s: State)
    requires ValidConfig(c) && Reachable(c, s)
    ensures |s.exec.phases| == |s.store.clones| && ExecInv.Inv(c, s.store.clones, s.exec)
  {
    hide StoreInv.Inv, Run;
    ReachableInv(c, s);
  }

  // ---------------------------------------------------------------- determinism

  /** Required lengths: the minimum and maximum of every input coincide. */
  ghost predicate Exact(c: Config) {
    forall n <- Names(c) :: SpecOf(c, n).min == SpecOf(c, n).max
  }

  /** How far the window of an input with a required length moves from clone to clone. */
  function Stride(c: Config, n: string): nat
    requires n in Names(c)
  {
    Advance(c.policy, SpecOf(c, n).slide, SpecOf(c, n).min)
  }

  /** es shows the stream from position a on. */
  ghost predicate ShowsFrom(es: seq<Entry>, a: nat, stream: seq<Value>) {
    a + |es| <= |stream| && Vals(es) == stream[a..a + |es|]
  }

  lemma ClonesByStride(c: Config, s: State, n: string, k: nat)
    requires ValidConfig(c) && Reachable(c, s) && Exact(c) && n in Names(c) && k < |s.store.clones|
    ensures n in s.store.clones[k] && n in s.store.sets && |s.store.clones[k][n]| == SpecOf(c, n).min
    ensures ShowsFrom(s.store.clones[k][n], k * Stride(c, n), s.store.sets[n])
  {
    hide Names, SpecOf, ValidConfig, Reachable, InputInv;
    InputFacts(c, s, n);
    var st := s.store;
    FixedWindow(c.policy, SpecOf(c, n).slide, Column(st.clones, n), SeqOf(st.live, n), st.sets[n], SpecOf(c, n).min, k);
  }

  lemma NoneMissingByStride(c: Config, s: State) returns (n: string)
    requires ValidConfig(c) && Reachable(c, s) && Exact(c) && c.policy != SwapNew4Old
    ensures n in Names(c) && n in s.store.sets
    ensures |s.store.sets[n]| < |s.store.clones| * Stride(c, n) + SpecOf(c, n).min
  {
    hide Names, SpecOf, ValidConfig, Reachable, Start;
    ShortFact(c, s);
    var st := s.store;
    n :| n in Names(c) && Short(c, st.live, n);
    InputFacts(c, s, n);
    var col := Column(st.clones, n);
    FixedStart(c.policy, SpecOf(c, n).slide, col, SpecOf(c, n).min, |col|);
    assert col[..|col|] == col;
  }

  /**
   What clone k holds depends on the stream alone, not on the schedule: the required
   number of values, from k times that number on under AllNew, from k times the slide on
   under SlidingWindow (at most the whole window), from the first on under SwapNew4Old.
   */
  lemma ClonesFollowStreams(c: Config, s: State, n: string, k: nat)
    requires ValidConfig(c) && Reachable(c, s) && Exact(c) && n in Names(c) && k < |s.store.clones|
    ensures n in s.store.clones[k] && n in s.store.sets
    ensures var r, slide := SpecOf(c, n).min, SpecOf(c, n).slide;
      && |s.store.clones[k][n]| == r
      && (c.policy == AllNew ==> ShowsAfter(s.store.clones[k][n], k, r, s.store.sets[n]))
      && (c.policy == SlidingWindow ==>
            ShowsAfter(s.store.clones[k][n], k, if slide < r then slide else r, s.store.sets[n]))
      && (c.policy == SwapNew4Old ==> ShowsAfter(s.store.clones[k][n], k, 0, s.store.sets[n]))
  {
    hide Names, SpecOf, ValidConfig, Reachable, ShowsFrom, Stride, ShowsAfter;
    ClonesByStride(c, s, n, k);
    StrideIs(c, n);
    AfterStrides(s.store.clones[k][n], k, Stride(c, n), s.store.sets[n]);
  }

  /** es shows the stream from k times the stride on. */
  ghost predicate ShowsAfter(es: seq<Entry>, k: nat, stride: nat, stream: seq<Value>) {
    var a := k * stride;
    a + |es| <= |stream| && Vals(es) == stream[a..a + |es|]
  }

  lemma AfterStrides(es: seq<Entry>, k: nat, stride: nat, stream: seq<Value>)
    requires ShowsFrom(es, k * stride, stream)
    ensures ShowsAfter(es, k, stride, stream)
  {
  }

  lemma StrideIs(c: Config, n: string)
    requires n in Names(c)
    ensures var r, slide := SpecOf(c, n).min, SpecOf(c, n).slide;
      && (c.policy == AllNew ==> Stride(c, n) == r)
      && (c.policy == SlidingWindow ==> Stride(c, n) == if slide < r then slide else r)
      && (c.policy == SwapNew4Old ==> Stride(c, n) == 0)
  {
  }

  /** No clone that could be taken is missing: some stream is too short for one more. */
  lemma NoCloneMissing(c: Config, s: State) returns (n: string)
    requires ValidConfig(c) && Reachable(c, s) && Exact(c) && c.policy != SwapNew4Old
    ensures n in Names(c) && n in s.store.sets
    ensures var r, slide, k := SpecOf(c, n).min, SpecOf(c, n).slide, |s.store.clones|;
      && (c.policy == AllNew ==> |s.store.sets[n]| < k * r + r)
      && (c.policy == SlidingWindow ==> |s.store.sets[n]| < k * (if slide < r then slide else r) + r)
  {
    hide Names, SpecOf, ValidConfig, Reachable, Stride;
    n := NoneMissingByStride(c, s);
    StrideIs(c, n);
  }

  /** Two runs that stored the same streams have taken the same clones. */
  lemma SameStreamsSameClones(c: Config, s: State, t: State)
    requires ValidConfig(c) && Reachable(c, s) && Reachable(c, t) && Exact(c)
    requires s.store.sets == t.store.sets
    ensures |s.store.clones| == |t.store.clones|
    ensures forall k, n :: 0 <= k < |s.store.clones| && n in Names(c) ==>
      n in s.store.clones[k] && n in t.store.clones[k]
      && Vals(s.store.clones[k][n]) == Vals(t.store.clones[k][n])
  {
    hide Names, SpecOf, ValidConfig, Reachable;
    if c.policy == SwapNew4Old {
      SwapClonesOnce(c, s);
      SwapClonesOnce(c, t);
    } else {
      NotFewer(c, s, t);
      NotFewer(c, t, s);
    }
    forall k, n | 0 <= k < |s.store.clones| && n in Names(c)
      ensures n in s.store.clones[k] && n in t.store.clones[k]
      ensures Vals(s.store.clones[k][n]) == Vals(t.store.clones[k][n])
    {
      ClonesByStride(c, s, n, k);
      ClonesByStride(c, t, n, k);
    }
  }

  lemma NotFewer(c: Config, s: State, t: State)
    requires ValidConfig(c) && Reachable(c, s) && Reachable(c, t) && Exact(c) && c.policy != SwapNew4Old
    requires s.store.sets == t.store.sets
    ensures |s.store.clones| >= |t.store.clones|
  {
    hide Names, SpecOf, ValidConfig, Reachable;
    var n := NoneMissingByStride(c, s);
    if |s.store.clones| < |t.store.clones| {
      var k := |t.store.clones| - 1;
      ClonesByStride(c, t, n, k);
      MulMonotone(|s.store.clones|, k, Stride(c, n));
    }
  }

  lemma MulMonotone(a: nat, b: nat, m: nat)
    requires a <= b
    ensures a * m <= b * m
  {
  }

  // ---------------------------------------------------------------- progress

  /** Under AllNew and SlidingWindow some input is always below its minimum, so it has room. */
  lemma SomeInputHasRoom(c: Config, s: State) returns (n: string)
    requires ValidConfig(c) && Reachable(c, s) && c.policy != SwapNew4Old
    ensures n in Names(c) && |SeqOf(s.store.live, n)| < SpecOf(c, n).min && HasRoom(c, s.store, n)
  {
    ShortFact(c, s);
    n :| n in Names(c) && Short(c, s.store.live, n);
    assert SpecOf(c, n) in c.task;
  }

  /** Some watcher of the input has a value to store, awake or asleep. */
  ghost predicate Offered(c: Config, s: State, n: string) {
    exists w: nat :: w < |s.pcs| && w < |c.task| && Target(c, w) == n && LoopInv.Holds(s.pcs[w])
  }

  /**
   Freedom from deadlock: if every input is offered a value, one of the offers can be
   stored, at once or as soon as its watcher wakes up.
   */
  lemma SomeOfferSucceeds(c: Config, s: State) returns (w: Watcher)
    requires ValidConfig(c) && Reachable(c, s) && c.policy != SwapNew4Old
    requires forall n <- Names(c) :: Offered(c, s, n)
    ensures Shape(c, s)
    ensures Enabled(c, s, Put(w))
         || (Enabled(c, s, Wake(w)) && Shape(c, Next(c, s, Wake(w))) && Enabled(c, Next(c, s, Wake(w)), Put(w)))
  {
    hide Names, SpecOf, ValidConfig, Reachable, Shape, LoopInv.Inv, HasRoom, Next, Enabled;
    ReachableShape(c, s);
    var n := SomeInputHasRoom(c, s);
    assert Offered(c, s, n);
    w :| w < |s.pcs| && w < |c.task| && Target(c, w) == n && LoopInv.Holds(s.pcs[w]);
    OfferSucceeds(c, s, w, n);
  }

  lemma OfferSucceeds(c: Config, s: State, w: Watcher, n: string)
    requires Shape(c, s) && w < |s.pcs| && n in Names(c) && Target(c, w) == n
    requires LoopInv.Holds(s.pcs[w]) && HasRoom(c, s.store, n)
    ensures Enabled(c, s, Put(w))
         || (Enabled(c, s, Wake(w)) && Shape(c, Next(c, s, Wake(w))) && Enabled(c, Next(c, s, Wake(w)), Put(w)))
  {
    hide Names, SpecOf, ValidConfig, HasRoom;
    TargetIsInput(c, w);
  }

  lemma ReachableShape(c: Config, s: State)
    requires ValidConfig(c) && Reachable(c, s)
    ensures Shape(c, s)
  {
    hide Names, SpecOf, ValidConfig, Reachable, StoreInv.Inv, ExecInv.Inv;
    ReachableInv(c, s);
  }

  // ---------------------------------------------------------------- SwapNew4Old

  lemma {:induction false} SwapStart(slide: nat, col: seq<seq<Entry>>)
    ensures Start(SwapNew4Old, slide, col) == 0
    decreases |col|
  {
    if col != [] { SwapStart(slide, col[..|col| - 1]); }
  }

  /**
   Under SwapNew4Old nothing ever leaves the live snapshot, so an input has room exactly
   as long as fewer than its maximum of values were ever stored, whatever was cloned.
   */
  lemma SwapRoom(c: Config, s: State, n: string)
    requires ValidConfig(c) && Reachable(c, s) && c.policy == SwapNew4Old && n in Names(c)
    ensures n in s.store.sets && |SeqOf(s.store.live, n)| == |s.store.sets[n]|
    ensures HasRoom(c, s.store, n) <==> |s.store.sets[n]| < SpecOf(c, n).max
  {
    hide Names, SpecOf, ValidConfig, Reachable, Start, LastEnd;
    InputFacts(c, s, n);
    SwapStart(SpecOf(c, n).slide, Column(s.store.clones, n));
  }

  /** A watcher can store its value exactly as long as its input has not had its maximum of values. */
  lemma SwapPut(c: Config, s: State, w: Watcher)
    requires ValidConfig(c) && Reachable(c, s) && c.policy == SwapNew4Old
    requires w < |s.pcs| && w < |c.task| && s.pcs[w].Holding?
    ensures Shape(c, s) && Target(c, w) in Names(c)
    ensures Enabled(c, s, Put(w)) <==> |s.store.sets[Target(c, w)]| < SpecOf(c, Target(c, w)).max
  {
    hide Names, SpecOf, ValidConfig, Reachable, StoreInv.Inv, ExecInv.Inv, HasRoom;
    ReachableInv(c, s);
    TargetIsInput(c, w);
    SwapRoom(c, s, Target(c, w));
  }

  /**
   Under SwapNew4Old with required lengths, the lengths its validation demands, the task
   is executed once, when every input has had its required values, and never again, where
   the policy promises ever newer values.
   */
  lemma SwapClonesOnce(c: Config, s: State)
    requires ValidConfig(c) && Reachable(c, s) && Exact(c) && c.policy == SwapNew4Old
    ensures Names(c) <= s.store.sets.Keys
    ensures |s.store.clones| == if forall n <- Names(c) :: |s.store.sets[n]| == SpecOf(c, n).max then 1 else 0
  {
    hide Names, SpecOf, ValidConfig, Reachable, HasRoom, SeqOf;
    SwapAtMostOnce(c, s);
    ShortFact(c, s);
    forall n | n in Names(c)
      ensures n in s.store.sets && (Short(c, s.store.live, n) <==> |s.store.sets[n]| != SpecOf(c, n).max)
    {
      SwapBounded(c, s, n);
    }
  }

  lemma SwapBounded(c: Config, s: State, n: string)
    requires ValidConfig(c) && Reachable(c, s) && c.policy == SwapNew4Old && n in Names(c)
    ensures n in s.store.sets && |SeqOf(s.store.live, n)| == |s.store.sets[n]| <= SpecOf(c, n).max
  {
    hide Names, SpecOf, ValidConfig, Reachable, StreamInv, ShortInv, Start, LastEnd, ExecInv.Inv;
    ReachableInv(c, s);
    SwapRoom(c, s, n);
    assert LiveInv(c, s.store.live);
  }

  /** Once the clone was taken nothing can be stored any more. */
  lemma SwapStopsAfterFirst(c: Config, s: State, w: Watcher)
    requires ValidConfig(c) && Reachable(c, s) && Exact(c) && c.policy == SwapNew4Old && s.store.clones != []
    ensures Shape(c, s) && !Enabled(c, s, Put(w))
  {
    hide Names, SpecOf, ValidConfig, Reachable, StoreInv.Inv, ExecInv.Inv, HasRoom, Exact;
    ReachableInv(c, s);
    SwapFull(c, s);
    if w < |s.pcs| && s.pcs[w].Holding? {
      TargetIsInput(c, w);
      SwapRoom(c, s, Target(c, w));
    }
  }

  lemma SwapFull(c: Config, s: State)
    requires ValidConfig(c) && Reachable(c, s) && Exact(c) && c.policy == SwapNew4Old && s.store.clones != []
    ensures forall n <- Names(c) :: n in s.store.sets && |s.store.sets[n]| >= SpecOf(c, n).max
  {
    hide Names, SpecOf, ValidConfig, Reachable, HasRoom, SeqOf;
    ShortFact(c, s);
    forall n | n in Names(c)
      ensures n in s.store.sets && |s.store.sets[n]| >= SpecOf(c, n).max
    {
      SwapRoom(c, s, n);
      assert !Short(c, s.store.live, n);
    }
  }

  lemma SwapAtMostOnce(c: Config, s: State)
    requires ValidConfig(c) && Reachable(c, s) && Exact(c) && c.policy == SwapNew4Old
    ensures |s.store.clones| <= 1
  {
    hide Run;
    var states, steps :| Run(c, states, steps) && s in states;
    var i :| 0 <= i < |states| && states[i] == s;
    SwapRun(c, states, steps, i);
  }

  lemma {:induction false} SwapRun(c: Config, states: seq<State>, steps: seq<Step>, i: nat)
    requires ValidConfig(c) && Run(c, states, steps) && i < |states| && Exact(c) && c.policy == SwapNew4Old
    ensures |states[i].store.clones| <= 1
    decreases i
  {
    hide Enabled, Next, ValidConfig, Exact, Shape;
    if i > 0 {
      SwapRun(c, states, steps, i - 1);
      assert Reachable(c, states[i - 1]);
      OneCloneAtMost(c, states[i - 1], steps[i - 1]);
      if steps[i - 1].Put? && states[i - 1].store.clones != [] {
        SwapStopsAfterFirst(c, states[i - 1], steps[i - 1].w);
      }
    }
  }

  /** Only storing a value takes a clone, and only one. */
  lemma OneCloneAtMost(c: Config, s: State, step: Step)
    requires Shape(c, s) && Enabled(c, s, step)
    ensures var s' := Next(c, s, step);
      if step.Put? then |s'.store.clones| <= |s.store.clones| + 1 else s'.store.clones == s.store.clones
  {
    hide Prepared, Ready, HasRoom, AfterSet, Handed, Names, Count, ValidConfig, BeginRun, ExecuteRun, SendOne, ReturnRun;
  }

  // ---------------------------------------------------------------- nothing lost, nothing reordered

  /** Under AllNew the clones in clone order, then what is live, are the stream of the input. */
  lemma AllNewTilesStreams(c: Config, s: State, n: string)
    requires ValidConfig(c) && Reachable(c, s) && c.policy == AllNew && n in Names(c)
    ensures n in s.store.sets
    ensures Concat(Column(s.store.clones, n)) + Vals(SeqOf(s.store.live, n)) == s.store.sets[n]
  {
    hide Names, SpecOf, ValidConfig, Reachable, InputInv;
    InputFacts(c, s, n);
    NothingLostOrReordered(SpecOf(c, n).slide, Column(s.store.clones, n), SeqOf(s.store.live, n), s.store.sets[n]);
  }

  /** Every clone shows a contiguous window of the stream; starts and ends never move back. */
  lemma WindowsNeverMoveBack(c: Config, s: State, n: string, j: nat, k: nat)
    requires ValidConfig(c) && Reachable(c, s) && n in Names(c) && j <= k < |s.store.clones|
    ensures n in s.store.sets && n in s.store.clones[j] && n in s.store.clones[k]
    ensures var st, p, sl := s.store, c.policy, SpecOf(c, n).slide;
      var col := Column(st.clones, n);
      var a, b := Start(p, sl, col[..j]), Start(p, sl, col[..k]);
      && ShowsFrom(st.clones[j][n], a, st.sets[n]) && ShowsFrom(st.clones[k][n], b, st.sets[n])
      && a <= b && a + |col[j]| <= b + |col[k]|
  {
    hide Names, SpecOf, ValidConfig, Reachable, Start, LastEnd;
    InputFacts(c, s, n);
    var st, p, sl := s.store, c.policy, SpecOf(c, n).slide;
    var col := Column(st.clones, n);
    assert CloneInv(p, sl, col, j, st.sets[n]) && CloneInv(p, sl, col, k, st.sets[n]);
    StartsGrow(p, sl, col, j, k);
    NoGap(p, sl, col, j);
    NoGap(p, sl, col, k);
    EndsGrow(p, sl, col, SeqOf(st.live, n), st.sets[n], j + 1, k + 1);
  }

  /** Every stored value is still live or was in some clone, under every policy. */
  lemma EveryValueShown(c: Config, s: State, n: string, i: nat)
    requires ValidConfig(c) && Reachable(c, s) && n in Names(c) && n in s.store.sets && i < |s.store.sets[n]|
    ensures (exists e <- SeqOf(s.store.live, n) :: e.val == s.store.sets[n][i])
         || (exists k :: 0 <= k < |s.store.clones| && ShownBy(s.store.clones[k], n, s.store.sets[n][i]))
  {
    hide Names, SpecOf, ValidConfig, Reachable, Start, LastEnd;
    InputFacts(c, s, n);
    var st, p, sl := s.store, c.policy, SpecOf(c, n).slide;
    var col, live := Column(st.clones, n), SeqOf(st.live, n);
    assert col[..|col|] == col;
    var b := Start(p, sl, col);
    if i < b {
      Covered(p, sl, col, live, st.sets[n], i, |col|);
      var k :| 0 <= k < |col| && Shows(p, sl, col, k, i) && col[k][i - Start(p, sl, col[..k])].val == st.sets[n][i];
      assert col[k][i - Start(p, sl, col[..k])] in st.clones[k][n];
      assert ShownBy(st.clones[k], n, st.sets[n][i]);
    } else {
      assert live[i - b] in live && live[i - b].val == st.sets[n][i];
    }
  }

  ghost predicate ShownBy(clone: Clone, n: string, v: Value) {
    n in clone && exists e <- clone[n] :: e.val == v
  }

  // ---------------------------------------------------------------- counters

  lemma {:induction false} Phases(phases: seq<Phase>)
    ensures var ones := ExecInv.Ones(|phases|);
      ExecInv.Total(phases, ones, ExecInv.Unstarted) + ExecInv.Total(phases, ones, ExecInv.Active)
      + ExecInv.Total(phases, ones, ExecInv.Success) + ExecInv.Total(phases, ones, ExecInv.Failure)
      == |phases| + ExecInv.Total(phases, ones, ExecInv.Settling)
  {
    if phases != [] {
      var n := |phases| - 1;
      assert ExecInv.Ones(|phases|)[..n] == ExecInv.Ones(n);
      Phases(phases[..n]);
    }
  }

  /**
   The snapshot counters: none is negative, waiting counts the clones not yet started,
   and they add up to the executions counted, plus one for each clone whose outcome is
   counted while it is still counted in progress.
   */
  lemma SnapshotCounters(c: Config, s: State)
    requires ValidConfig(c) && Reachable(c, s)
    ensures s.exec.executionCount == |s.store.clones| == |s.exec.phases|
    ensures var ex, ones := s.exec, ExecInv.Ones(|s.exec.phases|);
      && ex.waiting >= 0 && ex.inProgress >= 0 && ex.succeeded >= 0 && ex.failed >= 0
      && ex.waiting == ExecInv.Total(ex.phases, ones, ExecInv.Unstarted)
      && ex.waiting + ex.inProgress + ex.succeeded + ex.failed
         == ex.executionCount + ExecInv.Total(ex.phases, ones, ExecInv.Settling)
  {
    ExecFacts(c, s);
    Phases(s.exec.phases);
  }

  lemma {:induction false} TotalZero(phases: seq<Phase>, p: Phase -> bool)
    ensures ExecInv.Total(phases, ExecInv.Ones(|phases|), p) == 0 <==> forall k :: 0 <= k < |phases| ==> !p(phases[k])
  {
    if phases != [] {
      var n := |phases| - 1;
      assert ExecInv.Ones(|phases|)[..n] == ExecInv.Ones(n);
      TotalZero(phases[..n], p);
      assert forall k :: 0 <= k < n ==> phases[..n][k] == phases[k];
    }
  }

  /** The counters add up exactly when no execution is between its outcome and its return. */
  lemma CountersAddUp(c: Config, s: State)
    requires ValidConfig(c) && Reachable(c, s)
    ensures s.exec.waiting + s.exec.inProgress + s.exec.succeeded + s.exec.failed == s.exec.executionCount
       <==> forall k :: 0 <= k < |s.exec.phases| ==> !ExecInv.Settling(s.exec.phases[k])
  {
    SnapshotCounters(c, s);
    TotalZero(s.exec.phases, ExecInv.Settling);
  }

  // ---------------------------------------------------------------- one execution at a time

  /** Auto never runs two clones at once; Restart leaves at most one run that is not cancelled. */
  lemma OneRun(c: Config, s: State, k: nat, l: nat)
    requires ValidConfig(c) && Reachable(c, s) && k < |s.exec.phases| && l < |s.exec.phases|
    ensures c.launch == Auto && ExecInv.Active(s.exec.phases[k]) && ExecInv.Active(s.exec.phases[l]) ==> k == l
    ensures c.launch == Restart && s.exec.phases[k] == Running(false) && s.exec.phases[l] == Running(false) ==> k == l
  {
    hide ExecInv.LogInv, ExecInv.CountersInv, ExecInv.PhaseInv, ValidConfig, Reachable;
    ExecFacts(c, s);
  }

  /** Each clone is executed at most once. */
  lemma ExecutedAtMostOnce(c: Config, s: State, i: nat, j: nat)
    requires ValidConfig(c) && Reachable(c, s) && i < |s.exec.log| && j < |s.exec.log|
    requires s.exec.log[i].Started? && s.exec.log[j].Started? && s.exec.log[i].k == s.exec.log[j].k
    ensures i == j
  {
    hide ExecInv.CountersInv, ExecInv.LaunchInv, ExecInv.EventOk, ExecInv.PhaseInv, ValidConfig, Reachable;
    ExecFacts(c, s);
    assert ExecInv.SameEvent(s.exec.log[i], s.exec.log[j]) && ExecInv.SameEvent(s.exec.log[j], s.exec.log[i]);
  }

  // ---------------------------------------------------------------- two runs

  lemma InitReachable(c: Config)
    ensures Reachable(c, Init(c))
  {
    assert Run(c, [Init(c)], []);
  }

  /** What is reachable stays reachable by a further step. */
  lemma StepFrom(c: Config, s: State, step: Step) returns (s': State)
    requires Reachable(c, s) && Shape(c, s) && Enabled(c, s, step)
    ensures s' == Next(c, s, step) && Reachable(c, s')
  {
    hide Next, Enabled, Shape, Init;
    var states, steps :| Run(c, states, steps) && s in states;
    var i :| 0 <= i < |states| && states[i] == s;
    s' := Next(c, s, step);
    var longer := states[..i + 1] + [s'];
    assert Run(c, longer, steps[..i] + [step]);
    assert longer[i + 1] == s';
  }

  /** A task with one input, of which every execution takes one value. */
  function OneInput(policy: SnapshotPolicy): Config {
    Config([TaskInput("a", "", 1, 1, 1)], policy, Auto)
  }

  lemma OneInputIsValid(policy: SnapshotPolicy)
    ensures var c := OneInput(policy);
      ValidConfig(c) && Names(c) == {"a"} && SpecOf(c, "a") == c.task[0] && Target(c, 0) == "a" && Exact(c)
  {
    var c := OneInput(policy);
    assert c.task[0] in c.task;
    assert "a" in Names(c);
  }

  const FIRST := Value(0, 0)

  /** The input holding its first value. */
  function FirstLive(): Members {
    map["a" := Pair([Entry(FIRST, Some(0))], 1)]
  }

  function FirstStore(c: Config): Store
    requires FirstLive().Keys <= Names(c)
  {
    Store(Prepared(c, FirstLive()), map["a" := [FIRST]], [Contents(FirstLive())], 0)
  }

  lemma FirstPut(policy: SnapshotPolicy)
    ensures var c := OneInput(policy);
      && Names(c) == {"a"}
      && HasRoom(c, Init(c).store, "a") && PutValue(c, Init(c).store, "a", FIRST) == FirstStore(c)
      && FirstStore(c).live.Keys <= Names(c) == FirstStore(c).sets.Keys
  {
    hide Names, SpecOf;
    var c := OneInput(policy);
    OneInputIsValid(policy);
    var sets := Init(c).store.sets;
    assert sets.Keys == {"a"} && sets["a"] == [] && [] + [FIRST] == [FIRST];
    assert sets["a" := sets["a"] + [FIRST]] == map["a" := [FIRST]];
    var e := Entry(FIRST, Some(0));
    assert AddTo(Pair([], 1), e, 1).entries == [e];
    assert AfterSet(c, Init(c).store, "a", FIRST) == FirstLive();
    assert Ready(FirstLive(), |Names(c)|);
  }

  /** A value comes in, a clone is taken and handed to the executor loop. */
  lemma FirstClone(policy: SnapshotPolicy) returns (s: State)
    ensures var c := OneInput(policy);
      && Names(c) == {"a"} && Reachable(c, s) && Shape(c, s) && s.pcs == [Idle] && s.received == [1]
      && s.store == FirstStore(c) && s.exec.phases == [Launched(false)] && s.exec.executionCount == 1
      && s.exec.waiting == 1 && s.exec.inProgress == s.exec.succeeded == s.exec.failed == 0 && !s.exec.cancelled
  {
    var c := OneInput(policy);
    hide Reachable, ValidConfig, Names, Prepared, Exact, PutValue, HasRoom;
    OneInputIsValid(policy);
    InitReachable(c);
    FirstPut(policy);
    s := StepFrom(c, Init(c), Receive(0));
    assert s.pcs == [Holding(FIRST)];
    s := StepFrom(c, s, Put(0));
    assert s.pcs == [Pushing(0)] && s.store == FirstStore(c) && s.exec.phases == [Queued];
    s := StepFrom(c, s, HandOver(0));
  }

  /**
   A run under SwapNew4Old that takes its clone and is then stuck: the next value has
   arrived and cannot be stored, now or ever.
   */
  lemma SwapGetsStuck() returns (s: State)
    ensures var c := OneInput(SwapNew4Old);
      && ValidConfig(c) && Reachable(c, s) && Shape(c, s) && Exact(c)
      && |s.store.clones| == 1 && s.pcs == [Holding(Value(0, 1))] && !Enabled(c, s, Put(0))
  {
    var c := OneInput(SwapNew4Old);
    hide Reachable, ValidConfig, Names, Prepared, Exact, HasRoom;
    OneInputIsValid(SwapNew4Old);
    s := FirstClone(SwapNew4Old);
    s := StepFrom(c, s, Receive(0));
    SwapStopsAfterFirst(c, s, 0);
  }

  /** A run in which the snapshot counters add up to more than the executions counted. */
  lemma CountersExceed() returns (s: State)
    ensures var c := OneInput(AllNew);
      && ValidConfig(c) && Reachable(c, s) && s.exec.executionCount == 1
      && s.exec.waiting + s.exec.inProgress + s.exec.succeeded + s.exec.failed == 2
  {
    var c := OneInput(AllNew);
    hide Reachable, ValidConfig, Names, Prepared, Exact, HasRoom, Count, Owed;
    OneInputIsValid(AllNew);
    s := FirstClone(AllNew);
    s := StepFrom(c, s, Begin(0));
    s := StepFrom(c, s, Execute(0, true, ["a"]));
  }
}
