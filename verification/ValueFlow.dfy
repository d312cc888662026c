/** Under AllNew every value received is accounted for exactly once, counting all inputs. */
module ValueFlow {
  import opened Common
  import opened SnapshotSpec
  import opened Windows
  import opened LoopSpec
  import opened StoreInv
  import opened LoopTheorems
  import ExecInv
  import LoopInv

  /** The values of one input in all clones together. */
  function Lens(clones: seq<Clone>, n: string): nat {
    if clones == [] then 0
    else
      var last := clones[|clones| - 1];
      Lens(clones[..|clones| - 1], n) + if n in last then |last[n]| else 0
  }

  /** The same, summed over the snapshot inputs. */
  function CountLens(ts: seq<TaskInput>, clones: seq<Clone>): nat {
    if ts == [] then 0
    else (if ts[0].mergeInto == "" then Lens(clones, ts[0].name) else 0) + CountLens(ts[1..], clones)
  }

  lemma {:induction false} LensIsStart(slide: nat, clones: seq<Clone>, n: string)
    ensures Lens(clones, n) == Start(AllNew, slide, Column(clones, n))
    decreases |clones|
  {
    if clones != [] {
      LensIsStart(slide, clones[..|clones| - 1], n);
      assert Column(clones, n)[..|clones| - 1] == Column(clones[..|clones| - 1], n);
    }
  }

  lemma {:induction false} CountLensLast(ts: seq<TaskInput>, clones: seq<Clone>)
    requires clones != []
    ensures CountLens(ts, clones) == CountLens(ts, clones[..|clones| - 1]) + Count(ts, clones[|clones| - 1])
    decreases |ts|
  {
    if ts != [] {
      CountLensLast(ts[1..], clones);
    }
  }

  lemma {:induction false} CountLensNone(ts: seq<TaskInput>)
    ensures CountLens(ts, []) == 0
  {
    if ts != [] {
      CountLensNone(ts[1..]);
    }
  }

  /** Summing the clones' values by input or by clone gives the same. */
  lemma {:induction false} ByInputOrByClone(c: Config, clones: seq<Clone>, phases: seq<Phase>)
    requires |phases| == |clones|
    ensures var sizes := Sizes(c, clones);
      CountLens(c.task, clones)
      == ExecInv.Total(phases, sizes, ExecInv.Unstarted) + ExecInv.Total(phases, sizes, ExecInv.Active)
         + ExecInv.Total(phases, sizes, ExecInv.Over)
    decreases |clones|
  {
    if clones == [] {
      CountLensNone(c.task);
    } else {
      var n := |clones| - 1;
      CountLensLast(c.task, clones);
      ByInputOrByClone(c, clones[..n], phases[..n]);
      assert Sizes(c, clones)[..n] == Sizes(c, clones[..n]);
    }
  }

  /** Stored values are live or in clones, input by input. */
  lemma {:induction false} CountStreams(
      ts: seq<TaskInput>, sets: map<string, seq<Value>>, live: Members, clones: seq<Clone>)
    requires forall t <- ts :: t.mergeInto == "" ==>
      t.name in sets && |sets[t.name]| == Lens(clones, t.name) + |SeqOf(live, t.name)|
    ensures Count(ts, sets) == Count(ts, Contents(live)) + CountLens(ts, clones)
  {
    hide Lens;
    if ts != [] {
      CountStreams(ts[1..], sets, live, clones);
      assert ts[0] in ts;
    }
  }

  /**
   The value counters under AllNew: what the watchers received is live, in clones not yet
   started, in progress, processed, held by a watcher, or dropped on cancellation.
   */
  lemma ReceivedValues(c: Config, s: State)
    requires ValidConfig(c) && Reachable(c, s) && c.policy == AllNew
    ensures |s.exec.phases| == |s.store.clones|
    ensures LoopInv.Sum(s.received)
         == Count(c.task, Contents(s.store.live))
            + ExecInv.Total(s.exec.phases, Sizes(c, s.store.clones), ExecInv.Unstarted)
            + s.exec.valuesInProgress + s.exec.valuesProcessed
            + LoopInv.Held(s.pcs) + s.dropped
  {
    hide Reachable, ExecInv.LogInv, ExecInv.LaunchInv, ExecInv.PhaseInv;
    ExecFacts(c, s);
    FlowFact(c, s);
    var st := s.store;
    forall t | t in c.task && t.mergeInto == ""
      ensures t.name in st.sets && |st.sets[t.name]| == Lens(st.clones, t.name) + |SeqOf(st.live, t.name)|
    {
      InputFacts(c, s, t.name);
      LensIsStart(SpecOf(c, t.name).slide, st.clones, t.name);
    }
    CountStreams(c.task, st.sets, st.live, st.clones);
    ByInputOrByClone(c, st.clones, s.exec.phases);
  }

  lemma FlowFact(c: Config, s: State)
    requires ValidConfig(c) && Reachable(c, s)
    ensures LoopInv.FlowInv(c, s)
  {
    hide StoreInv.Inv, ExecInv.Inv, LoopInv.FlowInv, Run;
    ReachableInv(c, s);
  }
}
