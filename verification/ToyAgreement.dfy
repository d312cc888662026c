/** The input loop executes on what the executable specification of the policies executes on. */
module ToyAgreement {
  import opened Common
  import opened SnapshotSpec
  import LoopSpec
  import LoopTheorems
  import T = ToyModel

  function Texts(vs: seq<Value>, data: Value -> string): (r: seq<string>)
    ensures |r| == |vs| && forall i :: 0 <= i < |vs| ==> r[i] == data(vs[i])
  {
    seq(|vs|, i requires 0 <= i < |vs| => data(vs[i]))
  }

  /**
   The same task: the inputs of the configuration are the links, with the same required
   lengths, and windows slide by one, which is all the specification can do.
   */
  ghost predicate SameTask(u: T.Setup, c: Config, names: seq<string>) {
    && T.SetupFits(u) && ValidConfig(c) && LoopTheorems.Exact(c) && c.policy == u.policy != SwapNew4Old
    && |names| == |u.link|
    && forall i :: 0 <= i < |names| ==> SameInput(u, c, names[i], i)
  }

  ghost predicate SameInput(u: T.Setup, c: Config, n: string, i: nat)
    requires i < |u.link|
  {
    && i < |u.minfill| && n in Names(c) && SpecOf(c, n).min == u.minfill[i]
    && (u.policy == SlidingWindow ==> SpecOf(c, n).slide == 1)
  }

  /** What a link has delivered so far. */
  function Delivered(u: T.Setup, links: seq<T.Link>, i: nat): seq<string>
    requires i < |links| == |u.link| && links[i].cursor <= |u.link[i]|
  {
    T.Values(u.link[i][..links[i].cursor])
  }

  lemma SameStride(u: T.Setup, c: Config, names: seq<string>, i: nat)
    requires SameTask(u, c, names) && i < |names|
    ensures SameInput(u, c, names[i], i)
    ensures u.minfill[i] >= 1 && LoopTheorems.Stride(c, names[i]) == T.Shift(u.policy, u.minfill[i]) >= 1
  {
    assert T.KnobsFit(u.policy, u.minfill[i], u.maxfill[i]);
  }

  /** On streams that agree as far as both have come, the k-th executions are on the same values. */
  lemma SameTuples(
      u: T.Setup, links: seq<T.Link>, execs: seq<T.Exec>, c: Config, s: LoopSpec.State, names: seq<string>,
      data: Value -> string, k: nat, i: nat)
    requires SameTask(u, c, names) && T.LinksInv(u, |execs|, links) && T.ExecsInv(u, links, execs)
    requires LoopTheorems.Reachable(c, s) && k < |execs| && k < |s.store.clones| && i < |names|
    requires links[i].cursor <= |u.link[i]| && names[i] in s.store.sets
    requires var got, stored := Delivered(u, links, i), Texts(s.store.sets[names[i]], data);
      got <= stored || stored <= got
    ensures names[i] in s.store.clones[k] && i < |execs[k].buffers|
    ensures Texts(Vals(s.store.clones[k][names[i]]), data) == execs[k].buffers[i]
  {
    hide LoopTheorems.Reachable, LoopTheorems.Stride, T.Shift, T.LinksInv, Names, SpecOf, T.SetupFits, ValidConfig, T.Values;
    SameStride(u, c, names, i);
    LoopTheorems.ClonesByStride(c, s, names[i], k);
    assert T.Committed(u, k, links, execs[k]);
  }

  /** On equal streams both have executed the same number of times. */
  lemma SameNumber(
      u: T.Setup, links: seq<T.Link>, execs: seq<T.Exec>, c: Config, s: LoopSpec.State, names: seq<string>,
      data: Value -> string)
    requires SameTask(u, c, names) && T.LinksInv(u, |execs|, links) && T.ExecsInv(u, links, execs) && !T.AllReady(links)
    requires LoopTheorems.Reachable(c, s) && forall n <- Names(c) :: n in names
    requires forall i :: 0 <= i < |names| ==>
      && links[i].cursor <= |u.link[i]| && names[i] in s.store.sets
      && Delivered(u, links, i) == Texts(s.store.sets[names[i]], data)
    ensures |execs| == |s.store.clones|
  {
    hide LoopTheorems.Reachable, LoopTheorems.Stride, LoopTheorems.Exact, Names, SpecOf, ValidConfig, T.Values, T.IsPart, T.Shift;
    var a, b := |execs|, |s.store.clones|;
    if a < b {
      var i :| 0 <= i < |links| && !links[i].ready;
      SameStride(u, c, names, i);
      assert T.LinkInv(u.policy, u.minfill[i], u.link[i], a, links[i]);
      LoopTheorems.ClonesByStride(c, s, names[i], b - 1);
      Fewer(a, b - 1, T.Shift(u.policy, u.minfill[i]));
    }
    if b < a {
      var n := LoopTheorems.NoneMissingByStride(c, s);
      var i :| 0 <= i < |names| && names[i] == n;
      SameStride(u, c, names, i);
      LastPart(u, links, execs, i);
      Fewer(b, a - 1, T.Shift(u.policy, u.minfill[i]));
    }
  }

  lemma LastPart(u: T.Setup, links: seq<T.Link>, execs: seq<T.Exec>, i: nat)
    requires T.SetupFits(u) && T.ExecsInv(u, links, execs) && execs != [] && i < |links| == |u.link|
    requires links[i].cursor <= |u.link[i]| && u.policy != SwapNew4Old
    ensures (|execs| - 1) * T.Shift(u.policy, u.minfill[i]) + u.minfill[i] <= |Delivered(u, links, i)|
  {
    assert T.Committed(u, |execs| - 1, links, execs[|execs| - 1]);
  }

  lemma Fewer(a: nat, b: nat, stride: int)
    requires a <= b && stride >= 1
    ensures a * stride <= b * stride
  {
  }
}
