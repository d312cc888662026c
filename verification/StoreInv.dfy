/** What every mutex-held region keeps of the store. */
module StoreInv {
  import opened Common
  import opened SnapshotSpec
  import opened Windows
  import opened LoopSpec

  /** The clones as one input sees them. */
  function Column(clones: seq<Clone>, n: string): (r: seq<seq<Entry>>)
    ensures |r| == |clones|
    ensures forall k :: 0 <= k < |clones| ==> r[k] == if n in clones[k] then clones[k][n] else []
  {
    seq(|clones|, k requires 0 <= k < |clones| => if n in clones[k] then clones[k][n] else [])
  }

  ghost predicate LiveInv(c: Config, live: Members) {
    && live.Keys <= Names(c)
    && forall n <- live :: live[n].min == SpecOf(c, n).min && |live[n].entries| <= SpecOf(c, n).max
  }

  ghost predicate ClonesInv(c: Config, clones: seq<Clone>) {
    forall k :: 0 <= k < |clones| ==>
      && clones[k].Keys == Names(c)
      && forall n <- Names(c) :: SpecOf(c, n).min <= |clones[k][n]| <= SpecOf(c, n).max
  }

  ghost predicate StreamInv(c: Config, s: Store, n: string)
    requires n in Names(c) && n in s.sets
  {
    InputInv(c.policy, SpecOf(c, n).slide, Column(s.clones, n), SeqOf(s.live, n), s.sets[n])
  }

  /** An input below its minimum. */
  ghost predicate Short(c: Config, live: Members, n: string)
    requires n in Names(c)
  {
    |SeqOf(live, n)| < SpecOf(c, n).min
  }

  /** Someone is below the minimum, except after a clone under SwapNew4Old: then nobody is. */
  ghost predicate ShortInv(c: Config, s: Store) {
    if c.policy == SwapNew4Old && s.clones != []
    then forall n <- Names(c) :: !Short(c, s.live, n)
    else exists n <- Names(c) :: Short(c, s.live, n)
  }

  ghost predicate Inv(c: Config, s: Store) {
    && LiveInv(c, s.live)
    && ClonesInv(c, s.clones)
    && s.sets.Keys == Names(c)
    && (forall n <- Names(c) :: StreamInv(c, s, n))
    && ShortInv(c, s)
    && s.skipped == 0
  }

  lemma InitHolds(c: Config)
    requires ValidConfig(c)
    ensures Inv(c, Init(c).store)
  {
    var n := SomeInput(c);
    assert Short(c, map[], n);
  }

  // ---------------------------------------------------------------- setting a value

  /** The state after Set, before readiness is looked at. */
  ghost function Mid(c: Config, s: Store, name: string, v: Value): Store
    requires name in Names(c) && name in s.sets
  {
    Store(AfterSet(c, s, name, v), s.sets[name := s.sets[name] + [v]], s.clones,
          s.skipped + Evictions(|SeqOf(s.live, name)|, SpecOf(c, name).max))
  }

  lemma AfterSetSeq(c: Config, s: Store, name: string, v: Value, n: string)
    requires name in Names(c) && HasRoom(c, s, name)
    ensures SeqOf(AfterSet(c, s, name, v), n)
         == if n == name then SeqOf(s.live, n) + [Entry(v, Some(v.source))] else SeqOf(s.live, n)
  {
  }

  lemma SetLive(c: Config, s: Store, name: string, v: Value)
    requires LiveInv(c, s.live) && name in Names(c) && HasRoom(c, s, name)
    ensures LiveInv(c, AfterSet(c, s, name, v))
  {
  }

  lemma SetStreams(c: Config, s: Store, name: string, v: Value, n: string)
    requires name in Names(c) && HasRoom(c, s, name) && n in Names(c) && s.sets.Keys == Names(c)
    requires StreamInv(c, s, n)
    ensures StreamInv(c, Mid(c, s, name, v), n)
  {
    AfterSetSeq(c, s, name, v, n);
    if n == name {
      StoreKeeps(c.policy, SpecOf(c, n).slide, Column(s.clones, n), SeqOf(s.live, n), s.sets[n], v);
    }
  }

  // ---------------------------------------------------------------- taking a clone

  lemma ReadyMeans(c: Config, live: Members)
    requires LiveInv(c, live)
    ensures Ready(live, |Names(c)|) <==> forall n <- Names(c) :: n in live && !Short(c, live, n)
    ensures Ready(live, |Names(c)|) ==> live.Keys == Names(c)
  {
    if Ready(live, |Names(c)|) {
      SameSize(live.Keys, Names(c));
    }
    if forall n <- Names(c) :: n in live && !Short(c, live, n) {
      assert live.Keys == Names(c);
    }
  }

  lemma SameSize(a: set<string>, b: set<string>)
    requires a <= b && |a| == |b|
    ensures a == b
  {
    assert |b - a| == |b| - |a|;
  }

  lemma CutStreams(c: Config, s: Store, n: string)
    requires LiveInv(c, s.live) && s.live.Keys == Names(c) == s.sets.Keys && n in Names(c) && StreamInv(c, s, n)
    ensures StreamInv(c, s.(live := Prepared(c, s.live), clones := s.clones + [Contents(s.live)]), n)
  {
    var col := Column(s.clones, n);
    assert Column(s.clones + [Contents(s.live)], n) == col + [SeqOf(s.live, n)];
    PreparedSeq(c, s.live, n);
    CutKeeps(c.policy, SpecOf(c, n).slide, col, SeqOf(s.live, n), s.sets[n]);
  }

  lemma CutClones(c: Config, live: Members, clones: seq<Clone>)
    requires LiveInv(c, live) && live.Keys == Names(c) && forall n <- Names(c) :: !Short(c, live, n)
    requires ClonesInv(c, clones)
    ensures ClonesInv(c, clones + [Contents(live)]) && LiveInv(c, Prepared(c, live))
  {
    assert forall n <- Names(c) :: n in Contents(live) && Contents(live)[n] == live[n].entries;
  }

  /**
   Before the value came someone was short; if now nobody is, it was the input just
   served, which reached its minimum exactly, so that preparing it leaves it short.
   */
  lemma CutShort(c: Config, s: Store, name: string, v: Value)
    requires ValidConfig(c) && Inv(c, s) && name in Names(c) && HasRoom(c, s, name)
    requires c.policy != SwapNew4Old
    requires forall n <- Names(c) :: !Short(c, AfterSet(c, s, name, v), n)
    requires LiveInv(c, AfterSet(c, s, name, v))
    ensures Short(c, Prepared(c, AfterSet(c, s, name, v)), name)
  {
    hide Prepared, StreamInv, ClonesInv, AfterSet, HasRoom, Names, SpecOf, ValidConfig;
    var live := AfterSet(c, s, name, v);
    var m :| m in Names(c) && Short(c, s.live, m);
    AfterSetSeq(c, s, name, v, m);
    assert m == name;
    BoundsFit(c, name);
    PreparedSeq(c, live, name);
  }

  lemma BoundsFit(c: Config, name: string)
    requires ValidConfig(c) && name in Names(c)
    ensures 1 <= SpecOf(c, name).min <= SpecOf(c, name).max && SpecOf(c, name).slide >= 1
  {
    assert SpecOf(c, name) in c.task;
  }

  /** Under SwapNew4Old the live sequences keep their lengths. */
  lemma CutFull(c: Config, live: Members)
    requires LiveInv(c, live) && c.policy == SwapNew4Old && forall n <- Names(c) :: !Short(c, live, n)
    ensures forall n <- Names(c) :: !Short(c, Prepared(c, live), n)
  {
    hide Prepared;
    forall n | n in Names(c)
      ensures !Short(c, Prepared(c, live), n)
    {
      PreparedSeq(c, live, n);
    }
  }

  // ---------------------------------------------------------------- the whole region

  /** The store once a clone of s was taken and s was prepared. */
  function Cut(c: Config, s: Store): Store
    requires s.live.Keys <= Names(c)
  {
    Store(Prepared(c, s.live), s.sets, s.clones + [Contents(s.live)], s.skipped)
  }

  lemma MidStreams(c: Config, s: Store, name: string, v: Value)
    requires Inv(c, s) && name in Names(c) && HasRoom(c, s, name)
    ensures forall n <- Names(c) :: StreamInv(c, Mid(c, s, name, v), n)
  {
    hide StreamInv, LiveInv, ClonesInv, ShortInv;
    forall n | n in Names(c)
      ensures StreamInv(c, Mid(c, s, name, v), n)
    {
      SetStreams(c, s, name, v, n);
    }
  }

  lemma CutAllStreams(c: Config, s: Store)
    requires LiveInv(c, s.live) && s.live.Keys == Names(c) == s.sets.Keys
    requires forall n <- Names(c) :: StreamInv(c, s, n)
    ensures forall n <- Names(c) :: StreamInv(c, Cut(c, s), n)
  {
    hide StreamInv;
    forall n | n in Names(c)
      ensures StreamInv(c, Cut(c, s), n)
    {
      CutStreams(c, s, n);
    }
  }

  lemma LiveKeys(c: Config, live: Members)
    requires LiveInv(c, live)
    ensures live.Keys <= Names(c)
  {
  }

  lemma PutReady(c: Config, s: Store, name: string, v: Value)
    requires ValidConfig(c) && Inv(c, s) && name in Names(c) && HasRoom(c, s, name)
    requires Ready(AfterSet(c, s, name, v), |Names(c)|)
    ensures Inv(c, PutValue(c, s, name, v))
  {
    hide StreamInv, LiveInv, ClonesInv, Prepared, AfterSet, Ready, Names, SpecOf, ValidConfig;
    LiveKeys(c, s.live);
    var mid := Mid(c, s, name, v);
    SetLive(c, s, name, v);
    ReadyMeans(c, mid.live);
    MidStreams(c, s, name, v);
    CutAllStreams(c, mid);
    CutClones(c, mid.live, s.clones);
    if c.policy == SwapNew4Old { CutFull(c, mid.live); } else { CutShort(c, s, name, v); }
    assert PutValue(c, s, name, v) == Cut(c, mid);
  }

  lemma PutKeeps(c: Config, s: Store, name: string, v: Value)
    requires ValidConfig(c) && Inv(c, s) && name in Names(c) && HasRoom(c, s, name)
    ensures Inv(c, PutValue(c, s, name, v))
  {
    hide StreamInv, LiveInv, ClonesInv, Prepared, AfterSet, Ready, Names, SpecOf, ValidConfig;
    LiveKeys(c, s.live);
    if Ready(AfterSet(c, s, name, v), |Names(c)|) {
      PutReady(c, s, name, v);
    } else {
      SetLive(c, s, name, v);
      NotReadyShort(c, s, name, v);
      MidStreams(c, s, name, v);
      assert PutValue(c, s, name, v) == Mid(c, s, name, v);
    }
  }

  lemma NotReadyShort(c: Config, s: Store, name: string, v: Value)
    requires ValidConfig(c) && Inv(c, s) && name in Names(c) && HasRoom(c, s, name)
    requires !Ready(AfterSet(c, s, name, v), |Names(c)|)
    ensures ShortInv(c, Mid(c, s, name, v))
  {
    var live := AfterSet(c, s, name, v);
    SetLive(c, s, name, v);
    ReadyMeans(c, live);
    var m :| m in Names(c) && (m !in live || Short(c, live, m));
    assert SpecOf(c, m) in c.task;
    assert Short(c, live, m);
    AfterSetSeq(c, s, name, v, m);
    assert Short(c, s.live, m);
  }
}
