/**
 Where the acknowledgement of a stored value is.  Every value's callback has exactly one
 owner at any time: the live snapshot or one clone; an owner's execution invokes it at
 most once, and only after that execution succeeded.
 */
module AckTheorems {
  import opened Common
  import opened SnapshotSpec
  import opened Windows
  import opened LoopSpec
  import opened StoreInv
  import opened LoopTheorems
  import ExecInv
  import LoopInv
  import RunFacts

  // ---------------------------------------------------------------- carrying a callback

  /** es holds v together with a callback. */
  ghost predicate Carries(es: seq<Entry>, v: Value) {
    exists e <- es :: e.val == v && e.ack.Some?
  }

  ghost predicate CloneCarries(clone: Clone, v: Value) {
    exists n <- clone :: Carries(clone[n], v)
  }

  ghost predicate LiveCarries(live: Members, v: Value) {
    exists n <- live :: Carries(live[n].entries, v)
  }

  /** Facts about the streams that make a value's place unique. */
  ghost predicate Streams(c: Config, s: State) {
    && Shape(c, s)
    && (forall n <- Names(c) :: StreamInv(c, s.store, n) && LoopInv.IdInv(c, s.received, n, s.store.sets[n]))
    && (forall k :: 0 <= k < |s.store.clones| ==> s.store.clones[k].Keys == Names(c))
  }

  lemma ReachableStreams(c: Config, s: State)
    requires ValidConfig(c) && Reachable(c, s)
    ensures Streams(c, s)
  {
    hide StreamInv, LiveInv, ShortInv, Run, LoopInv.IdInv, ExecInv.Inv;
    ReachableInv(c, s);
  }

  /** A value occurs in one stream only, at one position. */
  lemma OnePlace(c: Config, s: State, n: string, i: nat, m: string, j: nat)
    requires Streams(c, s) && n in Names(c) && m in Names(c)
    requires i < |s.store.sets[n]| && j < |s.store.sets[m]| && s.store.sets[n][i] == s.store.sets[m][j]
    ensures n == m && i == j
  {
    hide StreamInv, Names;
    assert LoopInv.IdInv(c, s.received, n, s.store.sets[n]) && LoopInv.IdInv(c, s.received, m, s.store.sets[m]);
  }

  /** The clones of input n as a column, with what surrounds it. */
  lemma CarriedInColumn(
      p: SnapshotPolicy, slide: nat, col: seq<seq<Entry>>, live: seq<Entry>, stream: seq<Value>, k: nat, i: nat)
    requires InputInv(p, slide, col, live, stream) && k < |col| && i < |stream|
    requires forall a, b :: 0 <= a < b < |stream| ==> stream[a] != stream[b]
    ensures Carries(col[k], stream[i]) <==> FirstToShow(p, slide, col, k, i)
  {
    var a := Start(p, slide, col[..k]);
    NoGap(p, slide, col, k);
    assert CloneInv(p, slide, col, k, stream);
    if Carries(col[k], stream[i]) {
      var j :| 0 <= j < |col[k]| && col[k][j].val == stream[i] && col[k][j].ack.Some?;
      CallbackInFirst(p, slide, col, live, stream, k, j);
      assert a + j == i;
    }
    if FirstToShow(p, slide, col, k, i) {
      StartBeforeEnd(p, slide, col[..k]);
      CallbackInFirst(p, slide, col, live, stream, k, i - a);
      assert col[k][i - a] in col[k];
    }
  }

  lemma StartBeforeEnd(p: SnapshotPolicy, slide: nat, col: seq<seq<Entry>>)
    ensures Start(p, slide, col) <= LastEnd(p, slide, col)
  {
  }

  lemma CarriedLive(p: SnapshotPolicy, slide: nat, col: seq<seq<Entry>>, live: seq<Entry>, stream: seq<Value>, i: nat)
    requires InputInv(p, slide, col, live, stream) && i < |stream|
    requires forall a, b :: 0 <= a < b < |stream| ==> stream[a] != stream[b]
    ensures Carries(live, stream[i]) <==> LastEnd(p, slide, col) <= i
  {
    var a := Start(p, slide, col);
    StartBeforeEnd(p, slide, col);
    if Carries(live, stream[i]) {
      var j :| 0 <= j < |live| && live[j].val == stream[i] && live[j].ack.Some?;
      assert a + j == i;
    }
    if LastEnd(p, slide, col) <= i {
      assert live[i - a] in live;
    }
  }

  // ---------------------------------------------------------------- one owner

  lemma InStream(c: Config, s: State, k: nat, m: string, v: Value) returns (j: nat)
    requires Streams(c, s) && k < |s.store.clones| && m in Names(c) && exists e <- s.store.clones[k][m] :: e.val == v
    ensures j < |s.store.sets[m]| && s.store.sets[m][j] == v
  {
    hide Names, LoopInv.IdInv, Start, LastEnd;
    var col := Column(s.store.clones, m);
    assert StreamInv(c, s.store, m);
    var sl := SpecOf(c, m).slide;
    assert CloneInv(c.policy, sl, col, k, s.store.sets[m]);
    var i :| 0 <= i < |col[k]| && col[k][i].val == v;
    j := Start(c.policy, sl, col[..k]) + i;
  }

  lemma InStreamLive(c: Config, s: State, m: string, v: Value) returns (j: nat)
    requires Streams(c, s) && m in Names(c) && m in s.store.live && exists e <- s.store.live[m].entries :: e.val == v
    ensures j < |s.store.sets[m]| && s.store.sets[m][j] == v
  {
    hide Names, LoopInv.IdInv, Start, LastEnd;
    assert StreamInv(c, s.store, m);
    var live := s.store.live[m].entries;
    var i :| 0 <= i < |live| && live[i].val == v;
    j := Start(c.policy, SpecOf(c, m).slide, Column(s.store.clones, m)) + i;
  }

  lemma DistinctStream(c: Config, s: State, n: string)
    requires Streams(c, s) && n in Names(c)
    ensures forall a, b :: 0 <= a < b < |s.store.sets[n]| ==> s.store.sets[n][a] != s.store.sets[n][b]
  {
    hide StreamInv, Names;
    assert LoopInv.IdInv(c, s.received, n, s.store.sets[n]);
  }

  /** Clone k carries the callback of stream position (n, i) exactly when it is the first to show it. */
  lemma CloneCarriesWhen(c: Config, s: State, k: nat, n: string, i: nat)
    requires Streams(c, s) && k < |s.store.clones| && n in Names(c) && i < |s.store.sets[n]|
    ensures CloneCarries(s.store.clones[k], s.store.sets[n][i])
       <==> FirstToShow(c.policy, SpecOf(c, n).slide, Column(s.store.clones, n), k, i)
  {
    hide Names, LoopInv.IdInv, FirstToShow, SpecOf;
    var clone, v := s.store.clones[k], s.store.sets[n][i];
    DistinctStream(c, s, n);
    assert StreamInv(c, s.store, n);
    CarriedInColumn(c.policy, SpecOf(c, n).slide, Column(s.store.clones, n), SeqOf(s.store.live, n), s.store.sets[n], k, i);
    forall m | m in clone && Carries(clone[m], v)
      ensures m == n
    {
      var j := InStream(c, s, k, m, v);
      OnePlace(c, s, n, i, m, j);
    }
  }

  lemma LiveCarriesWhen(c: Config, s: State, n: string, i: nat)
    requires Streams(c, s) && n in Names(c) && i < |s.store.sets[n]|
    ensures LiveCarries(s.store.live, s.store.sets[n][i])
       <==> LastEnd(c.policy, SpecOf(c, n).slide, Column(s.store.clones, n)) <= i
  {
    hide Names, LoopInv.IdInv, LastEnd, SpecOf;
    var live, v := s.store.live, s.store.sets[n][i];
    DistinctStream(c, s, n);
    assert StreamInv(c, s.store, n);
    CarriedLive(c.policy, SpecOf(c, n).slide, Column(s.store.clones, n), SeqOf(live, n), s.store.sets[n], i);
    forall m | m in live && Carries(live[m].entries, v)
      ensures m == n
    {
      var j := InStreamLive(c, s, m, v);
      OnePlace(c, s, n, i, m, j);
    }
  }

  /** The callback of a stored value is in the live snapshot or in one clone, never in two places. */
  lemma OneOwner(c: Config, s: State, n: string, i: nat) returns (k: nat)
    requires Streams(c, s) && n in Names(c) && i < |s.store.sets[n]|
    ensures var v := s.store.sets[n][i];
      if LiveCarries(s.store.live, v) then forall l :: 0 <= l < |s.store.clones| ==> !CloneCarries(s.store.clones[l], v)
      else k < |s.store.clones|
           && forall l :: 0 <= l < |s.store.clones| ==> (CloneCarries(s.store.clones[l], v) <==> l == k)
  {
    hide Names, LoopInv.IdInv, LastEnd, SpecOf, CloneCarries, LiveCarries, Start;
    var col, p, sl := Column(s.store.clones, n), c.policy, SpecOf(c, n).slide;
    LiveCarriesWhen(c, s, n, i);
    assert StreamInv(c, s.store, n);
    assert col[..|col|] == col;
    k := 0;
    if i < LastEnd(p, sl, col) {
      k := FirstExists(p, sl, col, |col|, i);
    }
    forall l | 0 <= l < |s.store.clones|
      ensures CloneCarries(s.store.clones[l], s.store.sets[n][i]) <==> l == k && i < LastEnd(p, sl, col)
    {
      CloneCarriesWhen(c, s, l, n, i);
      if FirstToShow(p, sl, col, l, i) {
        FirstIsUnique(p, sl, col, SeqOf(s.store.live, n), s.store.sets[n], l, l, i);
        FirstIsUnique(p, sl, col, SeqOf(s.store.live, n), s.store.sets[n], l, k, i);
      }
    }
  }

  // ---------------------------------------------------------------- what AckAll works through

  ghost predicate Asks(e: Entry, p: (Watcher, Value)) {
    e.ack == Some(p.0) && e.val == p.1
  }

  lemma {:induction false} OwedMembers(es: seq<Entry>, p: (Watcher, Value))
    ensures p in Owed(es) <==> exists e <- es :: Asks(e, p)
  {
    if es != [] {
      OwedMembers(es[1..], p);
      assert forall e :: e in es <==> e == es[0] || e in es[1..];
      assert Asks(es[0], p) <==> es[0].ack.Some? && (es[0].ack.value, es[0].val) == p;
    }
  }

  lemma {:induction false} OwedDistinct(es: seq<Entry>)
    requires forall i, j :: 0 <= i < j < |es| ==> es[i].val != es[j].val
    ensures NoRepeats(Owed(es))
  {
    if es != [] {
      OwedDistinct(es[1..]);
      if es[0].ack.Some? {
        forall j | 0 <= j < |Owed(es[1..])|
          ensures Owed(es[1..])[j].1 != es[0].val
        {
          OwedMembers(es[1..], Owed(es[1..])[j]);
        }
      }
    }
  }

  ghost predicate NoRepeats(todo: seq<(Watcher, Value)>) {
    forall i, j :: 0 <= i < j < |todo| ==> todo[i].1 != todo[j].1
  }

  ghost predicate CloneAsks(clone: Clone, names: seq<string>, p: (Watcher, Value))
    requires forall n <- names :: n in clone
  {
    exists n <- names :: exists e <- clone[n] :: Asks(e, p)
  }

  lemma {:induction false} AckListMembers(clone: Clone, order: seq<string>, p: (Watcher, Value))
    requires forall n <- order :: n in clone
    ensures p in AckList(clone, order) <==> CloneAsks(clone, order, p)
  {
    if order != [] {
      OwedMembers(clone[order[0]], p);
      AckListMembers(clone, order[1..], p);
      assert order == [order[0]] + order[1..];
    }
  }

  /** Every value occurs at most once in a clone, and is acknowledged by its own watcher. */
  ghost predicate Proper(clone: Clone) {
    && (forall n <- clone, m <- clone :: forall i, j ::
         0 <= i < |clone[n]| && 0 <= j < |clone[m]| && clone[n][i].val == clone[m][j].val ==> n == m && i == j)
    && (forall n <- clone :: forall e <- clone[n] :: e.ack.Some? ==> e.ack.value == e.val.source)
  }

  lemma {:induction false} AckListDistinct(clone: Clone, order: seq<string>)
    requires Proper(clone) && (forall n <- order :: n in clone)
    requires forall i, j :: 0 <= i < j < |order| ==> order[i] != order[j]
    ensures NoRepeats(AckList(clone, order))
  {
    if order != [] {
      var first, rest := Owed(clone[order[0]]), AckList(clone, order[1..]);
      OwedDistinct(clone[order[0]]);
      AckListDistinct(clone, order[1..]);
      forall i, j | 0 <= i < |first| && 0 <= j < |rest|
        ensures first[i].1 != rest[j].1
      {
        OwedMembers(clone[order[0]], first[i]);
        AckListMembers(clone, order[1..], rest[j]);
      }
    }
  }

  /** The list of an execution: the clone's callbacks, each once, each its own watcher's. */
  lemma TodoFacts(clone: Clone, todo: seq<(Watcher, Value)>)
    requires Proper(clone) && ExecInv.IsTodo(clone, todo)
    ensures NoRepeats(todo)
    ensures forall p <- todo :: p.0 == p.1.source && CloneCarries(clone, p.1)
    ensures forall v :: CloneCarries(clone, v) ==> (v.source, v) in todo
  {
    hide AckList, NoRepeats;
    var order :| IsOrder(clone, order) && todo == AckList(clone, order);
    AckListDistinct(clone, order);
    forall p: (Watcher, Value) | p in todo
      ensures p.0 == p.1.source && CloneCarries(clone, p.1)
    {
      AckListMembers(clone, order, p);
    }
    forall v | CloneCarries(clone, v)
      ensures (v.source, v) in todo
    {
      AckListMembers(clone, order, (v.source, v));
      var n :| n in clone && Carries(clone[n], v);
      var e :| e in clone[n] && e.val == v && e.ack.Some?;
      assert n in order && Asks(e, (v.source, v));
    }
  }

  lemma ClonesProper(c: Config, s: State, k: nat)
    requires Streams(c, s) && k < |s.store.clones|
    ensures Proper(s.store.clones[k])
  {
    hide Names, LoopInv.IdInv, SpecOf, Start, LastEnd;
    var clone: Clone := s.store.clones[k];
    forall n: string, m: string, i: nat, j: nat | n in clone && m in clone && i < |clone[n]| && j < |clone[m]|
                        && clone[n][i].val == clone[m][j].val
      ensures n == m && i == j
    {
      var a := PositionOf(c, s, k, n, i);
      var b := PositionOf(c, s, k, m, j);
      OnePlace(c, s, n, a, m, b);
    }
    forall n: string, e: Entry | n in clone && e in clone[n] && e.ack.Some?
      ensures e.ack.value == e.val.source
    {
      var i :| 0 <= i < |clone[n]| && clone[n][i] == e;
      var a := PositionOf(c, s, k, n, i);
    }
  }

  /** The stream position that entry i of input n in clone k shows. */
  lemma PositionOf(c: Config, s: State, k: nat, n: string, i: nat) returns (a: nat)
    requires Streams(c, s) && k < |s.store.clones| && n in s.store.clones[k] && i < |s.store.clones[k][n]|
    ensures n in Names(c) && n in s.store.sets
    ensures a < |s.store.sets[n]| && s.store.clones[k][n][i].val == s.store.sets[n][a]
    ensures s.store.clones[k][n][i].ack.Some? ==> s.store.clones[k][n][i].ack.value == s.store.sets[n][a].source
    ensures a == Start(c.policy, SpecOf(c, n).slide, Column(s.store.clones, n)[..k]) + i
  {
    hide Names, SpecOf, Start, LastEnd, LoopInv.IdInv;
    var col := Column(s.store.clones, n);
    assert StreamInv(c, s.store, n);
    assert CloneInv(c.policy, SpecOf(c, n).slide, col, k, s.store.sets[n]);
    a := Start(c.policy, SpecOf(c, n).slide, col[..k]) + i;
  }

  // ---------------------------------------------------------------- conservation

  /** Where the callback of a stored value can be. */
  datatype Place = InLive | InClone(k: nat) | Invoked(k: nat) | GivenUp(k: nat)

  /** Of a list of acknowledgements the first n have been sent; v is among the rest. */
  ghost predicate Unsent(todo: seq<(Watcher, Value)>, n: nat, v: Value)
  {
    n <= |todo| && (v.source, v) in todo[n..]
  }

  /** Of the first n callbacks of clone k, the last one failed. */
  ghost predicate LastFailed(log: seq<Event>, k: nat, n: nat) {
    exists e <- log :: e.AckCalled? && e.k == k && e.n == n - 1 && !e.ok
  }

  ghost predicate IsAt(s: State, v: Value, place: Place)
    requires |s.exec.phases| == |s.store.clones|
  {
    match place
    case InLive => LiveCarries(s.store.live, v)
    case InClone(k) =>
      && k < |s.store.clones| && CloneCarries(s.store.clones[k], v)
      && (s.exec.phases[k].Queued? || s.exec.phases[k].Launched? || s.exec.phases[k].Running?
          || (s.exec.phases[k].Acking? && Unsent(s.exec.phases[k].todo, s.exec.phases[k].n, v)))
    case Invoked(k) => exists e <- s.exec.log :: e.AckCalled? && e.k == k && e.val == v && e.callback == v.source
    case GivenUp(k) =>
      && k < |s.store.clones| && CloneCarries(s.store.clones[k], v)
      && (s.exec.phases[k].Returning? || s.exec.phases[k].Finished?)
      && (!s.exec.phases[k].ok
          || (Unsent(s.exec.phases[k].todo, s.exec.phases[k].n, v) && LastFailed(s.exec.log, k, s.exec.phases[k].n)))
  }

  /** An acknowledgement in the log is one its clone carried; its place in the list is before n. */
  lemma LoggedAck(c: Config, s: State, j: nat)
    requires Streams(c, s) && ExecInv.Inv(c, s.store.clones, s.exec)
    requires j < |s.exec.log| && s.exec.log[j].AckCalled?
    ensures var e := s.exec.log[j];
      && e.k < |s.store.clones| && CloneCarries(s.store.clones[e.k], e.val) && e.callback == e.val.source
      && ExecInv.Success(s.exec.phases[e.k])
      && ExecInv.IsTodo(s.store.clones[e.k], s.exec.phases[e.k].todo)
      && e.n < s.exec.phases[e.k].n <= |s.exec.phases[e.k].todo| && s.exec.phases[e.k].todo[e.n] == (e.callback, e.val)
  {
    hide Names, Streams, ExecInv.CountersInv, ExecInv.LaunchInv, ExecInv.IsTodo, ExecInv.PhaseLogged;
    var e := s.exec.log[j];
    assert ExecInv.EventOk(s.exec.log, s.exec.phases, j);
    assert ExecInv.PhaseInv(s.store.clones[e.k], s.exec.phases[e.k]);
    ClonesProper(c, s, e.k);
    TodoFacts(s.store.clones[e.k], s.exec.phases[e.k].todo);
    assert (e.callback, e.val) in s.exec.phases[e.k].todo;
  }

  /** The place within the life of clone k, which carries v. */
  lemma PlaceInClone(c: Config, s: State, k: nat, v: Value) returns (place: Place)
    requires Streams(c, s) && ExecInv.Inv(c, s.store.clones, s.exec)
    requires RunFacts.OutcomeInv(s.exec.log, s.exec.phases)
    requires k < |s.store.clones| && CloneCarries(s.store.clones[k], v)
    ensures IsAt(s, v, place) && (place == InClone(k) || place == Invoked(k) || place == GivenUp(k))
    ensures forall q :: IsAt(s, v, q) && (q == InClone(k) || q == Invoked(k) || q == GivenUp(k)) ==> q == place
  {
    hide Names, Streams, ExecInv.CountersInv, ExecInv.LaunchInv, ExecInv.IsTodo, CloneCarries, RunFacts.OutcomeInv, LastFailed;
    var x := s.exec.phases[k];
    assert ExecInv.PhaseInv(s.store.clones[k], x) && ExecInv.PhaseLogged(s.exec.log, k, x);
    if ExecInv.Success(x) {
      ClonesProper(c, s, k);
      TodoFacts(s.store.clones[k], x.todo);
      var n :| 0 <= n < |x.todo| && x.todo[n] == (v.source, v);
      SentOrUnsent(x.todo, x.n, n, v);
      InvokedWhenSent(c, s, k, n, v);
      FailureLogged(s, k);
      place := if n < x.n then Invoked(k) else if x.Acking? then InClone(k) else GivenUp(k);
    } else {
      NotInvoked(c, s, k, v);
      place := if ExecInv.Failure(x) then GivenUp(k) else InClone(k);
    }
  }

  /** Where callbacks of a success were left uninvoked, the last one invoked had failed. */
  lemma FailureLogged(s: State, k: nat)
    requires RunFacts.OutcomeInv(s.exec.log, s.exec.phases) && k < |s.exec.phases|
    ensures var x := s.exec.phases[k];
      (x.Returning? || x.Finished?) && x.ok && x.n < |x.todo| ==> LastFailed(s.exec.log, k, x.n)
  {
    assert RunFacts.StopsAtFailure(s.exec.log, k, s.exec.phases[k]);
  }

  lemma SentOrUnsent(todo: seq<(Watcher, Value)>, sent: nat, n: nat, v: Value)
    requires NoRepeats(todo) && sent <= |todo| && n < |todo| && todo[n] == (v.source, v)
    ensures Unsent(todo, sent, v) <==> sent <= n
  {
    if sent <= n { assert todo[sent..][n - sent] == todo[n]; }
  }

  lemma InvokedWhenSent(c: Config, s: State, k: nat, n: nat, v: Value)
    requires Streams(c, s) && ExecInv.Inv(c, s.store.clones, s.exec)
    requires k < |s.store.clones| && ExecInv.Success(s.exec.phases[k]) && NoRepeats(s.exec.phases[k].todo)
    requires n < |s.exec.phases[k].todo| && s.exec.phases[k].todo[n] == (v.source, v)
    ensures IsAt(s, v, Invoked(k)) <==> n < s.exec.phases[k].n
  {
    hide Names, Streams, ExecInv.CountersInv, ExecInv.LaunchInv, ExecInv.IsTodo, CloneCarries, ExecInv.EventOk;
    if n < s.exec.phases[k].n {
      assert ExecInv.PhaseLogged(s.exec.log, k, s.exec.phases[k]);
      assert ExecInv.AckLogged(s.exec.log, k, n);
      var j :| 0 <= j < |s.exec.log| && ExecInv.IsAck(s.exec.log[j], k, n);
      LoggedAck(c, s, j);
    }
    if IsAt(s, v, Invoked(k)) {
      var j :| 0 <= j < |s.exec.log| && s.exec.log[j].AckCalled? && s.exec.log[j].k == k && s.exec.log[j].val == v;
      LoggedAck(c, s, j);
      assert s.exec.log[j].n == n;
    }
  }

  lemma NotInvoked(c: Config, s: State, k: nat, v: Value)
    requires Streams(c, s) && ExecInv.Inv(c, s.store.clones, s.exec)
    requires k < |s.store.clones| && !ExecInv.Success(s.exec.phases[k])
    ensures !IsAt(s, v, Invoked(k))
  {
    hide Names, Streams, ExecInv.CountersInv, ExecInv.LaunchInv, ExecInv.LogInv, ExecInv.PhaseInv;
    if IsAt(s, v, Invoked(k)) {
      var j :| 0 <= j < |s.exec.log| && s.exec.log[j].AckCalled? && s.exec.log[j].k == k && s.exec.log[j].val == v;
      LoggedAck(c, s, j);
      assert false;
    }
  }

  /**
   In every reachable state, under every policy and interleaving, the acknowledgement of
   every stored value is in exactly one place.
   */
  lemma AckConservation(c: Config, s: State, n: string, i: nat) returns (place: Place)
    requires ValidConfig(c) && Reachable(c, s) && n in Names(c) && n in s.store.sets && i < |s.store.sets[n]|
    ensures |s.exec.phases| == |s.store.clones|
    ensures IsAt(s, s.store.sets[n][i], place)
    ensures forall q :: IsAt(s, s.store.sets[n][i], q) ==> q == place
  {
    hide Names, ValidConfig, Reachable, Streams, ExecInv.Inv, CloneCarries, LiveCarries, RunFacts.OutcomeInv;
    ReachableStreams(c, s);
    ExecFacts(c, s);
    RunFacts.ReachableOutcomes(c, s);
    var v := s.store.sets[n][i];
    var k := OneOwner(c, s, n, i);
    forall q | IsAt(s, v, q) && !q.InLive?
      ensures q.k < |s.store.clones| && CloneCarries(s.store.clones[q.k], v)
    {
      if q.Invoked? {
        var j :| 0 <= j < |s.exec.log| && s.exec.log[j].AckCalled? && s.exec.log[j].k == q.k && s.exec.log[j].val == v;
        LoggedAck(c, s, j);
      }
    }
    if LiveCarries(s.store.live, v) {
      place := InLive;
    } else {
      place := PlaceInClone(c, s, k, v);
    }
  }

  /** No callback is invoked twice for a value. */
  lemma InvokedAtMostOnce(c: Config, s: State, i: nat, j: nat)
    requires ValidConfig(c) && Reachable(c, s) && i < |s.exec.log| && j < |s.exec.log|
    requires s.exec.log[i].AckCalled? && s.exec.log[j].AckCalled? && s.exec.log[i].val == s.exec.log[j].val
    ensures i == j
  {
    hide Names, ValidConfig, Reachable, Streams, ExecInv.Inv, CloneCarries, ExecInv.IsTodo, NoRepeats;
    ReachableStreams(c, s);
    ExecFacts(c, s);
    LoggedAck(c, s, i);
    LoggedAck(c, s, j);
    var a, b := s.exec.log[i], s.exec.log[j];
    SameClone(c, s, a.k, b.k, a.val);
    ClonesProper(c, s, a.k);
    TodoFacts(s.store.clones[a.k], s.exec.phases[a.k].todo);
    SameIndex(s.exec.phases[a.k].todo, a.n, b.n);
    NoSameEvents(c, s, i, j);
  }

  lemma SameIndex(todo: seq<(Watcher, Value)>, i: nat, j: nat)
    requires NoRepeats(todo) && i < |todo| && j < |todo| && todo[i].1 == todo[j].1
    ensures i == j
  {
  }

  lemma NoSameEvents(c: Config, s: State, i: nat, j: nat)
    requires |s.exec.phases| == |s.store.clones| && ExecInv.Inv(c, s.store.clones, s.exec)
    requires i < |s.exec.log| && j < |s.exec.log| && ExecInv.SameEvent(s.exec.log[i], s.exec.log[j])
    ensures i == j
  {
    hide ExecInv.CountersInv, ExecInv.LaunchInv, ExecInv.PhaseInv, ExecInv.PhaseLogged, ExecInv.EventOk;
    assert ExecInv.SameEvent(s.exec.log[j], s.exec.log[i]);
  }

  /** Two clones do not both carry the callback of one value. */
  lemma SameClone(c: Config, s: State, k: nat, l: nat, v: Value)
    requires Streams(c, s) && k < |s.store.clones| && l < |s.store.clones|
    requires CloneCarries(s.store.clones[k], v) && CloneCarries(s.store.clones[l], v)
    ensures k == l
  {
    hide Names, LoopInv.IdInv, StreamInv;
    var n :| n in s.store.clones[k] && Carries(s.store.clones[k][n], v);
    var i := InStream(c, s, k, n, v);
    var o := OneOwner(c, s, n, i);
  }

  /**
   Every callback invoked is the one its value's own watcher supplied; it was invoked for a
   clone holding the value, after the execution of that clone returned without error and
   was found not cancelled.
   */
  lemma AckFollowsSuccess(c: Config, s: State, j: nat) returns (i: nat)
    requires ValidConfig(c) && Reachable(c, s) && j < |s.exec.log| && s.exec.log[j].AckCalled?
    ensures var e := s.exec.log[j];
      && e.callback == e.val.source && e.k < |s.store.clones| && CloneCarries(s.store.clones[e.k], e.val)
      && i < j && s.exec.log[i] == Executed(e.k, true)
  {
    hide Names, ValidConfig, Reachable, Streams, CloneCarries;
    ReachableStreams(c, s);
    ExecFacts(c, s);
    LoggedAck(c, s, j);
    assert ExecInv.EventOk(s.exec.log, s.exec.phases, j);
    i :| 0 <= i < j && s.exec.log[i] == Executed(s.exec.log[j].k, true);
  }

  /** Step i ran clone k: the executor returned nil, and nothing was cancelled at the check. */
  ghost predicate RanWell(states: seq<State>, steps: seq<Step>, i: nat, k: nat)
    requires i < |steps| && i < |states|
  {
    var ex := states[i].exec;
    && steps[i].Execute? && steps[i].k == k && !steps[i].err
    && k < |ex.phases| && ex.phases[k] == Running(false) && !ex.cancelled
  }

  /** Only the execution itself records a success. */
  lemma SuccessIsNew(c: Config, s: State, step: Step, k: nat)
    requires Shape(c, s) && Enabled(c, s, step)
    requires Executed(k, true) in Next(c, s, step).exec.log && Executed(k, true) !in s.exec.log
    ensures step.Execute? && step.k == k && !step.err && k < |s.exec.phases|
    ensures s.exec.phases[k] == Running(false) && !s.exec.cancelled
  {
    hide PutValue, AckList, HasRoom, CancelRun, Names, Count, ValidConfig;
    if step.Execute? { assert s.exec.phases[step.k] == Running(s.exec.phases[step.k].cancelled); }
  }

  lemma {:induction false} SuccessHasStep(c: Config, states: seq<State>, steps: seq<Step>, m: nat, k: nat) returns (i: nat)
    requires Run(c, states, steps) && m < |states| && Executed(k, true) in states[m].exec.log
    ensures i < m && RanWell(states, steps, i, k)
    decreases m
  {
    hide Next, Enabled, Shape;
    i := 0;
    if m > 0 {
      if Executed(k, true) in states[m - 1].exec.log {
        i := SuccessHasStep(c, states, steps, m - 1, k);
      } else {
        i := m - 1;
        SuccessIsNew(c, states[i], steps[i], k);
      }
    }
  }

  /** Clones are only ever added. */
  lemma {:induction false} ClonesOnlyGrow(c: Config, states: seq<State>, steps: seq<Step>, i: nat, m: nat)
    requires Run(c, states, steps) && i <= m < |states|
    ensures states[i].store.clones <= states[m].store.clones
    decreases m
  {
    hide Next, Enabled, Shape;
    if i < m {
      ClonesOnlyGrow(c, states, steps, i, m - 1);
      StepAddsClones(c, states[m - 1], steps[m - 1]);
    }
  }

  lemma StepAddsClones(c: Config, s: State, step: Step)
    requires Shape(c, s) && Enabled(c, s, step)
    ensures s.store.clones <= Next(c, s, step).store.clones
  {
    hide Prepared, Ready, HasRoom, AfterSet, Handed, Names, Count, ValidConfig, BeginRun, ExecuteRun, SendOne, ReturnRun;
  }

  /**
   Over a whole run: a callback invoked by state m belongs to a clone that carried it when
   an earlier step executed that clone without error and without being cancelled.
   */
  lemma AckNeedsExecution(c: Config, states: seq<State>, steps: seq<Step>, m: nat, j: nat) returns (i: nat)
    requires ValidConfig(c) && Run(c, states, steps) && m < |states|
    requires j < |states[m].exec.log| && states[m].exec.log[j].AckCalled?
    ensures var e := states[m].exec.log[j];
      && i < m && RanWell(states, steps, i, e.k) && e.callback == e.val.source
      && e.k < |states[i].store.clones| && CloneCarries(states[i].store.clones[e.k], e.val)
  {
    hide Names, ValidConfig, CloneCarries, Next, Enabled, Init, LoopInv.Inv;
    var s := states[m];
    var e := s.exec.log[j];
    assert Reachable(c, s);
    var before := AckFollowsSuccess(c, s, j);
    i := SuccessHasStep(c, states, steps, m, e.k);
    ClonesOnlyGrow(c, states, steps, i, m);
    LoopInv.RunInv(c, states, steps, i);
    assert |states[i].exec.phases| == |states[i].store.clones|;
  }

  /** The eviction branch of Add is never taken from the loop. */
  lemma NothingSkipped(c: Config, s: State)
    requires ValidConfig(c) && Reachable(c, s)
    ensures s.store.skipped == 0
  {
    ReachableInv(c, s);
  }
}
