/** Clones keep what they showed when taken, whatever is done to the live snapshot afterwards. */
module CloneSeparation {
  import opened Common
  import opened SnapshotSpec
  import opened Snapshot

  /** What the loop does to the live snapshot. */
  datatype LiveOp =
    | Set(name: string, av: Option<Value>, min: nat, max: nat, st: InputStats, ack: Watcher)
    | Delete(name: string)
    | Slide(name: string, count: nat)
    | RemoveAck(name: string)
    | Clone

  /** b is what an operation may make of a; Set is cut short when a callback fails. */
  ghost predicate Follows(op: LiveOp, a: Members, b: Members) {
    match op
    case Set(name, av, min, max, _, ack) =>
      var p := if name in a then a[name] else Pair([], min);
      exists ok, removed: nat :: IsSet(a, b, name, p, max, ok, removed, av, ack)
    case Delete(name) => b == DeleteIn(a, name)
    case Slide(name, count) => b == SlideIn(a, name, count)
    case RemoveAck(name) => b == ForgetIn(a, name)
    case Clone => b == a
  }

  ghost predicate IsSet(
      a: Members, b: Members, name: string, p: Pair, max: nat, ok: bool, removed: nat, av: Option<Value>, ack: Watcher)
  {
    && (if ok then removed == Evictions(|p.entries|, max) else removed < Evictions(|p.entries|, max))
    && b == a[name := Added(p, removed, if ok then av else None, ack)]
  }

  lemma SetFollows(op: LiveOp, a: Members, b: Members, ok: bool, removed: nat)
    requires op.Set?
    requires var p := if op.name in a then a[op.name] else Pair([], op.min);
      IsSet(a, b, op.name, p, op.max, ok, removed, op.av, op.ack)
    ensures Follows(op, a, b)
  {
  }

  method PerformOne(live: InputSnapshot, op: LiveOp, stats: set<InputStats>, cb: Callbacks)
    requires live.Valid() && !op.Clone? && (op.Set? ==> op.st in stats)
    modifies live.Repr, stats, cb
    ensures live.Valid() && fresh(live.Repr - old(live.Repr))
    ensures Follows(op, old(live.View()), live.View())
  {
    hide InputSnapshot.Valid, InputSnapshot.View, SlideIn, ForgetIn, DeleteIn, Added;
    match op
    case Set(name, av, min, max, st, ack) =>
      ghost var a := live.View();
      var ok;
      ghost var removed;
      ok, removed := live.Set(name, av, min, max, st, ack, cb);
      SetFollows(op, a, live.View(), ok, removed);
    case Delete(name) => live.Delete(name);
    case Slide(name, count) => live.Slide(name, count);
    case RemoveAck(name) => live.RemoveAck(name);
    case Clone => assert false;
  }

  /**
   Any operations on a live snapshot, in any order: at the end every clone taken on the
   way still shows what the live snapshot held at its time, entries and callbacks alike.
   */
  method Perform(live: InputSnapshot, ops: seq<LiveOp>, stats: set<InputStats>, cb: Callbacks)
    returns (clones: map<nat, InputSnapshot>, ghost views: seq<Members>)
    requires live.Valid() && forall op <- ops :: op.Set? ==> op.st in stats
    modifies live.Repr, stats, cb
    ensures live.Valid() && fresh(live.Repr - old(live.Repr))
    ensures |views| == |ops| + 1 && views[0] == old(live.View()) && views[|ops|] == live.View()
    ensures forall i :: 0 <= i < |ops| ==> Follows(ops[i], views[i], views[i + 1])
    ensures forall i: nat :: i in clones <==> i < |ops| && ops[i].Clone?
    ensures forall i <- clones :: clones[i].Valid() && clones[i].View() == CloneOf(views[i])
  {
    hide Follows, CloneOf, InputSnapshot.Valid, InputSnapshot.View;
    clones, views := map[], [live.View()];
    for k := 0 to |ops|
      invariant live.Valid() && fresh(live.Repr - old(live.Repr))
      invariant |views| == k + 1 && views[0] == old(live.View()) && views[k] == live.View()
      invariant forall i :: 0 <= i < k ==> Follows(ops[i], views[i], views[i + 1])
      invariant forall i: nat :: i in clones <==> i < k && ops[i].Clone?
      invariant forall i <- clones :: clones[i].Valid() && clones[i].View() == CloneOf(views[i])
      invariant forall i <- clones :: fresh(clones[i].Repr) && clones[i].Repr !! live.Repr
    {
      if ops[k].Clone? {
        var clone := live.Clone();
        clones := clones[k := clone];
        Unchanged(live.View());
      } else {
        PerformOne(live, ops[k], stats, cb);
      }
      views := views + [live.View()];
    }
  }

  lemma Unchanged(a: Members)
    ensures Follows(LiveOp.Clone, a, a)
  {
  }
}
