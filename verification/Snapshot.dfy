/**
 Input snapshots as the objects the loop shares: sequences are slices of backing arrays
 that are re-sliced, appended to and overwritten in place.
 */
module Snapshot {
  import opened Common
  import opened SnapshotSpec
  import opened LoopSpec
  import Tracking

  type InputStats = Tracking.TaskInputStatistics

  /** The acknowledgement callbacks, as what they were called with and what came of it. */
  class Callbacks {
    var calls: seq<(Watcher, Value)>
    var outcomes: seq<bool>

    constructor ()
      ensures calls == [] && outcomes == []
    {
      calls, outcomes := [], [];
    }

    method Invoke(w: Watcher, v: Value) returns (ok: bool)
      modifies this
      ensures calls == old(calls) + [(w, v)] && outcomes == old(outcomes) + [ok]
    {
      ok := *;
      calls, outcomes := calls + [(w, v)], outcomes + [ok];
    }
  }

  /** Of n further calls all succeeded or, unless ok, all but the last, which failed. */
  ghost predicate Outcomes(before: seq<bool>, after: seq<bool>, n: int, ok: bool) {
    && |after| == |before| + n && before <= after && (!ok ==> n > 0)
    && forall j :: |before| <= j < |after| ==> after[j] == (ok || j < |after| - 1)
  }

  lemma NoOutcomes(a: seq<bool>)
    ensures Outcomes(a, a, 0, true)
  {
  }

  lemma OutcomesThen(a: seq<bool>, b: seq<bool>, c: seq<bool>, m: int, n: int, ok: bool)
    requires Outcomes(a, b, m, true) && Outcomes(b, c, n, ok)
    ensures Outcomes(a, c, m + n, ok)
  {
  }

  /**
   What making room for one more entry below max does: removed entries leave from the
   front, as many as must unless a callback fails, and each that owes an acknowledgement
   is acknowledged; the entry whose callback failed stays.
   */
  ghost predicate Evicted(
      before: seq<Entry>, max: nat, ok: bool, removed: nat, calls: seq<(Watcher, Value)>, calls': seq<(Watcher, Value)>,
      outcomes: seq<bool>, outcomes': seq<bool>)
  {
    && removed <= Evictions(|before|, max)
    && (if ok then removed == Evictions(|before|, max) else removed < Evictions(|before|, max))
    && calls' == calls + Owed(before[..if ok then removed else removed + 1])
    && Outcomes(outcomes, outcomes', |calls'| - |calls|, ok)
  }

  class InputPair {
    var data: array<Entry>
    var off: nat
    var len: nat
    var stats: InputStats
    var minSeqLen: nat

    constructor (stats: InputStats, minSeqLen: nat)
      ensures Valid() && View() == Pair([], minSeqLen) && this.stats == stats && fresh(data)
    {
      data := new Entry[0];
      off, len := 0, 0;
      this.stats, this.minSeqLen := stats, minSeqLen;
    }

    ghost predicate Valid()
      reads this
    {
      off + len <= data.Length
    }

    function Entries(): (r: seq<Entry>)
      requires Valid()
      reads this, data
      ensures |r| == len && forall i :: 0 <= i < len ==> r[i] == data[off + i]
    {
      data[off..off + len]
    }

    function View(): Pair
      requires Valid()
      reads this, data
    {
      Pair(Entries(), minSeqLen)
    }

    lemma Shows()
      requires Valid()
      ensures View() == Pair(Entries(), minSeqLen)
    {
    }

    method IsReadyForExecution() returns (r: bool)
      requires Valid()
      ensures r <==> |View().entries| >= View().min
    {
      r := len >= minSeqLen;
    }

    method GetSequence() returns (r: seq<Value>)
      requires Valid()
      ensures r == Vals(Entries())
    {
      r := [];
      for i := 0 to len
        invariant r == Vals(Entries())[..i]
      {
        r := r + [data[off + i].val];
      }
    }

    /** A copy with a backing array of its own; the minimum length is not copied. */
    method Clone() returns (r: InputPair)
      requires Valid()
      ensures fresh(r) && fresh(r.data) && r.Valid()
      ensures r.View() == Pair(View().entries, 0) && r.stats == stats
    {
      r := new InputPair(stats, 0);
      var copy := new Entry[len](i requires 0 <= i < len && Valid() reads this, data => data[off + i]);
      r.data, r.off, r.len := copy, 0, len;
    }

    /** Go's append: in place while the backing array has room, else into a larger copy. */
    method Append(e: Entry)
      requires Valid()
      modifies this`data, this`off, this`len, data
      ensures Valid() && (data == old(data) || fresh(data))
      ensures Entries() == old(Entries()) + [e]
    {
      ghost var before := Entries();
      if off + len == data.Length {
        var bigger := new Entry[2 * len + 1](i requires Valid() reads this, data =>
          if 0 <= i < len then data[off + i] else e);
        data, off := bigger, 0;
        assert Entries() == before;
      }
      data[off + len] := e;
      len := len + 1;
      assert Entries() == before + [e];
    }

    /** Drops the first entry; its callback comes first, and if that fails it stays. */
    method DropFirst(st: InputStats, cb: Callbacks) returns (ok: bool)
      requires Valid() && len > 0
      modifies this`off, this`len, st`skipped, cb
      ensures Valid() && Entries() == if ok then old(Entries())[1..] else old(Entries())
      ensures cb.calls == old(cb.calls) + Owed(old(Entries())[..1])
      ensures Outcomes(old(cb.outcomes), cb.outcomes, |cb.calls| - |old(cb.calls)|, ok)
      ensures st.skipped == if ok then Wrap(old(st.skipped) + 1) else old(st.skipped)
    {
      var first := data[off];
      assert Entries()[..1] == [first];
      if first.ack.Some? {
        var sent := cb.Invoke(first.ack.value, first.val);
        if !sent { return false; }
      }
      off, len := off + 1, len - 1;
      st.skipped := Wrap(st.skipped + 1);
      ok := true;
    }

    /** Acknowledges and drops entries from the front until another fits, or a callback fails. */
    method MakeRoom(max: nat, st: InputStats, cb: Callbacks) returns (ok: bool, ghost removed: nat)
      requires Valid()
      modifies this`off, this`len, st`skipped, cb
      ensures Valid()
      ensures Evicted(old(Entries()), max, ok, removed, old(cb.calls), cb.calls, old(cb.outcomes), cb.outcomes)
      ensures Entries() == old(Entries())[removed..] && st.skipped == Wrap(old(st.skipped) + removed)
      ensures ok ==> removed == if old(len) < max then 0 else if max == 0 then old(len) else old(len) - max + 1
    {
      hide Owed, Entries, Valid, Wrap, Evictions, Outcomes, Evicted, SoFar;
      removed := 0;
      ghost var before, was, calls, outcomes := Entries(), st.skipped, cb.calls, cb.outcomes;
      NothingYet(before, max, calls, outcomes);
      WrapSame(was);
      while len != 0 && len >= max
        invariant Valid() && removed <= |before| && Entries() == before[removed..]
        invariant SoFar(before, max, removed, calls, cb.calls, outcomes, cb.outcomes)
        invariant removed < Evictions(|before|, max) <==> len != 0 && len >= max
        invariant st.skipped == Wrap(was + removed)
      {
        ghost var calls', outcomes' := cb.calls, cb.outcomes;
        WrapAbsorbs(was + removed, 1);
        var dropped := DropFirst(st, cb);
        OneGone(before, max, removed, dropped, calls, calls', cb.calls, outcomes, outcomes', cb.outcomes);
        if !dropped { return false, removed; }
        removed := removed + 1;
      }
      EnoughGone(before, max, removed, calls, cb.calls, outcomes, cb.outcomes);
      ok := true;
    }

    /** Makes room, then appends the value, if there is one. */
    method Add(av: Option<Value>, max: nat, st: InputStats, ack: Watcher, cb: Callbacks)
      returns (ok: bool, ghost removed: nat)
      requires Valid()
      modifies this`data, this`off, this`len, data, st`skipped, cb
      ensures Valid() && (data == old(data) || fresh(data))
      ensures Evicted(old(Entries()), max, ok, removed, old(cb.calls), cb.calls, old(cb.outcomes), cb.outcomes)
      ensures Entries() == old(Entries())[removed..]
                           + (if ok && av.Some? then [Entry(av.value, Some(ack))] else [])
      ensures View() == Added(old(View()), removed, if ok then av else None, ack)
      ensures ok ==> removed == if old(len) < max then 0 else if max == 0 then old(len) else old(len) - max + 1
      ensures st.skipped == Wrap(old(st.skipped) + removed)
    {
      hide Evicted;
      ok, removed := MakeRoom(max, st, cb);
      if ok && av.Some? {
        Append(Entry(av.value, Some(ack)));
      }
    }

    /**
     Invokes the callbacks in order up to the first failure.  The entries keep their
     callbacks: the source clears them on a copy of each entry.
     */
    method AckAll(cb: Callbacks) returns (ok: bool, ghost done: nat)
      requires Valid()
      modifies cb
      ensures if ok then done == len else done < len && Entries()[done].ack.Some?
      ensures cb.calls == old(cb.calls) + Owed(Entries()[..if ok then len else done + 1])
      ensures Outcomes(old(cb.outcomes), cb.outcomes, |cb.calls| - |old(cb.calls)|, ok)
    {
      hide Owed;
      done := 0;
      ghost var es := Entries();
      OwedPrefix(es);
      for i := 0 to len
        invariant done == i && cb.calls == old(cb.calls) + Owed(es[..i])
        invariant Outcomes(old(cb.outcomes), cb.outcomes, |cb.calls| - |old(cb.calls)|, true)
      {
        var v := data[off + i];
        OwedOneMore(es, i);
        if v.ack.Some? {
          var sent := cb.Invoke(v.ack.value, v.val);
          if !sent { return false, i; }
          v := v.(ack := None);
        }
        done := i + 1;
      }
      ok := true;
    }

    method Slide(count: nat)
      requires Valid()
      modifies this`data, this`off, this`len
      ensures Valid() && (data == old(data) || fresh(data))
      ensures View() == Slid(old(View()), count)
      ensures Entries() == if count < old(len) then old(Entries())[count..] else []
    {
      if count < len {
        off, len := off + count, len - count;
      } else {
        data := new Entry[0];
        off, len := 0, 0;
      }
    }

    /** Overwrites the entries in place. */
    method RemoveAck()
      requires Valid()
      modifies data
      ensures Valid() && View() == Forgot(old(View()))
    {
      ghost var was := data[..];
      for i := off to off + len
        invariant forall j :: 0 <= j < data.Length ==>
          data[j] == if off <= j < i then Entry(was[j].val, None) else was[j]
      {
        data[i] := data[i].(ack := None);
      }
      assert old(Entries()) == was[off..off + len];
    }
  }

  /** A pair that lost its first entries and took in a value, if there is one. */
  function Added(p: Pair, removed: nat, av: Option<Value>, ack: Watcher): Pair
    requires removed <= |p.entries|
  {
    p.(entries := p.entries[removed..] + if av.Some? then [Entry(av.value, Some(ack))] else [])
  }

  /** removed entries have left, and each that owed an acknowledgement was acknowledged. */
  ghost predicate SoFar(
      before: seq<Entry>, max: nat, removed: nat, calls: seq<(Watcher, Value)>, calls': seq<(Watcher, Value)>,
      outcomes: seq<bool>, outcomes': seq<bool>)
  {
    && removed <= Evictions(|before|, max)
    && calls' == calls + Owed(before[..removed])
    && Outcomes(outcomes, outcomes', |calls'| - |calls|, true)
  }

  lemma NothingYet(before: seq<Entry>, max: nat, calls: seq<(Watcher, Value)>, outcomes: seq<bool>)
    ensures SoFar(before, max, 0, calls, calls, outcomes, outcomes) && before[0..] == before
    ensures 0 < Evictions(|before|, max) <==> |before| != 0 && |before| >= max
  {
    OwedPrefix(before);
  }

  lemma OneGone(
      before: seq<Entry>, max: nat, removed: nat, ok: bool,
      calls: seq<(Watcher, Value)>, calls': seq<(Watcher, Value)>, calls'': seq<(Watcher, Value)>,
      outcomes: seq<bool>, outcomes': seq<bool>, outcomes'': seq<bool>)
    requires SoFar(before, max, removed, calls, calls', outcomes, outcomes') && removed < Evictions(|before|, max)
    requires calls'' == calls' + Owed(before[removed..][..1])
    requires Outcomes(outcomes', outcomes'', |calls''| - |calls'|, ok)
    ensures before[removed..][1..] == before[removed + 1..]
    ensures removed + 1 < Evictions(|before|, max) <==> |before| - removed - 1 != 0 && |before| - removed - 1 >= max
    ensures if ok then SoFar(before, max, removed + 1, calls, calls'', outcomes, outcomes'')
            else Evicted(before, max, false, removed, calls, calls'', outcomes, outcomes'')
  {
    hide Owed, Outcomes;
    OwedOneMore(before, removed);
    OutcomesThen(outcomes, outcomes', outcomes'', |calls'| - |calls|, |calls''| - |calls'|, ok);
  }

  lemma EnoughGone(
      before: seq<Entry>, max: nat, removed: nat, calls: seq<(Watcher, Value)>, calls': seq<(Watcher, Value)>,
      outcomes: seq<bool>, outcomes': seq<bool>)
    requires SoFar(before, max, removed, calls, calls', outcomes, outcomes') && removed >= Evictions(|before|, max)
    ensures Evicted(before, max, true, removed, calls, calls', outcomes, outcomes')
    ensures removed == if |before| < max then 0 else if max == 0 then |before| else |before| - max + 1
  {
  }

  lemma SlidSeq(p: Pair, count: nat)
    ensures Slid(p, count).entries == if count < |p.entries| then p.entries[count..] else []
  {
  }

  lemma OwedPrefix(es: seq<Entry>)
    ensures Owed(es[..0]) == []
  {
  }

  lemma WrapSame(x: int64)
    ensures Wrap(x) == x
  {
  }

  lemma OwedOneMore(es: seq<Entry>, i: nat)
    requires i < |es|
    ensures Owed(es[..i + 1]) == Owed(es[..i]) + if es[i].ack.Some? then [(es[i].ack.value, es[i].val)] else []
    ensures Owed(es[..i + 1]) == Owed(es[..i]) + Owed(es[i..][..1])
    ensures es[i..][1..] == es[i + 1..]
  {
    assert es[i..][..1] == [es[i]];
    assert es[..i + 1] == es[..i] + [es[i]];
    OwedAppend(es[..i], [es[i]]);
    assert Owed([es[i]]) == (if es[i].ack.Some? then [(es[i].ack.value, es[i].val)] else []) + Owed([]);
  }

  // ---------------------------------------------------------------- snapshots

  /** The order in which Go visits the keys of a map: any, each once. */
  method Visit(keys: set<string>) returns (order: seq<string>)
    ensures forall i, j :: 0 <= i < j < |order| ==> order[i] != order[j]
    ensures forall n :: n in order <==> n in keys
  {
    order := [];
    var rest := keys;
    while rest != {}
      invariant forall i, j :: 0 <= i < j < |order| ==> order[i] != order[j]
      invariant forall n :: n in keys <==> n in order || n in rest
      invariant forall n :: n in order ==> n !in rest
      decreases |rest|
    {
      var n :| n in rest;
      order, rest := order + [n], rest - {n};
    }
  }

  class InputSnapshot {
    var members: map<string, InputPair>
    ghost var Repr: set<object>

    constructor ()
      ensures Valid() && members == map[] && View() == map[] && fresh(Repr)
    {
      members := map[];
      Repr := {this};
    }

    /** No two inputs share a pair or a backing array. */
    ghost predicate Valid()
      reads this, Repr
      ensures Valid() ==> this in Repr && forall o <- Repr :: !(o is Callbacks) && !(o is InputStats)
    {
      && this in Repr
      && (forall o <- Repr :: !(o is Callbacks) && !(o is InputStats))
      && (forall n <- members :: members[n] in Repr && members[n].data in Repr && members[n].Valid())
      && (forall m, n :: m in members && n in members && m != n ==>
            members[m] != members[n] && members[m].data != members[n].data)
    }

    ghost function View(): Members
      requires Valid()
      reads this, Repr
    {
      map n | n in members :: members[n].View()
    }

    method IsReadyForExecution(expected: nat) returns (r: bool)
      requires Valid()
      ensures r <==> Ready(View(), expected)
    {
      hide InputPair.Entries, InputPair.Valid, InputPair.View, Valid, View;
      ghost var view := View();
      KeysOf();
      SameCount(members, view);
      if |members| != expected { return false; }
      var order := Visit(members.Keys);
      for i := 0 to |order|
        invariant forall j :: 0 <= j < i ==> |view[order[j]].entries| >= view[order[j]].min
      {
        PairIn(order[i]);
        var enough := members[order[i]].IsReadyForExecution();
        if !enough { return false; }
      }
      r := true;
    }

    method GetSequenceLengthForInput(name: string) returns (n: nat)
      requires Valid()
      ensures n == |SeqOf(View(), name)|
    {
      n := if name in members then members[name].len else 0;
    }

    method GetSequence(name: string) returns (r: seq<Value>)
      requires Valid()
      ensures r == Vals(SeqOf(View(), name))
    {
      r := [];
      if name in members { r := members[name].GetSequence(); }
    }

    /** A new pair takes its place under a name. */
    method Place(name: string, pair: InputPair)
      requires Valid() && pair.Valid() && pair !in Repr && pair.data !in Repr
      modifies this
      ensures Valid() && Repr == old(Repr) + {pair, pair.data}
      ensures members == old(members)[name := pair] && View() == old(View())[name := pair.View()]
    {
      hide InputPair.Entries, InputPair.Valid, InputPair.View;
      members := members[name := pair];
      Repr := Repr + {pair, pair.data};
    }

    /** Only the pair of one name has changed. */
    twostate lemma OneChanged(name: string)
      requires old(Valid()) && members == old(members) && name in members && members[name].Valid()
      requires members[name].data == old(members[name].data) || fresh(members[name].data)
      requires Repr == old(Repr) + {members[name].data}
      requires forall n <- members :: n != name ==> unchanged(members[n]) && unchanged(members[n].data)
      ensures Valid() && View() == old(View())[name := members[name].View()]
    {
      hide InputPair.Entries, InputPair.Valid, InputPair.View;
      forall n | n in members && n != name
        ensures members[n].Valid() && members[n].View() == old(members[n].View())
      {
        assert unchanged(members[n]) && unchanged(members[n].data);
      }
    }

    /**
     Nothing of the clone is shared with the original but the statistics: its pairs and
     their backing arrays are all new.
     */
    method Clone() returns (r: InputSnapshot)
      requires Valid()
      ensures r.Valid() && fresh(r.Repr)
      ensures r.View() == CloneOf(View())
      ensures forall n <- members :: n in r.members && r.members[n].stats == members[n].stats
    {
      hide InputPair.Entries, InputPair.Valid, InputPair.View, Valid, View, Part, CloneOf;
      r := new InputSnapshot();
      var order := Visit(members.Keys);
      PartNone(View());
      KeysOf();
      for i := 0 to |order|
        invariant r.Valid() && fresh(r.Repr)
        invariant r.View() == CloneOf(Part(View(), order[..i]))
        invariant forall n <- order[..i] :: n in r.members && r.members[n].stats == members[n].stats
      {
        assert order[..i + 1] == order[..i] + [order[i]];
        PartStep(View(), order, i);
        CloneMember(r, order[i]);
      }
      PartAll(View(), order);
    }

    method CloneMember(r: InputSnapshot, name: string)
      requires Valid() && r.Valid() && r.Repr !! Repr && name in members
      modifies r
      ensures r.Valid() && fresh(r.Repr - old(r.Repr))
      ensures name in View() && r.View() == old(r.View())[name := Pair(View()[name].entries, 0)]
      ensures r.members.Keys == old(r.members.Keys) + {name} && r.members[name].stats == members[name].stats
      ensures forall n <- old(r.members) :: n != name ==> r.members[n] == old(r.members[n])
    {
      hide InputPair.Entries, InputPair.Valid, InputPair.View, Valid, View;
      PairIn(name);
      var pair := members[name].Clone();
      r.Place(name, pair);
    }

    lemma KeysOf()
      requires Valid()
      ensures View().Keys == members.Keys
    {
    }

    /** What is known of one member. */
    lemma PairIn(name: string)
      requires Valid() && name in members
      ensures members[name].Valid() && name in View() && View()[name] == members[name].View()
    {
    }

    lemma EntriesIn(name: string)
      requires Valid() && name in members
      ensures members[name].Valid() && name in Contents(View()) && Contents(View())[name] == members[name].Entries()
    {
    }

    /** The pair of an input, made when there is none yet. */
    method PairFor(name: string, st: InputStats, min: nat) returns (pair: InputPair)
      requires Valid()
      modifies this
      ensures Valid() && fresh(Repr - old(Repr)) && old(Repr) <= Repr
      ensures name in members && members[name] == pair
      ensures View() == if name in old(View()) then old(View()) else old(View())[name := Pair([], min)]
    {
      hide InputPair.Entries, InputPair.Valid, InputPair.View;
      if name in members {
        pair := members[name];
      } else {
        pair := new InputPair(st, min);
        Place(name, pair);
      }
    }

    /** Adds to the pair of an input there is. */
    method AddTo(name: string, av: Option<Value>, max: nat, st: InputStats, ack: Watcher, cb: Callbacks)
      returns (ok: bool, ghost removed: nat)
      requires Valid() && name in members
      modifies Repr, st`skipped, cb
      ensures Valid() && fresh(Repr - old(Repr))
      ensures name in old(View()) && var p := old(View())[name];
        && Evicted(p.entries, max, ok, removed, old(cb.calls), cb.calls, old(cb.outcomes), cb.outcomes)
        && View() == old(View())[name := Added(p, removed, if ok then av else None, ack)]
      ensures st.skipped == Wrap(old(st.skipped) + removed)
    {
      hide InputPair.Entries, InputPair.Valid, InputPair.View, Evicted, Wrap, Added;
      var pair := members[name];
      PairIn(name);
      pair.Shows();
      ok, removed := pair.Add(av, max, st, ack, cb);
      Repr := Repr + {pair.data};
      OneChanged(name);
    }

    /** removed counts the entries dropped to make room. */
    method Set(name: string, av: Option<Value>, min: nat, max: nat, st: InputStats, ack: Watcher, cb: Callbacks)
      returns (ok: bool, ghost removed: nat)
      requires Valid()
      modifies Repr, st`skipped, cb
      ensures Valid() && fresh(Repr - old(Repr))
      ensures var p := if name in old(View()) then old(View())[name] else Pair([], min);
        && Evicted(p.entries, max, ok, removed, old(cb.calls), cb.calls, old(cb.outcomes), cb.outcomes)
        && View() == old(View())[name := Added(p, removed, if ok then av else None, ack)]
      ensures st.skipped == Wrap(old(st.skipped) + removed)
    {
      hide InputPair.Entries, InputPair.Valid, InputPair.View, View, Valid, Evicted, Wrap;
      var pair := PairFor(name, st, min);
      ok, removed := AddTo(name, av, max, st, ack, cb);
    }

    method Delete(name: string)
      requires Valid()
      modifies this`members
      ensures Valid() && View() == DeleteIn(old(View()), name)
    {
      hide InputPair.Entries, InputPair.Valid, InputPair.View;
      members := members - {name};
    }

    method Slide(name: string, count: nat)
      requires Valid()
      modifies Repr
      ensures Valid() && fresh(Repr - old(Repr))
      ensures View() == SlideIn(old(View()), name, count)
      ensures name in old(View()) ==> var es := old(View())[name].entries;
        SeqOf(View(), name) == if count < |es| then es[count..] else []
    {
      hide InputPair.Entries, InputPair.Valid, InputPair.View, Slid;
      if name in members {
        var pair := members[name];
        PairIn(name);
        SlidSeq(pair.View(), count);
        pair.Slide(count);
        Repr := Repr + {pair.data};
        OneChanged(name);
      }
    }

    method RemoveAck(name: string)
      requires Valid()
      modifies Repr
      ensures Valid() && Repr == old(Repr)
      ensures View() == ForgetIn(old(View()), name)
    {
      hide InputPair.Entries, InputPair.Valid, InputPair.View, Forgot;
      if name in members {
        var pair := members[name];
        PairIn(name);
        pair.RemoveAck();
        OneChanged(name);
      }
    }

    method AckMember(name: string, ghost view: Clone, cb: Callbacks) returns (ok: bool, ghost done: nat)
      requires Valid() && name in members && view == Contents(View())
      modifies cb
      ensures Valid() && view == Contents(View()) && name in view
      ensures var es := view[name];
        && (if ok then done == |es| else done < |es| && es[done].ack.Some?)
        && cb.calls == old(cb.calls) + Owed(es[..if ok then |es| else done + 1])
        && Outcomes(old(cb.outcomes), cb.outcomes, |cb.calls| - |old(cb.calls)|, ok)
    {
      hide InputPair.Entries, InputPair.Valid, InputPair.View, View, Owed, Valid, Contents, Outcomes;
      EntriesIn(name);
      ok, done := members[name].AckAll(cb);
    }

    /**
     Acknowledges the members in any order, up to the first failure: sent callbacks of
     those owed were invoked, and a failure is the last of them.
     */
    method AckAll(cb: Callbacks) returns (ok: bool, ghost order: seq<string>, ghost sent: nat)
      requires Valid()
      modifies cb
      ensures Valid() && IsOrder(Contents(View()), order)
      ensures var owed := AckList(Contents(View()), order);
        && sent <= |owed| && (if ok then sent == |owed| else sent > 0)
        && cb.calls == old(cb.calls) + owed[..sent]
        && Outcomes(old(cb.outcomes), cb.outcomes, sent, ok)
    {
      hide InputPair.Entries, InputPair.Valid, InputPair.View, View, Owed, Valid, AckList, IsOrder, Contents, Outcomes;
      NoOutcomes(cb.outcomes);
      var names := Visit(members.Keys);
      order := names;
      VisitsView(names);
      AckListNone(Contents(View()), names);
      ghost var view := Contents(View());
      for i := 0 to |names|
        invariant cb.calls == old(cb.calls) + AckList(view, names[..i])
        invariant Outcomes(old(cb.outcomes), cb.outcomes, |AckList(view, names[..i])|, true)
      {
        AckListSplit(view, names, i);
        ghost var calls, outcomes := cb.calls, cb.outcomes;
        var acked;
        ghost var done;
        acked, done := AckMember(names[i], view, cb);
        OutcomesThen(old(cb.outcomes), outcomes, cb.outcomes, |AckList(view, names[..i])|, |cb.calls| - |calls|, acked);
        if !acked {
          AckListStops(view, names, i, done);
          sent := |AckList(view, names[..i])| + |Owed(view[names[i]][..done + 1])|;
          return false, order, sent;
        }
      }
      assert names[..|names|] == names;
      ok, sent := true, |AckList(view, names)|;
    }

    /**
     Adds delta times the length of each sequence to the statistics of its input.  Load
     is what a statistics object receives if several inputs share it.
     */
    method AddInProgressStatistics(delta: int64) returns (ghost order: seq<string>)
      requires Valid()
      modifies Stats()`inProgress
      ensures Valid() && View() == old(View()) && IsOrder(Contents(View()), order)
      ensures forall st <- Stats() :: st.inProgress == Grown(old(st.inProgress), delta, Load(Shares(order), st))
    {
      hide InputPair.Entries, InputPair.Valid, InputPair.View, View, Valid, Load, IsOrder, Grown, Wrap;
      var names := Visit(members.Keys);
      order := names;
      VisitsView(names);
      AddInProgress(names, delta);
    }

    method AddInProgress(names: seq<string>, delta: int64)
      requires forall n <- names :: n in members
      modifies Stats()`inProgress
      ensures forall st <- Stats() :: st.inProgress == Grown(old(st.inProgress), delta, Load(Shares(names), st))
    {
      hide Wrap, Grown, Product, Load;
      ghost var shares, all := Shares(names), Stats();
      forall st | st in all { LoadNothing(shares, st.inProgress, delta, st); }
      for i := 0 to |names|
        invariant forall st <- all :: st.inProgress == Grown(old(st.inProgress), delta, Load(shares[..i], st))
      {
        var pair := members[names[i]];
        assert shares[i] == (pair.stats, pair.len);
        label before:
        pair.stats.inProgress := Wrap(pair.stats.inProgress + Product(delta, pair.len));
        forall st | st in all
          ensures st.inProgress == Grown(old(st.inProgress), delta, Load(shares[..i + 1], st))
        {
          LoadGrows(shares, i, old(st.inProgress), delta, st);
          assert old@before(st.inProgress) == Grown(old(st.inProgress), delta, Load(shares[..i], st));
        }
      }
      assert shares[..|names|] == shares;
    }

    method AddProcessedStatistics(delta: int64) returns (ghost order: seq<string>)
      requires Valid()
      modifies Stats()`processed
      ensures Valid() && View() == old(View()) && IsOrder(Contents(View()), order)
      ensures forall st <- Stats() :: st.processed == Grown(old(st.processed), delta, Load(Shares(order), st))
    {
      hide InputPair.Entries, InputPair.Valid, InputPair.View, View, Valid, Load, IsOrder, Grown, Wrap;
      var names := Visit(members.Keys);
      order := names;
      VisitsView(names);
      AddProcessed(names, delta);
    }

    method AddProcessed(names: seq<string>, delta: int64)
      requires forall n <- names :: n in members
      modifies Stats()`processed
      ensures forall st <- Stats() :: st.processed == Grown(old(st.processed), delta, Load(Shares(names), st))
    {
      hide Wrap, Grown, Product, Load;
      ghost var shares, all := Shares(names), Stats();
      forall st | st in all { LoadNothing(shares, st.processed, delta, st); }
      for i := 0 to |names|
        invariant forall st <- all :: st.processed == Grown(old(st.processed), delta, Load(shares[..i], st))
      {
        var pair := members[names[i]];
        assert shares[i] == (pair.stats, pair.len);
        label before:
        pair.stats.processed := Wrap(pair.stats.processed + Product(delta, pair.len));
        forall st | st in all
          ensures st.processed == Grown(old(st.processed), delta, Load(shares[..i + 1], st))
        {
          LoadGrows(shares, i, old(st.processed), delta, st);
          assert old@before(st.processed) == Grown(old(st.processed), delta, Load(shares[..i], st));
        }
      }
      assert shares[..|names|] == shares;
    }

    ghost function Stats(): set<InputStats>
      reads this, members.Values
    {
      set n | n in members :: members[n].stats
    }

    /** For each of the inputs its statistics and the length of its sequence. */
    ghost function Shares(order: seq<string>): (r: seq<(InputStats, nat)>)
      requires forall n <- order :: n in members
      reads this, members.Values
      ensures |r| == |order|
      ensures forall i :: 0 <= i < |order| ==> r[i] == (members[order[i]].stats, members[order[i]].len)
    {
      seq(|order|, i requires 0 <= i < |order| && order[i] in members reads this, members.Values =>
        (members[order[i]].stats, members[order[i]].len))
    }

    lemma VisitsView(order: seq<string>)
      requires Valid() && forall i, j :: 0 <= i < j < |order| ==> order[i] != order[j]
      requires forall n :: n in order <==> n in members
      ensures IsOrder(Contents(View()), order) && forall n :: n in Contents(View()) <==> n in members
    {
    }
  }

  /** The values in the shares whose statistics are st. */
  ghost function Load(shares: seq<(InputStats, nat)>, st: InputStats): nat {
    if shares == [] then 0
    else
      var k := |shares| - 1;
      Load(shares[..k], st) + if shares[k].0 == st then shares[k].1 else 0
  }

  lemma LoadNothing(shares: seq<(InputStats, nat)>, x: int64, delta: int64, st: InputStats)
    ensures x == Grown(x, delta, Load(shares[..0], st))
  {
  }

  lemma LoadGrows(shares: seq<(InputStats, nat)>, i: nat, x: int64, delta: int64, st: InputStats)
    requires i < |shares|
    ensures var now, next := Grown(x, delta, Load(shares[..i], st)), Grown(x, delta, Load(shares[..i + 1], st));
      next == if shares[i].0 == st then Wrap(now + Product(delta, shares[i].1)) else now
  {
    assert shares[..i + 1][..i] == shares[..i];
    if shares[i].0 == st { Absorbed(x, delta, Load(shares[..i], st), shares[i].1); }
  }

  /** Statistics that occur once receive one length. */
  lemma {:induction false} LoadAlone(shares: seq<(InputStats, nat)>, k: nat)
    requires k < |shares| && forall i :: 0 <= i < |shares| && i != k ==> shares[i].0 != shares[k].0
    ensures Load(shares, shares[k].0) == shares[k].1
    decreases |shares|
  {
    var n := |shares| - 1;
    if k < n {
      LoadAlone(shares[..n], k);
    } else {
      LoadElsewhere(shares[..n], shares[k].0);
    }
  }

  lemma {:induction false} LoadElsewhere(shares: seq<(InputStats, nat)>, st: InputStats)
    requires forall i :: 0 <= i < |shares| ==> shares[i].0 != st
    ensures Load(shares, st) == 0
    decreases |shares|
  {
    if shares != [] { LoadElsewhere(shares[..|shares| - 1], st); }
  }

  /** Go's delta * int64(n). */
  function Product(delta: int64, n: nat): int64 {
    Wrap(delta * Wrap(n))
  }

  /** A counter to which delta was added load times. */
  function Grown(x: int64, delta: int64, load: nat): int64 {
    Wrap(x + delta * load)
  }

  lemma {:induction false} LoadAppend(a: seq<(InputStats, nat)>, b: seq<(InputStats, nat)>, st: InputStats)
    ensures Load(a + b, st) == Load(a, st) + Load(b, st)
    decreases |b|
  {
    if b == [] {
      assert a + b == a;
    } else {
      var k := |b| - 1;
      LoadAppend(a, b[..k], st);
      assert (a + b)[..|a| + k] == a + b[..k];
    }
  }

  lemma LoadWithout(shares: seq<(InputStats, nat)>, p: nat, st: InputStats)
    requires p < |shares|
    ensures Load(shares, st)
      == Load(shares[..p] + shares[p + 1..], st) + if shares[p].0 == st then shares[p].1 else 0
  {
    assert shares == shares[..p + 1] + shares[p + 1..] && shares[..p + 1][..p] == shares[..p];
    LoadAppend(shares[..p], shares[p + 1..], st);
    LoadAppend(shares[..p + 1], shares[p + 1..], st);
  }

  /** The order in which the members are visited makes no difference to a load. */
  lemma {:induction false} LoadOrder(s: InputSnapshot, a: seq<string>, b: seq<string>, st: InputStats)
    requires forall n :: n in a ==> n in s.members
    requires forall n :: n in a <==> n in b
    requires forall i, j :: 0 <= i < j < |a| ==> a[i] != a[j]
    requires forall i, j :: 0 <= i < j < |b| ==> b[i] != b[j]
    ensures Load(s.Shares(a), st) == Load(s.Shares(b), st)
    decreases |a|
  {
    hide Load;
    if a == [] {
      LoadElsewhere(s.Shares(a), st);
      LoadElsewhere(s.Shares(b), st);
    } else {
      var k := |a| - 1;
      assert a[k] in b;
      var p :| 0 <= p < |b| && b[p] == a[k];
      var rest := b[..p] + b[p + 1..];
      assert forall n :: n in b <==> n in rest || n == b[p];
      assert forall n :: n in a <==> n in a[..k] || n == a[k];
      LoadOrder(s, a[..k], rest, st);
      var shares := s.Shares(b);
      assert s.Shares(rest) == shares[..p] + shares[p + 1..];
      LoadWithout(shares, p, st);
      LoadWithout(s.Shares(a), k, st);
      assert s.Shares(a)[..k] + s.Shares(a)[k + 1..] == s.Shares(a[..k]);
    }
  }

  /** Adding and taking away the same. */
  lemma GrownBack(x: int64, load: nat)
    ensures Grown(Grown(x, 1, load), -1, load) == x
  {
    hide Wrap;
    WrapAbsorbs(x + load, 0 - load);
    WrapSame(x);
    assert 1 * load == load && -1 * load == 0 - load;
  }

  /** What a grown counter holds: the sum, up to a multiple of 2^64. */
  lemma GrownIs(x: int64, delta: int64, load: nat)
    ensures (Grown(x, delta, load) - (x + delta * load)) % TWO_64 == 0
  {
    hide Wrap;
    WrapIsCongruent(x + delta * load);
  }

  /** Adding the products one at a time, each wrapped, adds the product of the sum. */
  lemma Absorbed(x: int, delta: int, load: nat, more: nat)
    ensures Wrap(Wrap(x + delta * load) + Wrap(delta * Wrap(more))) == Wrap(x + delta * (load + more))
    ensures load + 0 == load
  {
    hide Wrap;
    WrapAbsorbs(x + delta * load, Wrap(delta * Wrap(more)));
    WrapAbsorbs(delta * Wrap(more), x + delta * load);
    WrapProduct(delta, more);
    WrapAbsorbs(delta * more, x + delta * load);
    assert x + delta * load + delta * more == x + delta * (load + more);
  }

  lemma WrapProduct(a: int, b: int)
    ensures Wrap(a * Wrap(b)) == Wrap(a * b)
  {
    var d := if b % TWO_64 < TWO_63 then b / TWO_64 else b / TWO_64 + 1;
    assert b == Wrap(b) + d * TWO_64;
    assert a * b == a * Wrap(b) + (a * d) * TWO_64;
    ModAddMultiple(a * Wrap(b), a * d);
  }

  lemma AckListNone(clone: Clone, order: seq<string>)
    requires forall n <- order :: n in clone
    ensures AckList(clone, order[..0]) == []
  {
  }

  lemma {:induction false} AckListSplit(clone: Clone, order: seq<string>, i: nat)
    requires i < |order| && forall n <- order :: n in clone
    ensures var es := clone[order[i]];
      AckList(clone, order[..i + 1]) == AckList(clone, order[..i]) + Owed(es[..|es|])
    ensures AckList(clone, order[..i + 1]) <= AckList(clone, order)
    decreases i
  {
    assert order[..i + 1][0] == order[0] && order[..i + 1][1..] == order[1..][..i];
    var es := clone[order[i]];
    assert es[..|es|] == es;
    if i > 0 {
      AckListSplit(clone, order[1..], i - 1);
      assert order[..i][1..] == order[1..][..i - 1];
    }
  }

  /** What was invoked when the callback of entry done of member i failed. */
  lemma AckListStops(clone: Clone, order: seq<string>, i: nat, done: nat)
    requires i < |order| && forall n <- order :: n in clone
    requires done < |clone[order[i]]| && clone[order[i]][done].ack.Some?
    ensures var now := AckList(clone, order[..i]) + Owed(clone[order[i]][..done + 1]);
      now <= AckList(clone, order) && |now| > 0
  {
    var es := clone[order[i]];
    AckListSplit(clone, order, i);
    assert es[..|es|] == es;
    OwedStops(es, done);
  }

  lemma OwedStops(es: seq<Entry>, i: nat)
    requires i < |es| && es[i].ack.Some?
    ensures Owed(es[..i + 1]) <= Owed(es) && |Owed(es[..i + 1])| > 0
  {
    assert es == es[..i + 1] + es[i + 1..];
    OwedAppend(es[..i + 1], es[i + 1..]);
    OwedOneMore(es, i);
  }

  /** The members already visited. */
  function Part(ms: Members, order: seq<string>): Members {
    map n | n in ms && n in order :: ms[n]
  }

  lemma PartNone(ms: Members)
    ensures CloneOf(Part(ms, [])) == map[]
  {
  }

  lemma PartStep(ms: Members, order: seq<string>, i: nat)
    requires i < |order| && order[i] in ms
    ensures CloneOf(Part(ms, order[..i + 1])) == CloneOf(Part(ms, order[..i]))[order[i] := Pair(ms[order[i]].entries, 0)]
  {
    assert order[..i + 1] == order[..i] + [order[i]];
  }

  lemma PartAll(ms: Members, order: seq<string>)
    requires forall n :: n in order <==> n in ms
    ensures CloneOf(Part(ms, order[..|order|])) == CloneOf(ms)
  {
    assert order[..|order|] == order;
  }

  lemma SameCount<A, B>(a: map<string, A>, b: map<string, B>)
    requires a.Keys == b.Keys
    ensures |a| == |b|
  {
    assert |a.Keys| == |a| && |b.Keys| == |b|;
  }
}
