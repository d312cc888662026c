/**
 Statistics kept by name: lists of counters sorted by name, and the adding of further
 counters to them.  Counters wrap like Go's int64.
 */
module Keyed {
  import opened Common

  // ---------------------------------------------------------------- the order of names

  /** Go's < on strings: bytewise lexicographic. */
  predicate Before(a: bytes, b: bytes) {
    if b == [] then false
    else if a == [] then true
    else if a[0] != b[0] then a[0] < b[0]
    else Before(a[1..], b[1..])
  }

  lemma {:induction false} BeforeIsTotal(a: bytes, b: bytes)
    ensures a != b <==> Before(a, b) || Before(b, a)
    ensures !(Before(a, b) && Before(b, a))
  {
    if a != [] && b != [] && a[0] == b[0] {
      BeforeIsTotal(a[1..], b[1..]);
      assert a == [a[0]] + a[1..] && b == [b[0]] + b[1..];
    }
  }

  lemma {:induction false} BeforeIsTransitive(a: bytes, b: bytes, c: bytes)
    requires Before(a, b) && Before(b, c)
    ensures Before(a, c)
  {
    if a != [] && a[0] == b[0] == c[0] {
      BeforeIsTransitive(a[1..], b[1..], c[1..]);
    }
  }

  /** From k on the names differ, and a is the smaller one there or ends there. */
  ghost predicate SmallerFrom(a: bytes, b: bytes, k: nat) {
    k <= |a| && k < |b| && a[..k] == b[..k] && (k == |a| || a[k] < b[k])
  }

  lemma HeadsAgree(a: bytes, b: bytes, k: nat)
    requires SmallerFrom(a, b, k) && k > 0
    ensures a != [] && b != [] && a[0] == b[0]
  {
    assert a[0] == a[..k][0] && b[0] == b[..k][0];
  }

  /** The order is bytewise: a common beginning, then a smaller byte or the end. */
  lemma {:induction false} BeforeIsBytewise(a: bytes, b: bytes)
    ensures Before(a, b) <==> exists k: nat :: SmallerFrom(a, b, k)
    decreases |a|
  {
    if a == [] || b == [] || a[0] != b[0] {
      assert Before(a, b) ==> SmallerFrom(a, b, 0);
      forall k: nat | SmallerFrom(a, b, k)
        ensures Before(a, b)
      {
        if k > 0 { HeadsAgree(a, b, k); }
      }
    } else {
      BeforeIsBytewise(a[1..], b[1..]);
      if k: nat :| SmallerFrom(a[1..], b[1..], k) {
        assert a == [a[0]] + a[1..] && b == [b[0]] + b[1..];
        assert a[..k + 1] == [a[0]] + a[1..][..k] && b[..k + 1] == [b[0]] + b[1..][..k];
        assert SmallerFrom(a, b, k + 1);
      }
      if k: nat :| SmallerFrom(a, b, k) {
        assert k > 0;
        assert a[1..][..k - 1] == a[..k][1..] && b[1..][..k - 1] == b[..k][1..];
        assert SmallerFrom(a[1..], b[1..], k - 1);
      }
    }
  }

  // ---------------------------------------------------------------- sorted entries

  /** Four counters; entries with fewer leave the rest at zero. */
  datatype Counts = Counts(c0: int64, c1: int64, c2: int64, c3: int64) {
    function Pick(i: nat): int64
      requires i < 4
    {
      if i == 0 then c0 else if i == 1 then c1 else if i == 2 then c2 else c3
    }
  }

  datatype Entry = Entry(name: bytes, counts: Counts)

  const ZERO := Counts(0, 0, 0, 0)

  function Plus(a: Counts, b: Counts): Counts {
    Counts(Wrapped(a.c0, b.c0), Wrapped(a.c1, b.c1), Wrapped(a.c2, b.c2), Wrapped(a.c3, b.c3))
  }

  function Wrapped(x: int, y: int): int64 {
    Wrap(x + y)
  }

  /** Strictly sorted by name, so that no name occurs twice. */
  ghost predicate Sorted(es: seq<Entry>) {
    forall i, j :: 0 <= i < j < |es| ==> Before(es[i].name, es[j].name)
  }

  /** Adds e to the entry of that name, putting in a new entry in its place if there is none. */
  function AddEntry(es: seq<Entry>, e: Entry): (r: seq<Entry>)
    ensures |r| > 0
  {
    if es == [] then [e]
    else if es[0].name == e.name then [Entry(e.name, Plus(es[0].counts, e.counts))] + es[1..]
    else if Before(e.name, es[0].name) then [e] + es
    else [es[0]] + AddEntry(es[1..], e)
  }

  function AddAll(es: seq<Entry>, xs: seq<Entry>): seq<Entry>
    decreases |xs|
  {
    if xs == [] then es else AddAll(AddEntry(es, xs[0]), xs[1..])
  }

  ghost predicate Has(es: seq<Entry>, name: bytes) {
    exists i :: 0 <= i < |es| && es[i].name == name
  }

  /** The counters kept for a name; zeroes when there is no entry. */
  function At(es: seq<Entry>, name: bytes): Counts {
    if es == [] then ZERO
    else if es[0].name == name then es[0].counts
    else At(es[1..], name)
  }

  /** The mathematical sum of counter i over all entries of xs with the given name. */
  function Sum(xs: seq<Entry>, name: bytes, i: nat): int
    requires i < 4
  {
    if xs == [] then 0
    else (if xs[0].name == name then xs[0].counts.Pick(i) else 0) + Sum(xs[1..], name, i)
  }

  lemma {:induction false} AddEntryNames(es: seq<Entry>, e: Entry)
    ensures forall name :: Has(AddEntry(es, e), name) <==> Has(es, name) || name == e.name
    decreases |es|
  {
    if es == [] {
      assert AddEntry(es, e)[0] == e;
    } else {
      HasSplit(es[0], es[1..]);
      assert es == [es[0]] + es[1..];
      if es[0].name == e.name {
        HasSplit(Entry(e.name, Plus(es[0].counts, e.counts)), es[1..]);
      } else if Before(e.name, es[0].name) {
        HasSplit(e, es);
      } else {
        AddEntryNames(es[1..], e);
        HasSplit(es[0], AddEntry(es[1..], e));
      }
    }
  }

  lemma HasSplit(e: Entry, es: seq<Entry>)
    ensures forall name :: Has([e] + es, name) <==> e.name == name || Has(es, name)
  {
    forall name
      ensures Has([e] + es, name) <==> e.name == name || Has(es, name)
    {
      var all := [e] + es;
      if e.name == name { assert all[0].name == name; }
      if i :| 0 <= i < |es| && es[i].name == name { assert all[i + 1].name == name; }
      if i :| 0 <= i < |all| && all[i].name == name && i > 0 { assert es[i - 1].name == name; }
    }
  }

  lemma SortedCons(e: Entry, es: seq<Entry>)
    requires Sorted(es) && forall name :: Has(es, name) ==> Before(e.name, name)
    ensures Sorted([e] + es)
  {
    var all := [e] + es;
    forall i, j | 0 <= i < j < |all|
      ensures Before(all[i].name, all[j].name)
    {
      assert es[j - 1].name == all[j].name;
      if i > 0 { assert es[i - 1] == all[i]; } else { assert Has(es, all[j].name); }
    }
  }

  lemma SortedTail(es: seq<Entry>)
    requires Sorted(es) && es != []
    ensures Sorted(es[1..]) && forall name :: Has(es[1..], name) ==> Before(es[0].name, name)
  {
  }

  lemma {:induction false} AddEntrySorted(es: seq<Entry>, e: Entry)
    requires Sorted(es)
    ensures Sorted(AddEntry(es, e))
    decreases |es|
  {
    if es != [] {
      SortedTail(es);
      BeforeIsTotal(es[0].name, e.name);
      if es[0].name == e.name {
        SortedCons(Entry(e.name, Plus(es[0].counts, e.counts)), es[1..]);
      } else if Before(e.name, es[0].name) {
        forall name | Has(es, name)
          ensures Before(e.name, name)
        {
          assert es == [es[0]] + es[1..];
          HasSplit(es[0], es[1..]);
          if name != es[0].name { BeforeIsTransitive(e.name, es[0].name, name); }
        }
        SortedCons(e, es);
      } else {
        AddEntrySorted(es[1..], e);
        AddEntryNames(es[1..], e);
        SortedCons(es[0], AddEntry(es[1..], e));
      }
    }
  }

  lemma {:induction false} AtAbsent(es: seq<Entry>, name: bytes)
    requires !Has(es, name)
    ensures At(es, name) == ZERO
    decreases |es|
  {
    if es != [] {
      assert es == [es[0]] + es[1..];
      HasSplit(es[0], es[1..]);
      AtAbsent(es[1..], name);
    }
  }

  lemma AbsentBefore(es: seq<Entry>, name: bytes)
    requires Sorted(es) && es != [] && Before(name, es[0].name)
    ensures !Has(es, name)
  {
    BeforeIsTotal(name, es[0].name);
    forall i | 0 < i < |es|
      ensures Before(name, es[i].name) && es[i].name != name
    {
      BeforeIsTransitive(name, es[0].name, es[i].name);
      BeforeIsTotal(name, es[i].name);
    }
  }

  lemma PlusZero(c: Counts)
    ensures Plus(ZERO, c) == c == Plus(c, ZERO)
  {
  }

  lemma {:induction false} AddEntryCounts(es: seq<Entry>, e: Entry, name: bytes)
    requires Sorted(es)
    ensures At(AddEntry(es, e), name) == if name == e.name then Plus(At(es, name), e.counts) else At(es, name)
    decreases |es|
  {
    PlusZero(e.counts);
    if es != [] {
      SortedTail(es);
      BeforeIsTotal(es[0].name, e.name);
      if es[0].name != e.name && Before(e.name, es[0].name) {
        AbsentBefore(es, e.name);
        AtAbsent(es, e.name);
        assert ([e] + es)[1..] == es;
      } else if es[0].name != e.name {
        AddEntryCounts(es[1..], e, name);
        assert AddEntry(es, e)[1..] == AddEntry(es[1..], e);
      }
    }
  }

  lemma PickPlus(a: Counts, b: Counts, i: nat)
    requires i < 4
    ensures Plus(a, b).Pick(i) == Wrap(a.Pick(i) + b.Pick(i))
  {
  }

  lemma WrapFits(x: int64)
    ensures Wrap(x) == x
  {
  }

  /**
   After adding xs to a sorted list: sorted still, a name has an entry if it had one or
   occurs in xs, and each counter is what it was plus the sum over xs, cut to int64.
   */
  lemma {:induction false} AddAllMeaning(es: seq<Entry>, xs: seq<Entry>, name: bytes, i: nat)
    requires Sorted(es) && i < 4
    ensures Sorted(AddAll(es, xs))
    ensures Has(AddAll(es, xs), name) <==> Has(es, name) || Has(xs, name)
    ensures At(AddAll(es, xs), name).Pick(i) == Wrap(At(es, name).Pick(i) + Sum(xs, name, i))
    decreases |xs|
  {
    hide AddEntry, At, Wrap;
    if xs == [] {
      WrapFits(At(es, name).Pick(i));
    } else {
      var next := AddEntry(es, xs[0]);
      AddEntrySorted(es, xs[0]);
      AddEntryNames(es, xs[0]);
      AddEntryCounts(es, xs[0], name);
      AddAllMeaning(next, xs[1..], name, i);
      assert xs == [xs[0]] + xs[1..];
      HasSplit(xs[0], xs[1..]);
      if name == xs[0].name {
        PickPlus(At(es, name), xs[0].counts, i);
        WrapAbsorbs(At(es, name).Pick(i) + xs[0].counts.Pick(i), Sum(xs[1..], name, i));
      }
    }
  }

  /** A sorted list is determined by its names and their counters. */
  lemma {:induction false} SortedIsUnique(a: seq<Entry>, b: seq<Entry>)
    requires Sorted(a) && Sorted(b)
    requires forall name :: Has(a, name) <==> Has(b, name)
    requires forall name :: At(a, name) == At(b, name)
    ensures a == b
    decreases |a|
  {
    if a == [] {
      assert b != [] ==> Has(b, b[0].name);
    } else {
      assert Has(a, a[0].name);
      SameHead(a, b);
      SortedTail(a);
      SortedTail(b);
      forall name
        ensures Has(a[1..], name) <==> Has(b[1..], name)
        ensures At(a[1..], name) == At(b[1..], name)
      {
        TailOnly(a, name);
        TailOnly(b, name);
      }
      SortedIsUnique(a[1..], b[1..]);
      assert a == [a[0]] + a[1..] && b == [b[0]] + b[1..];
    }
  }

  lemma SameHead(a: seq<Entry>, b: seq<Entry>)
    requires Sorted(a) && Sorted(b) && a != [] && b != []
    requires Has(b, a[0].name) && Has(a, b[0].name)
    requires At(a, a[0].name) == At(b, a[0].name)
    ensures a[0] == b[0]
  {
    BeforeIsTotal(a[0].name, b[0].name);
  }

  lemma TailOnly(a: seq<Entry>, name: bytes)
    requires Sorted(a) && a != []
    ensures Has(a[1..], name) <==> Has(a, name) && name != a[0].name
    ensures At(a[1..], name) == if name == a[0].name then ZERO else At(a, name)
  {
    SortedTail(a);
    assert a == [a[0]] + a[1..];
    HasSplit(a[0], a[1..]);
    BeforeIsTotal(name, name);
    if name == a[0].name { AtAbsent(a[1..], name); }
  }

  // ---------------------------------------------------------------- order independence

  lemma {:induction false} SumAppend(xs: seq<Entry>, ys: seq<Entry>, name: bytes, i: nat)
    requires i < 4
    ensures Sum(xs + ys, name, i) == Sum(xs, name, i) + Sum(ys, name, i)
    decreases |xs|
  {
    if xs == [] {
      assert xs + ys == ys;
    } else {
      assert (xs + ys)[1..] == xs[1..] + ys;
      SumAppend(xs[1..], ys, name, i);
    }
  }

  lemma SumWithoutOne(ys: seq<Entry>, k: nat, name: bytes, i: nat)
    requires k < |ys| && i < 4
    ensures Sum(ys, name, i)
         == Sum(ys[..k] + ys[k + 1..], name, i) + if ys[k].name == name then ys[k].counts.Pick(i) else 0
  {
    assert ys == ys[..k] + ([ys[k]] + ys[k + 1..]);
    SumAppend(ys[..k], [ys[k]] + ys[k + 1..], name, i);
    SumAppend(ys[..k], ys[k + 1..], name, i);
    assert ([ys[k]] + ys[k + 1..])[1..] == ys[k + 1..];
  }

  /** The first element of xs can be taken out of any permutation of xs. */
  lemma TakeOut<T>(xs: seq<T>, ys: seq<T>) returns (k: nat)
    requires multiset(xs) == multiset(ys) && xs != []
    ensures k < |ys| && ys[k] == xs[0]
    ensures multiset(xs[1..]) == multiset(ys[..k] + ys[k + 1..])
  {
    assert xs[0] in multiset(ys);
    k :| 0 <= k < |ys| && ys[k] == xs[0];
    assert ys == ys[..k] + ([ys[k]] + ys[k + 1..]);
    assert multiset(ys) == multiset{ys[k]} + multiset(ys[..k] + ys[k + 1..]);
    assert xs == [xs[0]] + xs[1..];
    assert multiset(xs[1..]) == multiset(xs) - multiset{xs[0]};
  }

  lemma {:induction false} SumOfPermutation(xs: seq<Entry>, ys: seq<Entry>, name: bytes, i: nat)
    requires multiset(xs) == multiset(ys) && i < 4
    ensures Sum(xs, name, i) == Sum(ys, name, i)
    decreases |xs|
  {
    if xs == [] {
      assert |multiset(ys)| == 0;
    } else {
      var k := TakeOut(xs, ys);
      SumWithoutOne(ys, k, name, i);
      SumOfPermutation(xs[1..], ys[..k] + ys[k + 1..], name, i);
    }
  }

  lemma SameNames(xs: seq<Entry>, ys: seq<Entry>, name: bytes)
    requires multiset(xs) == multiset(ys) && Has(xs, name)
    ensures Has(ys, name)
  {
    var k :| 0 <= k < |xs| && xs[k].name == name;
    assert xs[k] in multiset(ys);
    var j :| 0 <= j < |ys| && ys[j] == xs[k];
    assert ys[j].name == name;
  }

  /** Any order of adding gives the same list. */
  lemma AddAllPermutation(es: seq<Entry>, xs: seq<Entry>, ys: seq<Entry>)
    requires Sorted(es) && multiset(xs) == multiset(ys)
    ensures AddAll(es, xs) == AddAll(es, ys)
  {
    hide AddAll, At;
    var a, b := AddAll(es, xs), AddAll(es, ys);
    AddAllMeaning(es, xs, [], 0);
    AddAllMeaning(es, ys, [], 0);
    forall name
      ensures Has(a, name) <==> Has(b, name)
      ensures At(a, name) == At(b, name)
    {
      SameMeaning(es, xs, ys, name);
    }
    SortedIsUnique(a, b);
  }

  lemma SameMeaning(es: seq<Entry>, xs: seq<Entry>, ys: seq<Entry>, name: bytes)
    requires Sorted(es) && multiset(xs) == multiset(ys)
    ensures Has(AddAll(es, xs), name) <==> Has(AddAll(es, ys), name)
    ensures At(AddAll(es, xs), name) == At(AddAll(es, ys), name)
  {
    hide AddAll, At;
    if Has(xs, name) { SameNames(xs, ys, name); }
    if Has(ys, name) { SameNames(ys, xs, name); }
    forall i: nat | i < 4
      ensures At(AddAll(es, xs), name).Pick(i) == At(AddAll(es, ys), name).Pick(i)
      ensures Has(AddAll(es, xs), name) <==> Has(AddAll(es, ys), name)
    {
      AddAllMeaning(es, xs, name, i);
      AddAllMeaning(es, ys, name, i);
      SumOfPermutation(xs, ys, name, i);
    }
    AddAllMeaning(es, xs, name, 0);
    AddAllMeaning(es, ys, name, 0);
    SameCounts(At(AddAll(es, xs), name), At(AddAll(es, ys), name));
  }

  lemma SameCounts(a: Counts, b: Counts)
    requires forall i: nat :: i < 4 ==> a.Pick(i) == b.Pick(i)
    ensures a == b
  {
    assert a.Pick(0) == b.Pick(0) && a.Pick(1) == b.Pick(1) && a.Pick(2) == b.Pick(2) && a.Pick(3) == b.Pick(3);
  }

  lemma {:induction false} AddAllAppend(es: seq<Entry>, xs: seq<Entry>, ys: seq<Entry>)
    ensures AddAll(es, xs + ys) == AddAll(AddAll(es, xs), ys)
    decreases |xs|
  {
    if xs == [] {
      assert xs + ys == ys;
    } else {
      assert (xs + ys)[0] == xs[0] && (xs + ys)[1..] == xs[1..] + ys;
      AddAllAppend(AddEntry(es, xs[0]), xs[1..], ys);
    }
  }

  /** The same for a list that started empty. */
  lemma AddAllFromNothing(xs: seq<Entry>, name: bytes, i: nat)
    requires i < 4
    ensures Sorted(AddAll([], xs))
    ensures Has(AddAll([], xs), name) <==> Has(xs, name)
    ensures At(AddAll([], xs), name).Pick(i) == Wrap(Sum(xs, name, i))
  {
    AddAllMeaning([], xs, name, i);
  }

  lemma AddAllNone(es: seq<Entry>)
    ensures AddAll(es, []) == es
  {
  }

  lemma AddAllOneMore(es: seq<Entry>, xs: seq<Entry>, x: Entry)
    requires Sorted(es)
    ensures AddAll(es, xs + [x]) == AddEntry(AddAll(es, xs), x)
    ensures Sorted(AddAll(es, xs))
  {
    AddAllAppend(es, xs, [x]);
    AddAllMeaning(es, xs, [], 0);
  }

  // ------------------------------------------- what the code does to the list

  /** p lists the indices below n, each once. */
  ghost predicate Permutation(p: seq<nat>, n: nat) {
    && |p| == n
    && (forall i :: 0 <= i < n ==> p[i] < n)
    && (forall i, j :: 0 <= i < j < n ==> p[i] != p[j])
    && (forall k: nat :: k < n ==> k in p)
  }

  lemma {:induction false} AddNewElements(es: seq<Entry>, e: Entry)
    requires !Has(es, e.name)
    ensures |AddEntry(es, e)| == |es| + 1
    ensures forall x :: x in AddEntry(es, e) <==> x in es || x == e
    decreases |es|
  {
    if es != [] {
      assert es == [es[0]] + es[1..];
      HasSplit(es[0], es[1..]);
      if !Before(e.name, es[0].name) { AddNewElements(es[1..], e); }
    }
  }

  lemma {:induction false} SortedElements(a: seq<Entry>, b: seq<Entry>)
    requires Sorted(a) && Sorted(b) && |a| == |b| && forall x :: x in a <==> x in b
    ensures a == b
    decreases |a|
  {
    if a != [] {
      assert a[0] in b;
      assert b[0] in a;
      BeforeIsTotal(a[0].name, b[0].name);
      SortedTail(a);
      SortedTail(b);
      TailElements(a);
      TailElements(b);
      assert a == [a[0]] + a[1..] && b == [b[0]] + b[1..];
      SortedElements(a[1..], b[1..]);
    }
  }

  lemma TailElements(a: seq<Entry>)
    requires Sorted(a) && a != []
    ensures forall x :: x in a[1..] <==> x in a && x != a[0]
  {
    BeforeIsTotal(a[0].name, a[0].name);
  }

  /** p arranges the entries in the order of their names. */
  ghost predicate IsSorting(es: seq<Entry>, p: seq<nat>) {
    Permutation(p, |es|) && forall i, j :: 0 <= i < j < |p| ==> !Before(es[p[j]].name, es[p[i]].name)
  }

  ghost function Arranged(es: seq<Entry>, p: seq<nat>): (r: seq<Entry>)
    requires Permutation(p, |es|)
    ensures |r| == |p| && forall i :: 0 <= i < |p| ==> r[i] == es[p[i]]
  {
    seq(|p|, i requires 0 <= i < |p| => es[p[i]])
  }

  /** Appending a zero entry for a new name and sorting is adding a zero entry. */
  lemma AppendAndSort(es: seq<Entry>, name: bytes, p: seq<nat>)
    requires Sorted(es) && !Has(es, name) && IsSorting(es + [Entry(name, ZERO)], p)
    ensures Arranged(es + [Entry(name, ZERO)], p) == AddEntry(es, Entry(name, ZERO))
  {
    hide AddEntry, Sorted, Has, Before;
    var z := Entry(name, ZERO);
    ArrangedInOrder(es, name, p);
    ArrangedElements(es + [z], p);
    AddNewElements(es, z);
    AddEntrySorted(es, z);
    SortedElements(Arranged(es + [z], p), AddEntry(es, z));
  }

  lemma ArrangedInOrder(es: seq<Entry>, name: bytes, p: seq<nat>)
    requires Sorted(es) && !Has(es, name) && IsSorting(es + [Entry(name, ZERO)], p)
    ensures Sorted(Arranged(es + [Entry(name, ZERO)], p))
  {
    hide Before, Has;
    var all := es + [Entry(name, ZERO)];
    forall i, j | 0 <= i < j < |p|
      ensures Before(all[p[i]].name, all[p[j]].name)
    {
      BeforeIsTotal(all[p[i]].name, all[p[j]].name);
      DistinctNames(es, name, p[i], p[j]);
    }
  }

  lemma ArrangedElements(es: seq<Entry>, p: seq<nat>)
    requires Permutation(p, |es|)
    ensures forall x :: x in Arranged(es, p) <==> x in es
  {
    var r := Arranged(es, p);
    forall x | x in es
      ensures x in r
    {
      var k :| 0 <= k < |es| && es[k] == x;
      assert k in p;
      var i :| 0 <= i < |p| && p[i] == k;
      assert r[i] == x;
    }
  }

  lemma DistinctNames(es: seq<Entry>, name: bytes, i: nat, j: nat)
    requires Sorted(es) && !Has(es, name) && i <= |es| && j <= |es| && i != j
    ensures (es + [Entry(name, ZERO)])[i].name != (es + [Entry(name, ZERO)])[j].name
  {
    if i < |es| { BeforeIsTotal(es[i].name, es[i].name); }
  }

  /** Adding to the entry found under a name is adding by that name. */
  lemma {:induction false} AddInPlace(es: seq<Entry>, k: nat, c: Counts)
    requires Sorted(es) && k < |es|
    ensures es[k := Entry(es[k].name, Plus(es[k].counts, c))] == AddEntry(es, Entry(es[k].name, c))
    decreases |es|
  {
    if k > 0 {
      BeforeIsTotal(es[0].name, es[k].name);
      AddInPlace(es[1..], k - 1, c);
      assert es[k := Entry(es[k].name, Plus(es[k].counts, c))]
          == [es[0]] + es[1..][k - 1 := Entry(es[k].name, Plus(es[k].counts, c))];
    }
  }

  /** Making room for a name first makes no difference to what is then added. */
  lemma {:induction false} AddAfterZero(es: seq<Entry>, e: Entry)
    ensures AddEntry(AddEntry(es, Entry(e.name, ZERO)), e) == AddEntry(es, e)
    decreases |es|
  {
    PlusZero(e.counts);
    if es != [] {
      PlusZero(es[0].counts);
      BeforeIsTotal(e.name, e.name);
      if es[0].name != e.name && !Before(e.name, es[0].name) {
        AddAfterZero(es[1..], e);
        assert AddEntry(es, Entry(e.name, ZERO))[1..] == AddEntry(es[1..], Entry(e.name, ZERO));
      } else if es[0].name != e.name {
        assert AddEntry(es, Entry(e.name, ZERO)) == [Entry(e.name, ZERO)] + es;
      }
    }
  }

  /** Making room for a name and adding to the entry found there is adding by that name. */
  lemma AddFound(es: seq<Entry>, keys: seq<Entry>, k: nat, e: Entry)
    requires Sorted(es) && keys == AddEntry(es, Entry(e.name, ZERO))
    requires k < |keys| && keys[k].name == e.name
    ensures keys[k := Entry(e.name, Plus(keys[k].counts, e.counts))] == AddEntry(es, e)
  {
    AddEntrySorted(es, Entry(e.name, ZERO));
    AddInPlace(keys, k, e.counts);
    AddAfterZero(es, e);
  }
}
