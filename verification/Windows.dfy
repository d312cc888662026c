/**
 The stream of values of one input against the windows its clones show of it.  The
 clones of an input are listed in clone order; the live sequence comes after the last.
 */
module Windows {
  import opened Common
  import opened SnapshotSpec

  /** The stream position of the first live value once the given clones were taken. */
  function Start(p: SnapshotPolicy, slide: nat, col: seq<seq<Entry>>): nat {
    if col == [] then 0
    else Start(p, slide, col[..|col| - 1]) + Advance(p, slide, |col[|col| - 1]|)
  }

  /**
   How far a clone moves the window on: by all it shows under AllNew, by the slide under
   SlidingWindow unless it shows less, not at all under SwapNew4Old.
   */
  lemma WindowMoves(p: SnapshotPolicy, slide: nat, col: seq<seq<Entry>>, clone: seq<Entry>)
    ensures Start(p, slide, []) == 0
    ensures p == AllNew ==> Start(p, slide, col + [clone]) == Start(p, slide, col) + |clone|
    ensures p == SlidingWindow ==>
      Start(p, slide, col + [clone]) == Start(p, slide, col) + if slide < |clone| then slide else |clone|
    ensures p == SwapNew4Old ==> Start(p, slide, col + [clone]) == Start(p, slide, col)
  {
    assert (col + [clone])[..|col|] == col;
  }

  /** The stream position just after the last clone; zero before the first. */
  function LastEnd(p: SnapshotPolicy, slide: nat, col: seq<seq<Entry>>): nat {
    if col == [] then 0
    else Start(p, slide, col[..|col| - 1]) + |col[|col| - 1]|
  }

  /**
   es shows the stream from position start on, unchanged; exactly the values from
   position first on carry a callback, that of the watcher that delivered them.
   */
  ghost predicate Window(es: seq<Entry>, start: nat, first: nat, stream: seq<Value>) {
    && start + |es| <= |stream|
    && forall j :: 0 <= j < |es| ==>
         es[j] == Entry(stream[start + j], if start + j >= first then Some(stream[start + j].source) else None)
  }

  /** Everything known of one input between two mutex-held regions. */
  ghost predicate InputInv(p: SnapshotPolicy, slide: nat, col: seq<seq<Entry>>, live: seq<Entry>, stream: seq<Value>) {
    && Window(live, Start(p, slide, col), LastEnd(p, slide, col), stream)
    && Start(p, slide, col) + |live| == |stream|
    && LastEnd(p, slide, col) <= |stream|
    && forall k :: 0 <= k < |col| ==> CloneInv(p, slide, col, k, stream)
  }

  ghost predicate CloneInv(p: SnapshotPolicy, slide: nat, col: seq<seq<Entry>>, k: nat, stream: seq<Value>)
    requires k < |col|
  {
    && Window(col[k], Start(p, slide, col[..k]), LastEnd(p, slide, col[..k]), stream)
    && LastEnd(p, slide, col[..k]) <= Start(p, slide, col[..k]) + |col[k]|
  }

  // ---------------------------------------------------------------- the two changes

  /** Storing a value. */
  lemma StoreKeeps(p: SnapshotPolicy, slide: nat, col: seq<seq<Entry>>, live: seq<Entry>, stream: seq<Value>, v: Value)
    requires InputInv(p, slide, col, live, stream)
    ensures InputInv(p, slide, col, live + [Entry(v, Some(v.source))], stream + [v])
  {
    forall k | 0 <= k < |col|
      ensures CloneInv(p, slide, col, k, stream + [v])
    {
      assert CloneInv(p, slide, col, k, stream);
    }
  }

  /** Taking a clone and preparing the live sequence. */
  lemma CutKeeps(p: SnapshotPolicy, slide: nat, col: seq<seq<Entry>>, live: seq<Entry>, stream: seq<Value>)
    requires InputInv(p, slide, col, live, stream)
    ensures InputInv(p, slide, col + [live], Forget(live[Advance(p, slide, |live|)..]), stream)
  {
    var next := col + [live];
    assert next[..|col|] == col;
    forall k | 0 <= k < |next|
      ensures CloneInv(p, slide, next, k, stream)
    {
      assert next[..k] == col[..k];
      if k < |col| { assert CloneInv(p, slide, col, k, stream); }
    }
  }

  // ---------------------------------------------------------------- order of windows

  lemma {:induction false} StartsGrow(p: SnapshotPolicy, slide: nat, col: seq<seq<Entry>>, j: nat, k: nat)
    requires j <= k <= |col|
    ensures Start(p, slide, col[..j]) <= Start(p, slide, col[..k])
    decreases k
  {
    if j < k {
      StartsGrow(p, slide, col, j, k - 1);
      assert col[..k][..k - 1] == col[..k - 1];
    }
  }

  lemma {:induction false} EndsGrow(
      p: SnapshotPolicy, slide: nat, col: seq<seq<Entry>>, live: seq<Entry>, stream: seq<Value>, j: nat, k: nat)
    requires InputInv(p, slide, col, live, stream) && j <= k <= |col|
    ensures LastEnd(p, slide, col[..j]) <= LastEnd(p, slide, col[..k])
    decreases k
  {
    if j < k {
      EndsGrow(p, slide, col, live, stream, j, k - 1);
      assert col[..k][..k - 1] == col[..k - 1];
      assert CloneInv(p, slide, col, k - 1, stream);
    }
  }

  /** A clone ends no earlier than the next one starts. */
  lemma NoGap(p: SnapshotPolicy, slide: nat, col: seq<seq<Entry>>, k: nat)
    requires k < |col|
    ensures Start(p, slide, col[..k]) <= Start(p, slide, col[..k + 1])
         <= Start(p, slide, col[..k]) + |col[k]| == LastEnd(p, slide, col[..k + 1])
  {
    assert col[..k + 1][..k] == col[..k];
  }

  /**
   Every stored value is still live or was shown by a clone; under no policy is one
   skipped over.
   */
  lemma {:induction false} Covered(
      p: SnapshotPolicy, slide: nat, col: seq<seq<Entry>>, live: seq<Entry>, stream: seq<Value>, i: nat, n: nat)
    requires InputInv(p, slide, col, live, stream)
    requires n <= |col| && i < Start(p, slide, col[..n]) && i < |stream|
    ensures exists k :: 0 <= k < n && Shows(p, slide, col, k, i) && col[k][i - Start(p, slide, col[..k])].val == stream[i]
    decreases n
  {
    NoGap(p, slide, col, n - 1);
    if i < Start(p, slide, col[..n - 1]) {
      Covered(p, slide, col, live, stream, i, n - 1);
    } else {
      assert CloneInv(p, slide, col, n - 1, stream);
      assert Shows(p, slide, col, n - 1, i);
    }
  }

  /** Stream position i lies in the window of clone k. */
  ghost predicate Shows(p: SnapshotPolicy, slide: nat, col: seq<seq<Entry>>, k: nat, i: nat)
    requires k < |col|
  {
    Start(p, slide, col[..k]) <= i < Start(p, slide, col[..k]) + |col[k]|
  }

  // ---------------------------------------------------------------- who owes an acknowledgement

  /** Clone k is the first whose window reaches beyond stream position i. */
  ghost predicate FirstToShow(p: SnapshotPolicy, slide: nat, col: seq<seq<Entry>>, k: nat, i: nat)
    requires k < |col|
  {
    LastEnd(p, slide, col[..k]) <= i < LastEnd(p, slide, col[..k + 1])
  }

  lemma {:induction false} FirstExists(p: SnapshotPolicy, slide: nat, col: seq<seq<Entry>>, n: nat, i: nat) returns (k: nat)
    requires n <= |col| && i < LastEnd(p, slide, col[..n])
    ensures k < n && FirstToShow(p, slide, col, k, i)
    decreases n
  {
    if n > 0 && LastEnd(p, slide, col[..n - 1]) <= i {
      k := n - 1;
    } else {
      k := FirstExists(p, slide, col, n - 1, i);
    }
  }

  /**
   The callback of a value is in clone k exactly when k is the first clone to show it;
   no other clone showing it carries the callback.
   */
  lemma CallbackInFirst(
      p: SnapshotPolicy, slide: nat, col: seq<seq<Entry>>, live: seq<Entry>, stream: seq<Value>, k: nat, j: nat)
    requires InputInv(p, slide, col, live, stream)
    requires k < |col| && j < |col[k]|
    ensures var i := Start(p, slide, col[..k]) + j;
      i < |stream| && col[k][j].val == stream[i]
      && (col[k][j].ack == if FirstToShow(p, slide, col, k, i) then Some(stream[i].source) else None)
  {
    assert CloneInv(p, slide, col, k, stream);
    NoGap(p, slide, col, k);
  }

  lemma FirstIsUnique(
      p: SnapshotPolicy, slide: nat, col: seq<seq<Entry>>, live: seq<Entry>, stream: seq<Value>, k: nat, l: nat, i: nat)
    requires InputInv(p, slide, col, live, stream)
    requires k < |col| && l < |col| && FirstToShow(p, slide, col, k, i) && FirstToShow(p, slide, col, l, i)
    ensures k == l && i < LastEnd(p, slide, col)
  {
    EndsGrow(p, slide, col, live, stream, k + 1, |col|);
    assert col[..|col|] == col;
    if k < l { EndsGrow(p, slide, col, live, stream, k + 1, l); }
    if l < k { EndsGrow(p, slide, col, live, stream, l + 1, k); }
  }

  // ---------------------------------------------------------------- AllNew: the clones tile the stream

  function Concat(col: seq<seq<Entry>>): seq<Value> {
    if col == [] then [] else Concat(col[..|col| - 1]) + Vals(col[|col| - 1])
  }

  lemma {:induction false} Tiles(slide: nat, col: seq<seq<Entry>>, live: seq<Entry>, stream: seq<Value>, n: nat)
    requires InputInv(AllNew, slide, col, live, stream) && n <= |col|
    ensures Start(AllNew, slide, col[..n]) <= |stream|
    ensures Concat(col[..n]) == stream[..Start(AllNew, slide, col[..n])]
    decreases n
  {
    if n > 0 {
      Tiles(slide, col, live, stream, n - 1);
      assert CloneInv(AllNew, slide, col, n - 1, stream);
      assert col[..n][..n - 1] == col[..n - 1];
      var a, b := Start(AllNew, slide, col[..n - 1]), Start(AllNew, slide, col[..n]);
      assert Vals(col[n - 1]) == stream[a..b];
      assert stream[..b] == stream[..a] + stream[a..b];
    }
  }

  /** Under AllNew the clones in order, then the live values, are the whole stream. */
  lemma NothingLostOrReordered(slide: nat, col: seq<seq<Entry>>, live: seq<Entry>, stream: seq<Value>)
    requires InputInv(AllNew, slide, col, live, stream)
    ensures Concat(col) + Vals(live) == stream
  {
    Tiles(slide, col, live, stream, |col|);
    assert col[..|col|] == col;
    assert Vals(live) == stream[Start(AllNew, slide, col)..];
  }

  // ---------------------------------------------------------------- windows of fixed length

  lemma {:induction false} FixedStart(p: SnapshotPolicy, slide: nat, col: seq<seq<Entry>>, r: nat, n: nat)
    requires n <= |col| && forall k :: 0 <= k < |col| ==> |col[k]| == r
    ensures Start(p, slide, col[..n]) == n * Advance(p, slide, r)
    decreases n
  {
    if n > 0 {
      FixedStart(p, slide, col, r, n - 1);
      assert col[..n][..n - 1] == col[..n - 1];
      assert n * Advance(p, slide, r) == (n - 1) * Advance(p, slide, r) + Advance(p, slide, r);
    }
  }

  /** With clones of r values each, clone k shows the r values from k times the advance on. */
  lemma FixedWindow(
      p: SnapshotPolicy, slide: nat, col: seq<seq<Entry>>, live: seq<Entry>, stream: seq<Value>, r: nat, k: nat)
    requires InputInv(p, slide, col, live, stream)
    requires k < |col| && forall l :: 0 <= l < |col| ==> |col[l]| == r
    ensures var a := k * Advance(p, slide, r);
      a + r <= |stream| && Vals(col[k]) == stream[a..a + r]
  {
    FixedStart(p, slide, col, r, k);
    assert CloneInv(p, slide, col, k, stream);
  }
}
