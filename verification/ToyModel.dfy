/**
 The executable specification of the snapshot policies: polled links, buffers, a clock
 that may time out, and one main loop.  The merge policy is not part of this model.
 */
module ToyModel {
  import opened Common
  import opened SnapshotSpec

  // ---------------------------------------------------------------- one link

  /** The cursor into a link, its buffer and its trigger. */
  datatype Link = Link(cursor: nat, buffer: seq<string>, ready: bool)

  /** A link without its gaps: the values it delivers. */
  function Values(stream: seq<string>): seq<string> {
    if stream == [] then []
    else
      var k := |stream| - 1;
      Values(stream[..k]) + if stream[k] == "" then [] else [stream[k]]
  }

  /** The newest value, if there is one. */
  function Latest(vs: seq<string>): seq<string> {
    if vs == [] then [] else vs[|vs| - 1..]
  }

  /** What polling does to a link whose next datum is given. */
  function Poll(policy: SnapshotPolicy, minfill: int, maxfill: int, x: Link, data: string): Link {
    var cursor := if |x.buffer| <= maxfill then x.cursor + 1 else x.cursor;
    if policy == SwapNew4Old then Link(cursor, if data == "" then x.buffer else [data], true)
    else if data == "" then x.(cursor := cursor)
    else
      var buffer := x.buffer + [data];
      Link(cursor, buffer, |buffer| >= minfill)
  }

  /** What is left of a link once its buffer was committed. */
  function Clear(policy: SnapshotPolicy, x: Link): Link {
    match policy
    case AllNew => Link(x.cursor, [], false)
    case SlidingWindow => Link(x.cursor, if |x.buffer| > 0 then x.buffer[1..] else [], false)
    case SwapNew4Old => x.(ready := false)
  }

  function Shift(policy: SnapshotPolicy, fill: int): int {
    match policy
    case AllNew => fill
    case SlidingWindow => 1
    case SwapNew4Old => 0
  }

  /** The part of tuple k that a link contributes. */
  ghost predicate IsPart(policy: SnapshotPolicy, fill: int, stream: seq<string>, cursor: nat, k: nat, part: seq<string>)
    requires cursor <= |stream|
  {
    if policy == SwapNew4Old then k < cursor && part == Latest(Values(stream[..k + 1]))
    else
      var a, vs := k * Shift(policy, fill), Values(stream[..cursor]);
      0 <= a <= a + fill <= |vs| && part == vs[a..a + fill]
  }

  /** A link after k commits: its buffer holds what it delivered and no tuple has used up. */
  ghost predicate LinkInv(policy: SnapshotPolicy, fill: int, stream: seq<string>, k: nat, x: Link) {
    Holds(policy, fill, stream, k, k * Shift(policy, fill), x)
  }

  ghost predicate Holds(policy: SnapshotPolicy, fill: int, stream: seq<string>, k: nat, used: int, x: Link) {
    && x.cursor <= |stream|
    && var vs := Values(stream[..x.cursor]);
       if policy == SwapNew4Old then x.cursor == (if x.ready then k + 1 else k) && x.buffer == Latest(vs)
       else 0 <= used <= |vs| && x.buffer == vs[used..] && |x.buffer| <= fill && (x.ready <==> |x.buffer| == fill)
  }

  /** Fills that make sense: an accepted policy with a required length of at least one. */
  predicate KnobsFit(policy: SnapshotPolicy, minfill: int, maxfill: int) {
    1 <= minfill <= maxfill && (policy == SwapNew4Old ==> minfill == 1)
  }

  lemma PollKeeps(policy: SnapshotPolicy, minfill: int, maxfill: int, stream: seq<string>, k: nat, used: int, x: Link)
    requires Holds(policy, minfill, stream, k, used, x) && !x.ready && x.cursor < |stream|
    requires KnobsFit(policy, minfill, maxfill)
    ensures Holds(policy, minfill, stream, k, used, Poll(policy, minfill, maxfill, x, stream[x.cursor]))
    ensures Poll(policy, minfill, maxfill, x, stream[x.cursor]).cursor == x.cursor + 1
  {
    hide Values;
    OneRead(policy, minfill, maxfill, stream, k, used, x);
    if policy == SwapNew4Old {
      PollSwaps(minfill, maxfill, stream, k, used, x);
    } else if stream[x.cursor] != "" {
      PollAppends(policy, minfill, maxfill, stream, k, used, x);
    } else {
      PollSkips(policy, minfill, maxfill, stream, k, used, x);
    }
  }

  /** A poll reads one datum, whether there is a value in it or not. */
  lemma OneRead(policy: SnapshotPolicy, minfill: int, maxfill: int, stream: seq<string>, k: nat, used: int, x: Link)
    requires Holds(policy, minfill, stream, k, used, x) && !x.ready && x.cursor < |stream|
    requires KnobsFit(policy, minfill, maxfill)
    ensures Poll(policy, minfill, maxfill, x, stream[x.cursor]).cursor == x.cursor + 1
  {
    hide Values;
  }

  lemma PollSwaps(minfill: int, maxfill: int, stream: seq<string>, k: nat, used: int, x: Link)
    requires Holds(SwapNew4Old, minfill, stream, k, used, x) && !x.ready && x.cursor < |stream| && maxfill >= 1
    ensures Holds(SwapNew4Old, minfill, stream, k, used, Poll(SwapNew4Old, minfill, maxfill, x, stream[x.cursor]))
  {
    hide Values;
    ValuesNext(stream, x.cursor);
  }

  lemma PollSkips(policy: SnapshotPolicy, minfill: int, maxfill: int, stream: seq<string>, k: nat, used: int, x: Link)
    requires Holds(policy, minfill, stream, k, used, x) && !x.ready && x.cursor < |stream|
    requires KnobsFit(policy, minfill, maxfill) && policy != SwapNew4Old && stream[x.cursor] == ""
    ensures Holds(policy, minfill, stream, k, used, Poll(policy, minfill, maxfill, x, stream[x.cursor]))
  {
    hide Values;
    ValuesNext(stream, x.cursor);
  }

  lemma PollAppends(policy: SnapshotPolicy, minfill: int, maxfill: int, stream: seq<string>, k: nat, used: int, x: Link)
    requires Holds(policy, minfill, stream, k, used, x) && !x.ready && x.cursor < |stream|
    requires KnobsFit(policy, minfill, maxfill) && policy != SwapNew4Old && stream[x.cursor] != ""
    ensures Holds(policy, minfill, stream, k, used, Poll(policy, minfill, maxfill, x, stream[x.cursor]))
  {
    hide Values;
    var vs, data := Values(stream[..x.cursor]), stream[x.cursor];
    ValuesNext(stream, x.cursor);
    assert (vs + [data])[used..] == vs[used..] + [data];
  }

  lemma ValuesNext(stream: seq<string>, i: nat)
    requires i < |stream|
    ensures Values(stream[..i + 1]) == Values(stream[..i]) + if stream[i] == "" then [] else [stream[i]]
  {
    assert stream[..i + 1][..i] == stream[..i];
  }

  lemma ClearKeeps(policy: SnapshotPolicy, fill: int, stream: seq<string>, k: nat, used: int, x: Link)
    requires Holds(policy, fill, stream, k, used, x) && x.ready && fill >= 1
    ensures Holds(policy, fill, stream, k + 1, used + Shift(policy, fill), Clear(policy, x)) && !Clear(policy, x).ready
  {
  }

  lemma PartTaken(policy: SnapshotPolicy, fill: int, stream: seq<string>, k: nat, x: Link)
    requires LinkInv(policy, fill, stream, k, x) && x.ready
    ensures IsPart(policy, fill, stream, x.cursor, k, x.buffer)
  {
    var used := k * Shift(policy, fill);
    assert Holds(policy, fill, stream, k, used, x);
  }

  lemma NextUsed(policy: SnapshotPolicy, fill: int, k: nat)
    ensures (k + 1) * Shift(policy, fill) == k * Shift(policy, fill) + Shift(policy, fill)
  {
  }

  lemma {:induction false} ValuesGrow(stream: seq<string>, i: nat, j: nat)
    requires i <= j <= |stream|
    ensures Values(stream[..i]) <= Values(stream[..j])
    decreases j
  {
    if i < j {
      ValuesGrow(stream, i, j - 1);
      assert stream[..j][..j - 1] == stream[..j - 1];
    }
  }

  /** What was committed stays what it was as the link is read on. */
  lemma PartStays(policy: SnapshotPolicy, fill: int, stream: seq<string>, i: nat, j: nat, k: nat, part: seq<string>)
    requires i <= j <= |stream| && IsPart(policy, fill, stream, i, k, part)
    ensures IsPart(policy, fill, stream, j, k, part)
  {
    ValuesGrow(stream, i, j);
  }

  // ---------------------------------------------------------------- all links

  /** The streams and fills a task works with. */
  datatype Setup = Setup(policy: SnapshotPolicy, minfill: seq<int>, maxfill: seq<int>, link: seq<seq<string>>)

  ghost predicate SetupFits(u: Setup) {
    && |u.minfill| == |u.maxfill| == |u.link| > 0
    && forall i :: 0 <= i < |u.link| ==> KnobsFit(u.policy, u.minfill[i], u.maxfill[i])
  }

  ghost predicate LinksInv(u: Setup, k: nat, links: seq<Link>) {
    && |links| == |u.link| == |u.minfill|
    && forall i :: 0 <= i < |links| ==> LinkInv(u.policy, u.minfill[i], u.link[i], k, links[i])
  }

  /** A tuple has from each link the part due, and no timeout brought it about. */
  ghost predicate Committed(u: Setup, k: nat, links: seq<Link>, exec: Exec) {
    && |exec.buffers| == |links| == |u.link| == |u.minfill| && !exec.onTimeout
    && forall i :: 0 <= i < |links| ==>
         links[i].cursor <= |u.link[i]| && IsPart(u.policy, u.minfill[i], u.link[i], links[i].cursor, k, exec.buffers[i])
  }

  ghost predicate ExecsInv(u: Setup, links: seq<Link>, execs: seq<Exec>) {
    forall k :: 0 <= k < |execs| ==> Committed(u, k, links, execs[k])
  }

  /** y is x polled, if it was not ready. */
  ghost predicate Polled(policy: SnapshotPolicy, minfill: int, maxfill: int, stream: seq<string>, x: Link, y: Link) {
    if x.ready then y == x
    else x.cursor < |stream| && y == Poll(policy, minfill, maxfill, x, stream[x.cursor])
  }

  ghost predicate AllPolled(u: Setup, xs: seq<Link>, ys: seq<Link>) {
    && |xs| == |ys| == |u.link| == |u.minfill| == |u.maxfill|
    && forall i :: 0 <= i < |xs| ==> Polled(u.policy, u.minfill[i], u.maxfill[i], u.link[i], xs[i], ys[i])
  }

  /** Polling broke off somewhere: some links are polled, the others as before. */
  ghost predicate PartlyPolled(u: Setup, xs: seq<Link>, ys: seq<Link>) {
    && |xs| == |ys| == |u.link| == |u.minfill| == |u.maxfill|
    && forall i :: 0 <= i < |xs| ==>
         ys[i] == xs[i] || Polled(u.policy, u.minfill[i], u.maxfill[i], u.link[i], xs[i], ys[i])
  }

  ghost predicate AllReady(links: seq<Link>) {
    forall i :: 0 <= i < |links| ==> links[i].ready
  }

  ghost predicate AllCleared(policy: SnapshotPolicy, xs: seq<Link>, ys: seq<Link>) {
    |xs| == |ys| && forall i :: 0 <= i < |xs| ==> ys[i] == Clear(policy, xs[i])
  }

  lemma AfterPoll(u: Setup, k: nat, xs: seq<Link>, ys: seq<Link>, execs: seq<Exec>)
    requires SetupFits(u) && LinksInv(u, k, xs) && ExecsInv(u, xs, execs) && PartlyPolled(u, xs, ys)
    ensures LinksInv(u, k, ys) && ExecsInv(u, ys, execs)
  {
    hide Holds, IsPart, KnobsFit;
    forall i | 0 <= i < |xs|
      ensures LinkInv(u.policy, u.minfill[i], u.link[i], k, ys[i]) && xs[i].cursor <= ys[i].cursor <= |u.link[i]|
    {
      var used := k * Shift(u.policy, u.minfill[i]);
      Bounded(u.policy, u.minfill[i], u.link[i], k, used, xs[i]);
      if xs[i] != ys[i] {
        PollKeeps(u.policy, u.minfill[i], u.maxfill[i], u.link[i], k, used, xs[i]);
      }
      Bounded(u.policy, u.minfill[i], u.link[i], k, used, ys[i]);
    }
    CommittedStays(u, xs, ys, execs);
  }

  /** A polled link has read one datum, the others nothing. */
  lemma EachReadsOne(u: Setup, k: nat, xs: seq<Link>, ys: seq<Link>)
    requires SetupFits(u) && LinksInv(u, k, xs) && AllPolled(u, xs, ys)
    ensures forall i :: 0 <= i < |xs| ==> ys[i].cursor == xs[i].cursor + if xs[i].ready then 0 else 1
  {
    hide Holds, KnobsFit, Poll;
    forall i | 0 <= i < |xs| && !xs[i].ready
      ensures ys[i].cursor == xs[i].cursor + 1
    {
      OneRead(u.policy, u.minfill[i], u.maxfill[i], u.link[i], k, k * Shift(u.policy, u.minfill[i]), xs[i]);
    }
  }

  lemma PollGrows(u: Setup, xs: seq<Link>, ys: seq<Link>)
    requires AllPolled(u, xs, ys)
    ensures PartlyPolled(u, xs, ys)
    ensures u.policy != SwapNew4Old ==> forall i :: 0 <= i < |xs| ==> xs[i].buffer <= ys[i].buffer
    ensures u.policy == SwapNew4Old ==> AllReady(ys)
  {
  }

  lemma Bounded(policy: SnapshotPolicy, fill: int, stream: seq<string>, k: nat, used: int, x: Link)
    requires Holds(policy, fill, stream, k, used, x)
    ensures x.cursor <= |stream|
  {
  }

  lemma CommittedStays(u: Setup, xs: seq<Link>, ys: seq<Link>, execs: seq<Exec>)
    requires |xs| == |ys| == |u.link|
    requires ExecsInv(u, xs, execs) && forall i :: 0 <= i < |xs| ==> xs[i].cursor <= ys[i].cursor <= |u.link[i]|
    ensures ExecsInv(u, ys, execs)
  {
    hide IsPart;
    forall k | 0 <= k < |execs|
      ensures Committed(u, k, ys, execs[k])
    {
      assert Committed(u, k, xs, execs[k]);
      forall i | 0 <= i < |xs|
        ensures IsPart(u.policy, u.minfill[i], u.link[i], ys[i].cursor, k, execs[k].buffers[i])
      {
        PartStays(u.policy, u.minfill[i], u.link[i], xs[i].cursor, ys[i].cursor, k, execs[k].buffers[i]);
      }
    }
  }

  lemma AfterCommit(u: Setup, k: nat, xs: seq<Link>, ys: seq<Link>, execs: seq<Exec>, exec: Exec)
    requires SetupFits(u) && LinksInv(u, k, xs) && ExecsInv(u, xs, execs) && k == |execs|
    requires AllReady(xs) && AllCleared(u.policy, xs, ys)
    requires !exec.onTimeout && |exec.buffers| == |xs| && forall i :: 0 <= i < |xs| ==> exec.buffers[i] == xs[i].buffer
    ensures LinksInv(u, k + 1, ys) && ExecsInv(u, ys, execs + [exec]) && !AllReady(ys)
  {
    hide Holds, IsPart;
    forall i | 0 <= i < |xs|
      ensures LinkInv(u.policy, u.minfill[i], u.link[i], k + 1, ys[i]) && !ys[i].ready
      ensures xs[i].cursor == ys[i].cursor <= |u.link[i]|
      ensures IsPart(u.policy, u.minfill[i], u.link[i], ys[i].cursor, k, exec.buffers[i])
    {
      assert KnobsFit(u.policy, u.minfill[i], u.maxfill[i]);
      var used := k * Shift(u.policy, u.minfill[i]);
      Bounded(u.policy, u.minfill[i], u.link[i], k, used, xs[i]);
      ClearKeeps(u.policy, u.minfill[i], u.link[i], k, used, xs[i]);
      NextUsed(u.policy, u.minfill[i], k);
      PartTaken(u.policy, u.minfill[i], u.link[i], k, xs[i]);
    }
    CommittedStays(u, xs, ys, execs);
    assert !ys[0].ready;
  }

  /** A link that is not ready is below its minimum. */
  lemma NotReadyIsShort(u: Setup, k: nat, links: seq<Link>)
    requires SetupFits(u) && LinksInv(u, k, links) && u.policy != SwapNew4Old && !AllReady(links)
    ensures exists i :: 0 <= i < |links| && |links[i].buffer| < u.minfill[i]
  {
    var i :| 0 <= i < |links| && !links[i].ready;
    assert LinkInv(u.policy, u.minfill[i], u.link[i], k, links[i]);
  }

  // ---------------------------------------------------------------- the task

  /** The knobs of a link fit the policy, once a required length has replaced both fills. */
  predicate Accepted(policy: SnapshotPolicy, required: int, slide: int, minfill: int, maxfill: int) {
    var least := if required > 0 then required else minfill;
    && (required > 0 || minfill <= maxfill)
    && (policy == SlidingWindow ==> slide <= least)
    && (policy == SwapNew4Old ==> required == 1)
  }

  /**
   When a policy is refused: for contradictory fills without a required length, for a
   slide longer than the window, for a swapped window of other than one value.
   */
  lemma RefusedWhen(policy: SnapshotPolicy, required: int, slide: int, minfill: int, maxfill: int)
    ensures policy == AllNew ==> (!Accepted(policy, required, slide, minfill, maxfill) <==> required <= 0 && maxfill < minfill)
    ensures policy == SlidingWindow ==>
      (!Accepted(policy, required, slide, minfill, maxfill) <==>
         if required > 0 then slide > required else maxfill < minfill || slide > minfill)
    ensures policy == SwapNew4Old ==> (!Accepted(policy, required, slide, minfill, maxfill) <==> required != 1)
  {
  }

  /** A commit: when, whether because of a timeout, and the buffers. */
  datatype Exec = Exec(time: int, onTimeout: bool, buffers: seq<seq<string>>)

  class Task {
    const link: seq<seq<string>>
    const policy: SnapshotPolicy
    const required: seq<int>
    const slide: seq<int>
    const aggregationTimeout: int
    const keepStream: bool
    var minfill: seq<int>
    var maxfill: seq<int>
    var links: seq<Link>
    var clockTime: int
    var lastCommit: int
    var timedOut: bool
    var execs: seq<Exec>
    var failures: nat

    constructor (link: seq<seq<string>>, policy: SnapshotPolicy, required: seq<int>, slide: seq<int>,
                 minfill: seq<int>, maxfill: seq<int>, aggregationTimeout: int, keepStream: bool)
      requires |link| == |required| == |slide| == |minfill| == |maxfill|
      ensures this.link == link && this.policy == policy && this.required == required && this.slide == slide
      ensures this.minfill == minfill && this.maxfill == maxfill
      ensures this.aggregationTimeout == aggregationTimeout && this.keepStream == keepStream
      ensures Shape() && links == seq(|link|, _ => Link(0, [], false)) && execs == [] && failures == 0
      ensures clockTime == lastCommit == 0 && !timedOut
    {
      this.link, this.policy, this.required, this.slide := link, policy, required, slide;
      this.minfill, this.maxfill := minfill, maxfill;
      this.aggregationTimeout, this.keepStream := aggregationTimeout, keepStream;
      links, execs, failures := seq(|link|, _ => Link(0, [], false)), [], 0;
      clockTime, lastCommit, timedOut := 0, 0, false;
    }

    ghost predicate Shape()
      reads this
    {
      |link| == |required| == |slide| == |minfill| == |maxfill| == |links|
    }

    /** Required lengths determine both fills of their links. */
    method CheckPolicy() returns (ok: bool)
      requires Shape()
      modifies this`minfill, this`maxfill
      ensures Shape()
      ensures ok ==> forall i :: 0 <= i < |link| ==>
        && minfill[i] == (if required[i] > 0 then required[i] else old(minfill)[i])
        && maxfill[i] == (if required[i] > 0 then required[i] else old(maxfill)[i])
      ensures ok <==> forall i :: 0 <= i < |link| ==>
        Accepted(policy, required[i], slide[i], old(minfill)[i], old(maxfill)[i])
      ensures ok ==> forall i :: 0 <= i < |link| ==>
        && minfill[i] <= maxfill[i]
        && (policy == SlidingWindow ==> slide[i] <= minfill[i])
        && (policy == SwapNew4Old ==> required[i] == minfill[i] == maxfill[i] == 1)
    {
      for i := 0 to |link|
        invariant Shape()
        invariant forall j :: 0 <= j < i ==>
          && minfill[j] == (if required[j] > 0 then required[j] else old(minfill)[j])
          && maxfill[j] == (if required[j] > 0 then required[j] else old(maxfill)[j])
          && Accepted(policy, required[j], slide[j], old(minfill)[j], old(maxfill)[j])
        invariant forall j :: i <= j < |link| ==> minfill[j] == old(minfill)[j] && maxfill[j] == old(maxfill)[j]
      {
        if required[i] > 0 {
          minfill := minfill[i := required[i]];
          maxfill := maxfill[i := required[i]];
        }
        if maxfill[i] < minfill[i] { return false; }
        if policy == SlidingWindow && slide[i] > minfill[i] { return false; }
        if policy == SwapNew4Old && (required[i] != 1 || minfill[i] != 1) { return false; }
      }
      ok := true;
    }

    function TheSetup(): Setup
      reads this`minfill, this`maxfill
    {
      Setup(policy, minfill, maxfill, link)
    }

    method AllMinRequirementsMet() returns (met: bool)
      requires Shape()
      ensures met <==> forall i :: 0 <= i < |link| ==> |links[i].buffer| >= minfill[i]
    {
      for i := 0 to |link|
        invariant forall j :: 0 <= j < i ==> |links[j].buffer| >= minfill[j]
      {
        if |links[i].buffer| < minfill[i] { return false; }
      }
      met := true;
    }

    /** Polls every link that is not ready; fails where a link has run out of data. */
    method UpdateAnnotatedValue() returns (ok: bool)
      requires Shape()
      modifies this`links
      ensures Shape()
      ensures ok <==> forall i :: 0 <= i < |link| && !old(links)[i].ready ==> old(links)[i].cursor < |link[i]|
      ensures if ok then AllPolled(TheSetup(), old(links), links) else PartlyPolled(TheSetup(), old(links), links)
    {
      for i := 0 to |link|
        invariant Shape()
        invariant forall j :: 0 <= j < i ==> Polled(policy, minfill[j], maxfill[j], link[j], old(links)[j], links[j])
        invariant forall j :: i <= j < |link| ==> links[j] == old(links)[j]
      {
        var x := links[i];
        if x.ready { continue; }
        if x.cursor >= |link[i]| { return false; }
        var data := link[i][x.cursor];
        if |x.buffer| <= maxfill[i] { x := x.(cursor := x.cursor + 1); }
        if policy == SwapNew4Old && data == "" {
          links := links[i := x.(ready := true)];
          continue;
        }
        if data != "" {
          if policy == SwapNew4Old { x := x.(buffer := [], ready := true); }
          x := x.(buffer := x.buffer + [data]);
          if |x.buffer| >= minfill[i] { x := x.(ready := true); }
        }
        links := links[i := x];
      }
      ok := true;
    }

    /** All links ready; otherwise time passes, perhaps too much of it. */
    method AcceptanceCriteria() returns (accepted: bool)
      requires Shape()
      modifies this`clockTime, this`timedOut
      ensures accepted <==> AllReady(links)
      ensures clockTime == if accepted then old(clockTime) else old(clockTime) + 1
      ensures timedOut == (old(timedOut) || (!accepted && clockTime - lastCommit > aggregationTimeout))
    {
      accepted := true;
      for i := 0 to |link|
        invariant accepted <==> forall j :: 0 <= j < i ==> links[j].ready
        invariant unchanged(this)
      {
        accepted := accepted && links[i].ready;
      }
      if accepted { return; }
      clockTime := clockTime + 1;
      var elapsed := clockTime - lastCommit;
      if elapsed > aggregationTimeout { timedOut := true; }
    }

    function Buffers(): (r: seq<seq<string>>)
      reads this
      ensures |r| == |links| && forall i :: 0 <= i < |links| ==> r[i] == links[i].buffer
    {
      seq(|links|, i requires 0 <= i < |links| reads this => links[i].buffer)
    }

    /**
     Executes on the buffers and clears them by policy.  After a timeout that finds a
     buffer below its minimum nothing is executed, and in keep-stream mode nothing cleared.
     */
    method CommitSnapshot()
      requires Shape()
      modifies this`lastCommit, this`timedOut, this`execs, this`failures, this`links
      ensures Shape() && lastCommit == clockTime && !timedOut
      ensures forall i :: 0 <= i < |link| ==> links[i].cursor == old(links)[i].cursor
      ensures var met := forall i :: 0 <= i < |link| ==> |old(links)[i].buffer| >= minfill[i];
        var starved := old(timedOut) && !met;
        && execs == (if starved then old(execs) else old(execs) + [Exec(clockTime, old(timedOut), old(Buffers()))])
        && failures == (if starved then old(failures) + 1 else old(failures))
        && (if starved && keepStream then links == old(links)
            else AllCleared(policy, old(links), links))
    {
      var buffers := Buffers();
      lastCommit := clockTime;
      if timedOut {
        timedOut := false;
        var met := AllMinRequirementsMet();
        if met {
          execs := execs + [Exec(clockTime, true, buffers)];
        } else {
          failures := failures + 1;
          if keepStream { return; }
        }
      } else {
        execs := execs + [Exec(clockTime, false, buffers)];
      }
      ClearLinks();
    }

    /** Clears what the policy does not keep. */
    method ClearLinks()
      requires Shape()
      modifies this`links
      ensures Shape() && AllCleared(policy, old(links), links)
      ensures forall i :: 0 <= i < |link| ==> links[i].cursor == old(links)[i].cursor
    {
      for i := 0 to |link|
        invariant Shape()
        invariant forall j :: 0 <= j < i ==> links[j] == Clear(policy, old(links)[j])
        invariant forall j :: i <= j < |link| ==> links[j] == old(links)[j]
      {
        var x := links[i].(ready := false);
        match policy {
          case SwapNew4Old =>
          case AllNew => x := x.(buffer := []);
          case SlidingWindow =>
            if |x.buffer| > 0 { x := x.(buffer := x.buffer[1..]); }
        }
        links := links[i := x];
      }
    }

    // -------------------------------------------------------------- the main loop

    /** What holds at the head of the main loop, in keep-stream mode. */
    ghost predicate Inv()
      reads this
    {
      && Shape() && keepStream && aggregationTimeout >= 0
      && !timedOut && clockTime - lastCommit <= aggregationTimeout
      && Core() && !AllReady(links)
    }

    /** What holds even where the data of a link ran out. */
    ghost predicate Core()
      reads this
    {
      SetupFits(TheSetup()) && LinksInv(TheSetup(), |execs|, links) && ExecsInv(TheSetup(), links, execs)
    }

    /**
     One turn of the main loop.  It executes at most once, and only on full buffers; a
     timeout executes nothing and takes nothing out of any buffer.
     */
    method Turn() returns (ok: bool)
      requires Inv()
      modifies this`links, this`clockTime, this`lastCommit, this`timedOut, this`execs, this`failures
      ensures Core() && (ok ==> Inv())
      ensures old(execs) <= execs && |execs| + failures <= old(|execs| + failures) + 1
      ensures ok ==> forall i :: 0 <= i < |link| ==>
        links[i].cursor == old(links)[i].cursor + if old(links)[i].ready then 0 else 1
      ensures ok && failures > old(failures) ==>
        execs == old(execs) && forall i :: 0 <= i < |link| ==> old(links)[i].buffer <= links[i].buffer
    {
      hide LinksInv, ExecsInv, SetupFits, AllReady, AllPolled, PartlyPolled, AllCleared;
      ok := UpdateAnnotatedValue();
      if ok {
        PollGrows(TheSetup(), old(links), links);
        EachReadsOne(TheSetup(), |execs|, old(links), links);
      }
      AfterPoll(TheSetup(), |execs|, old(links), links, execs);
      if !ok { return; }
      label polled:
      ghost var xs, before := links, execs;
      var allready := AcceptanceCriteria();
      if !allready { Starved(); }
      if allready || timedOut {
        CommitSnapshot();
        if allready {
          AfterCommit(TheSetup(), |before|, xs, links, before, execs[|before|]);
        }
      }
    }

    /** Without all links ready, some buffer is below its minimum. */
    lemma Starved()
      requires Shape() && SetupFits(TheSetup()) && LinksInv(TheSetup(), |execs|, links) && !AllReady(links)
      ensures policy != SwapNew4Old ==> exists i :: 0 <= i < |link| && |links[i].buffer| < minfill[i]
    {
      if policy != SwapNew4Old { NotReadyIsShort(TheSetup(), |execs|, links); }
    }

    /** The main loop: a number of turns, fewer when the data of a link run out. */
    method Run(turns: nat) returns (done: nat)
      requires Inv()
      modifies this`links, this`clockTime, this`lastCommit, this`timedOut, this`execs, this`failures
      ensures done <= turns && Core() && (done == turns ==> Inv())
    {
      done := 0;
      while done < turns
        invariant done <= turns && Inv()
      {
        var ok := Turn();
        if !ok { return; }
        done := done + 1;
      }
    }

    /** The whole program: the policy checked, then the main loop. */
    method Execute(turns: nat) returns (accepted: bool, done: nat)
      requires Shape() && |link| > 0 && keepStream && aggregationTimeout >= 0
      requires links == seq(|link|, _ => Link(0, [], false)) && execs == [] && failures == 0
      requires clockTime == lastCommit == 0 && !timedOut
      requires forall i :: 0 <= i < |link| ==> required[i] >= 1 || minfill[i] >= 1
      modifies this
      ensures accepted <==> forall i :: 0 <= i < |link| ==>
        Accepted(policy, required[i], slide[i], old(minfill)[i], old(maxfill)[i])
      ensures accepted ==> done <= turns && Core() && (done == turns ==> Inv())
      ensures !accepted ==> execs == []
    {
      done := 0;
      accepted := CheckPolicy();
      if accepted {
        StartFits();
        done := Run(turns);
      }
    }

    lemma StartFits()
      requires Shape() && |link| > 0 && links == seq(|link|, _ => Link(0, [], false)) && execs == []
      requires forall i :: 0 <= i < |link| ==> KnobsFit(policy, minfill[i], maxfill[i])
      ensures Core() && !AllReady(links)
    {
      assert !links[0].ready;
    }
  }
}
