/** What every run of the publication protocol keeps: all links take a value or none does. */
module PublisherTheorems {
  import opened Common
  import opened Publisher

  // ---------------------------------------------------------------- sequences of deliveries

  /** a is what is left of b when some deliveries are struck out. */
  predicate Within(a: seq<Delivery>, b: seq<Delivery>) {
    if a == [] then true
    else if b == [] then false
    else if a[|a| - 1] == b[|b| - 1] then Within(a[..|a| - 1], b[..|b| - 1])
    else Within(a, b[..|b| - 1])
  }

  lemma WithinNext(a: seq<Delivery>, b: seq<Delivery>, d: Delivery)
    requires Within(a, b)
    ensures Within(a + [d], b + [d])
  {
    assert (a + [d])[..|a|] == a && (b + [d])[..|b|] == b;
  }

  lemma {:induction false} WithinLonger(a: seq<Delivery>, b: seq<Delivery>, d: Delivery)
    requires Within(a, b)
    ensures Within(a, b + [d])
    decreases |b|, 1
  {
    assert (b + [d])[..|b|] == b;
    if a != [] && a[|a| - 1] == d {
      WithinFront(a, b);
    }
  }

  lemma {:induction false} WithinFront(a: seq<Delivery>, b: seq<Delivery>)
    requires Within(a, b) && a != []
    ensures Within(a[..|a| - 1], b)
    decreases |b|, 0
  {
    var m, n := |a| - 1, |b| - 1;
    if a[m] != b[n] { WithinFront(a, b[..n]); }
    assert b == b[..n] + [b[n]];
    WithinLonger(a[..m], b[..n], b[n]);
  }

  ghost predicate Took(log: seq<Delivery>, c: nat) {
    exists j :: 0 <= j < |log| && log[j].call == c
  }

  // ---------------------------------------------------------------- the invariant

  /** A link by itself: who it works for, and that every value it took was published, was lost, or is being published. */
  ghost predicate LinkInv(l: Link) {
    && (forall j, k :: 0 <= j < k < |l.handed| ==> l.handed[j].call != l.handed[k].call)
    && (l.worker.Publishing? ==> l.handed != [] && l.handed[|l.handed| - 1].call == l.worker.call)
    && var settled := if l.worker.Publishing? then l.handed[..|l.handed| - 1] else l.handed;
       Within(l.published, settled) && Within(l.lost, settled) && |l.published| + |l.lost| == |settled|
  }

  /** Everything a link refers to is a call for its output. */
  ghost predicate RefersTo(calls: seq<Call>, o: string, l: Link) {
    && (l.worker.Answering? ==> l.worker.call < |calls| && calls[l.worker.call].output == o)
    && forall j :: 0 <= j < |l.handed| ==> l.handed[j].call < |calls| && calls[l.handed[j].call].output == o
  }

  /** How far a call has come with a link. */
  ghost predicate PairInv(c: nat, call: Call, i: nat, l: Link)
    requires i < |call.stages|
  {
    && (call.stages[i] == Asked <==> l.worker == Answering(c))
    && (call.stages[i] == Handed <==> Took(l.handed, c))
    && forall j :: 0 <= j < |l.handed| && l.handed[j].call == c ==> l.handed[j].av == call.av
  }

  /** The value of a call is the one given, filled in at some time. */
  ghost predicate FilledIn(call: Call) {
    exists ctx :: call.av == Filled(call.given, ctx, call.output)
  }

  ghost predicate CallInv(call: Call) {
    && |call.stages| == |call.answers|
    && (forall i :: 0 <= i < |call.stages| ==> StageFits(call.phase, call.stages[i], call.answers[i]))
    && (call.canPublish <==> forall i :: 0 <= i < |call.answers| ==> call.answers[i] != Some(false))
    && (call.phase == Handing || call.phase == Returned(true) ==> call.canPublish)
    && (call.phase == Returned(false) ==> !call.canPublish)
    && (call.phase == Asking ==> call.av == call.given)
    && (call.phase == Handing || call.phase == Returned(true) ==> FilledIn(call))
  }

  predicate StageFits(phase: CallPhase, stage: Stage, answer: Option<bool>) {
    match phase
    case Asking => if answer.Some? then stage == Answered else stage == ToAsk || stage == Asked
    case Handing => (stage == ToHand || stage == Handed) && answer.Some?
    case Returned(accepted) => stage == (if accepted then Handed else Answered) && answer.Some?
    case Failed => false
  }

  ghost predicate Inv(s: State) {
    && s.counts.Keys == s.links.Keys
    && (forall o: string, i: nat :: IsLink(s, o, i) ==> LinkInv(s.links[o][i]) && RefersTo(s.calls, o, s.links[o][i]))
    && (forall c: nat :: c < |s.calls| ==> CallInv(s.calls[c]) && CallShape(s, c))
    && (forall c: nat, i: nat :: IsStage(s, c, i) ==> PairInv(c, s.calls[c], i, s.links[s.calls[c].output][i]))
    && (forall o <- s.links :: s.counts[o] == Total(s.links[o]))
  }

  ghost predicate CallShape(s: State, c: nat)
    requires c < |s.calls|
  {
    && (s.calls[c].phase == Failed <==> s.calls[c].output !in s.links)
    && (s.calls[c].output in s.links ==> |s.calls[c].stages| == |s.links[s.calls[c].output]|)
  }

  /** The publications of all links of an output. */
  function Total(ls: seq<Link>): nat {
    if ls == [] then 0 else Total(ls[..|ls| - 1]) + |ls[|ls| - 1].published|
  }

  lemma {:induction false} TotalUpdate(ls: seq<Link>, i: nat, l: Link)
    requires i < |ls|
    ensures Total(ls[i := l]) == Total(ls) - |ls[i].published| + |l.published|
    decreases |ls|
  {
    var k := |ls| - 1;
    if i < k {
      TotalUpdate(ls[..k], i, l);
      assert ls[i := l][..k] == ls[..k][i := l];
    } else {
      assert ls[i := l][..k] == ls[..k];
    }
  }

  lemma {:induction false} TotalNone(ls: seq<Link>)
    requires forall i :: 0 <= i < |ls| ==> ls[i].published == []
    ensures Total(ls) == 0
    decreases |ls|
  {
    if ls != [] { TotalNone(ls[..|ls| - 1]); }
  }

  lemma InitHolds(addresses: map<string, seq<string>>)
    ensures Inv(Init(addresses))
  {
    var s := Init(addresses);
    forall o | o in s.links ensures Total(s.links[o]) == 0 { TotalNone(s.links[o]); }
  }

  // ---------------------------------------------------------------- changing one call, one link, or both

  ghost predicate CallsFit(s: State, calls: seq<Call>) {
    |calls| == |s.calls| && forall c: nat :: c < |calls| ==>
      calls[c].output == s.calls[c].output && |calls[c].stages| == |s.calls[c].stages|
      && (calls[c].phase == Failed <==> s.calls[c].phase == Failed)
  }

  lemma RefersStill(s: State, calls: seq<Call>, o: string, l: Link)
    requires RefersTo(s.calls, o, l) && CallsFit(s, calls)
    ensures RefersTo(calls, o, l)
  {
  }

  /** A call and one of its links change; what others have to do with that link does not. */
  lemma Touch(s: State, c: nat, i: nat, call: Call, l: Link)
    requires Inv(s) && IsStage(s, c, i) && s.calls[c].phase != Failed
    requires call.output == s.calls[c].output && |call.stages| == |s.calls[c].stages| && call.phase != Failed
    requires CallInv(call) && LinkInv(l) && RefersTo(s.calls, call.output, l) && PairInv(c, call, i, l)
    requires l.published == s.links[call.output][i].published
    requires forall j: nat :: j < |call.stages| && j != i ==> PairInv(c, call, j, s.links[call.output][j])
    requires forall d: nat :: d < |s.calls| && d != c && s.calls[d].output == call.output ==>
      i < |s.calls[d].stages| && PairInv(d, s.calls[d], i, l)
    ensures Inv(WithLink(WithCall(s, c, call), call.output, i, l))
  {
    hide LinkInv, CallInv, PairInv, RefersTo, Total;
    var o := call.output;
    var s' := WithLink(WithCall(s, c, call), o, i, l);
    assert CallsFit(s, s'.calls);
    forall p: string, j: nat | IsLink(s', p, j)
      ensures LinkInv(s'.links[p][j]) && RefersTo(s'.calls, p, s'.links[p][j])
    {
      assert IsLink(s, p, j);
      RefersStill(s, s'.calls, p, s'.links[p][j]);
    }
    forall d: nat, j: nat | IsStage(s', d, j)
      ensures PairInv(d, s'.calls[d], j, s'.links[s'.calls[d].output][j])
    {
      assert d != c ==> IsStage(s, d, j);
    }
    TotalUpdate(s.links[o], i, l);
  }

  /** One call changes. */
  lemma TouchCall(s: State, c: nat, call: Call)
    requires Inv(s) && c < |s.calls| && s.calls[c].phase != Failed
    requires call.output == s.calls[c].output && |call.stages| == |s.calls[c].stages| && call.phase != Failed
    requires CallInv(call)
    requires forall j: nat :: j < |call.stages| ==> PairInv(c, call, j, s.links[call.output][j])
    ensures Inv(WithCall(s, c, call))
  {
    hide LinkInv, CallInv, PairInv, RefersTo, Total;
    var s' := WithCall(s, c, call);
    assert CallsFit(s, s'.calls);
    forall p: string, j: nat | IsLink(s', p, j)
      ensures LinkInv(s'.links[p][j]) && RefersTo(s'.calls, p, s'.links[p][j])
    {
      assert IsLink(s, p, j);
      RefersStill(s, s'.calls, p, s'.links[p][j]);
    }
    forall d: nat, j: nat | IsStage(s', d, j)
      ensures PairInv(d, s'.calls[d], j, s'.links[s'.calls[d].output][j])
    {
      assert d != c ==> IsStage(s, d, j);
    }
  }

  /** One link changes and the counter with it. */
  lemma TouchLink(s: State, o: string, i: nat, l: Link, counts: map<string, int>)
    requires Inv(s) && IsLink(s, o, i) && LinkInv(l) && RefersTo(s.calls, o, l)
    requires counts == s.counts[o := s.counts[o] - |s.links[o][i].published| + |l.published|]
    requires forall d: nat :: d < |s.calls| && s.calls[d].output == o ==> i < |s.calls[d].stages| && PairInv(d, s.calls[d], i, l)
    ensures Inv(WithLink(s, o, i, l).(counts := counts))
  {
    hide LinkInv, CallInv, PairInv, RefersTo, Total;
    var s' := WithLink(s, o, i, l).(counts := counts);
    forall p: string, j: nat | IsLink(s', p, j)
      ensures LinkInv(s'.links[p][j]) && RefersTo(s'.calls, p, s'.links[p][j])
    {
      assert IsLink(s, p, j);
    }
    forall d: nat, j: nat | IsStage(s', d, j)
      ensures PairInv(d, s'.calls[d], j, s'.links[s'.calls[d].output][j])
    {
      assert IsStage(s, d, j);
    }
    TotalUpdate(s.links[o], i, l);
  }

  /** The parts of the invariant that concern call c and its link i. */
  lemma About(s: State, c: nat, i: nat)
    requires Inv(s) && c < |s.calls| && s.calls[c].phase != Failed && i < |s.calls[c].stages|
    ensures IsStage(s, c, i) && CallInv(s.calls[c]) && |s.calls[c].stages| == |s.links[s.calls[c].output]|
    ensures var l := s.links[s.calls[c].output][i];
      LinkInv(l) && RefersTo(s.calls, s.calls[c].output, l) && PairInv(c, s.calls[c], i, l)
  {
    hide LinkInv, PairInv, RefersTo, Total;
    assert CallInv(s.calls[c]) && CallShape(s, c);
    assert IsLink(s, s.calls[c].output, i);
    assert IsStage(s, c, i);
  }

  // ---------------------------------------------------------------- the steps

  lemma InvokeKeeps(s: State, o: string, av: AnnotatedValue)
    requires Inv(s)
    ensures Inv(Next(s, Invoke(o, av)))
  {
    hide LinkInv, Total;
    var s' := Next(s, Invoke(o, av));
    var n := |s.calls|;
    forall p: string, j: nat | IsLink(s', p, j)
      ensures LinkInv(s'.links[p][j]) && RefersTo(s'.calls, p, s'.links[p][j])
    {
      assert IsLink(s, p, j);
    }
    forall d: nat, j: nat | IsStage(s', d, j)
      ensures PairInv(d, s'.calls[d], j, s'.links[s'.calls[d].output][j])
    {
      if d < n {
        assert IsStage(s, d, j);
      } else {
        assert IsLink(s, o, j);
        assert RefersTo(s.calls, o, s.links[o][j]);
      }
    }
  }

  lemma AskKeeps(s: State, c: nat, i: nat)
    requires Inv(s) && Enabled(s, Ask(c, i))
    ensures Inv(Next(s, Ask(c, i)))
  {
    hide Inv, Total, Within;
    var call, o := s.calls[c], s.calls[c].output;
    Started(s, c);
    About(s, c, i);
    forall j: nat | j < |call.stages| { About(s, c, j); }
    forall d: nat | d < |s.calls| && d != c && s.calls[d].output == o
      ensures i < |s.calls[d].stages| && PairInv(d, s.calls[d], i, s.links[o][i].(worker := Answering(c)))
    {
      SameOutput(s, c, d);
      About(s, d, i);
    }
    Touch(s, c, i, call.(stages := call.stages[i := Asked]), s.links[o][i].(worker := Answering(c)));
  }

  lemma AnswerKeeps(s: State, c: nat, i: nat, rpcOk: bool, allowed: bool)
    requires Inv(s) && Enabled(s, Answer(c, i, rpcOk, allowed))
    ensures Inv(Next(s, Answer(c, i, rpcOk, allowed)))
  {
    hide Inv, Total, Within;
    var call, o, answer := s.calls[c], s.calls[c].output, rpcOk && allowed;
    var l := s.links[o][i].(worker := if rpcOk then Idle else Down);
    Started(s, c);
    About(s, c, i);
    forall j: nat | j < |call.stages| { About(s, c, j); }
    forall d: nat | d < |s.calls| && d != c && s.calls[d].output == o
      ensures i < |s.calls[d].stages| && PairInv(d, s.calls[d], i, l)
    {
      SameOutput(s, c, d);
      About(s, d, i);
    }
    var answered := call.(stages := call.stages[i := Answered], answers := call.answers[i := Some(answer)],
                          canPublish := call.canPublish && answer);
    AnsweredFits(call, i, answer);
    Touch(s, c, i, answered, l);
  }

  lemma AnsweredFits(call: Call, i: nat, answer: bool)
    requires CallInv(call) && i < |call.stages| && call.stages[i] == Asked
    ensures CallInv(call.(stages := call.stages[i := Answered], answers := call.answers[i := Some(answer)],
                          canPublish := call.canPublish && answer))
  {
    assert StageFits(call.phase, call.stages[i], call.answers[i]);
    var answers := call.answers[i := Some(answer)];
    if call.canPublish && !answer { assert answers[i] == Some(false); }
    if !call.canPublish {
      var j :| 0 <= j < |call.answers| && call.answers[j] == Some(false);
      assert answers[j] == Some(false);
    }
  }

  lemma DecideKeeps(s: State, c: nat, ctx: Context)
    requires Inv(s) && Enabled(s, Decide(c, ctx))
    ensures Inv(Next(s, Decide(c, ctx)))
  {
    hide Inv, Total, LinkInv, Filled;
    var call := s.calls[c];
    Started(s, c);
    forall j: nat | j < |call.stages| { About(s, c, j); }
    CallOf(s, c);
    var decided :=
      if call.canPublish
      then call.(phase := Handing, av := Filled(call.av, ctx, call.output), stages := seq(|call.stages|, _ => ToHand))
      else call.(phase := Returned(false));
    forall j: nat | j < |call.stages| ensures PairInv(c, decided, j, s.links[call.output][j]) {
      assert PairInv(c, call, j, s.links[call.output][j]) && call.stages[j] == Answered;
    }
    TouchCall(s, c, decided);
  }

  lemma HandKeeps(s: State, c: nat, i: nat)
    requires Inv(s) && Enabled(s, Hand(c, i))
    ensures Inv(Next(s, Hand(c, i)))
  {
    hide Inv, Total, Within;
    var call, o := s.calls[c], s.calls[c].output;
    var l := s.links[o][i];
    var l' := l.(worker := Publishing(c), handed := l.handed + [Delivery(c, call.av)]);
    Started(s, c);
    About(s, c, i);
    forall j: nat | j < |call.stages| { About(s, c, j); }
    forall d: nat | d < |s.calls| && d != c && s.calls[d].output == o
      ensures i < |s.calls[d].stages| && PairInv(d, s.calls[d], i, l')
    {
      SameOutput(s, c, d);
      About(s, d, i);
      TookMore(l.handed, Delivery(c, call.av), d);
    }
    TookMore(l.handed, Delivery(c, call.av), c);
    assert l'.handed[..|l.handed|] == l.handed;
    Touch(s, c, i, call.(stages := call.stages[i := Handed]), l');
  }

  lemma TookMore(log: seq<Delivery>, d: Delivery, c: nat)
    ensures Took(log + [d], c) <==> Took(log, c) || d.call == c
  {
    if Took(log, c) {
      var j :| 0 <= j < |log| && log[j].call == c;
      assert (log + [d])[j].call == c;
    }
    assert (log + [d])[|log|] == d;
  }

  /** What becomes of a link when its publication has come out one way or the other. */
  function Settled(l: Link, rpcOk: bool): Link
    requires l.handed != []
  {
    var d := l.handed[|l.handed| - 1];
    if rpcOk then l.(worker := Idle, published := l.published + [d]) else l.(worker := Down, lost := l.lost + [d])
  }

  lemma SettledFits(l: Link, rpcOk: bool)
    requires LinkInv(l) && l.worker.Publishing?
    ensures LinkInv(Settled(l, rpcOk))
  {
    hide Within;
    var n := |l.handed| - 1;
    var d := l.handed[n];
    assert l.handed == l.handed[..n] + [d];
    WithinNext(if rpcOk then l.published else l.lost, l.handed[..n], d);
    WithinLonger(if rpcOk then l.lost else l.published, l.handed[..n], d);
  }

  lemma PublishKeeps(s: State, o: string, i: nat, rpcOk: bool)
    requires Inv(s) && Enabled(s, Publish(o, i, rpcOk))
    ensures Inv(Next(s, Publish(o, i, rpcOk)))
  {
    hide Inv, Total, LinkInv, PairInv;
    var l := s.links[o][i];
    LinkOf(s, o, i);
    SettledFits(l, rpcOk);
    OthersSee(s, o, i, Settled(l, rpcOk));
    TouchLink(s, o, i, Settled(l, rpcOk), Counted(s, o, rpcOk));
    assert Next(s, Publish(o, i, rpcOk)) == WithLink(s, o, i, Settled(l, rpcOk)).(counts := Counted(s, o, rpcOk));
  }

  function Counted(s: State, o: string, rpcOk: bool): map<string, int>
    requires o in s.counts
  {
    s.counts[o := if rpcOk then s.counts[o] + 1 else s.counts[o]]
  }

  lemma ReconnectKeeps(s: State, o: string, i: nat)
    requires Inv(s) && Enabled(s, Reconnect(o, i))
    ensures Inv(Next(s, Reconnect(o, i)))
  {
    hide Inv, Total, Within;
    var l := s.links[o][i].(worker := Idle);
    LinkOf(s, o, i);
    OthersSee(s, o, i, l);
    assert s.counts == s.counts[o := s.counts[o]];
    TouchLink(s, o, i, l, s.counts);
    assert Next(s, Reconnect(o, i)) == WithLink(s, o, i, l).(counts := s.counts);
  }

  lemma ReturnKeeps(s: State, c: nat)
    requires Inv(s) && Enabled(s, Return(c))
    ensures Inv(Next(s, Return(c)))
  {
    hide Inv, Total, LinkInv;
    var call := s.calls[c];
    Started(s, c);
    CallOf(s, c);
    forall j: nat | j < |call.stages| { About(s, c, j); }
    TouchCall(s, c, call.(phase := Returned(true)));
  }

  /** A call that moves is not one that failed. */
  lemma Started(s: State, c: nat)
    requires Inv(s) && c < |s.calls| && (s.calls[c].stages != [] || s.calls[c].phase != Failed)
    ensures s.calls[c].phase != Failed
  {
    hide LinkInv, PairInv, RefersTo, Total;
    assert CallInv(s.calls[c]);
    if s.calls[c].stages != [] { assert StageFits(s.calls[c].phase, s.calls[c].stages[0], s.calls[c].answers[0]); }
  }

  lemma CallOf(s: State, c: nat)
    requires Inv(s) && c < |s.calls|
    ensures CallInv(s.calls[c]) && CallShape(s, c)
  {
    hide LinkInv, PairInv, RefersTo, Total, CallInv;
  }

  lemma LinkOf(s: State, o: string, i: nat)
    requires Inv(s) && IsLink(s, o, i)
    ensures o in s.counts && LinkInv(s.links[o][i]) && RefersTo(s.calls, o, s.links[o][i])
  {
    hide LinkInv, PairInv, RefersTo, Total, CallInv;
  }

  lemma SameOutput(s: State, c: nat, d: nat)
    requires Inv(s) && c < |s.calls| && d < |s.calls| && s.calls[c].output == s.calls[d].output
    requires s.calls[c].phase != Failed
    ensures s.calls[d].phase != Failed && |s.calls[d].stages| == |s.calls[c].stages|
  {
    hide LinkInv, PairInv, RefersTo, Total, CallInv;
    assert CallShape(s, c) && CallShape(s, d);
  }

  /** Calls do not care whether a worker publishes, is free or is down. */
  lemma OthersSee(s: State, o: string, i: nat, l: Link)
    requires Inv(s) && IsLink(s, o, i) && l.handed == s.links[o][i].handed
    requires !l.worker.Answering? && !s.links[o][i].worker.Answering?
    ensures forall d: nat :: d < |s.calls| && s.calls[d].output == o ==> i < |s.calls[d].stages| && PairInv(d, s.calls[d], i, l)
  {
    hide LinkInv, RefersTo, Total, CallInv, Took;
    forall d: nat | d < |s.calls| && s.calls[d].output == o
      ensures i < |s.calls[d].stages| && PairInv(d, s.calls[d], i, l)
    {
      assert CallShape(s, d);
      About(s, d, i);
    }
  }

  lemma StepKeeps(s: State, step: Step)
    requires Inv(s) && Enabled(s, step)
    ensures Inv(Next(s, step))
  {
    hide Inv, Next, Enabled;
    match step
    case Invoke(o, av) => InvokeKeeps(s, o, av);
    case Ask(c, i) => AskKeeps(s, c, i);
    case Answer(c, i, rpcOk, allowed) => AnswerKeeps(s, c, i, rpcOk, allowed);
    case Decide(c, ctx) => DecideKeeps(s, c, ctx);
    case Hand(c, i) => HandKeeps(s, c, i);
    case Publish(o, i, rpcOk) => PublishKeeps(s, o, i, rpcOk);
    case Reconnect(o, i) => ReconnectKeeps(s, o, i);
    case Return(c) => ReturnKeeps(s, c);
  }

  lemma {:induction false} RunInv(addresses: map<string, seq<string>>, states: seq<State>, steps: seq<Step>, i: nat)
    requires Run(addresses, states, steps) && i < |states|
    ensures Inv(states[i])
    decreases i
  {
    hide Inv, Next, Enabled;
    if i == 0 {
      InitHolds(addresses);
    } else {
      RunInv(addresses, states, steps, i - 1);
      StepKeeps(states[i - 1], steps[i - 1]);
    }
  }

  lemma ReachableInv(addresses: map<string, seq<string>>, s: State)
    requires Reachable(addresses, s)
    ensures Inv(s)
  {
    hide Inv, Run;
    var states, steps :| Run(addresses, states, steps) && s in states;
    var i :| 0 <= i < |states| && states[i] == s;
    RunInv(addresses, states, steps, i);
  }

  // ---------------------------------------------------------------- all or nothing

  /** Exactly one delivery of call c, of the value given. */
  ghost predicate TookOnce(log: seq<Delivery>, c: nat, av: AnnotatedValue) {
    && Took(log, c)
    && (forall j :: 0 <= j < |log| && log[j].call == c ==> log[j].av == av)
    && (forall j, k :: 0 <= j < k < |log| ==> !(log[j].call == c && log[k].call == c))
  }

  lemma AllAgreed(call: Call)
    requires CallInv(call) && call.phase == Returned(true)
    ensures forall answer <- call.answers :: answer == Some(true)
  {
    forall i | 0 <= i < |call.answers|
      ensures call.answers[i] == Some(true)
    {
      assert StageFits(call.phase, call.stages[i], call.answers[i]);
      var answer: bool := call.answers[i].value;
      assert call.answers[i] == Some(answer);
    }
  }

  /** A call that returned true has had its value taken exactly once by every link of its output. */
  lemma AcceptedByAll(addresses: map<string, seq<string>>, s: State, c: nat)
    requires Reachable(addresses, s) && c < |s.calls| && s.calls[c].phase == Returned(true)
    ensures s.calls[c].output in s.links && |s.calls[c].answers| == |s.links[s.calls[c].output]|
    ensures forall l <- s.links[s.calls[c].output] :: TookOnce(l.handed, c, s.calls[c].av)
    ensures forall answer <- s.calls[c].answers :: answer == Some(true)
    ensures exists ctx :: CompletedBy(s.calls[c].given, s.calls[c].av, ctx, s.calls[c].output)
  {
    hide Inv, Total, Reachable, Within, CompletedBy, Filled;
    ReachableInv(addresses, s);
    CallOf(s, c);
    var call := s.calls[c];
    AllAgreed(call);
    assert FilledIn(call);
    var ctx :| call.av == Filled(call.given, ctx, call.output);
    FilledCompletes(call.given, ctx, call.output);
    forall i: nat | i < |call.stages|
      ensures TookOnce(s.links[call.output][i].handed, c, call.av)
    {
      About(s, c, i);
    }
  }

  /** A call that returned false has had its value taken by no link, because some link refused it. */
  lemma RefusedByAll(addresses: map<string, seq<string>>, s: State, c: nat)
    requires Reachable(addresses, s) && c < |s.calls| && s.calls[c].phase == Returned(false)
    ensures forall o: string, i: nat :: IsLink(s, o, i) ==> !Took(s.links[o][i].handed, c)
    ensures Some(false) in s.calls[c].answers
  {
    hide Inv, Total, Reachable, Within;
    ReachableInv(addresses, s);
    CallOf(s, c);
    forall o: string, i: nat | IsLink(s, o, i)
      ensures !Took(s.links[o][i].handed, c)
    {
      LinkOf(s, o, i);
      if o == s.calls[c].output { About(s, c, i); }
    }
  }

  /** Accepted exactly when every link, once asked, has said yes. */
  lemma AcceptedIffAllAgree(addresses: map<string, seq<string>>, s: State, c: nat)
    requires Reachable(addresses, s) && c < |s.calls| && s.calls[c].phase.Returned?
    ensures s.calls[c].phase.accepted <==> forall answer <- s.calls[c].answers :: answer == Some(true)
  {
    hide Inv, Reachable;
    if s.calls[c].phase.accepted { AcceptedByAll(addresses, s, c); } else { RefusedByAll(addresses, s, c); }
  }

  lemma {:induction false} WithinKeepsOnce(a: seq<Delivery>, b: seq<Delivery>)
    requires Within(a, b) && forall j, k :: 0 <= j < k < |b| ==> b[j].call != b[k].call
    ensures forall d <- a :: d in b
    ensures forall j, k :: 0 <= j < k < |a| ==> a[j].call != a[k].call
    decreases |b|
  {
    if a != [] {
      var m, n := |a| - 1, |b| - 1;
      if a[m] == b[n] {
        WithinKeepsOnce(a[..m], b[..n]);
        forall j | 0 <= j < m ensures a[j].call != a[m].call && a[j] in b {
          assert a[..m][j] in b[..n];
        }
      } else {
        WithinKeepsOnce(a, b[..n]);
      }
    }
  }

  /**
   What a link published are deliveries it took, in that order, none twice; each delivery
   was published, was lost with a failed publication, or is the one being published.
   */
  lemma PublishedInOrder(addresses: map<string, seq<string>>, s: State, o: string, i: nat)
    requires Reachable(addresses, s) && IsLink(s, o, i)
    ensures var l := s.links[o][i];
      && Within(l.published, l.handed) && Within(l.lost, l.handed)
      && |l.published| + |l.lost| + (if l.worker.Publishing? then 1 else 0) == |l.handed|
      && forall j, k :: 0 <= j < k < |l.published| ==> l.published[j].call != l.published[k].call
  {
    hide Inv, Total, Reachable, Within;
    ReachableInv(addresses, s);
    LinkOf(s, o, i);
    var l := s.links[o][i];
    if l.worker.Publishing? {
      var n := |l.handed| - 1;
      assert l.handed == l.handed[..n] + [l.handed[n]];
      WithinLonger(l.published, l.handed[..n], l.handed[n]);
      WithinLonger(l.lost, l.handed[..n], l.handed[n]);
    }
    WithinKeepsOnce(l.published, l.handed);
  }

  /** The counter of an output is the number of publications on its links. */
  lemma PublishedCounted(addresses: map<string, seq<string>>, s: State, o: string)
    requires Reachable(addresses, s) && o in s.links
    ensures o in s.counts && s.counts[o] == Total(s.links[o])
  {
    hide Reachable, LinkInv, RefersTo, PairInv, CallInv;
    ReachableInv(addresses, s);
  }

  // ---------------------------------------------------------------- errors and progress

  lemma {:induction false} LinksStay(addresses: map<string, seq<string>>, states: seq<State>, steps: seq<Step>, i: nat)
    requires Run(addresses, states, steps) && i < |states|
    ensures states[i].links.Keys == addresses.Keys
    ensures forall o <- addresses :: |states[i].links[o]| == |addresses[o]|
    decreases i
  {
    if i > 0 { LinksStay(addresses, states, steps, i - 1); }
  }

  /** Exactly the calls for an output without channels fail; every address has one link. */
  lemma OnlyUnknownOutputsFail(addresses: map<string, seq<string>>, s: State, c: nat)
    requires Reachable(addresses, s) && c < |s.calls|
    ensures s.calls[c].phase == Failed <==> s.calls[c].output !in addresses
    ensures s.calls[c].phase != Failed ==> |s.calls[c].stages| == |addresses[s.calls[c].output]|
  {
    hide Inv, Run;
    ReachableInv(addresses, s);
    var states, steps :| Run(addresses, states, steps) && s in states;
    var i :| 0 <= i < |states| && states[i] == s;
    LinksStay(addresses, states, steps, i);
    CallOf(s, c);
  }

  predicate IsOver(call: Call) {
    call.phase.Returned? || call.phase.Failed?
  }

  /** The output whose calls and links a step is about. */
  function OutputOf(s: State, step: Step): string {
    match step
    case Invoke(o, _) => o
    case Ask(c, _) => if c < |s.calls| then s.calls[c].output else ""
    case Answer(c, _, _, _) => if c < |s.calls| then s.calls[c].output else ""
    case Decide(c, _) => if c < |s.calls| then s.calls[c].output else ""
    case Hand(c, _) => if c < |s.calls| then s.calls[c].output else ""
    case Publish(o, _, _) => o
    case Reconnect(o, _) => o
    case Return(c) => if c < |s.calls| then s.calls[c].output else ""
  }

  /**
   Absence of deadlock: while a call is under way, some step of it or of a link of its
   output is enabled.  That such steps run out is WorkRunsOut.
   */
  lemma CallsGoOn(addresses: map<string, seq<string>>, s: State, c: nat) returns (step: Step)
    requires Reachable(addresses, s) && c < |s.calls| && !IsOver(s.calls[c])
    ensures Enabled(s, step) && !step.Invoke? && OutputOf(s, step) == s.calls[c].output
  {
    hide Inv, Total, Reachable, Within;
    ReachableInv(addresses, s);
    CallOf(s, c);
    var call := s.calls[c];
    var o := call.output;
    if i: nat :| i < |call.stages| && call.stages[i] != Answered && call.stages[i] != Handed {
      About(s, c, i);
      LinkOf(s, o, i);
      match s.links[o][i].worker
      case Idle => step := if call.phase == Asking then Ask(c, i) else Hand(c, i);
      case Publishing(_) => step := Publish(o, i, true);
      case Down => step := Reconnect(o, i);
      case Answering(d) =>
        SameOutput(s, c, d);
        About(s, d, i);
        step := Answer(d, i, true, true);
    } else if call.phase == Asking {
      step := Decide(c, Context("", 0, "", [], None));
    } else {
      step := Return(c);
    }
  }

  // ---------------------------------------------------------------- the work ahead

  /** What is left to do with a link for a call, weighted so that every step leaves less. */
  function StageWork(stage: Stage): nat {
    match stage
    case ToAsk => 10
    case Asked => 7
    case Answered => 6
    case ToHand => 5
    case Handed => 1
  }

  function StagesWork(stages: seq<Stage>): nat {
    if stages == [] then 0 else StagesWork(stages[..|stages| - 1]) + StageWork(stages[|stages| - 1])
  }

  function CallWork(call: Call): nat {
    StagesWork(call.stages) + match call.phase
                              case Asking => 2
                              case Handing => 1
                              case _ => 0
  }

  function WorkerWork(w: Worker): nat {
    match w
    case Idle => 0
    case Down => 1
    case _ => 2
  }

  function CallsWork(calls: seq<Call>, o: string): nat {
    if calls == [] then 0
    else
      var k := |calls| - 1;
      CallsWork(calls[..k], o) + if calls[k].output == o then CallWork(calls[k]) else 0
  }

  function LinksWork(ls: seq<Link>): nat {
    if ls == [] then 0 else LinksWork(ls[..|ls| - 1]) + WorkerWork(ls[|ls| - 1].worker)
  }

  /** The work ahead for an output: its calls and its workers. */
  function Work(s: State, o: string): nat {
    CallsWork(s.calls, o) + if o in s.links then LinksWork(s.links[o]) else 0
  }

  lemma {:induction false} StagesUpdate(stages: seq<Stage>, i: nat, x: Stage)
    requires i < |stages|
    ensures StagesWork(stages[i := x]) == StagesWork(stages) - StageWork(stages[i]) + StageWork(x)
    decreases |stages|
  {
    var k := |stages| - 1;
    if i < k {
      StagesUpdate(stages[..k], i, x);
      assert stages[i := x][..k] == stages[..k][i := x];
    } else {
      assert stages[i := x][..k] == stages[..k];
    }
  }

  lemma {:induction false} StagesTurn(stages: seq<Stage>)
    requires forall i :: 0 <= i < |stages| ==> stages[i] == Answered
    ensures StagesWork(seq(|stages|, _ => ToHand)) <= StagesWork(stages)
    decreases |stages|
  {
    if stages != [] {
      var k := |stages| - 1;
      StagesTurn(stages[..k]);
      assert seq(|stages|, _ => ToHand)[..k] == seq(k, _ => ToHand);
    }
  }

  lemma {:induction false} CallsUpdate(calls: seq<Call>, c: nat, call: Call, o: string)
    requires c < |calls| && call.output == calls[c].output
    ensures CallsWork(calls[c := call], o)
         == CallsWork(calls, o) + if call.output == o then CallWork(call) - CallWork(calls[c]) else 0
    decreases |calls|
  {
    hide CallWork;
    var k := |calls| - 1;
    if c < k {
      CallsUpdate(calls[..k], c, call, o);
      assert calls[c := call][..k] == calls[..k][c := call];
    } else {
      assert calls[c := call][..k] == calls[..k];
    }
  }

  lemma {:induction false} LinksUpdate(ls: seq<Link>, i: nat, l: Link)
    requires i < |ls|
    ensures LinksWork(ls[i := l]) == LinksWork(ls) - WorkerWork(ls[i].worker) + WorkerWork(l.worker)
    decreases |ls|
  {
    var k := |ls| - 1;
    if i < k {
      LinksUpdate(ls[..k], i, l);
      assert ls[i := l][..k] == ls[..k][i := l];
    } else {
      assert ls[i := l][..k] == ls[..k];
    }
  }

  lemma CallChanges(s: State, c: nat, call: Call, o: string)
    requires c < |s.calls| && call.output == s.calls[c].output
    ensures Work(WithCall(s, c, call), o)
         == Work(s, o) + if call.output == o then CallWork(call) - CallWork(s.calls[c]) else 0
  {
    hide CallWork, LinksWork, CallsWork;
    CallsUpdate(s.calls, c, call, o);
  }

  lemma LinkChanges(s: State, p: string, i: nat, l: Link, o: string)
    requires IsLink(s, p, i)
    ensures Work(WithLink(s, p, i, l), o)
         == Work(s, o) + if p == o then WorkerWork(l.worker) - WorkerWork(s.links[p][i].worker) else 0
  {
    hide CallsWork, LinksWork;
    LinksUpdate(s.links[p], i, l);
  }

  /** Every step but a new call leaves less to do for its output, and the same for the others. */
  lemma StepWorks(s: State, step: Step, o: string)
    requires Inv(s) && Enabled(s, step) && !step.Invoke?
    ensures if OutputOf(s, step) == o then Work(Next(s, step), o) < Work(s, o)
            else Work(Next(s, step), o) == Work(s, o)
  {
    hide Inv, Work, StagesWork, Filled;
    match step
    case Ask(c, i) =>
      var call := s.calls[c];
      var asked := call.(stages := call.stages[i := Asked]);
      StagesUpdate(call.stages, i, Asked);
      CallChanges(s, c, asked, o);
      LinkChanges(WithCall(s, c, asked), call.output, i, s.links[call.output][i].(worker := Answering(c)), o);
    case Answer(c, i, rpcOk, allowed) =>
      AnswerWorks(s, c, i, rpcOk, allowed, o);
    case Decide(c, ctx) =>
      DecideWorks(s, c, ctx, o);
    case Hand(c, i) =>
      var call := s.calls[c];
      var l := s.links[call.output][i];
      var handed := call.(stages := call.stages[i := Handed]);
      StagesUpdate(call.stages, i, Handed);
      CallChanges(s, c, handed, o);
      LinkChanges(WithCall(s, c, handed), call.output, i,
                  l.(worker := Publishing(c), handed := l.handed + [Delivery(c, call.av)]), o);
    case Publish(p, i, rpcOk) =>
      LinkChanges(s, p, i, Settled(s.links[p][i], rpcOk), o);
      CountsDoNotMatter(WithLink(s, p, i, Settled(s.links[p][i], rpcOk)), Next(s, step).counts, o);
    case Reconnect(p, i) =>
      LinkChanges(s, p, i, s.links[p][i].(worker := Idle), o);
    case Return(c) =>
      CallChanges(s, c, s.calls[c].(phase := Returned(true)), o);
  }

  lemma CountsDoNotMatter(s: State, counts: map<string, int>, o: string)
    ensures Work(s.(counts := counts), o) == Work(s, o)
  {
  }

  lemma AnswerWorks(s: State, c: nat, i: nat, rpcOk: bool, allowed: bool, o: string)
    requires Inv(s) && Enabled(s, Answer(c, i, rpcOk, allowed))
    ensures var step := Answer(c, i, rpcOk, allowed);
      if OutputOf(s, step) == o then Work(Next(s, step), o) < Work(s, o) else Work(Next(s, step), o) == Work(s, o)
  {
    hide Inv, Work, StagesWork, Took, LinkInv, RefersTo, CallInv;
    var call, answer := s.calls[c], rpcOk && allowed;
    var answered := call.(stages := call.stages[i := Answered], answers := call.answers[i := Some(answer)],
                          canPublish := call.canPublish && answer);
    Started(s, c);
    About(s, c, i);
    StagesUpdate(call.stages, i, Answered);
    CallChanges(s, c, answered, o);
    LinkChanges(WithCall(s, c, answered), call.output, i,
                s.links[call.output][i].(worker := if rpcOk then Idle else Down), o);
  }

  lemma DecideWorks(s: State, c: nat, ctx: Context, o: string)
    requires Enabled(s, Decide(c, ctx))
    ensures var step := Decide(c, ctx);
      if OutputOf(s, step) == o then Work(Next(s, step), o) < Work(s, o) else Work(Next(s, step), o) == Work(s, o)
  {
    hide Work, StagesWork, Filled;
    var call := s.calls[c];
    StagesTurn(call.stages);
    CallChanges(s, c, Next(s, Decide(c, ctx)).calls[c], o);
  }

  /** How many of the steps from the i-th to before the j-th are about an output. */
  function StepsFor(states: seq<State>, steps: seq<Step>, i: nat, j: nat, o: string): nat
    requires i <= j <= |steps| < |states|
  {
    if i == j then 0
    else StepsFor(states, steps, i, j - 1, o) + if OutputOf(states[j - 1], steps[j - 1]) == o then 1 else 0
  }

  lemma CallElsewhere(s: State, p: string, av: AnnotatedValue, o: string)
    requires p != o
    ensures Work(Next(s, Invoke(p, av)), o) == Work(s, o)
  {
    hide CallWork, LinksWork;
    assert Next(s, Invoke(p, av)).calls[..|s.calls|] == s.calls;
  }

  /**
   Without new calls for an output, its steps in any run are no more than the work ahead
   of it.  With CallsGoOn: the calls for it are over after at most that many of its steps.
   */
  lemma {:induction false} WorkRunsOut(
      addresses: map<string, seq<string>>, states: seq<State>, steps: seq<Step>, i: nat, j: nat, o: string)
    requires Run(addresses, states, steps) && i <= j <= |steps|
    requires forall k :: i <= k < j && steps[k].Invoke? ==> steps[k].output != o
    ensures StepsFor(states, steps, i, j, o) + Work(states[j], o) <= Work(states[i], o)
    decreases j
  {
    hide Inv, Work, Next, Enabled, Init;
    if i < j {
      WorkRunsOut(addresses, states, steps, i, j - 1, o);
      if steps[j - 1].Invoke? {
        CallElsewhere(states[j - 1], steps[j - 1].output, steps[j - 1].av, o);
      } else {
        RunInv(addresses, states, steps, j - 1);
        StepWorks(states[j - 1], steps[j - 1], o);
      }
    }
  }

  /** Whatever is under way can be finished: from every reachable state some further steps end the call. */
  lemma {:induction false} CallCanFinish(addresses: map<string, seq<string>>, s: State, c: nat) returns (t: State)
    requires Reachable(addresses, s) && c < |s.calls|
    ensures Reachable(addresses, t) && c < |t.calls| && IsOver(t.calls[c])
    decreases Work(s, if c < |s.calls| then s.calls[c].output else "")
  {
    hide Reachable, Inv, Work, Next, Enabled, IsOver;
    if IsOver(s.calls[c]) {
      t := s;
    } else {
      var step := CallsGoOn(addresses, s, c);
      ReachableInv(addresses, s);
      StepWorks(s, step, s.calls[c].output);
      CallStays(s, step, c);
      StepFrom(addresses, s, step);
      t := CallCanFinish(addresses, Next(s, step), c);
    }
  }

  lemma CallStays(s: State, step: Step, c: nat)
    requires Enabled(s, step) && c < |s.calls|
    ensures c < |Next(s, step).calls| && Next(s, step).calls[c].output == s.calls[c].output
  {
  }

  lemma StepFrom(addresses: map<string, seq<string>>, s: State, step: Step)
    requires Reachable(addresses, s) && Enabled(s, step)
    ensures Reachable(addresses, Next(s, step))
  {
    hide Next, Enabled, Init;
    var states, steps :| Run(addresses, states, steps) && s in states;
    var i :| 0 <= i < |states| && states[i] == s;
    var longer := states[..i + 1] + [Next(s, step)];
    assert Run(addresses, longer, steps[..i] + [step]);
    assert longer[i + 1] == Next(s, step);
  }
}
