/**
 The output publisher: setting up the links of every output, filling in a value before
 publication, and the protocol between concurrent Publish calls and the link workers,
 without cancellation.
 */
module Publisher {
  import opened Common

  // ---------------------------------------------------------------- setting up

  function Join(parts: seq<string>): string
    requires parts != []
  {
    if |parts| == 1 then parts[0] else Join(parts[..|parts| - 1]) + "," + parts[|parts| - 1]
  }

  /** The addresses in a comma-separated list. */
  method Split(list: string) returns (parts: seq<string>)
    ensures parts != [] && Join(parts) == list
    ensures forall p <- parts :: ',' !in p
  {
    hide Join;
    parts := [""];
    JoinNext([], "");
    assert [] + [""] == parts;
    for k := 0 to |list|
      invariant parts != [] && Join(parts) == list[..k]
      invariant forall p <- parts :: ',' !in p
    {
      var front, last := parts[..|parts| - 1], parts[|parts| - 1];
      assert parts == front + [last];
      assert list[..k + 1] == list[..k] + [list[k]];
      if list[k] == ',' {
        JoinNext(parts, "");
        parts := parts + [""];
      } else {
        JoinLast(front, last, [list[k]]);
        parts := front + [last + [list[k]]];
      }
    }
    assert list[..|list|] == list;
  }

  lemma JoinLast(front: seq<string>, last: string, more: string)
    ensures Join(front + [last + more]) == Join(front + [last]) + more
  {
    hide Join;
    JoinNext(front, last);
    JoinNext(front, last + more);
    if front != [] { Regroup(Join(front) + ",", last, more); }
  }

  lemma Regroup(a: string, b: string, c: string)
    ensures a + (b + c) == a + b + c
  {
  }

  lemma JoinNext(front: seq<string>, last: string)
    ensures Join(front + [last]) == if front == [] then last else Join(front) + "," + last
  {
    assert (front + [last])[..|front|] == front;
  }

  /** A list of parts without commas is determined by what they join to. */
  lemma {:induction false} JoinIsInjective(a: seq<string>, b: seq<string>)
    requires a != [] && b != [] && Join(a) == Join(b)
    requires forall p <- a :: ',' !in p
    requires forall p <- b :: ',' !in p
    ensures a == b
    decreases |a|
  {
    JoinLastComma(a);
    JoinLastComma(b);
    var m, n := |a| - 1, |b| - 1;
    if m > 0 && n > 0 {
      var x, y := Join(a[..m]), Join(b[..n]);
      assert Join(a) == x + "," + a[m] && Join(b) == y + "," + b[n];
      SameCut(x, a[m], y, b[n]);
      JoinIsInjective(a[..m], b[..n]);
      assert a == a[..m] + [a[m]] && b == b[..n] + [b[n]];
    }
  }

  lemma JoinLastComma(a: seq<string>)
    requires a != []
    ensures |a| > 1 ==> Join(a) == Join(a[..|a| - 1]) + "," + a[|a| - 1] && ',' in Join(a)
  {
    if |a| > 1 {
      var x := Join(a[..|a| - 1]);
      assert (x + "," + a[|a| - 1])[|x|] == ',';
    }
  }

  lemma NoLaterComma(x: string, p: string)
    requires ',' !in p
    ensures var t := x + "," + p;
      t[|x|] == ',' && forall j :: |x| < j < |t| ==> t[j] != ','
  {
    var t := x + "," + p;
    forall j | |x| < j < |t|
      ensures t[j] != ','
    {
      assert t[j] == p[j - |x| - 1];
    }
  }

  /** Two ways to cut a text at its last comma are the same. */
  lemma SameCut(x: string, p: string, y: string, q: string)
    requires x + "," + p == y + "," + q && ',' !in p && ',' !in q
    ensures x == y && p == q
  {
    var t := x + "," + p;
    NoLaterComma(x, p);
    NoLaterComma(y, q);
    assert x == t[..|x|] && y == t[..|y|] && p == t[|x| + 1..] && q == t[|y| + 1..];
  }

  /** One pair of channels per address of every output; an output without addresses is an error. */
  method NewOutputPublisher(outputs: seq<string>, annotations: map<string, string>)
    returns (r: Result<map<string, seq<string>>, string>)
    ensures r.Ok? <==> forall o <- outputs :: o in annotations && annotations[o] != ""
    ensures r.Err? ==> r.error in outputs && (r.error !in annotations || annotations[r.error] == "")
    ensures r.Ok? ==> forall o :: o in r.value <==> o in outputs
    ensures r.Ok? ==> forall o <- r.value ::
      o in annotations && r.value[o] != [] && Join(r.value[o]) == annotations[o] && forall p <- r.value[o] :: ',' !in p
  {
    var links: map<string, seq<string>> := map[];
    for k := 0 to |outputs|
      invariant forall j :: 0 <= j < k ==> outputs[j] in annotations && annotations[outputs[j]] != ""
      invariant forall o :: o in links <==> exists j :: 0 <= j < k && outputs[j] == o
      invariant forall o <- links ::
        o in annotations && links[o] != [] && Join(links[o]) == annotations[o] && forall p <- links[o] :: ',' !in p
    {
      var list := if outputs[k] in annotations then annotations[outputs[k]] else "";
      if list == "" { return Err(outputs[k]); }
      var addresses := Split(list);
      links := links[outputs[k] := addresses];
    }
    r := Ok(links);
  }

  // ---------------------------------------------------------------- the value published

  datatype SourceInput = SourceInput(ids: seq<string>, inputName: string)

  datatype AnnotatedValue = AnnotatedValue(
    id: string, createdAt: Option<int>, data: string,
    sourceTask: string, sourceTaskOutput: string, sourceInputs: seq<SourceInput>)

  /** What the publisher knows at the time: a fresh id, the clock, its task, and a snapshot's values. */
  datatype Context = Context(freshId: string, now: int, task: string, inputs: seq<string>, snapshot: Option<map<string, seq<string>>>)

  function IdsOf(snapshot: map<string, seq<string>>, name: string): seq<string> {
    if name in snapshot then snapshot[name] else []
  }

  /** The value while a call works on it. */
  class Draft {
    var value: AnnotatedValue

    constructor (value: AnnotatedValue)
      ensures this.value == value
    {
      this.value := value;
    }

    /** Fills in what is blank and nothing else. */
    method FillBlanks(ctx: Context, output: string)
      modifies this
      ensures value == Filled(old(value), ctx, output)
      ensures CompletedBy(old(value), value, ctx, output)
    {
      hide Sources, CompletedBy;
      FilledCompletes(value, ctx, output);
      if value.id == "" { value := value.(id := ctx.freshId); }
      if value.createdAt.None? { value := value.(createdAt := Some(ctx.now)); }
      if value.sourceTask == "" { value := value.(sourceTask := ctx.task); }
      if value.sourceTaskOutput == "" { value := value.(sourceTaskOutput := output); }
      if ctx.snapshot.Some? && |value.sourceInputs| == 0 {
        FillSources(ctx.inputs, ctx.snapshot.value);
      }
    }

    /** One source input per input of the task. */
    method FillSources(inputs: seq<string>, snapshot: map<string, seq<string>>)
      requires value.sourceInputs == []
      modifies this
      ensures value == old(value).(sourceInputs := Sources(inputs, snapshot))
    {
      for k := 0 to |inputs|
        invariant value == old(value).(sourceInputs := Sources(inputs, snapshot)[..k])
      {
        var ids := IdsOf(snapshot, inputs[k]);
        value := value.(sourceInputs := value.sourceInputs + [SourceInput(ids, inputs[k])]);
      }
      assert Sources(inputs, snapshot)[..|inputs|] == Sources(inputs, snapshot);
    }
  }

  function Sources(inputs: seq<string>, snapshot: map<string, seq<string>>): (r: seq<SourceInput>)
    ensures |r| == |inputs|
    ensures forall k :: 0 <= k < |inputs| ==> r[k] == SourceInput(IdsOf(snapshot, inputs[k]), inputs[k])
  {
    seq(|inputs|, k requires 0 <= k < |inputs| => SourceInput(IdsOf(snapshot, inputs[k]), inputs[k]))
  }

  function Filled(v: AnnotatedValue, ctx: Context, output: string): AnnotatedValue {
    AnnotatedValue(
      if v.id == "" then ctx.freshId else v.id,
      if v.createdAt.None? then Some(ctx.now) else v.createdAt,
      v.data,
      if v.sourceTask == "" then ctx.task else v.sourceTask,
      if v.sourceTaskOutput == "" then output else v.sourceTaskOutput,
      if ctx.snapshot.Some? && v.sourceInputs == [] then Sources(ctx.inputs, ctx.snapshot.value) else v.sourceInputs)
  }

  /**
   w is v with the blanks filled in: an id, a time, the task, the output, and, when there
   is a snapshot and no source inputs are given, one source input per input of the task
   with the ids the snapshot has for it.  Whatever is given is kept.
   */
  ghost predicate CompletedBy(v: AnnotatedValue, w: AnnotatedValue, ctx: Context, output: string) {
    && w.data == v.data
    && (v.id != "" ==> w.id == v.id) && (v.id == "" ==> w.id == ctx.freshId)
    && (v.createdAt.Some? ==> w.createdAt == v.createdAt) && (v.createdAt.None? ==> w.createdAt == Some(ctx.now))
    && (v.sourceTask != "" ==> w.sourceTask == v.sourceTask) && (v.sourceTask == "" ==> w.sourceTask == ctx.task)
    && (v.sourceTaskOutput != "" ==> w.sourceTaskOutput == v.sourceTaskOutput)
    && (v.sourceTaskOutput == "" ==> w.sourceTaskOutput == output)
    && (v.sourceInputs != [] || ctx.snapshot.None? ==> w.sourceInputs == v.sourceInputs)
    && (v.sourceInputs == [] && ctx.snapshot.Some? ==>
          |w.sourceInputs| == |ctx.inputs|
          && forall k :: 0 <= k < |ctx.inputs| ==>
               && w.sourceInputs[k].inputName == ctx.inputs[k]
               && (ctx.inputs[k] in ctx.snapshot.value ==> w.sourceInputs[k].ids == ctx.snapshot.value[ctx.inputs[k]])
               && (ctx.inputs[k] !in ctx.snapshot.value ==> w.sourceInputs[k].ids == []))
  }

  lemma FilledCompletes(v: AnnotatedValue, ctx: Context, output: string)
    ensures CompletedBy(v, Filled(v, ctx, output), ctx, output)
  {
  }

  // ---------------------------------------------------------------- the protocol

  /** What a call has done with one link of its output. */
  datatype Stage = ToAsk | Asked | Answered | ToHand | Handed

  datatype CallPhase = Asking | Handing | Returned(accepted: bool) | Failed

  /** A Publish call for the value given; canPublish is the flag its helpers share. */
  datatype Call = Call(
    output: string, given: AnnotatedValue, av: AnnotatedValue, phase: CallPhase, stages: seq<Stage>, answers: seq<Option<bool>>, canPublish: bool)

  datatype Worker = Idle | Answering(call: nat) | Publishing(call: nat) | Down

  datatype Delivery = Delivery(call: nat, av: AnnotatedValue)

  /** A link with its worker: what it took, what it published, what a failed publication lost. */
  datatype Link = Link(worker: Worker, handed: seq<Delivery>, published: seq<Delivery>, lost: seq<Delivery>)

  datatype State = State(links: map<string, seq<Link>>, calls: seq<Call>, counts: map<string, int>)

  datatype Step =
    | Invoke(output: string, av: AnnotatedValue)
    | Ask(c: nat, i: nat)
    | Answer(c: nat, i: nat, rpcOk: bool, allowed: bool)
    | Decide(c: nat, ctx: Context)
    | Hand(c: nat, i: nat)
    | Publish(output: string, i: nat, rpcOk: bool)
    | Reconnect(output: string, i: nat)
    | Return(c: nat)

  function Init(addresses: map<string, seq<string>>): State {
    State(map o | o in addresses :: seq(|addresses[o]|, _ => Link(Idle, [], [], [])), [],
          map o | o in addresses :: 0)
  }

  predicate IsLink(s: State, o: string, i: nat) {
    o in s.links && i < |s.links[o]|
  }

  /** Call c is under way and has a link i. */
  predicate IsStage(s: State, c: nat, i: nat) {
    && c < |s.calls| && i < |s.calls[c].stages| && i < |s.calls[c].answers|
    && IsLink(s, s.calls[c].output, i)
  }

  ghost predicate Enabled(s: State, step: Step) {
    match step
    case Invoke(_, _) => true
    case Ask(c, i) =>
      IsStage(s, c, i) && s.calls[c].stages[i] == ToAsk && s.links[s.calls[c].output][i].worker == Idle
    case Answer(c, i, _, _) =>
      IsStage(s, c, i) && s.links[s.calls[c].output][i].worker == Answering(c)
    case Decide(c, _) =>
      c < |s.calls| && s.calls[c].phase == Asking && forall i :: 0 <= i < |s.calls[c].stages| ==> s.calls[c].stages[i] == Answered
    case Hand(c, i) =>
      IsStage(s, c, i) && s.calls[c].stages[i] == ToHand && s.links[s.calls[c].output][i].worker == Idle
    case Publish(o, i, _) =>
      IsLink(s, o, i) && o in s.counts && s.links[o][i].worker.Publishing? && s.links[o][i].handed != []
    case Reconnect(o, i) => IsLink(s, o, i) && s.links[o][i].worker == Down
    case Return(c) =>
      c < |s.calls| && s.calls[c].phase == Handing && forall i :: 0 <= i < |s.calls[c].stages| ==> s.calls[c].stages[i] == Handed
  }

  function WithCall(s: State, c: nat, call: Call): State
    requires c < |s.calls|
  {
    s.(calls := s.calls[c := call])
  }

  function WithLink(s: State, o: string, i: nat, l: Link): State
    requires IsLink(s, o, i)
  {
    s.(links := s.links[o := s.links[o][i := l]])
  }

  ghost function Next(s: State, step: Step): State
    requires Enabled(s, step)
  {
    match step
    case Invoke(o, av) =>
      var n := if o in s.links then |s.links[o]| else 0;
      s.(calls := s.calls + [
        Call(o, av, av, if o in s.links then Asking else Failed, seq(n, _ => ToAsk), seq(n, _ => None), true)])
    case Ask(c, i) =>
      var call := s.calls[c];
      WithLink(WithCall(s, c, call.(stages := call.stages[i := Asked])),
               call.output, i, s.links[call.output][i].(worker := Answering(c)))
    case Answer(c, i, rpcOk, allowed) =>
      // A failed query is answered no, and the worker connects anew.
      var call, answer := s.calls[c], rpcOk && allowed;
      WithLink(WithCall(s, c, call.(stages := call.stages[i := Answered], answers := call.answers[i := Some(answer)],
                                    canPublish := call.canPublish && answer)),
               call.output, i, s.links[call.output][i].(worker := if rpcOk then Idle else Down))
    case Decide(c, ctx) =>
      var call := s.calls[c];
      WithCall(s, c,
        if call.canPublish
        then call.(phase := Handing, av := Filled(call.av, ctx, call.output), stages := seq(|call.stages|, _ => ToHand))
        else call.(phase := Returned(false)))
    case Hand(c, i) =>
      var call := s.calls[c];
      var l := s.links[call.output][i];
      WithLink(WithCall(s, c, call.(stages := call.stages[i := Handed])),
               call.output, i, l.(worker := Publishing(c), handed := l.handed + [Delivery(c, call.av)]))
    case Publish(o, i, rpcOk) =>
      var l := s.links[o][i];
      var av := l.handed[|l.handed| - 1];
      var done := if rpcOk then l.(worker := Idle, published := l.published + [av])
                  else l.(worker := Down, lost := l.lost + [av]);
      WithLink(s, o, i, done).(counts := if rpcOk then s.counts[o := s.counts[o] + 1] else s.counts)
    case Reconnect(o, i) => WithLink(s, o, i, s.links[o][i].(worker := Idle))
    case Return(c) => WithCall(s, c, s.calls[c].(phase := Returned(true)))
  }

  ghost predicate Run(addresses: map<string, seq<string>>, states: seq<State>, steps: seq<Step>) {
    && |states| == |steps| + 1
    && states[0] == Init(addresses)
    && forall i :: 0 <= i < |steps| ==> Enabled(states[i], steps[i]) && states[i + 1] == Next(states[i], steps[i])
  }

  ghost predicate Reachable(addresses: map<string, seq<string>>, s: State) {
    exists states, steps :: Run(addresses, states, steps) && s in states
  }
}
