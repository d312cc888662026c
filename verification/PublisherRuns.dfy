/** What a call returns and what a link publishes, in terms of what the remote sides replied in the run. */
module PublisherRuns {
  import opened Common
  import opened Publisher
  import opened PublisherTheorems

  // ---------------------------------------------------------------- answers

  /** Before step m link i answered call c: yes when the query went through and was allowed, else no. */
  ghost predicate Replied(steps: seq<Step>, m: nat, c: nat, i: nat, yes: bool)
    requires m <= |steps|
  {
    exists t :: 0 <= t < m && IsReply(steps[t], c, i, yes)
  }

  predicate IsReply(step: Step, c: nat, i: nat, yes: bool) {
    step.Answer? && step.c == c && step.i == i && (yes <==> step.rpcOk && step.allowed)
  }

  lemma RepliedMore(steps: seq<Step>, m: nat, c: nat, i: nat, yes: bool)
    requires m < |steps|
    ensures Replied(steps, m + 1, c, i, yes) <==> Replied(steps, m, c, i, yes) || IsReply(steps[m], c, i, yes)
  {
    if Replied(steps, m, c, i, yes) {
      var t :| 0 <= t < m && IsReply(steps[t], c, i, yes);
      assert IsReply(steps[t], c, i, yes);
    }
  }

  lemma {:induction false} CallsOnlyGrow(
      addresses: map<string, seq<string>>, states: seq<State>, steps: seq<Step>, t: nat, m: nat)
    requires Run(addresses, states, steps) && t <= m < |states|
    ensures |states[t].calls| <= |states[m].calls|
    decreases m
  {
    if t < m { CallsOnlyGrow(addresses, states, steps, t, m - 1); }
  }

  /** A call not yet made was not answered. */
  lemma NotYetReplied(
      addresses: map<string, seq<string>>, states: seq<State>, steps: seq<Step>, m: nat, c: nat, i: nat, yes: bool)
    requires Run(addresses, states, steps) && m < |states| && c >= |states[m].calls|
    ensures !Replied(steps, m, c, i, yes)
  {
    hide Next;
    forall t | 0 <= t < m
      ensures !IsReply(steps[t], c, i, yes)
    {
      CallsOnlyGrow(addresses, states, steps, t, m);
    }
  }

  /** A step other than an answer to call c by link i leaves that answer as it is. */
  lemma AnswerStays(s: State, step: Step, c: nat, i: nat)
    requires Enabled(s, step) && c < |s.calls| && i < |s.calls[c].answers|
    requires !(step.Answer? && step.c == c && step.i == i)
    ensures c < |Next(s, step).calls| && i < |Next(s, step).calls[c].answers|
    ensures Next(s, step).calls[c].answers[i] == s.calls[c].answers[i]
  {
    hide Filled;
  }

  /** An answer is given once, and recorded as it was given. */
  lemma AnswerRecorded(s: State, step: Step)
    requires Inv(s) && Enabled(s, step) && step.Answer?
    ensures var s' := Next(s, step);
      && s.calls[step.c].answers[step.i] == None && step.i < |s'.calls[step.c].answers|
      && s'.calls[step.c].answers[step.i] == Some(step.rpcOk && step.allowed)
  {
    hide Inv, Within, LinkInv, RefersTo, Took;
    Started(s, step.c);
    About(s, step.c, step.i);
    var call := s.calls[step.c];
    assert StageFits(call.phase, call.stages[step.i], call.answers[step.i]);
  }

  /** The answers a call has recorded are the replies of its links. */
  lemma {:induction false} AnswersAreReplies(
      addresses: map<string, seq<string>>, states: seq<State>, steps: seq<Step>, m: nat, c: nat, i: nat)
    requires Run(addresses, states, steps) && m < |states| && c < |states[m].calls| && i < |states[m].calls[c].answers|
    ensures states[m].calls[c].answers[i] == Some(true) <==> Replied(steps, m, c, i, true)
    ensures states[m].calls[c].answers[i] == Some(false) <==> Replied(steps, m, c, i, false)
    decreases m
  {
    hide Next, Enabled, Inv, Replied;
    if m > 0 {
      var s, step := states[m - 1], steps[m - 1];
      RunInv(addresses, states, steps, m - 1);
      RepliedMore(steps, m - 1, c, i, true);
      RepliedMore(steps, m - 1, c, i, false);
      if c >= |s.calls| {
        NotYetReplied(addresses, states, steps, m - 1, c, i, true);
        NotYetReplied(addresses, states, steps, m - 1, c, i, false);
        NewCall(s, step, c);
      } else {
        SameLinks(s, step, c);
        AnswersAreReplies(addresses, states, steps, m - 1, c, i);
        if step.Answer? && step.c == c && step.i == i {
          AnswerRecorded(s, step);
        } else {
          AnswerStays(s, step, c, i);
        }
      }
    }
  }

  lemma NewCall(s: State, step: Step, c: nat)
    requires Enabled(s, step) && |s.calls| <= c < |Next(s, step).calls|
    ensures step.Invoke?
    ensures forall i :: 0 <= i < |Next(s, step).calls[c].answers| ==> Next(s, step).calls[c].answers[i] == None
  {
  }

  lemma SameLinks(s: State, step: Step, c: nat)
    requires Enabled(s, step) && c < |s.calls|
    ensures c < |Next(s, step).calls| && |Next(s, step).calls[c].answers| == |s.calls[c].answers|
  {
  }

  /**
   A call that has returned was accepted if and only if every link of its output replied,
   to this call, that it may publish; one refusal or failed query is enough to refuse it.
   */
  lemma AcceptedIffAllAllow(
      addresses: map<string, seq<string>>, states: seq<State>, steps: seq<Step>, m: nat, c: nat)
    requires Run(addresses, states, steps) && m < |states| && c < |states[m].calls| && states[m].calls[c].phase.Returned?
    ensures states[m].calls[c].output in addresses
    ensures var links := |addresses[states[m].calls[c].output]|;
      && (states[m].calls[c].phase.accepted <==> forall i :: 0 <= i < links ==> Replied(steps, m, c, i, true))
      && (!states[m].calls[c].phase.accepted <==> exists i :: 0 <= i < links && Replied(steps, m, c, i, false))
  {
    hide Inv, Replied, Next, Enabled;
    var s := states[m];
    var call := s.calls[c];
    assert Reachable(addresses, s);
    OnlyUnknownOutputsFail(addresses, s, c);
    RunInv(addresses, states, steps, m);
    CallOf(s, c);
    forall i: nat | i < |call.answers|
      ensures call.answers[i] == Some(true) <==> Replied(steps, m, c, i, true)
      ensures call.answers[i] == Some(false) <==> Replied(steps, m, c, i, false)
    {
      AnswersAreReplies(addresses, states, steps, m, c, i);
    }
    if call.phase.accepted {
      AllAgreed(call);
      forall i | 0 <= i < |call.answers| ensures call.answers[i] == Some(true) {
        assert call.answers[i] in call.answers;
      }
    } else {
      RefusedByAll(addresses, s, c);
      var i :| 0 <= i < |call.answers| && call.answers[i] == Some(false);
      assert Replied(steps, m, c, i, false) && !Replied(steps, m, c, i, true);
    }
  }

  // ---------------------------------------------------------------- publications

  /** How often link i of an output was published to with the given result before step m. */
  function Attempts(steps: seq<Step>, m: nat, o: string, i: nat, ok: bool): nat
    requires m <= |steps|
  {
    if m == 0 then 0
    else Attempts(steps, m - 1, o, i, ok) + if IsAttempt(steps[m - 1], o, i, ok) then 1 else 0
  }

  predicate IsAttempt(step: Step, o: string, i: nat, ok: bool) {
    step.Publish? && step.output == o && step.i == i && step.rpcOk == ok
  }

  /** What changes on a link in one step. */
  lemma LinkSteps(s: State, step: Step, o: string, i: nat)
    requires Enabled(s, step) && IsLink(s, o, i)
    ensures IsLink(Next(s, step), o, i)
    ensures var l, l' := s.links[o][i], Next(s, step).links[o][i];
      && |l'.published| == |l.published| + (if IsAttempt(step, o, i, true) then 1 else 0)
      && |l'.lost| == |l.lost| + (if IsAttempt(step, o, i, false) then 1 else 0)
  {
    hide Filled;
  }

  /** A link has published just the deliveries whose publication succeeded, and lost those whose publication failed. */
  lemma {:induction false} PublishedOnSuccess(
      addresses: map<string, seq<string>>, states: seq<State>, steps: seq<Step>, m: nat, o: string, i: nat)
    requires Run(addresses, states, steps) && m < |states| && IsLink(states[m], o, i)
    ensures |states[m].links[o][i].published| == Attempts(steps, m, o, i, true)
    ensures |states[m].links[o][i].lost| == Attempts(steps, m, o, i, false)
    decreases m
  {
    hide Next, Enabled;
    if m > 0 {
      LinksStay(addresses, states, steps, m);
      LinksStay(addresses, states, steps, m - 1);
      PublishedOnSuccess(addresses, states, steps, m - 1, o, i);
      LinkSteps(states[m - 1], steps[m - 1], o, i);
    }
  }
}
