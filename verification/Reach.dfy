/** Everything the steps keep, put together, and what it means for a tracer in
    any state any interleaving can bring about. */
module Reach {
  import opened Events
  import opened Protocol
  import opened SpanLife
  import opened EventOrder
  import opened Delivery
  import opened Gauges

  /** Close calls that came back through done. */
  ghost predicate Answered(s: State) {
    && (s.closeResults != [] ==> s.q.done)
    && forall i :: 0 <= i < |s.closeResults| ==> s.closeResults[i] == s.w.closeErr
  }

  ghost predicate Invariant(c: Config, s: State) {
    && Good(c, s.p) && Traced(s.p, s.q) && Handshake(s.p, s.q)
    && Flows(c, s.q, s.w) && Balanced(s.p, s.q) && Answered(s)
  }

  lemma StepAnswered(c: Config, s: State, a: Action, r: State)
    requires Answered(s) && Flows(c, s.q, s.w) && Step(c, s, a) == Some(r)
    ensures Answered(r)
  {
    hide LocalStep, Settle, Senders, Delivered, Accepted, Failures, Streaming, Complete, CloseResult;
  }

  lemma StepInvariant(c: Config, s: State, a: Action, r: State)
    requires Invariant(c, s) && Step(c, s, a) == Some(r)
    ensures Invariant(c, r)
  {
    hide Good, Traced, Handshake, Flows, Balanced, Answered, Step;
    StepTraced(c, s, a, r);
    if a.OnSend? { PlaceFacts(c, s.p, a.t); }
    StepHandshake(c, s, a, r);
    StepFlows(c, s, a, r);
    StepBalanced(c, s, a, r);
    StepAnswered(c, s, a, r);
  }

  lemma InitInvariant(c: Config)
    ensures Invariant(c, Init(c))
  {
  }

  lemma {:induction false} RunInvariant(c: Config, s: State, actions: seq<Action>, r: State)
    requires Invariant(c, s) && Run(c, s, actions) == Some(r)
    ensures Invariant(c, r)
    decreases |actions|
  {
    hide Invariant, Step;
    if actions == [] {
    } else {
      var mid := Run(c, s, actions[..|actions| - 1]).value;
      RunInvariant(c, s, actions[..|actions| - 1], mid);
      StepInvariant(c, mid, actions[|actions| - 1], r);
    }
  }

  lemma ReachableInvariant(c: Config, s: State)
    requires Reachable(c, s)
    ensures Invariant(c, s)
  {
    hide Invariant, Step;
    var actions :| Run(c, Init(c), actions) == Some(s);
    InitInvariant(c);
    RunInvariant(c, Init(c), actions, s);
  }

  lemma {:induction false} RunConcat(c: Config, s: State, a: seq<Action>, b: seq<Action>)
    requires Run(c, s, a).Some?
    ensures Run(c, s, a + b) == Run(c, Run(c, s, a).value, b)
    decreases |b|
  {
    hide Step;
    if b == [] {
      assert a + b == a;
    } else {
      assert (a + b)[..|a + b| - 1] == a + b[..|b| - 1];
      RunConcat(c, s, a, b[..|b| - 1]);
    }
  }

  lemma ReachableStep(c: Config, s: State, a: Action)
    requires Reachable(c, s) && Step(c, s, a).Some?
    ensures Reachable(c, Step(c, s, a).value)
  {
    hide Step;
    var actions :| Run(c, Init(c), actions) == Some(s);
    assert (actions + [a])[..|actions|] == actions;
    assert Run(c, Init(c), actions + [a]) == Step(c, s, a);
  }

  // ----- headlines ---------------------------------------------------------------

  /** Delivery is a prefix of what was queued, in queue order, nothing twice; the
      summary has seen exactly the delivered events plus the batch on its way; and
      batches have 1 to 1024 events. */
  lemma DeliveryIsFirstInFirstOut(c: Config, s: State)
    requires Reachable(c, s)
    ensures s.q.queued == Delivered(s.w.calls) + InHand(s.w.stage) + s.q.buffered
    ensures s.w.recorded == Delivered(s.w.calls) + (if s.w.stage.Delivering? then s.w.stage.batch else [])
    ensures |s.q.buffered| <= c.capacity
    ensures forall i :: 0 <= i < |s.w.calls| && s.w.calls[i].WriteBatch? ==> 1 <= |s.w.calls[i].events| <= 1024
  {
    hide Good, Traced, Handshake, Balanced, Answered, Delivered, Accepted, Failures, CloseResult, Step, Run;
    ReachableInvariant(c, s);
    if s.w.stage.Exiting? || s.w.stage.Exited? {
      var n := |s.w.calls| - 1;
      assert forall i :: 0 <= i < n ==> s.w.calls[i] == s.w.calls[..n][i];
    }
  }

  /** Every send that read closed as false is dropped, given up, waiting in the
      queue, in the writer's hands, written, in a failed batch, or still going. */
  lemma EventsAreConserved(c: Config, s: State)
    requires Reachable(c, s)
    ensures s.q.passed == s.q.dropped + s.q.lost + |s.q.buffered| + |InHand(s.w.stage)| + s.w.written + s.w.failed
                          + Tally(s.p.threads, MidSend)
    ensures s.w.written == Accepted(s.w.calls) && s.w.writeErrors == Failures(s.w.calls)
  {
    hide Good, Traced, Handshake, Answered, Delivered, Accepted, Failures, Streaming, Complete, Step, Run, Tally;
    ReachableInvariant(c, s);
  }

  /** Up to the threads caught between two adds of one Start or End, spansInFlight
      is the number of spans started and not yet ended, tracesInFlight the number
      of root spans still open, started and completed count the spans and the ended
      spans, and spansInFlight is starts minus ends. Neither gauge is ever negative,
      however many Ends hit a span. */
  lemma GaugesAreExact(c: Config, s: State)
    requires Reachable(c, s)
    ensures s.p.spansInFlight >= 0 && s.p.tracesInFlight >= 0
    ensures s.p.spansInFlight == SpanTally(s.p.spans, OpenSpan) + Tally(s.p.threads, Opening)
                                 + Tally(s.p.threads, BeforeEndAdds) + Tally(s.p.threads, BetweenEndAdds)
    ensures s.p.tracesInFlight == SpanTally(s.p.spans, OpenRoot) + Tally(s.p.threads, OpeningRoot) + |RootEnds(s.p)|
    ensures s.p.completed + Tally(s.p.threads, BeforeEndAdds) == SpanTally(s.p.spans, EndedSpan)
    ensures s.p.started - Tally(s.p.threads, BetweenStartAdds) - Tally(s.p.threads, Opening) == |s.p.spans|
    ensures s.p.spansInFlight == (s.p.started - Tally(s.p.threads, BetweenStartAdds))
                                 - (s.p.completed - Tally(s.p.threads, BetweenEndAdds))
  {
    hide Good, Traced, Handshake, Flows, Answered, Step, Run, Tally, SpanTally, RootEnds;
    ReachableInvariant(c, s);
    OpenOrEnded(s.p.spans);
  }

  /** Once done is closed: the sink saw (WriteBatch | Flush)* Flush Close whatever
      its calls returned; everything queued before the closed flag was delivered;
      anything left over was queued late by a send that had read the flag as false,
      one event per such send; and every Close that returned through done returned
      what the sink's Close did (nothing, if that panicked). */
  lemma ShutdownDelivers(c: Config, s: State)
    requires Reachable(c, s) && s.q.done
    ensures Complete(s.w.calls)
    ensures s.q.cut <= |Delivered(s.w.calls)| && s.q.queued == Delivered(s.w.calls) + s.q.buffered
    ensures |s.q.carriers| == |s.q.queued|
    ensures forall i :: |Delivered(s.w.calls)| <= i < |s.q.queued| ==>
      s.q.carriers[i] in s.q.straddling && s.q.straddling[s.q.carriers[i]] == s.q.queued[i]
    ensures forall i, j :: |Delivered(s.w.calls)| <= i < j < |s.q.queued| ==> s.q.carriers[i] != s.q.carriers[j]
    ensures forall i :: 0 <= i < |s.closeResults| ==> s.closeResults[i] == CloseResult(s.w.calls)
  {
    hide Good, Traced, Balanced, Delivered, Accepted, Failures, Streaming, Complete, CloseResult, Step, Run;
    ReachableInvariant(c, s);
  }
}
