/** The tracer feeding the summary: a tracked name counts each of its spans at
    most once, as that span really ended. */
module TruthfulSummary {
  import opened Events
  import opened Protocol
  import opened SpanLife
  import opened EventOrder
  import opened RunHistory
  import opened Summary
  import opened Delivery
  import opened Gauges
  import opened Reach
  import opened SummaryBook
  import opened TruthfulRows

  /** Where the Ends of a name stand in the stream. */
  function EndPositions(es: seq<Event>, name: string): seq<nat> {
    if es == [] then []
    else
      var before, e := EndPositions(es[..|es| - 1], name), es[|es| - 1];
      if e.End? && e.name == name then before + [|es| - 1] else before
  }

  lemma EndsNext(rest: seq<Event>, e: Event, name: string)
    ensures var more := e.End? && e.name == name;
            && EndsOf(rest + [e], name) == EndsOf(rest, name) + (if more then [e] else [])
            && EndPositions(rest + [e], name) == EndPositions(rest, name) + (if more then [|rest|] else [])
  {
    assert (rest + [e])[..|rest|] == rest;
  }

  lemma {:induction false} EndsArePicked(es: seq<Event>, name: string)
    ensures Picks(es, EndPositions(es, name), EndsOf(es, name))
  {
    if es == [] {
    } else {
      hide Picks, EndsOf, EndPositions;
      var rest, e := es[..|es| - 1], es[|es| - 1];
      EndsArePicked(rest, name);
      PicksNext(rest, EndPositions(rest, name), EndsOf(rest, name), e);
      EndsNext(rest, e, name);
      assert rest + [e] == es;
    }
  }

  lemma {:induction false} EndsAreNamed(es: seq<Event>, name: string)
    ensures forall i :: 0 <= i < |EndsOf(es, name)| ==> EndsOf(es, name)[i].End? && EndsOf(es, name)[i].name == name
  {
    if es == [] {
    } else {
      EndsAreNamed(es[..|es| - 1], name);
    }
  }

  /** Whatever batches the writer cut and however the sink fared, a tracked name
      aggregates exactly the Ends of that name dequeued so far: spans of the
      tracer, each at most once, each with its own duration and verdict. */
  lemma SummaryIsTruthful(c: Config, s: State, name: string, i: nat)
    requires Reachable(c, s) && name in EnterAll(BLANK, s.w.recorded).logs
    requires i < |EnterAll(BLANK, s.w.recorded).logs[name]|
    ensures s.w.recorded <= s.q.queued && EnterAll(BLANK, s.w.recorded).logs[name] == EndsOf(s.w.recorded, name)
    ensures var e := EndsOf(s.w.recorded, name)[i];
            && e.End? && e.spanID in s.p.spans
            && var span := s.p.spans[e.spanID];
            && AsRun(c, s, e.spanID)
            && e.name == span.name == name && span.endNS == Some(e.endNS) && e.startNS == span.startNS <= e.endNS
            && (e.status, e.error) == (span.status, span.message) == Verdict(span.calls)
            && (c.anchor >= 0 ==> DurationOf(e) == span.endNS.value - span.startNS)
    ensures forall j :: 0 <= j < i ==> EndsOf(s.w.recorded, name)[j].spanID != EndsOf(s.w.recorded, name)[i].spanID
  {
    hide Reachable, EnterAll, Delivered, Verdict, EndsOf, EndPositions, AsRun;
    var es := s.w.recorded;
    LedgerIsAllOrNothing(es);
    RecordedIsQueued(c, s);
    EndsArePicked(es, name);
    EndsAreNamed(es, name);
    QueueIsStrictlyOrdered(c, s);
    var at, ends := EndPositions(es, name), EndsOf(es, name);
    QueuedEventsAreTrue(c, s, at[i]);
    assert s.q.queued[at[i]] == ends[i];
    StartsAreAfterAnchor(c, s, ends[i].spanID);
    forall j | 0 <= j < i
      ensures ends[j].spanID != ends[i].spanID
    {
      assert s.q.queued[at[j]] == ends[j] && at[j] < at[i];
    }
  }

  lemma StartsAreAfterAnchor(c: Config, s: State, id: ID)
    requires Reachable(c, s) && id in s.p.spans
    ensures c.anchor <= s.p.spans[id].startNS
  {
    hide Traced, Handshake, Flows, Balanced, Answered;
    ReachableInvariant(c, s);
    assert SpanOK(s.p, c.anchor, id);
  }

  lemma RecordedIsQueued(c: Config, s: State)
    requires Reachable(c, s)
    ensures s.w.recorded <= s.q.queued
    ensures forall i :: 0 <= i < |s.w.recorded| ==> s.q.queued[i] == s.w.recorded[i]
  {
    hide Reachable, Delivered;
    DeliveryIsFirstInFirstOut(c, s);
  }
}
