/** Every queued event comes from its own call on its span, and one span's
    events are queued in the order its calls got the mutex. */
module EventOrder {
  import opened Events
  import opened Protocol
  import opened RunHistory
  import opened SpanLife

  /** e is what call number k on its span (-1 being the Start) has to say. */
  ghost predicate Comes(p: Producers, e: Event, k: int) {
    && e.spanID in p.spans
    && var span := p.spans[e.spanID];
    && k < span.settled
    && match e
       case Start(id, _, _, _, _, _) => k == -1 && e == StartEvent(id, span)
       case Attrs(_, trace, attrs) =>
         0 <= k < |span.calls| && span.calls[k] == SetAttrs(attrs) && OpenFor(span.calls, k) && trace == span.traceID
       case End(id, _, _, _, _, endNS, _, _) =>
         && 0 <= k < |span.calls| && span.calls[k].EndSpan? && OpenFor(span.calls, k)
         && span.endNS == Some(endNS) && e == EndEvent(id, span, endNS)
       case Other(_) => false
  }

  ghost predicate Traced(p: Producers, q: Queue) {
    && |q.origins| == |q.queued| == |q.carriers|
    && (forall i :: 0 <= i < |q.queued| ==> Comes(p, q.queued[i], q.origins[i]))
    && (forall i, j :: 0 <= i < j < |q.queued| && q.queued[i].spanID == q.queued[j].spanID
          ==> q.origins[i] < q.origins[j])
  }

  lemma ComesStays(p: Producers, r: Producers, e: Event, k: int)
    requires AllEvolve(p, r) && Comes(p, e, k)
    requires forall id :: id in p.spans ==> p.spans[id].settled <= |p.spans[id].calls|
    ensures Comes(r, e, k)
  {
    assert Evolves(p.spans[e.spanID], r.spans[e.spanID]);
  }

  lemma TracedStays(c: Config, p: Producers, q: Queue, r: Producers)
    requires Good(c, p) && Traced(p, q) && AllEvolve(p, r)
    ensures Traced(r, q)
  {
    assert forall id :: id in p.spans ==> SpanOK(p, c.anchor, id);
    hide Comes, AllEvolve, Good;
    forall i | 0 <= i < |q.queued|
      ensures Comes(r, q.queued[i], q.origins[i])
    {
      ComesStays(p, r, q.queued[i], q.origins[i]);
    }
  }

  /** What a sender offers, once settled, comes from the latest call of its span
      and from no call that queued anything before. */
  lemma OfferedComes(c: Config, p: Producers, q: Queue, t: Tid)
    requires Good(c, p) && Traced(p, q) && At(p, t).Sending?
    ensures var e := At(p, t).event;
            e.spanID in p.spans && Comes(Settle(p, t, e), e, |p.spans[e.spanID].calls| - 1)
    ensures var e := At(p, t).event;
            forall i :: 0 <= i < |q.queued| && q.queued[i].spanID == e.spanID
              ==> q.origins[i] < |p.spans[e.spanID].calls| - 1
  {
    assert ThreadOK(p, t);
    assert SpanOK(p, c.anchor, At(p, t).event.spanID);
    forall i | 0 <= i < |q.queued| && q.queued[i].spanID == At(p, t).event.spanID
      ensures q.origins[i] < |p.spans[At(p, t).event.spanID].calls| - 1
    {
      assert Comes(p, q.queued[i], q.origins[i]);
    }
  }

  lemma EnqueueTraced(c: Config, p: Producers, q: Queue, t: Tid, r: Producers, q': Queue)
    requires Good(c, p) && Traced(p, q) && SendStep(c, p, q, t, Enqueue) == Some((r, q'))
    ensures Traced(r, q')
  {
    hide Good, Comes, AllEvolve;
    SettleKeeps(c, p, t);
    TracedStays(c, p, q, r);
    OfferedComes(c, p, q, t);
  }

  lemma OnlyEnqueueQueues(c: Config, s: State, a: Action, r: State)
    requires Step(c, s, a) == Some(r) && !(a.OnSend? && a.send.Enqueue?)
    ensures SameQueued(s.q, r.q)
  {
    hide LocalStep, SendStep, WriteStep, ShutStep;
    match a {
      case OnSpan(_, _) =>
      case OnSend(t, send) => SendQueues(c, s.p, s.q, t, send);
      case OnClose(t, shut) => ShutQueues(s.p, s.q, s.w, t, shut);
      case OnWriter(write) => WriteQueues(s.q, s.w, write);
    }
  }

  /** The history of the queue is the same in both. */
  ghost predicate SameQueued(q: Queue, q': Queue) {
    q'.queued == q.queued && q'.origins == q.origins && q'.carriers == q.carriers
  }

  lemma SendQueues(c: Config, p: Producers, q: Queue, t: Tid, a: Send)
    requires SendStep(c, p, q, t, a).Some? && !a.Enqueue?
    ensures SameQueued(q, SendStep(c, p, q, t, a).value.1)
  {
    hide Settle;
  }

  lemma ShutQueues(p: Producers, q: Queue, w: Writer, t: Tid, a: Shut)
    requires ShutStep(p, q, w, t, a).Some?
    ensures SameQueued(q, ShutStep(p, q, w, t, a).value.1)
  {
    hide Senders;
  }

  lemma WriteQueues(q: Queue, w: Writer, a: Write)
    requires WriteStep(q, w, a).Some?
    ensures SameQueued(q, WriteStep(q, w, a).value.0)
  {
  }

  lemma StepTraced(c: Config, s: State, a: Action, r: State)
    requires Good(c, s.p) && Traced(s.p, s.q) && Step(c, s, a) == Some(r)
    ensures Good(c, r.p) && Traced(r.p, r.q)
  {
    hide Good, Traced, AllEvolve, LocalStep, ShutStep, WriteStep;
    StepKeepsGood(c, s, a, r);
    if a.OnSend? && a.send.Enqueue? {
      EnqueueTraced(c, s.p, s.q, a.t, r.p, r.q);
    } else {
      TracedStays(c, s.p, s.q, r.p);
      OnlyEnqueueQueues(c, s, a, r);
      SameHistory(r.p, s.q, r.q);
    }
  }

  lemma SameHistory(p: Producers, q: Queue, q': Queue)
    requires Traced(p, q) && SameQueued(q, q')
    ensures Traced(p, q')
  {
    hide Comes;
  }

  lemma {:induction false} RunTraced(c: Config, actions: seq<Action>, s: State)
    requires Run(c, Init(c), actions) == Some(s)
    ensures Good(c, s.p) && Traced(s.p, s.q)
    decreases |actions|
  {
    if actions == [] {
    } else {
      var mid := Run(c, Init(c), actions[..|actions| - 1]).value;
      RunTraced(c, actions[..|actions| - 1], mid);
      StepTraced(c, mid, actions[|actions| - 1], s);
    }
  }

  // ----- what follows for every reachable state --------------------------------

  /** Start first, at most one End, nothing behind it, per span, in the queue. */
  lemma QueueIsStrictlyOrdered(c: Config, s: State)
    requires Reachable(c, s)
    ensures StrictOrder(s.q.queued)
  {
    var actions :| Run(c, Init(c), actions) == Some(s);
    RunTraced(c, actions, s);
    var q := s.q;
    forall i, j | 0 <= i < j < |q.queued| && q.queued[i].spanID == q.queued[j].spanID
      ensures !q.queued[j].Start? && !q.queued[i].End?
    {
      assert Comes(s.p, q.queued[i], q.origins[i]) && Comes(s.p, q.queued[j], q.origins[j]);
      assert q.origins[i] < q.origins[j];
    }
  }

  /** Every queued event is word for word what the span it names has to say:
      the span as minted for a Start, one of its SetAttrs calls before any End
      for an Attrs (never an empty one), and for an End the first EndSpan, with the
      verdict of the calls and a clock reading no earlier than the start. And the
      span itself is what the run's callers asked for. */
  lemma QueuedEventsAreTrue(c: Config, s: State, i: nat)
    requires Reachable(c, s) && i < |s.q.queued|
    ensures |s.q.origins| == |s.q.queued|
    ensures var e, k := s.q.queued[i], s.q.origins[i];
            && e.spanID in s.p.spans
            && var span := s.p.spans[e.spanID];
            match e
            case Start(id, trace, parent, name, startNS, attrs) =>
              && k == -1 && trace == span.traceID && parent == span.parentID && name == span.name
              && startNS == span.startNS && attrs == span.attrs
            case Attrs(_, trace, attrs) =>
              && 0 <= k < |span.calls| && span.calls[k] == SetAttrs(attrs) && OpenFor(span.calls, k)
              && trace == span.traceID && attrs != []
            case End(id, trace, parent, name, startNS, endNS, status, error) =>
              && 0 <= k < |span.calls| && span.calls[k].EndSpan? && OpenFor(span.calls, k)
              && trace == span.traceID && parent == span.parentID && name == span.name && startNS == span.startNS
              && span.endNS == Some(endNS) && startNS <= endNS && (status, error) == Verdict(span.calls)
              && (span.status, span.message) == Verdict(span.calls)
            case Other(_) => false
    ensures AsRun(c, s, s.q.queued[i].spanID)
  {
    var actions :| Run(c, Init(c), actions) == Some(s);
    RunTraced(c, actions, s);
    var e := s.q.queued[i];
    assert Comes(s.p, e, s.q.origins[i]);
    assert SpanOK(s.p, c.anchor, e.spanID);
    SpansAreAsRun(c, s, e.spanID);
    NoEmptyCalls(c, s, actions, e.spanID);
  }

  lemma NoEmptyCalls(c: Config, s: State, actions: seq<Action>, id: ID)
    requires Run(c, Init(c), actions) == Some(s) && id in s.p.spans
    ensures SetAttrs([]) !in s.p.spans[id].calls
  {
    hide Run, Good;
    RunIsTold(c, actions, s);
    OwnTold(actions, s.p, 0, id);
    RecountsHas(actions, s.p, id);
  }

  /** Two queued events of a span come from different calls, the earlier event
      from the call that got the mutex earlier: a span's queued events are a
      subsequence of what its calls, taken one after another, would emit. */
  lemma QueueFollowsTheMutex(c: Config, s: State, i: nat, j: nat)
    requires Reachable(c, s) && i < j < |s.q.queued| && s.q.queued[i].spanID == s.q.queued[j].spanID
    ensures |s.q.origins| == |s.q.queued| && s.q.origins[i] < s.q.origins[j]
  {
    var actions :| Run(c, Init(c), actions) == Some(s);
    RunTraced(c, actions, s);
  }
}
