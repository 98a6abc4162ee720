/** No call goes missing: each call that has something to say to the sink has its
    event queued, or else is on record as refused, dropped or given up, never both
    and never twice. */
module Fates {
  import opened Events
  import opened Protocol
  import opened SpanLife
  import opened RunHistory
  import opened EventOrder

  /** The Start, a SetAttrs that finds its span open, or the End that ends it. */
  ghost predicate Speaks(calls: seq<Call>, k: int) {
    k == -1 || (0 <= k < |calls| && !calls[k].Fail? && OpenFor(calls, k))
  }

  ghost predicate Reached(q: Queue, id: ID, k: int) {
    exists i :: 0 <= i < |q.queued| && i < |q.origins| && q.queued[i].spanID == id && q.origins[i] == k
  }

  ghost predicate Missed(q: Queue, id: ID, k: int) {
    exists i :: 0 <= i < |q.unsent| && q.unsent[i].id == id && q.unsent[i].call == k
  }

  function CountFate(unsent: seq<Unsent>, fate: Fate): nat {
    if unsent == [] then 0
    else CountFate(unsent[..|unsent| - 1], fate) + (if unsent[|unsent| - 1].fate == fate then 1 else 0)
  }

  /** Every call past its send was heard or is on record. */
  ghost predicate Heard(p: Producers, q: Queue) {
    forall id, k :: id in p.spans && -1 <= k < p.spans[id].settled && Speaks(p.spans[id].calls, k) ==>
      Reached(q, id, k) || Missed(q, id, k)
  }

  /** What is on record is there once, did not get into the queue as well, belongs
      to a call that had something to say, and is what the counters count. */
  ghost predicate OnRecord(p: Producers, q: Queue) {
    && (forall i :: 0 <= i < |q.unsent| ==>
          && q.unsent[i].id in p.spans && q.unsent[i].call < p.spans[q.unsent[i].id].settled
          && Speaks(p.spans[q.unsent[i].id].calls, q.unsent[i].call)
          && !Reached(q, q.unsent[i].id, q.unsent[i].call)
          && (q.unsent[i].fate.Refused? ==> q.closed))
    && (forall i, j :: 0 <= i < j < |q.unsent| ==>
          q.unsent[i].id != q.unsent[j].id || q.unsent[i].call != q.unsent[j].call)
    && q.dropped == CountFate(q.unsent, Dropped) && q.lost == CountFate(q.unsent, GivenUp)
  }

  lemma SpeaksStays(calls: seq<Call>, longer: seq<Call>, k: int)
    requires calls <= longer && k < |calls|
    ensures Speaks(longer, k) <==> Speaks(calls, k)
  {
  }

  /** A step that records nothing. */
  lemma QuietFates(p: Producers, q: Queue, r: Producers, q': Queue)
    requires Heard(p, q) && OnRecord(p, q) && AllEvolve(p, r)
    requires q'.queued == q.queued && q'.origins == q.origins && q'.unsent == q.unsent && (q.closed ==> q'.closed)
    requires q'.dropped == q.dropped && q'.lost == q.lost
    requires forall id :: id in p.spans ==> p.spans[id].settled <= |p.spans[id].calls|
    requires forall id, k :: id in r.spans && -1 <= k < r.spans[id].settled && Speaks(r.spans[id].calls, k) ==>
               id in p.spans && k < p.spans[id].settled
    ensures Heard(r, q') && OnRecord(r, q')
  {
    hide Speaks, CountFate;
    forall id, k | id in r.spans && -1 <= k < r.spans[id].settled && Speaks(r.spans[id].calls, k)
      ensures Reached(q', id, k) || Missed(q', id, k)
    {
      assert Evolves(p.spans[id], r.spans[id]);
      SpeaksStays(p.spans[id].calls, r.spans[id].calls, k);
    }
    forall i | 0 <= i < |q.unsent|
      ensures q.unsent[i].id in r.spans && q.unsent[i].call < r.spans[q.unsent[i].id].settled
      ensures Speaks(r.spans[q.unsent[i].id].calls, q.unsent[i].call)
    {
      var u := q.unsent[i];
      assert Evolves(p.spans[u.id], r.spans[u.id]);
      SpeaksStays(p.spans[u.id].calls, r.spans[u.id].calls, u.call);
    }
  }

  /** Settled calls of a span that speak, before and after a local step. */
  lemma LocalSettles(c: Config, p: Producers, t: Tid, a: Local, r: Producers, id: ID, k: int)
    requires Good(c, p) && LocalStep(p, t, a) == Some(r)
    requires id in r.spans && -1 <= k < r.spans[id].settled && Speaks(r.spans[id].calls, k)
    ensures id in p.spans && k < p.spans[id].settled
  {
    OwnFacts(c, p, t, id);
    hide Good, Verdict;
    if a.Act? && At(p, t).id == id {
      ActSettles(p, t, r, k);
    }
  }

  lemma ActSettles(p: Producers, t: Tid, r: Producers, k: int)
    requires LocalStep(p, t, Act) == Some(r) && Holds(p, t, At(p, t).id, false)
    requires var span := p.spans[At(p, t).id]; span.ended <==> HasEnd(span.calls)
    requires var span := r.spans[At(p, t).id]; -1 <= k < span.settled && Speaks(span.calls, k)
    ensures k < p.spans[At(p, t).id].settled
  {
    ClosedBehindEnd(p.spans[At(p, t).id].calls, r.spans[At(p, t).id].calls);
  }

  lemma ClosedBehindEnd(calls: seq<Call>, longer: seq<Call>)
    ensures calls <= longer && HasEnd(calls) ==> !OpenFor(longer, |calls|)
  {
    if calls <= longer && HasEnd(calls) {
      var i :| 0 <= i < |calls| && calls[i].EndSpan?;
      assert longer[i].EndSpan?;
    }
  }

  lemma LocalFates(c: Config, p: Producers, q: Queue, t: Tid, a: Local, r: Producers)
    requires Good(c, p) && Heard(p, q) && OnRecord(p, q) && LocalStep(p, t, a) == Some(r)
    ensures Heard(r, q) && OnRecord(r, q)
  {
    hide Good, Heard, OnRecord, LocalStep, AllEvolve, Speaks;
    LocalKeeps(c, p, t, a, r);
    forall id | id in p.spans
      ensures p.spans[id].settled <= |p.spans[id].calls|
    {
      SettledBound(c, p, id);
    }
    forall id, k | id in r.spans && -1 <= k < r.spans[id].settled && Speaks(r.spans[id].calls, k)
      ensures id in p.spans && k < p.spans[id].settled
    {
      LocalSettles(c, p, t, a, r, id, k);
    }
    QuietFates(p, q, r, q);
  }

  lemma SettledBound(c: Config, p: Producers, id: ID)
    requires Good(c, p) && id in p.spans
    ensures -1 <= p.spans[id].settled <= |p.spans[id].calls|
  {
    assert SpanOK(p, c.anchor, id);
  }

  /** The event on offer is what the latest call of its span has to say, and that
      call is past everything heard or recorded so far. */
  lemma OfferedSpeaks(c: Config, p: Producers, q: Queue, t: Tid)
    requires Good(c, p) && Traced(p, q) && OnRecord(p, q) && (At(p, t).Checking? || At(p, t).Sending?)
    ensures var id := At(p, t).event.spanID;
            && id in p.spans
            && var k := |p.spans[id].calls| - 1;
            && p.spans[id].settled == k && Speaks(p.spans[id].calls, k) && !Reached(q, id, k) && !Missed(q, id, k)
  {
    OwnFacts(c, p, t, At(p, t).event.spanID);
    hide Good, Verdict, CountFate;
    var id := At(p, t).event.spanID;
    var k := |p.spans[id].calls| - 1;
    OpenUnlessEnded(p.spans[id].calls);
  }

  lemma OpenUnlessEnded(calls: seq<Call>)
    ensures !HasEnd(calls) ==> OpenFor(calls, |calls| - 1)
  {
  }

  lemma CountOne(unsent: seq<Unsent>, u: Unsent, fate: Fate)
    ensures CountFate(unsent + [u], fate) == CountFate(unsent, fate) + (if u.fate == fate then 1 else 0)
  {
    assert (unsent + [u])[..|unsent|] == unsent;
  }

  lemma ReachedStays(q: Queue, q': Queue, id: ID, k: int)
    requires |q.queued| <= |q'.queued| && |q.origins| <= |q'.origins|
    requires q'.queued[..|q.queued|] == q.queued && q'.origins[..|q.origins|] == q.origins
    ensures Reached(q, id, k) ==> Reached(q', id, k)
  {
    if Reached(q, id, k) {
      var i :| 0 <= i < |q.queued| && i < |q.origins| && q.queued[i].spanID == id && q.origins[i] == k;
      assert q'.queued[i] == q'.queued[..|q.queued|][i] && q'.origins[i] == q'.origins[..|q.origins|][i];
    }
  }

  lemma MissedStays(q: Queue, q': Queue, u: Unsent, id: ID, k: int)
    requires q'.unsent == q.unsent + [u]
    ensures Missed(q', id, k) <==> Missed(q, id, k) || (u.id == id && u.call == k)
  {
    if Missed(q, id, k) {
      var i :| 0 <= i < |q.unsent| && q.unsent[i].id == id && q.unsent[i].call == k;
      assert q'.unsent[i] == q.unsent[i];
    }
    if u.id == id && u.call == k { assert q'.unsent[|q.unsent|] == u; }
  }

  /** The send of span id is over: its latest call is settled, and nothing else
      changes about which calls are there and settled. */
  ghost predicate Settling(p: Producers, r: Producers, id: ID) {
    && id in p.spans && r.spans.Keys == p.spans.Keys
    && p.spans[id].settled == |p.spans[id].calls| - 1 && r.spans[id].settled == |p.spans[id].calls|
    && forall k :: k in p.spans ==>
      r.spans[k].calls == p.spans[k].calls && (k != id ==> r.spans[k].settled == p.spans[k].settled)
  }

  lemma SettleIsSettling(p: Producers, t: Tid)
    requires (At(p, t).Checking? || At(p, t).Sending?) && At(p, t).event.spanID in p.spans
    requires p.spans[At(p, t).event.spanID].settled == |p.spans[At(p, t).event.spanID].calls| - 1
    ensures Settling(p, Settle(p, t, At(p, t).event), At(p, t).event.spanID)
  {
  }

  /** One more call on record. */
  ghost predicate Recorded(q: Queue, q': Queue, u: Unsent) {
    && q'.unsent == q.unsent + [u] && q'.queued == q.queued && q'.origins == q.origins && q'.closed == q.closed
    && q'.dropped == q.dropped + (if u.fate.Dropped? then 1 else 0)
    && q'.lost == q.lost + (if u.fate.GivenUp? then 1 else 0)
  }

  lemma RecordedIsHeard(p: Producers, q: Queue, r: Producers, q': Queue, u: Unsent)
    requires Heard(p, q) && Settling(p, r, u.id) && Recorded(q, q', u) && u.call == |p.spans[u.id].calls| - 1
    ensures Heard(r, q')
  {
    hide Speaks, Missed, Reached;
    forall id, k | id in r.spans && -1 <= k < r.spans[id].settled && Speaks(r.spans[id].calls, k)
      ensures Reached(q', id, k) || Missed(q', id, k)
    {
      assert id in p.spans && r.spans[id].calls == p.spans[id].calls;
      SameReached(q, q', id, k);
      MissedStays(q, q', u, id, k);
    }
  }

  lemma RecordedIsOnRecord(p: Producers, q: Queue, r: Producers, q': Queue, u: Unsent)
    requires OnRecord(p, q) && Settling(p, r, u.id) && Recorded(q, q', u) && u.call == |p.spans[u.id].calls| - 1
    requires Speaks(p.spans[u.id].calls, u.call) && !Reached(q, u.id, u.call) && !Missed(q, u.id, u.call)
    requires u.fate.Refused? ==> q.closed
    ensures OnRecord(r, q')
  {
    hide CountFate, Speaks, Missed, Reached;
    CountOne(q.unsent, u, Dropped);
    CountOne(q.unsent, u, GivenUp);
    forall i | 0 <= i < |q'.unsent|
      ensures !Reached(q', q'.unsent[i].id, q'.unsent[i].call)
    {
      SameReached(q, q', q'.unsent[i].id, q'.unsent[i].call);
    }
    forall i, j | 0 <= i < j < |q'.unsent|
      ensures q'.unsent[i].id != q'.unsent[j].id || q'.unsent[i].call != q'.unsent[j].call
    {
      if j == |q.unsent| { NotMissed(q, u, i); }
    }
  }

  lemma MissedFates(c: Config, p: Producers, q: Queue, t: Tid, fate: Fate, q': Queue)
    requires Good(c, p) && Traced(p, q) && Heard(p, q) && OnRecord(p, q) && (At(p, t).Checking? || At(p, t).Sending?)
    requires q' == NotSent(p, q, At(p, t).event, fate).(dropped := q'.dropped, lost := q'.lost)
    requires q'.dropped == q.dropped + (if fate.Dropped? then 1 else 0)
    requires q'.lost == q.lost + (if fate.GivenUp? then 1 else 0)
    requires fate.Refused? ==> q.closed
    ensures Heard(Settle(p, t, At(p, t).event), q') && OnRecord(Settle(p, t, At(p, t).event), q')
  {
    hide Good, Traced, Heard, OnRecord, Speaks, Missed, Reached, Settle, Settling;
    OfferedSpeaks(c, p, q, t);
    SettleIsSettling(p, t);
    var e, r := At(p, t).event, Settle(p, t, At(p, t).event);
    var u := Unsent(e.spanID, |p.spans[e.spanID].calls| - 1, fate);
    RecordedIsHeard(p, q, r, q', u);
    RecordedIsOnRecord(p, q, r, q', u);
  }

  lemma NotMissed(q: Queue, u: Unsent, i: nat)
    requires !Missed(q, u.id, u.call) && i < |q.unsent|
    ensures q.unsent[i].id != u.id || q.unsent[i].call != u.call
  {
  }

  lemma SameReached(q: Queue, q': Queue, id: ID, k: int)
    requires q'.queued == q.queued && q'.origins == q.origins
    ensures Reached(q', id, k) <==> Reached(q, id, k)
  {
  }

  /** One more event in the queue. */
  ghost predicate Queued(q: Queue, q': Queue, e: Event, n: int) {
    && q'.queued == q.queued + [e] && q'.origins == q.origins + [n] && |q.queued| == |q.origins|
    && q'.unsent == q.unsent && q'.closed == q.closed && q'.dropped == q.dropped && q'.lost == q.lost
  }

  lemma QueuedIsHeard(p: Producers, q: Queue, r: Producers, q': Queue, e: Event, n: int)
    requires Heard(p, q) && Settling(p, r, e.spanID) && Queued(q, q', e, n) && n == |p.spans[e.spanID].calls| - 1
    ensures Heard(r, q')
  {
    hide Speaks, Missed, Reached;
    forall id, k | id in r.spans && -1 <= k < r.spans[id].settled && Speaks(r.spans[id].calls, k)
      ensures Reached(q', id, k) || Missed(q', id, k)
    {
      assert id in p.spans && r.spans[id].calls == p.spans[id].calls;
      ReachedMore(q, q', e, n, id, k);
      SameMissed(q, q', id, k);
    }
  }

  lemma QueuedIsOnRecord(p: Producers, q: Queue, r: Producers, q': Queue, e: Event, n: int)
    requires OnRecord(p, q) && Settling(p, r, e.spanID) && Queued(q, q', e, n) && n == |p.spans[e.spanID].calls| - 1
    ensures OnRecord(r, q')
  {
    hide CountFate, Speaks, Missed, Reached;
    forall i | 0 <= i < |q.unsent|
      ensures !Reached(q', q.unsent[i].id, q.unsent[i].call)
    {
      ReachedMore(q, q', e, n, q.unsent[i].id, q.unsent[i].call);
    }
  }

  lemma QueuedFates(c: Config, p: Producers, q: Queue, t: Tid, r: Producers, q': Queue)
    requires Good(c, p) && Traced(p, q) && Heard(p, q) && OnRecord(p, q)
    requires SendStep(c, p, q, t, Enqueue) == Some((r, q'))
    ensures Heard(r, q') && OnRecord(r, q')
  {
    EnqueueShape(c, p, q, t, r, q');
    hide Good, Heard, OnRecord, Speaks, Missed, Reached, Settle, Settling, SendStep, Comes;
    OfferedSpeaks(c, p, q, t);
    SettleIsSettling(p, t);
    var e := At(p, t).event;
    QueuedIsHeard(p, q, r, q', e, |p.spans[e.spanID].calls| - 1);
    QueuedIsOnRecord(p, q, r, q', e, |p.spans[e.spanID].calls| - 1);
  }

  lemma EnqueueShape(c: Config, p: Producers, q: Queue, t: Tid, r: Producers, q': Queue)
    requires SendStep(c, p, q, t, Enqueue) == Some((r, q')) && |q.queued| == |q.origins|
    ensures At(p, t).Sending? && r == Settle(p, t, At(p, t).event) && At(p, t).event.spanID in p.spans
    ensures Queued(q, q', At(p, t).event, |p.spans[At(p, t).event.spanID].calls| - 1)
  {
    hide Settle;
  }

  lemma SameMissed(q: Queue, q': Queue, id: ID, k: int)
    requires q'.unsent == q.unsent
    ensures Missed(q', id, k) <==> Missed(q, id, k)
  {
  }

  lemma ReachedMore(q: Queue, q': Queue, e: Event, n: int, id: ID, k: int)
    requires q'.queued == q.queued + [e] && q'.origins == q.origins + [n] && |q.queued| == |q.origins|
    ensures Reached(q', id, k) <==> Reached(q, id, k) || (id == e.spanID && k == n)
  {
    ReachedStays(q, q', id, k);
    if id == e.spanID && k == n { assert q'.queued[|q.queued|] == e && q'.origins[|q.origins|] == n; }
  }

  lemma SendFates(c: Config, p: Producers, q: Queue, t: Tid, a: Send, r: Producers, q': Queue)
    requires Good(c, p) && Traced(p, q) && Heard(p, q) && OnRecord(p, q) && SendStep(c, p, q, t, a) == Some((r, q'))
    ensures Heard(r, q') && OnRecord(r, q')
  {
    hide Good, Traced, Heard, OnRecord, Settle, AllEvolve;
    match a {
      case CheckClosed =>
        if q.closed {
          MissedFates(c, p, q, t, Refused, q');
        } else {
          PassedFates(c, p, q, t);
        }
      case Enqueue => QueuedFates(c, p, q, t, r, q');
      case Drop => MissedFates(c, p, q, t, Dropped, q');
      case GiveUp => MissedFates(c, p, q, t, GivenUp, q');
    }
  }

  lemma PassedFates(c: Config, p: Producers, q: Queue, t: Tid)
    requires Good(c, p) && Heard(p, q) && OnRecord(p, q) && At(p, t).Checking? && !q.closed
    ensures var r := Move(p, t, Sending(At(p, t).event));
            Heard(r, q.(passed := q.passed + 1)) && OnRecord(r, q.(passed := q.passed + 1))
  {
    hide Speaks, CountFate, Good;
  }

  lemma ShutFates(p: Producers, q: Queue, w: Writer, t: Tid, a: Shut)
    requires Heard(p, q) && OnRecord(p, q) && ShutStep(p, q, w, t, a).Some?
    ensures var (r, q', _) := ShutStep(p, q, w, t, a).value; Heard(r, q') && OnRecord(r, q')
  {
    hide Speaks, CountFate, Senders;
  }

  lemma WriteFates(p: Producers, q: Queue, w: Writer, a: Write)
    requires Heard(p, q) && OnRecord(p, q) && WriteStep(q, w, a).Some?
    ensures Heard(p, WriteStep(q, w, a).value.0) && OnRecord(p, WriteStep(q, w, a).value.0)
  {
    hide Speaks, CountFate;
  }

  lemma StepFates(c: Config, s: State, a: Action, r: State)
    requires Good(c, s.p) && Traced(s.p, s.q) && Heard(s.p, s.q) && OnRecord(s.p, s.q) && Step(c, s, a) == Some(r)
    ensures Heard(r.p, r.q) && OnRecord(r.p, r.q)
  {
    hide Good, Traced, Heard, OnRecord, LocalStep, SendStep, ShutStep, WriteStep;
    match a {
      case OnSpan(t, local) => LocalFates(c, s.p, s.q, t, local, r.p);
      case OnSend(t, send) => SendFates(c, s.p, s.q, t, send, r.p, r.q);
      case OnClose(t, shut) => ShutFates(s.p, s.q, s.w, t, shut);
      case OnWriter(write) => WriteFates(s.p, s.q, s.w, write);
    }
  }

  lemma {:induction false} RunFates(c: Config, actions: seq<Action>, s: State)
    requires Run(c, Init(c), actions) == Some(s)
    ensures Heard(s.p, s.q) && OnRecord(s.p, s.q)
    decreases |actions|
  {
    if actions == [] {
    } else {
      var mid := Run(c, Init(c), actions[..|actions| - 1]).value;
      RunFates(c, actions[..|actions| - 1], mid);
      RunTraced(c, actions[..|actions| - 1], mid);
      hide Heard, OnRecord, Good, Traced, Step;
      StepFates(c, mid, actions[|actions| - 1], s);
    }
  }

  /** Each call that is over and had something to say was either queued or is on
      record as refused, dropped or given up, and never both. Nothing else is on
      record; dropped and lost count the record; only a closed tracer refuses. */
  lemma EveryCallHasOneFate(c: Config, s: State, id: ID, k: int)
    requires Reachable(c, s) && id in s.p.spans && -1 <= k < s.p.spans[id].settled && Speaks(s.p.spans[id].calls, k)
    ensures Reached(s.q, id, k) <==> !Missed(s.q, id, k)
    ensures s.q.dropped == CountFate(s.q.unsent, Dropped) && s.q.lost == CountFate(s.q.unsent, GivenUp)
    ensures forall i :: 0 <= i < |s.q.unsent| && s.q.unsent[i].fate.Refused? ==> s.q.closed
  {
    hide Run, Speaks, Reached, CountFate;
    var actions :| Run(c, Init(c), actions) == Some(s);
    RunFates(c, actions, s);
  }

  /** A span nobody is inside of has all its calls behind it. */
  lemma RestingSpansAreSettled(c: Config, s: State, id: ID)
    requires Reachable(c, s) && id in s.p.spans && s.p.spans[id].published && s.p.spans[id].holder == None
    ensures s.p.spans[id].settled == |s.p.spans[id].calls|
  {
    hide Run;
    var actions :| Run(c, Init(c), actions) == Some(s);
    RunTraced(c, actions, s);
    assert AtRest(s.p, id);
  }
}
