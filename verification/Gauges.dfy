/** Counting: the in-flight gauges and the fate of every send, exact at every
    step of every interleaving. */
module Gauges {
  import opened Events
  import opened Protocol
  import opened SpanLife

  /** Places a thread can be in that some counter has to allow for. */
  datatype Place = BetweenStartAdds | Opening | OpeningRoot | BeforeEndAdds | BetweenEndAdds | MidSend

  predicate IsIn(th: Thread, place: Place) {
    match place
    case BetweenStartAdds => th.Counted?
    case Opening => th.Entered? || th.Minted?
    case OpeningRoot => th.Minted? && th.root.RootCounted?
    case BeforeEndAdds => th.Ended?
    case BetweenEndAdds => th.Tallied?
    case MidSend => th.Sending?
  }

  ghost function ThreadsIn(threads: map<Tid, Thread>, place: Place): set<Tid> {
    set t | t in threads && IsIn(threads[t], place)
  }

  ghost function Tally(threads: map<Tid, Thread>, place: Place): nat {
    |ThreadsIn(threads, place)|
  }

  datatype Kind = OpenSpan | OpenRoot | EndedSpan

  predicate IsA(span: Span, kind: Kind) {
    match kind
    case OpenSpan => !span.ended
    case OpenRoot => !span.ended && span.parentID == 0
    case EndedSpan => span.ended
  }

  ghost function SpansOf(spans: map<ID, Span>, kind: Kind): set<ID> {
    set id | id in spans && IsA(spans[id], kind)
  }

  ghost function SpanTally(spans: map<ID, Span>, kind: Kind): nat {
    |SpansOf(spans, kind)|
  }

  /** Inside the End of a root, up to the moment it lowers tracesInFlight. */
  predicate IsRootEnd(p: Producers, t: Tid) {
    var at := At(p, t);
    (at.Ended? || at.Tallied? || at.Leaving?) && at.id in p.spans && p.spans[at.id].parentID == 0
  }

  ghost function RootEnds(p: Producers): set<Tid> {
    set t | t in p.threads && IsRootEnd(p, t)
  }

  lemma OneElement<T>(was: set<T>, now: set<T>, x: T)
    requires was - {x} == now - {x}
    ensures |now| == |was| - (if x in was then 1 else 0) + (if x in now then 1 else 0)
  {
    assert |was| == |was - {x}| + (if x in was then 1 else 0) by {
      assert was == (if x in was then (was - {x}) + {x} else was - {x});
    }
    assert |now| == |now - {x}| + (if x in now then 1 else 0) by {
      assert now == (if x in now then (now - {x}) + {x} else now - {x});
    }
  }

  lemma TallyMoves(threads: map<Tid, Thread>, t: Tid, to: Thread)
    ensures forall place :: Tally(threads[t := to], place) == Tally(threads, place)
              - (if t in threads && IsIn(threads[t], place) then 1 else 0) + (if IsIn(to, place) then 1 else 0)
  {
    forall place
      ensures Tally(threads[t := to], place) == Tally(threads, place)
                - (if t in threads && IsIn(threads[t], place) then 1 else 0) + (if IsIn(to, place) then 1 else 0)
    {
      var was, now := ThreadsIn(threads, place), ThreadsIn(threads[t := to], place);
      assert now - {t} == was - {t};
      OneElement(was, now, t);
    }
  }

  lemma SpanTallyMoves(spans: map<ID, Span>, id: ID, to: Span)
    ensures forall kind :: SpanTally(spans[id := to], kind) == SpanTally(spans, kind)
              - (if id in spans && IsA(spans[id], kind) then 1 else 0) + (if IsA(to, kind) then 1 else 0)
  {
    forall kind
      ensures SpanTally(spans[id := to], kind) == SpanTally(spans, kind)
                - (if id in spans && IsA(spans[id], kind) then 1 else 0) + (if IsA(to, kind) then 1 else 0)
    {
      var was, now := SpansOf(spans, kind), SpansOf(spans[id := to], kind);
      assert now - {id} == was - {id};
      OneElement(was, now, id);
    }
  }

  /** Thread t moved, and no span known to a running End changed parents. */
  ghost predicate Moved(p: Producers, r: Producers, t: Tid) {
    && t in r.threads && r.threads == p.threads[t := r.threads[t]]
    && (forall id :: id in p.spans ==> id in r.spans && r.spans[id].parentID == p.spans[id].parentID)
    && (forall u :: u in p.threads && (p.threads[u].Ended? || p.threads[u].Tallied? || p.threads[u].Leaving?) ==>
          p.threads[u].id in p.spans)
  }

  lemma RootEndsMove(p: Producers, r: Producers, t: Tid)
    requires Moved(p, r, t)
    ensures |RootEnds(r)| == |RootEnds(p)| - (if IsRootEnd(p, t) then 1 else 0) + (if IsRootEnd(r, t) then 1 else 0)
  {
    var was, now := RootEnds(p), RootEnds(r);
    forall u | u != t
      ensures u in now <==> u in was
    {
      assert At(r, u) == At(p, u);
    }
    assert now - {t} == was - {t};
    OneElement(was, now, t);
  }

  /** A span is open from its creation to the End that takes effect. Up to the
      threads between two steps of one Start or End, started counts the spans,
      completed the ended ones, spansInFlight the open ones and tracesInFlight the
      open roots; and every send that got past the closed check is dropped, lost,
      queued or still under way. */
  ghost predicate Balanced(p: Producers, q: Queue) {
    && p.started == Tally(p.threads, BetweenStartAdds) + Tally(p.threads, Opening)
                    + SpanTally(p.spans, OpenSpan) + SpanTally(p.spans, EndedSpan)
    && p.completed + Tally(p.threads, BeforeEndAdds) == SpanTally(p.spans, EndedSpan)
    && p.spansInFlight == Tally(p.threads, Opening) + SpanTally(p.spans, OpenSpan)
                          + Tally(p.threads, BeforeEndAdds) + Tally(p.threads, BetweenEndAdds)
    && p.tracesInFlight == Tally(p.threads, OpeningRoot) + SpanTally(p.spans, OpenRoot) + |RootEnds(p)|
    && q.passed == q.dropped + q.lost + |q.queued| + Tally(p.threads, MidSend)
  }

  /** What the invariant says about the place a thread is in. */
  lemma PlaceFacts(c: Config, p: Producers, t: Tid)
    requires Good(c, p)
    ensures At(p, t).Ended? || At(p, t).Tallied? ==> At(p, t).id in p.spans
    ensures At(p, t).Leaving? ==> At(p, t).id in p.spans && p.spans[At(p, t).id].parentID == 0
    ensures At(p, t).Minted? ==> At(p, t).id !in p.spans && (At(p, t).root.NotRoot? <==> At(p, t).parentID != 0)
    ensures At(p, t).Checking? || At(p, t).Sending? ==> At(p, t).event.spanID in p.spans
  {
    if t in p.threads { assert ThreadOK(p, t); }
  }

  lemma MovedFacts(c: Config, p: Producers, r: Producers, t: Tid)
    requires Good(c, p) && t in r.threads && r.threads == p.threads[t := r.threads[t]]
    requires forall id :: id in p.spans ==> id in r.spans && r.spans[id].parentID == p.spans[id].parentID
    ensures Moved(p, r, t)
  {
    hide Good;
    forall u | u in p.threads && (p.threads[u].Ended? || p.threads[u].Tallied? || p.threads[u].Leaving?)
      ensures p.threads[u].id in p.spans
    {
      PlaceFacts(c, p, u);
    }
  }

  lemma CounterBalanced(c: Config, p: Producers, q: Queue, t: Tid, a: Local, r: Producers)
    requires Balanced(p, q) && Good(c, p) && LocalStep(p, t, a) == Some(r)
    requires a in {EnterFlight, Mint, CountRoot, CountCompleted, LeaveFlight, LeaveTrace} || a.BeginStart? || a.Invoke?
    ensures Balanced(r, q)
  {
    hide Good, Tally, SpanTally, RootEnds;
    MovedFacts(c, p, r, t);
    PlaceFacts(c, p, t);
    TallyMoves(p.threads, t, r.threads[t]);
    RootEndsMove(p, r, t);
  }

  lemma CreateBalanced(c: Config, p: Producers, q: Queue, t: Tid, a: Local, r: Producers)
    requires Balanced(p, q) && Good(c, p) && LocalStep(p, t, a) == Some(r) && a.Create?
    ensures Balanced(r, q)
  {
    hide Good, Tally, SpanTally, RootEnds;
    PlaceFacts(c, p, t);
    MovedFacts(c, p, r, t);
    TallyMoves(p.threads, t, r.threads[t]);
    SpanTallyMoves(p.spans, At(p, t).id, r.spans[At(p, t).id]);
    RootEndsMove(p, r, t);
  }

  /** Thread t moves and span id changes, and only they; `ends` says whether the
      span ends here. */
  ghost predicate Shaped(p: Producers, r: Producers, t: Tid, id: ID, ends: bool) {
    && t in r.threads && r.threads == p.threads[t := r.threads[t]]
    && id in p.spans && id in r.spans && r.spans == p.spans[id := r.spans[id]]
    && r.spans[id].parentID == p.spans[id].parentID
    && r.started == p.started && r.completed == p.completed
    && r.spansInFlight == p.spansInFlight && r.tracesInFlight == p.tracesInFlight
    && (forall place :: !IsIn(At(p, t), place)) && !At(p, t).Leaving? && !r.threads[t].Leaving?
    && (if ends then r.threads[t] == Ended(id) && !p.spans[id].ended && r.spans[id].ended
        else (forall place :: !IsIn(r.threads[t], place)) && r.spans[id].ended == p.spans[id].ended)
  }

  lemma ShapedBalanced(c: Config, p: Producers, q: Queue, r: Producers, t: Tid, id: ID, ends: bool)
    requires Balanced(p, q) && Good(c, p) && Shaped(p, r, t, id, ends)
    ensures Balanced(r, q)
  {
    hide Good;
    MovedFacts(c, p, r, t);
    TallyMoves(p.threads, t, r.threads[t]);
    SpanTallyMoves(p.spans, id, r.spans[id]);
    RootEndsMove(p, r, t);
    assert !IsIn(At(p, t), BeforeEndAdds) && !IsIn(At(p, t), BetweenEndAdds);
    assert !ends ==> !IsIn(r.threads[t], BeforeEndAdds) && !IsIn(r.threads[t], BetweenEndAdds);
    assert IsRootEnd(r, t) <==> ends && p.spans[id].parentID == 0;
    hide Tally, SpanTally, RootEnds, IsRootEnd;
    assert t in p.threads ==> At(p, t) == p.threads[t];
  }

  lemma SpanStepShape(p: Producers, t: Tid, a: Local, r: Producers) returns (id: ID, ends: bool)
    requires LocalStep(p, t, a) == Some(r) && (a in {Publish, Lock, Act, Unlock} || a.Stamp?)
    ensures Shaped(p, r, t, id, ends)
  {
    id := At(p, t).id;
    ends := a.Act? && !p.spans[id].ended && At(p, t).call.EndSpan?;
  }

  lemma SpanStepBalanced(c: Config, p: Producers, q: Queue, t: Tid, a: Local, r: Producers)
    requires Balanced(p, q) && Good(c, p) && LocalStep(p, t, a) == Some(r)
    requires a in {Publish, Lock, Act, Unlock} || a.Stamp?
    ensures Balanced(r, q)
  {
    hide Good, Shaped, Balanced, LocalStep;
    var id, ends := SpanStepShape(p, t, a, r);
    ShapedBalanced(c, p, q, r, t, id, ends);
  }

  lemma OpenOrEnded(spans: map<ID, Span>)
    ensures SpanTally(spans, OpenSpan) + SpanTally(spans, EndedSpan) == |spans|
  {
    var open, ended := SpansOf(spans, OpenSpan), SpansOf(spans, EndedSpan);
    assert open !! ended && spans.Keys == open + ended;
    assert |spans| == |spans.Keys| == |open + ended|;
  }

  lemma LocalBalanced(c: Config, p: Producers, q: Queue, t: Tid, a: Local, r: Producers)
    requires Balanced(p, q) && Good(c, p) && LocalStep(p, t, a) == Some(r)
    ensures Balanced(r, q)
  {
    hide LocalStep, Good, Balanced;
    if a.Create? {
      CreateBalanced(c, p, q, t, a, r);
    } else if a in {Publish, Lock, Act, Unlock} || a.Stamp? {
      SpanStepBalanced(c, p, q, t, a, r);
    } else {
      CounterBalanced(c, p, q, t, a, r);
    }
  }

  lemma SettleTallies(c: Config, p: Producers, t: Tid, e: Event)
    requires Good(c, p) && e.spanID in p.spans && (At(p, t).Checking? || At(p, t).Sending?)
    ensures forall kind :: SpanTally(Settle(p, t, e).spans, kind) == SpanTally(p.spans, kind)
    ensures forall place :: Tally(Settle(p, t, e).threads, place) ==
              Tally(p.threads, place) - (if t in p.threads && IsIn(p.threads[t], place) then 1 else 0)
    ensures |RootEnds(Settle(p, t, e))| == |RootEnds(p)|
  {
    hide Good;
    var r := Settle(p, t, e);
    TallyMoves(p.threads, t, r.threads[t]);
    SpanTallyMoves(p.spans, e.spanID, r.spans[e.spanID]);
    MovedFacts(c, p, r, t);
    RootEndsMove(p, r, t);
  }

  lemma SendBalanced(c: Config, p: Producers, q: Queue, t: Tid, a: Send, r: Producers, q': Queue)
    requires Balanced(p, q) && Good(c, p) && SendStep(c, p, q, t, a) == Some((r, q'))
    ensures Balanced(r, q')
  {
    hide Good, Tally, SpanTally, RootEnds;
    PlaceFacts(c, p, t);
    if a.CheckClosed? && !q.closed {
      TallyMoves(p.threads, t, r.threads[t]);
      MovedFacts(c, p, r, t);
      RootEndsMove(p, r, t);
    } else {
      SettleTallies(c, p, t, At(p, t).event);
    }
  }

  lemma ShutBalanced(c: Config, p: Producers, q: Queue, w: Writer, t: Tid, a: Shut)
    requires Balanced(p, q) && Good(c, p) && ShutStep(p, q, w, t, a).Some?
    ensures Balanced(ShutStep(p, q, w, t, a).value.0, ShutStep(p, q, w, t, a).value.1)
  {
    hide Good, Tally, SpanTally, RootEnds;
    var r := ShutStep(p, q, w, t, a).value.0;
    TallyMoves(p.threads, t, r.threads[t]);
    MovedFacts(c, p, r, t);
    RootEndsMove(p, r, t);
  }

  lemma StepBalanced(c: Config, s: State, a: Action, r: State)
    requires Balanced(s.p, s.q) && Good(c, s.p) && Step(c, s, a) == Some(r)
    ensures Balanced(r.p, r.q)
  {
    hide LocalStep, SendStep, ShutStep, Good;
    match a {
      case OnSpan(t, local) => LocalBalanced(c, s.p, s.q, t, local, r.p);
      case OnSend(t, send) => SendBalanced(c, s.p, s.q, t, send, r.p, r.q);
      case OnClose(t, shut) => ShutBalanced(c, s.p, s.q, s.w, t, shut);
      case OnWriter(_) =>
    }
  }
}
