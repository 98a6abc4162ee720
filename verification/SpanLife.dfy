/** What every step keeps about threads and spans: mutual exclusion, the state a
    span's lock-ordered calls put it in, and the shape of the trace forest. */
module SpanLife {
  import opened Events
  import opened Protocol

  // ----- the sequential meaning of a span's calls -----------------------------

  ghost predicate HasEnd(calls: seq<Call>) {
    exists i :: 0 <= i < |calls| && calls[i].EndSpan?
  }

  /** No End among the first n calls. */
  ghost predicate OpenFor(calls: seq<Call>, n: int) {
    forall i :: 0 <= i < n && i < |calls| ==> !calls[i].EndSpan?
  }

  /** The status and message the calls leave when each takes its turn. */
  ghost function Verdict(calls: seq<Call>): (Status, string) {
    if calls == [] then (OK, "")
    else
      var before, last := calls[..|calls| - 1], calls[|calls| - 1];
      if last.Fail? && !HasEnd(before) then (last.status, last.message) else Verdict(before)
  }

  /** Calls that are no Fail, or come behind an End, leave the verdict alone. */
  lemma {:induction false} VoidTail(calls: seq<Call>, n: nat)
    requires n <= |calls| && forall i :: n <= i < |calls| ==> !calls[i].Fail? || HasEnd(calls[..i])
    ensures Verdict(calls) == Verdict(calls[..n])
    decreases |calls|
  {
    hide HasEnd;
    if n == |calls| {
      assert calls[..n] == calls;
    } else {
      var before := calls[..|calls| - 1];
      assert forall i :: n <= i <= |before| ==> before[..i] == calls[..i];
      VoidTail(before, n);
    }
  }

  /** The last Fail before the first End wins, and calls after that End are void. */
  lemma VerdictIsLastFail(calls: seq<Call>, end: nat)
    requires end <= |calls| && OpenFor(calls, end) && (end < |calls| ==> calls[end].EndSpan?)
    ensures (forall i :: 0 <= i < end ==> !calls[i].Fail?) ==> Verdict(calls) == (OK, "")
    ensures forall k :: 0 <= k < end && calls[k].Fail? && (forall i :: k < i < end ==> !calls[i].Fail?)
              ==> Verdict(calls) == (calls[k].status, calls[k].message)
  {
    forall i | end < i < |calls|
      ensures HasEnd(calls[..i])
    {
      assert calls[..i][end].EndSpan?;
    }
    if forall i :: 0 <= i < end ==> !calls[i].Fail? {
      VoidTail(calls, 0);
    }
    forall k | 0 <= k < end && calls[k].Fail? && forall i :: k < i < end ==> !calls[i].Fail?
      ensures Verdict(calls) == (calls[k].status, calls[k].message)
    {
      VoidTail(calls, k + 1);
      assert calls[..k + 1][..k] == calls[..k] && !HasEnd(calls[..k]);
    }
  }

  // ----- the invariant ---------------------------------------------------------

  /** A span agrees with its calls, its clock readings are in order, and its
      parent, unless another tracer minted it, is an older span of its trace. */
  ghost predicate SpanOK(p: Producers, anchor: int64, id: ID) {
    id in p.spans &&
    var span := p.spans[id];
    && 1 <= id <= p.ids
    && anchor <= span.startNS <= p.clock
    && (span.ended <==> HasEnd(span.calls))
    && (span.status, span.message) == Verdict(span.calls)
    && -1 <= span.settled <= |span.calls|
    && (span.endNS.Some? ==> span.ended && span.startNS <= span.endNS.value <= p.clock)
    && (span.parentID == 0 ==> span.traceID == id && !span.foreign)
    && (span.parentID != 0 && !span.foreign ==>
        && span.parentID in p.spans && span.parentID < id
        && p.spans[span.parentID].traceID == span.traceID)
  }

  /** A thread inside a span's mutex holds it; the span's latest call is its own
      and still owes (or no longer owes) an event. */
  ghost predicate Holds(p: Producers, t: Tid, id: ID, owing: bool) {
    && id in p.spans && p.spans[id].published && p.spans[id].holder == Some(t)
    && p.spans[id].settled == |p.spans[id].calls| - (if owing then 1 else 0)
  }

  /** The End in progress is the call that ended the span. */
  ghost predicate Ending(p: Producers, t: Tid, id: ID) {
    && Holds(p, t, id, true)
    && var span := p.spans[id];
    && span.calls != [] && span.calls[|span.calls| - 1].EndSpan? && OpenFor(span.calls, |span.calls| - 1)
  }

  /** The event a thread is sending is the one its span's latest call makes. */
  ghost predicate Offers(p: Producers, t: Tid, e: Event) {
    && e.spanID in p.spans
    && var span := p.spans[e.spanID];
    && match e
       case Start(id, _, _, _, _, _) =>
         !span.published && span.creator == t && span.settled == -1 && span.calls == [] && e == StartEvent(id, span)
       case Attrs(id, trace, attrs) =>
         && Holds(p, t, id, true) && !span.ended && trace == span.traceID
         && span.calls != [] && span.calls[|span.calls| - 1] == SetAttrs(attrs)
       case End(id, _, _, _, _, endNS, _, _) =>
         Ending(p, t, id) && span.endNS == Some(endNS) && e == EndEvent(id, span, endNS)
       case Other(_) => false
  }

  ghost predicate ThreadOK(p: Producers, t: Tid) {
    match At(p, t)
    case Counted(ctx, _, _) => ContextUsable(p, ctx)
    case Entered(ctx, _, _) => ContextUsable(p, ctx)
    case Minted(id, trace, parent, foreign, _, _, root) =>
      && 1 <= id <= p.ids && id !in p.spans
      && (root.NotRoot? <==> parent != 0)
      && (parent == 0 ==> trace == id && !foreign)
      && (parent != 0 && !foreign ==> parent in p.spans && parent < id && p.spans[parent].traceID == trace)
    case Returning(id) =>
      && id in p.spans && !p.spans[id].published && p.spans[id].creator == t
      && p.spans[id].settled == 0 == |p.spans[id].calls|
    case Waiting(id, _) => id in p.spans && p.spans[id].published
    case Locked(id, _) => Holds(p, t, id, false)
    case Ended(id) => Ending(p, t, id) && p.spans[id].endNS == None
    case Tallied(id) => Ending(p, t, id) && p.spans[id].endNS == None
    case Leaving(id) => Ending(p, t, id) && p.spans[id].endNS == None && p.spans[id].parentID == 0
    case Stamping(id) => Ending(p, t, id) && p.spans[id].endNS == None
    case Releasing(id) => Holds(p, t, id, false)
    case Checking(e) => Offers(p, t, e)
    case Sending(e) => Offers(p, t, e)
    case _ => true
  }

  /** Between calls a span owes nothing. */
  ghost predicate AtRest(p: Producers, id: ID) {
    && id in p.spans
    && (p.spans[id].published && p.spans[id].holder == None ==> p.spans[id].settled == |p.spans[id].calls|)
  }

  ghost predicate Good(c: Config, p: Producers) {
    && c.anchor <= p.clock
    && (forall id :: id in p.spans ==> SpanOK(p, c.anchor, id) && AtRest(p, id))
    && (forall t :: t in p.threads ==> ThreadOK(p, t))
    && (forall t, u :: t in p.threads && u in p.threads && t != u && p.threads[t].Minted? && p.threads[u].Minted?
          ==> p.threads[t].id != p.threads[u].id)
  }

  // ----- how a span may change -------------------------------------------------

  /** Identity is fixed, calls only accumulate, and a stamped verdict is final. */
  ghost predicate Evolves(was: Span, now: Span) {
    && now.traceID == was.traceID && now.parentID == was.parentID && now.name == was.name && now.startNS == was.startNS
    && now.attrs == was.attrs && now.creator == was.creator && now.foreign == was.foreign
    && was.calls <= now.calls && was.settled <= now.settled
    && (was.published ==> now.published)
    && (was.endNS.Some? ==> now.endNS == was.endNS && now.status == was.status && now.message == was.message)
  }

  ghost predicate AllEvolve(p: Producers, r: Producers) {
    forall id :: id in p.spans ==> id in r.spans && Evolves(p.spans[id], r.spans[id])
  }

  /** Thread t may change this span now. */
  ghost predicate Exclusive(p: Producers, t: Tid, id: ID) {
    id in p.spans && (if p.spans[id].published then p.spans[id].holder in {None, Some(t)} else p.spans[id].creator == t)
  }

  // ----- every step keeps it ---------------------------------------------------

  /** What thread t does to one span it has to itself, and to nothing else. */
  ghost predicate Touches(p: Producers, r: Producers, t: Tid, id: ID) {
    && t in r.threads && (forall u :: u != t ==> (u in r.threads <==> u in p.threads) && At(r, u) == At(p, u))
    && id in r.spans
    && (if id in p.spans then Exclusive(p, t, id) && Evolves(p.spans[id], r.spans[id])
        else At(p, t).Minted? && At(p, t).id == id)
    && (forall k :: k != id ==> (k in r.spans <==> k in p.spans) && (k in p.spans ==> r.spans[k] == p.spans[k]))
    && p.ids <= r.ids && p.clock <= r.clock
  }

  lemma ThreadKept(p: Producers, r: Producers, t: Tid, id: ID, u: Tid)
    requires Touches(p, r, t, id) && u != t && ThreadOK(p, u)
    requires At(p, u).Minted? ==> At(p, u).id == id ==> id in p.spans
    ensures ThreadOK(r, u)
  {
    hide SpanOK, AtRest;
  }

  lemma SpanKept(c: Config, p: Producers, r: Producers, t: Tid, id: ID, k: ID)
    requires Touches(p, r, t, id) && k != id && SpanOK(p, c.anchor, k) && AtRest(p, k)
    ensures SpanOK(r, c.anchor, k) && AtRest(r, k)
  {
    hide ThreadOK;
  }

  /** The part of a step thread t cannot reach: every other thread, every other
      span, whatever t did to the one span it had to itself. */
  lemma OthersKept(c: Config, p: Producers, r: Producers, t: Tid, id: ID)
    requires Good(c, p) && Touches(p, r, t, id)
    ensures forall u :: u in r.threads && u != t ==> ThreadOK(r, u)
    ensures forall k :: k in r.spans && k != id ==> SpanOK(r, c.anchor, k) && AtRest(r, k)
  {
    hide ThreadOK, SpanOK, AtRest, Exclusive, Evolves;
    forall u | u in r.threads && u != t
      ensures ThreadOK(r, u)
    {
      assert u in p.threads && At(p, u) == At(r, u);
      ThreadKept(p, r, t, id, u);
    }
    forall k | k in r.spans && k != id
      ensures SpanOK(r, c.anchor, k) && AtRest(r, k)
    {
      SpanKept(c, p, r, t, id, k);
    }
  }

  /** The same for steps that leave every span alone. */
  ghost predicate TouchesNoSpan(p: Producers, r: Producers, t: Tid) {
    && t in r.threads && (forall u :: u != t ==> (u in r.threads <==> u in p.threads) && At(r, u) == At(p, u))
    && r.spans == p.spans && p.ids <= r.ids && p.clock == r.clock
  }

  lemma OtherThreadsKept(c: Config, p: Producers, r: Producers, t: Tid)
    requires Good(c, p) && TouchesNoSpan(p, r, t)
    ensures forall u :: u in r.threads && u != t ==> ThreadOK(r, u)
    ensures forall k :: k in r.spans ==> SpanOK(r, c.anchor, k) && AtRest(r, k)
    ensures AllEvolve(p, r)
  {
    forall u | u in r.threads && u != t
      ensures ThreadOK(r, u)
    {
      assert u in p.threads && ThreadOK(p, u);
      UntouchedThreadKept(p, r, t, u);
    }
    forall k | k in r.spans
      ensures SpanOK(r, c.anchor, k) && AtRest(r, k)
    {
      hide ThreadOK;
      assert SpanOK(p, c.anchor, k) && AtRest(p, k);
    }
  }

  lemma UntouchedThreadKept(p: Producers, r: Producers, t: Tid, u: Tid)
    requires TouchesNoSpan(p, r, t) && u != t && ThreadOK(p, u)
    ensures ThreadOK(r, u)
  {
  }

  /** Assembling the invariant after a step of t on span id. */
  lemma Reassembled(c: Config, p: Producers, r: Producers, t: Tid, id: ID)
    requires Good(c, p) && Touches(p, r, t, id)
    requires SpanOK(r, c.anchor, id) && AtRest(r, id) && ThreadOK(r, t) && !At(r, t).Minted?
    ensures Good(c, r) && AllEvolve(p, r)
  {
    OthersKept(c, p, r, t, id);
    hide ThreadOK, SpanOK, AtRest, Exclusive;
    forall k | k in p.spans
      ensures k in r.spans && Evolves(p.spans[k], r.spans[k])
    {
      assert k != id ==> r.spans[k] == p.spans[k];
    }
  }

  lemma VerdictStep(calls: seq<Call>, call: Call)
    ensures HasEnd(calls + [call]) <==> HasEnd(calls) || call.EndSpan?
    ensures Verdict(calls + [call]) ==
            if call.Fail? && !HasEnd(calls) then (call.status, call.message) else Verdict(calls)
    ensures OpenFor(calls + [call], |calls|) <==> !HasEnd(calls)
  {
    assert (calls + [call])[..|calls|] == calls;
    if HasEnd(calls) {
      var i :| 0 <= i < |calls| && calls[i].EndSpan?;
      assert (calls + [call])[i].EndSpan?;
    } else if call.EndSpan? {
      assert (calls + [call])[|calls|].EndSpan?;
    }
  }

  /** Facts about the one thread and the one span a step involves. */
  lemma OwnFacts(c: Config, p: Producers, t: Tid, id: ID)
    requires Good(c, p)
    ensures t in p.threads ==> ThreadOK(p, t)
    ensures id in p.spans ==> SpanOK(p, c.anchor, id) && AtRest(p, id)
    ensures c.anchor <= p.clock
  {
    hide ThreadOK, SpanOK, AtRest;
  }

  lemma ActKeeps(c: Config, p: Producers, t: Tid, r: Producers)
    requires Good(c, p) && LocalStep(p, t, Act) == Some(r)
    ensures Good(c, r) && AllEvolve(p, r)
  {
    var span := p.spans[At(p, t).id];
    if span.ended || At(p, t).call.Fail? {
      SilentActKeeps(c, p, t, r);
    } else {
      SpeakingActKeeps(c, p, t, r);
    }
  }

  lemma SilentActKeeps(c: Config, p: Producers, t: Tid, r: Producers)
    requires Good(c, p) && LocalStep(p, t, Act) == Some(r)
    requires p.spans[At(p, t).id].ended || At(p, t).call.Fail?
    ensures Good(c, r) && AllEvolve(p, r)
  {
    hide Good, Verdict, HasEnd;
    var id, call := At(p, t).id, At(p, t).call;
    OwnFacts(c, p, t, id);
    VerdictStep(p.spans[id].calls, call);
    Reassembled(c, p, r, t, id);
  }

  lemma SpeakingActKeeps(c: Config, p: Producers, t: Tid, r: Producers)
    requires Good(c, p) && LocalStep(p, t, Act) == Some(r)
    requires !p.spans[At(p, t).id].ended && !At(p, t).call.Fail?
    ensures Good(c, r) && AllEvolve(p, r)
  {
    hide Good, Verdict, HasEnd;
    var id, call := At(p, t).id, At(p, t).call;
    OwnFacts(c, p, t, id);
    VerdictStep(p.spans[id].calls, call);
    Reassembled(c, p, r, t, id);
  }

  lemma HandoverKeeps(c: Config, p: Producers, t: Tid, a: Local, r: Producers)
    requires Good(c, p) && LocalStep(p, t, a) == Some(r)
    requires a in {Publish, Lock, Unlock}
    ensures Good(c, r) && AllEvolve(p, r)
  {
    hide Good, Verdict, HasEnd;
    OwnFacts(c, p, t, At(p, t).id);
    Reassembled(c, p, r, t, At(p, t).id);
  }

  lemma LeavingKeeps(c: Config, p: Producers, t: Tid, a: Local, r: Producers)
    requires Good(c, p) && LocalStep(p, t, a) == Some(r)
    requires a in {LeaveFlight, LeaveTrace}
    ensures Good(c, r) && AllEvolve(p, r)
  {
    hide Good, Verdict;
    OwnFacts(c, p, t, At(p, t).id);
    Reassembled(c, p, r, t, At(p, t).id);
  }

  lemma StampKeeps(c: Config, p: Producers, t: Tid, a: Local, r: Producers)
    requires Good(c, p) && LocalStep(p, t, a) == Some(r) && a.Stamp?
    ensures Good(c, r) && AllEvolve(p, r)
  {
    hide Good, Verdict;
    OwnFacts(c, p, t, At(p, t).id);
    Reassembled(c, p, r, t, At(p, t).id);
  }

  lemma CreateKeeps(c: Config, p: Producers, t: Tid, a: Local, r: Producers)
    requires Good(c, p) && a.Create? && LocalStep(p, t, a) == Some(r)
    ensures Good(c, r) && AllEvolve(p, r)
  {
    hide Good;
    OwnFacts(c, p, t, At(p, t).id);
    Reassembled(c, p, r, t, At(p, t).id);
  }

  lemma MintKeeps(c: Config, p: Producers, t: Tid, r: Producers)
    requires Good(c, p) && LocalStep(p, t, Mint) == Some(r)
    ensures Good(c, r)
  {
    OtherThreadsKept(c, p, r, t);
    assert ThreadOK(p, t);
    assert forall k :: k in p.spans ==> SpanOK(p, c.anchor, k);
    assert ThreadOK(r, t);
    forall u | u in r.threads && u != t && r.threads[u].Minted?
      ensures r.threads[u].id != r.threads[t].id
    {
      assert ThreadOK(p, u);
    }
  }

  lemma NoSpanKeeps(c: Config, p: Producers, t: Tid, r: Producers)
    requires Good(c, p) && TouchesNoSpan(p, r, t) && ThreadOK(r, t)
    requires At(r, t).Minted? ==> At(p, t).Minted? && At(p, t).id == At(r, t).id
    ensures Good(c, r) && AllEvolve(p, r)
  {
    OtherThreadsKept(c, p, r, t);
    hide ThreadOK, SpanOK, AtRest, Evolves;
  }

  lemma LocalKeeps(c: Config, p: Producers, t: Tid, a: Local, r: Producers)
    requires Good(c, p) && LocalStep(p, t, a) == Some(r)
    ensures Good(c, r) && AllEvolve(p, r)
  {
    match a {
      case Act => ActKeeps(c, p, t, r);
      case Mint => MintKeeps(c, p, t, r); OtherThreadsKept(c, p, r, t);
      case Create(_) => CreateKeeps(c, p, t, a, r);
      case Publish => HandoverKeeps(c, p, t, a, r);
      case Lock => HandoverKeeps(c, p, t, a, r);
      case LeaveFlight => LeavingKeeps(c, p, t, a, r);
      case LeaveTrace => LeavingKeeps(c, p, t, a, r);
      case Stamp(_) => StampKeeps(c, p, t, a, r);
      case Unlock => HandoverKeeps(c, p, t, a, r);
      case _ => CounterKeeps(c, p, t, a, r);
    }
  }

  lemma CounterKeeps(c: Config, p: Producers, t: Tid, a: Local, r: Producers)
    requires Good(c, p) && LocalStep(p, t, a) == Some(r)
    requires a in {EnterFlight, CountRoot, CountCompleted} || a.BeginStart? || a.Invoke?
    ensures Good(c, r) && AllEvolve(p, r)
  {
    hide Good;
    OwnFacts(c, p, t, 0);
    NoSpanKeeps(c, p, t, r);
  }

  lemma SettleKeeps(c: Config, p: Producers, t: Tid)
    requires Good(c, p) && (At(p, t).Checking? || At(p, t).Sending?)
    ensures Good(c, Settle(p, t, At(p, t).event)) && AllEvolve(p, Settle(p, t, At(p, t).event))
  {
    hide Good, Verdict, HasEnd;
    var id := At(p, t).event.spanID;
    OwnFacts(c, p, t, id);
    Reassembled(c, p, Settle(p, t, At(p, t).event), t, id);
  }

  lemma PassKeeps(c: Config, p: Producers, t: Tid)
    requires Good(c, p) && At(p, t).Checking?
    ensures var r := Move(p, t, Sending(At(p, t).event)); Good(c, r) && AllEvolve(p, r)
  {
    hide Good, Evolves, Verdict, HasEnd;
    OwnFacts(c, p, t, 0);
    NoSpanKeeps(c, p, t, Move(p, t, Sending(At(p, t).event)));
  }

  lemma SendKeeps(c: Config, p: Producers, q: Queue, t: Tid, a: Send, r: Producers, q': Queue)
    requires Good(c, p) && SendStep(c, p, q, t, a) == Some((r, q'))
    ensures Good(c, r) && AllEvolve(p, r)
  {
    hide Good, AllEvolve, Settle;
    if a.CheckClosed? && !q.closed {
      PassKeeps(c, p, t);
    } else {
      SettleKeeps(c, p, t);
    }
  }

  lemma ShutKeeps(c: Config, p: Producers, q: Queue, w: Writer, t: Tid, a: Shut)
    requires Good(c, p) && ShutStep(p, q, w, t, a).Some?
    ensures Good(c, ShutStep(p, q, w, t, a).value.0) && AllEvolve(p, ShutStep(p, q, w, t, a).value.0)
  {
    hide Good;
    NoSpanKeeps(c, p, t, ShutStep(p, q, w, t, a).value.0);
  }

  lemma StepKeepsGood(c: Config, s: State, a: Action, r: State)
    requires Good(c, s.p) && Step(c, s, a) == Some(r)
    ensures Good(c, r.p) && AllEvolve(s.p, r.p)
  {
    match a {
      case OnSpan(t, local) => LocalKeeps(c, s.p, t, local, r.p);
      case OnSend(t, send) => SendKeeps(c, s.p, s.q, t, send, r.p, r.q);
      case OnClose(t, shut) => ShutKeeps(c, s.p, s.q, s.w, t, shut);
      case OnWriter(_) =>
    }
  }
}
