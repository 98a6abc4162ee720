/** What the writer does with the queue: nothing is reordered, repeated or
    skipped on its way to the sink, and shutdown ends in one last Flush and one
    Close whatever the sink does. */
module Delivery {
  import opened Events
  import opened Protocol

  /** Everything handed to WriteBatch, in order. */
  function Delivered(calls: seq<SinkCall>): seq<Event> {
    if calls == [] then []
    else
      var before := Delivered(calls[..|calls| - 1]);
      match calls[|calls| - 1]
      case WriteBatch(events, _) => before + events
      case _ => before
  }

  /** How many of those events were in batches the sink accepted. */
  function Accepted(calls: seq<SinkCall>): nat {
    if calls == [] then 0
    else
      var before := Accepted(calls[..|calls| - 1]);
      match calls[|calls| - 1]
      case WriteBatch(events, outcome) => if outcome.Ok? then before + |events| else before
      case _ => before
  }

  /** Failed sink calls: an error or panic of WriteBatch or Flush, a panic of Close. */
  function Failures(calls: seq<SinkCall>): nat {
    if calls == [] then 0
    else
      var before := Failures(calls[..|calls| - 1]);
      match calls[|calls| - 1]
      case Close(outcome) => if outcome.Panic? then before + 1 else before
      case call => if call.outcome.Ok? then before else before + 1
  }

  function InHand(stage: Stage): seq<Event> {
    match stage
    case Filling(batch, _) => batch
    case Recording(batch, _) => batch
    case Delivering(batch, _) => batch
    case _ => []
  }

  /** Only batches, each of 1 to 1024 events, and flushes. */
  ghost predicate Streaming(calls: seq<SinkCall>) {
    forall i :: 0 <= i < |calls| ==>
      calls[i].Flush? || (calls[i].WriteBatch? && 1 <= |calls[i].events| <= MAX_BATCH)
  }

  /** (WriteBatch | Flush)* Flush Close. */
  ghost predicate Complete(calls: seq<SinkCall>) {
    && |calls| >= 2 && calls[|calls| - 1].Close? && calls[|calls| - 2].Flush?
    && Streaming(calls[..|calls| - 1])
  }

  /** The error a finished sink's Close left for callers; a panic leaves none. */
  function CloseResult(calls: seq<SinkCall>): Option<string> {
    if calls != [] && calls[|calls| - 1].Close? && calls[|calls| - 1].outcome.Err?
    then Some(calls[|calls| - 1].outcome.error) else None
  }

  predicate InStopBranch(stage: Stage) {
    match stage
    case Selecting(final) => final
    case Filling(_, final) => final
    case Recording(_, final) => final
    case Delivering(_, final) => final
    case Flushing(final) => final
    case _ => true
  }

  predicate PastDrain(stage: Stage) {
    (stage.Flushing? && stage.final) || stage.ClosingSink? || stage.Exiting? || stage.Exited?
  }

  ghost predicate Flows(c: Config, q: Queue, w: Writer) {
    && q.queued == Delivered(w.calls) + InHand(w.stage) + q.buffered
    && |q.buffered| <= c.capacity
    && (w.stage.Filling? || w.stage.Recording? || w.stage.Delivering? ==> 1 <= |InHand(w.stage)| <= MAX_BATCH)
    && w.recorded == Delivered(w.calls) + (if w.stage.Delivering? then w.stage.batch else [])
    && w.written == Accepted(w.calls) && w.written + w.failed == |Delivered(w.calls)|
    && w.writeErrors == Failures(w.calls)
    && (if w.stage.Exiting? || w.stage.Exited? then Complete(w.calls) else Streaming(w.calls))
    && (w.stage.ClosingSink? ==> w.calls != [] && w.calls[|w.calls| - 1].Flush?)
    && w.closeErr == CloseResult(w.calls)
    && (InStopBranch(w.stage) ==> q.stop) && (q.done <==> w.stage.Exited?)
    && q.cut <= |q.queued|
    && (PastDrain(w.stage) ==> q.cut <= |Delivered(w.calls)|)
  }

  lemma Snoc(calls: seq<SinkCall>, call: SinkCall)
    ensures Delivered(calls + [call]) == Delivered(calls) + (if call.WriteBatch? then call.events else [])
    ensures Accepted(calls + [call]) ==
            Accepted(calls) + (if call.WriteBatch? && call.outcome.Ok? then |call.events| else 0)
    ensures Failures(calls + [call]) ==
            Failures(calls) + (if (if call.Close? then call.outcome.Panic? else !call.outcome.Ok?) then 1 else 0)
  {
    assert (calls + [call])[..|calls|] == calls;
  }

  lemma ReceiveFlows(c: Config, q: Queue, w: Writer, a: Write, q': Queue, w': Writer)
    requires Flows(c, q, w) && WriteStep(q, w, a) == Some((q', w')) && (a.Receive? || a.More?)
    ensures Flows(c, q', w')
  {
    hide Delivered, Accepted, Failures, Streaming, Complete, CloseResult;
    assert q.buffered == [q.buffered[0]] + q.buffered[1..];
    assert InHand(w'.stage) == InHand(w.stage) + [q.buffered[0]];
  }

  lemma QuietFlows(c: Config, q: Queue, w: Writer, a: Write, q': Queue, w': Writer)
    requires Flows(c, q, w) && WriteStep(q, w, a) == Some((q', w'))
    requires a in {Enough, Record, Tick, SeeStop, Drained, Exit}
    ensures Flows(c, q', w')
  {
    hide Delivered, Accepted, Failures, Streaming, Complete, CloseResult;
    assert a.Drained? ==> q.queued == Delivered(w.calls);
  }

  lemma CallFlows(c: Config, q: Queue, w: Writer, a: Write, q': Queue, w': Writer, call: SinkCall)
    requires Flows(c, q, w) && WriteStep(q, w, a) == Some((q', w')) && w'.calls == w.calls + [call]
    requires a.Deliver? || a.FlushSink? || a.CloseSink?
    ensures Flows(c, q', w')
  {
    Snoc(w.calls, call);
    hide Delivered, Accepted, Failures;
    assert w'.calls[..|w.calls|] == w.calls;
    if a.Deliver? {
      assert Delivered(w'.calls) == Delivered(w.calls) + w.stage.batch;
    }
  }

  lemma WriterFlows(c: Config, q: Queue, w: Writer, a: Write, q': Queue, w': Writer)
    requires Flows(c, q, w) && WriteStep(q, w, a) == Some((q', w'))
    ensures Flows(c, q', w')
  {
    match a {
      case Receive => ReceiveFlows(c, q, w, a, q', w');
      case More => ReceiveFlows(c, q, w, a, q', w');
      case Deliver(outcome) => CallFlows(c, q, w, a, q', w', WriteBatch(w.stage.batch, outcome));
      case FlushSink(outcome) => CallFlows(c, q, w, a, q', w', Flush(outcome));
      case CloseSink(outcome) => CallFlows(c, q, w, a, q', w', Close(outcome));
      case _ => QuietFlows(c, q, w, a, q', w');
    }
  }

  // ----- the shutdown handshake --------------------------------------------------

  /** closed comes before stop; only the winner of the swap closes stop, once.
      From the swap on nothing new passes the closed check, so whatever is queued
      late was queued by a send that was already under way, each at most once. */
  ghost predicate Handshake(p: Producers, q: Queue) {
    && |q.carriers| == |q.queued|
    && (q.stop ==> q.closed)
    && (forall t :: t in p.threads && p.threads[t].Stopping? ==> q.closed && !q.stop)
    && (forall t, u :: t in p.threads && u in p.threads && p.threads[t].Stopping? && p.threads[u].Stopping? ==> t == u)
    && q.cut <= |q.queued|
    && (!q.closed ==> q.lost == 0)
    && (q.closed ==>
        && (q.straddling == map[] ==> q.lost == 0)
        && (forall t :: t in p.threads && p.threads[t].Sending? ==>
              && t in q.straddling && q.straddling[t] == p.threads[t].event
              && forall i :: q.cut <= i < |q.queued| ==> q.carriers[i] != t)
        && (forall i :: q.cut <= i < |q.queued| ==>
              q.carriers[i] in q.straddling && q.straddling[q.carriers[i]] == q.queued[i])
        && (forall i, j :: q.cut <= i < j < |q.queued| ==> q.carriers[i] != q.carriers[j]))
  }

  /** Thread t, alone, moved on to something other than a send or a won Close. */
  ghost predicate MovesQuietly(p: Producers, r: Producers, t: Tid) {
    t in r.threads && r.threads == p.threads[t := r.threads[t]] && !r.threads[t].Sending? && !r.threads[t].Stopping?
  }

  lemma LocalMoves(p: Producers, t: Tid, a: Local, r: Producers)
    requires LocalStep(p, t, a) == Some(r)
    ensures MovesQuietly(p, r, t)
  {
  }

  /** Two queues that differ in counters and buffer only. */
  ghost predicate SameHandshake(q: Queue, q': Queue) {
    && q'.closed == q.closed && q'.stop == q.stop && q'.queued == q.queued && q'.carriers == q.carriers
    && q'.cut == q.cut && q'.straddling == q.straddling && q'.lost == q.lost
  }

  lemma QuietHandshake(p: Producers, q: Queue, r: Producers, q': Queue, t: Tid)
    requires Handshake(p, q) && MovesQuietly(p, r, t) && SameHandshake(q, q')
    ensures Handshake(r, q')
  {
  }

  lemma SendHandshake(c: Config, p: Producers, q: Queue, t: Tid, a: Send, r: Producers, q': Queue)
    requires Handshake(p, q) && SendStep(c, p, q, t, a) == Some((r, q')) && At(p, t).event.spanID in p.spans
    ensures Handshake(r, q')
  {
    if a.Enqueue? {
      EnqueueHandshake(c, p, q, t, r, q');
    } else if a.CheckClosed? && !q.closed {
    } else if a.GiveUp? {
      assert MovesQuietly(p, r, t) && t in q.straddling;
      QuietHandshake(p, q.(lost := 0), r, q'.(lost := 0), t);
    } else {
      assert MovesQuietly(p, r, t);
      QuietHandshake(p, q, r, q', t);
    }
  }

  lemma EnqueueHandshake(c: Config, p: Producers, q: Queue, t: Tid, r: Producers, q': Queue)
    requires Handshake(p, q) && SendStep(c, p, q, t, Enqueue) == Some((r, q'))
    ensures Handshake(r, q')
  {
    var e, n := At(p, t).event, |q.queued|;
    assert q'.queued[..n] == q.queued && q'.carriers[..n] == q.carriers;
    assert forall i :: 0 <= i < n ==> q'.queued[i] == q.queued[i] && q'.carriers[i] == q.carriers[i];
    assert q'.queued[n] == e && q'.carriers[n] == t;
    assert !r.threads[t].Sending? && !r.threads[t].Stopping?;
    assert forall u :: u in r.threads && u != t ==> u in p.threads && r.threads[u] == p.threads[u];
  }

  lemma ShutHandshake(p: Producers, q: Queue, w: Writer, t: Tid, a: Shut)
    requires Handshake(p, q) && ShutStep(p, q, w, t, a).Some?
    ensures Handshake(ShutStep(p, q, w, t, a).value.0, ShutStep(p, q, w, t, a).value.1)
  {
    var (r, q', _) := ShutStep(p, q, w, t, a).value;
    if !a.Swap? && !a.CloseStop? {
      QuietHandshake(p, q, r, q', t);
    }
  }

  lemma StepHandshake(c: Config, s: State, a: Action, r: State)
    requires Handshake(s.p, s.q) && Step(c, s, a) == Some(r)
    requires a.OnSend? && (At(s.p, a.t).Checking? || At(s.p, a.t).Sending?) ==> At(s.p, a.t).event.spanID in s.p.spans
    ensures Handshake(r.p, r.q)
  {
    hide LocalStep, Handshake, Settle, Senders;
    match a {
      case OnSpan(t, local) => LocalMoves(s.p, t, local, r.p); QuietHandshake(s.p, s.q, r.p, r.q, t);
      case OnSend(t, send) => hide WriteStep, ShutStep; SendHandshake(c, s.p, s.q, t, send, r.p, r.q);
      case OnClose(t, shut) => hide WriteStep, SendStep; ShutHandshake(s.p, s.q, s.w, t, shut);
      case OnWriter(write) => WriteHandshake(s.p, s.q, s.w, write);
    }
  }

  lemma WriteHandshake(p: Producers, q: Queue, w: Writer, a: Write)
    requires Handshake(p, q) && WriteStep(q, w, a).Some?
    ensures Handshake(p, WriteStep(q, w, a).value.0)
  {
  }

  lemma StepFlows(c: Config, s: State, a: Action, r: State)
    requires Flows(c, s.q, s.w) && Handshake(s.p, s.q) && Step(c, s, a) == Some(r)
    ensures Flows(c, r.q, r.w)
  {
    match a {
      case OnSpan(_, _) => hide *;
        assert r.q == s.q;
      case OnSend(t, send) => SendFlows(c, s.p, s.q, s.w, t, send, r.p, r.q);
      case OnClose(t, shut) => ShutFlows(c, s.p, s.q, s.w, t, shut);
      case OnWriter(write) => WriterFlows(c, s.q, s.w, write, r.q, r.w);
    }
  }

  lemma SendFlows(c: Config, p: Producers, q: Queue, w: Writer, t: Tid, a: Send, r: Producers, q': Queue)
    requires Flows(c, q, w) && SendStep(c, p, q, t, a) == Some((r, q'))
    ensures Flows(c, q', w)
  {
    hide Delivered, Accepted, Failures, Streaming, Complete, CloseResult, Settle, InHand;
  }

  lemma ShutFlows(c: Config, p: Producers, q: Queue, w: Writer, t: Tid, a: Shut)
    requires Flows(c, q, w) && Handshake(p, q) && ShutStep(p, q, w, t, a).Some?
    ensures Flows(c, ShutStep(p, q, w, t, a).value.1, w)
  {
    hide Delivered, Accepted, Failures, Streaming, Complete, CloseResult, Senders;
  }
}
