/** Close and the file: what the tables hold once the writer is gone, and exactly
    when that is everything. The sink is one that commits on Flush and drops its
    window when a Flush fails. */
module FinishedFile {
  import opened Events
  import opened Tables
  import opened Protocol
  import opened SpanLife
  import opened EventOrder
  import opened Delivery
  import opened Gauges
  import opened Reach
  import opened Shutdown

  // ----- from deliveries to commits ------------------------------------------------

  /** Events dropped because the Flush that should have committed them failed. */
  function LostToFlush(calls: seq<SinkCall>): nat {
    if calls == [] then 0
    else
      var before, call := calls[..|calls| - 1], calls[|calls| - 1];
      LostToFlush(before) + (if call.Flush? && !call.outcome.Ok? then |Windows(before).1| else 0)
  }

  lemma {:induction false} DeliveriesAreAccountedFor(calls: seq<SinkCall>)
    ensures |Delivered(calls)| == |Windows(calls).0| + |Windows(calls).1| + LostToFlush(calls)
    ensures LostToFlush(calls) == 0 ==> Delivered(calls) == Windows(calls).0 + Windows(calls).1
  {
    if calls == [] {
    } else {
      DeliveriesAreAccountedFor(calls[..|calls| - 1]);
    }
  }

  lemma FlushedAtClose(calls: seq<SinkCall>)
    requires Complete(calls)
    ensures Windows(calls).1 == []
  {
    var flushed := calls[..|calls| - 1];
    assert flushed[|flushed| - 1].Flush?;
  }

  /** No Flush from the n-th call on failed. */
  ghost predicate FlushesWell(calls: seq<SinkCall>, n: nat) {
    forall i :: n <= i < |calls| && calls[i].Flush? ==> calls[i].outcome.Ok?
  }

  /** Flushes that work commit what was pending and all that came after. */
  lemma {:induction false} FlushesKeep(calls: seq<SinkCall>, n: nat)
    requires n <= |calls| && FlushesWell(calls, n)
    ensures Delivered(calls[..n]) <= Delivered(calls)
    ensures LostToFlush(calls) == LostToFlush(calls[..n])
    ensures Windows(calls).0 + Windows(calls).1 ==
            Windows(calls[..n]).0 + Windows(calls[..n]).1 + Delivered(calls)[|Delivered(calls[..n])|..]
    decreases |calls|
  {
    if n == |calls| {
      assert calls[..n] == calls;
    } else {
      var before, call := calls[..|calls| - 1], calls[|calls| - 1];
      assert before[..n] == calls[..n];
      FlushesKeep(before, n);
      AppendToWindows(before, call);
      assert before + [call] == calls;
      var k := |Delivered(calls[..n])|;
      if call.WriteBatch? {
        assert (Delivered(before) + call.events)[k..] == Delivered(before)[k..] + call.events;
      }
    }
  }

  lemma AppendToWindows(before: seq<SinkCall>, call: SinkCall)
    requires call.Flush? ==> call.outcome.Ok?
    ensures var w, w' := Windows(before), Windows(before + [call]);
            w'.0 + w'.1 == w.0 + w.1 + (if call.WriteBatch? then call.events else [])
    ensures Delivered(before + [call]) == Delivered(before) + (if call.WriteBatch? then call.events else [])
    ensures LostToFlush(before + [call]) == LostToFlush(before)
  {
    assert (before + [call])[..|before|] == before;
  }

  // ----- the file of a finished tracer -------------------------------------------------

  /** Once done is closed, every send that passed the closed check was dropped,
      given up, stranded in the queue, lost to a failed Flush, committed, or is
      still going; and the file holds all that was queued if and only if nothing
      was stranded and no failed Flush had anything to lose. */
  lemma FinishedFileIsAccountedFor(c: Config, s: State)
    requires Reachable(c, s) && s.q.done
    ensures s.q.passed == s.q.dropped + s.q.lost + |s.q.buffered| + LostToFlush(s.w.calls) + |Committed(s.w.calls)|
                          + Tally(s.p.threads, MidSend)
    ensures Committed(s.w.calls) == s.q.queued <==> s.q.buffered == [] && LostToFlush(s.w.calls) == 0
  {
    hide Reachable, Delivered, Windows, Complete, LostToFlush, Tally, Accepted, Failures;
    ShutdownDelivers(c, s);
    EventsAreConserved(c, s);
    WrittenOrFailed(c, s);
    DeliveriesAreAccountedFor(s.w.calls);
    FlushedAtClose(s.w.calls);
  }

  lemma WrittenOrFailed(c: Config, s: State)
    requires Reachable(c, s) && s.q.done
    ensures s.w.written + s.w.failed == |Delivered(s.w.calls)| && InHand(s.w.stage) == []
  {
    hide Good, Traced, Handshake, Balanced, Answered, Delivered, Accepted, Failures, Complete, Reachable;
    ReachableInvariant(c, s);
  }

  /** With every Flush a success, the finished file holds all that was delivered. */
  lemma WorkingFlushesCommitEverything(c: Config, s: State)
    requires Reachable(c, s) && s.q.done && FlushesWell(s.w.calls, 0)
    ensures Committed(s.w.calls) == Delivered(s.w.calls)
  {
    hide Reachable, Delivered, Windows, Complete, LostToFlush;
    ShutdownDelivers(c, s);
    FlushedAtClose(s.w.calls);
    FlushesKeep(s.w.calls, 0);
    DeliveriesAreAccountedFor(s.w.calls);
    NothingLostYet();
    assert s.w.calls[..0] == [];
  }

  lemma NothingLostYet()
    ensures LostToFlush([]) == 0 && Windows([]) == ([], []) && Delivered([]) == []
  {
  }

  // ----- Close -----------------------------------------------------------------------------

  /** How far shutdown got since there were n calls. */
  ghost predicate Since(w: Writer, n: nat) {
    && n <= |w.calls|
    && (w.stage.ClosingSink? ==> n + 1 <= |w.calls|)
    && (w.stage.Exiting? || w.stage.Exited? ==> n + 2 <= |w.calls|)
  }

  lemma {:induction false} CallsAreAppended(c: Config, s: State, n: nat, actions: seq<Action>, r: State)
    requires Since(s.w, n) && Run(c, s, actions) == Some(r)
    ensures Since(r.w, n) && s.w.calls <= r.w.calls
    decreases |actions|
  {
    if actions == [] {
    } else {
      var mid := Run(c, s, actions[..|actions| - 1]).value;
      CallsAreAppended(c, s, n, actions[..|actions| - 1], mid);
      hide LocalStep, SendStep, ShutStep, Run;
      assert mid.w.calls <= r.w.calls && Since(r.w, n);
    }
  }

  /** The finished file of r holds all that was durable or pending in the sink at
      s and everything queued and not yet delivered then, before Close or late. */
  ghost predicate Finishes(s: State, r: State) {
    var durable, pending := Windows(s.w.calls).0, Windows(s.w.calls).1;
    && |Delivered(s.w.calls)| <= |r.q.queued| && r.q.lost == 0
    && Committed(r.w.calls) == durable + pending + r.q.queued[|Delivered(s.w.calls)|..]
  }

  /** r is a finished continuation of the Close begun in s by thread t, and no
      Flush has failed since. */
  ghost predicate ClosesWell(c: Config, s: State, t: Tid, r: State)
    requires At(s.p, t).Idle? && !s.q.closed
  {
    Leads(c, Swapped(c, s, t), r) && r.q.done && FlushesWell(r.w.calls, |s.w.calls|)
  }

  lemma SwapIsEarly(c: Config, s: State, t: Tid)
    requires Reachable(c, s) && At(s.p, t).Idle? && !s.q.closed
    ensures Since(Swapped(c, s, t).w, |s.w.calls|) && Swapped(c, s, t).w == s.w
  {
    hide Good, Traced, Balanced, Answered, Delivered, Accepted, Failures, Complete, Streaming, Reachable, Senders;
    ReachableInvariant(c, s);
  }

  lemma LeadsOn(c: Config, s: State, t: Tid, r: State) returns (actions: seq<Action>)
    requires Reachable(c, s) && At(s.p, t).Idle? && !s.q.closed && Leads(c, Swapped(c, s, t), r)
    ensures Run(c, Swapped(c, s, t), actions) == Some(r)
    ensures Reachable(c, r) && s.w.calls <= r.w.calls && Since(r.w, |s.w.calls|)
  {
    hide Since;
    var s1 := Swapped(c, s, t);
    actions :| Run(c, s1, actions) == Some(r);
    SwapIsEarly(c, s, t);
    CallsAreAppended(c, s1, |s.w.calls|, actions, r);
    ReachableStep(c, s, OnClose(t, Swap));
    var first :| Run(c, Init(c), first) == Some(s1);
    RunConcat(c, Init(c), first, actions);
  }

  /** What a Close whose flushes work leaves in the file, in any case. */
  lemma ClosedFile(c: Config, s: State, t: Tid, r: State)
    requires Reachable(c, s) && At(s.p, t).Idle? && !s.q.closed && ClosesWell(c, s, t, r)
    ensures Reachable(c, r) && s.w.calls <= r.w.calls && Delivered(s.w.calls) <= Delivered(r.w.calls) <= r.q.queued
    ensures Committed(r.w.calls) ==
            Windows(s.w.calls).0 + Windows(s.w.calls).1 + Delivered(r.w.calls)[|Delivered(s.w.calls)|..]
    ensures r.q.queued == Delivered(r.w.calls) + r.q.buffered
  {
    hide Reachable, Delivered, Windows, Complete, Leads, Swapped;
    var actions := LeadsOn(c, s, t, r);
    ShutdownDelivers(c, r);
    FlushedAtClose(r.w.calls);
    assert r.w.calls[..|s.w.calls|] == s.w.calls;
    FlushesKeep(r.w.calls, |s.w.calls|);
  }

  lemma QuietCloseFinishes(c: Config, s: State, t: Tid, r: State)
    requires Reachable(c, s) && At(s.p, t).Idle? && !s.q.closed && ClosesWell(c, s, t, r)
    requires Senders(s.p) == map[]
    ensures Finishes(s, r)
  {
    hide Reachable, Delivered, Windows, Swapped, Senders;
    ClosedFile(c, s, t, r);
    var actions := LeadsOn(c, s, t, r);
    QuietCloseLosesNothing(c, s, t, actions, r);
  }

  lemma BusyCloseLeavesOut(c: Config, s: State, t: Tid, u: Tid) returns (r: State)
    requires Reachable(c, s) && c.capacity >= 1 && At(s.p, t).Idle? && !s.q.closed && u in Senders(s.p)
    ensures ClosesWell(c, s, t, r) && AllWell(r.w.calls, |s.w.calls|) && !Finishes(s, r)
  {
    hide Reachable, Delivered, Windows, Swapped, Senders, Run;
    var actions;
    actions, r := BusyCloseCanLose(c, s, t, u);
    assert Leads(c, Swapped(c, s, t), r);
    ClosedFile(c, s, t, r);
  }

  /** "Close drains and finishes the file (zero loss)", said of every finished
      continuation in which flushes work, holds exactly when no send has passed the
      closed check and is still under way as Close swaps the flag. */
  lemma CloseFinishesTheFileIffQuiet(c: Config, s: State, t: Tid)
    requires Reachable(c, s) && c.capacity >= 1 && At(s.p, t).Idle? && !s.q.closed
    ensures (forall r :: ClosesWell(c, s, t, r) ==> Finishes(s, r)) <==> Senders(s.p) == map[]
  {
    hide Reachable, ClosesWell, Finishes;
    if Senders(s.p) == map[] {
      forall r | ClosesWell(c, s, t, r)
        ensures Finishes(s, r)
      {
        QuietCloseFinishes(c, s, t, r);
      }
    } else {
      var u :| u in Senders(s.p);
      var r := BusyCloseLeavesOut(c, s, t, u);
    }
  }

  /** If no Flush ever failed, finishing the file means it holds all that was
      ever queued. */
  lemma FinishedMeansEverything(s: State, r: State)
    requires Finishes(s, r) && FlushesWell(s.w.calls, 0) && Delivered(s.w.calls) <= r.q.queued
    ensures Committed(r.w.calls) == r.q.queued
  {
    hide Delivered, Windows, LostToFlush;
    FlushesKeep(s.w.calls, 0);
    NothingLostYet();
    assert s.w.calls[..0] == [];
    DeliveriesAreAccountedFor(s.w.calls);
  }
}
