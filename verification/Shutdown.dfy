/** Shutdown makes progress: a measure no send or writer step can cheat, and the
    exact condition under which Close loses nothing. */
module Shutdown {
  import opened Events
  import opened Protocol
  import opened SpanLife
  import opened EventOrder
  import opened Delivery
  import opened Gauges
  import opened Reach

  function Weight(stage: Stage): nat {
    match stage
    case Filling(_, _) => 7
    case Recording(_, _) => 6
    case Delivering(_, _) => 5
    case Selecting(_) => 4
    case Flushing(_) => 3
    case ClosingSink => 2
    case Exiting => 1
    case Exited => 0
  }

  /** What shutdown still has to get through: sends under way, queued events,
      and the writer's position. */
  ghost function Measure(s: State): nat {
    6 * Tally(s.p.threads, MidSend) + 5 * |s.q.buffered| + Weight(s.w.stage)
  }

  /** The steps that finish a send, and the steps of the writer. */
  predicate Works(a: Action) {
    a.OnWriter? || (a.OnSend? && !a.send.CheckClosed?)
  }

  ghost predicate Stopping(c: Config, s: State) {
    Invariant(c, s) && InStopBranch(s.w.stage)
  }

  lemma WriteShrinks(q: Queue, w: Writer, a: Write)
    requires InStopBranch(w.stage) && WriteStep(q, w, a).Some?
    ensures var (q', w') := WriteStep(q, w, a).value;
            InStopBranch(w'.stage) && 5 * |q'.buffered| + Weight(w'.stage) < 5 * |q.buffered| + Weight(w.stage)
  {
  }

  lemma SendShrinks(c: Config, p: Producers, q: Queue, t: Tid, a: Send)
    requires Good(c, p) && q.closed && SendStep(c, p, q, t, a).Some?
    ensures var (r, q') := SendStep(c, p, q, t, a).value;
            && 6 * Tally(r.threads, MidSend) + 5 * |q'.buffered| <= 6 * Tally(p.threads, MidSend) + 5 * |q.buffered|
            && (!a.CheckClosed? ==>
                6 * Tally(r.threads, MidSend) + 5 * |q'.buffered| < 6 * Tally(p.threads, MidSend) + 5 * |q.buffered|)
  {
    hide Good, Tally, SpanTally;
    PlaceFacts(c, p, t);
    SettleTallies(c, p, t, At(p, t).event);
  }

  lemma OthersDoNotGrow(s: State, t: Tid, r: Producers)
    requires MovesQuietly(s.p, r, t)
    ensures Tally(r.threads, MidSend) <= Tally(s.p.threads, MidSend)
  {
    TallyMoves(s.p.threads, t, r.threads[t]);
  }

  lemma ShutDoesNotGrow(p: Producers, q: Queue, w: Writer, t: Tid, a: Shut)
    requires ShutStep(p, q, w, t, a).Some?
    ensures Tally(ShutStep(p, q, w, t, a).value.0.threads, MidSend) <= Tally(p.threads, MidSend)
    ensures ShutStep(p, q, w, t, a).value.1.buffered == q.buffered
  {
    var r := ShutStep(p, q, w, t, a).value.0;
    TallyMoves(p.threads, t, r.threads[t]);
  }

  /** In the stop branch every send or writer step strictly shrinks the measure,
      no other step grows it, and the branch is never left. */
  lemma EveryStepShrinks(c: Config, s: State, a: Action, r: State)
    requires Stopping(c, s) && Step(c, s, a) == Some(r)
    ensures Stopping(c, r)
    ensures Measure(r) <= Measure(s) && (Works(a) ==> Measure(r) < Measure(s))
  {
    hide Good, Traced, Handshake, Balanced, LocalStep, SendStep, ShutStep, WriteStep, Tally;
    StepInvariant(c, s, a, r);
    assert s.q.stop && Handshake(s.p, s.q);
    StopMeansClosed(s.p, s.q);
    hide Invariant, Flows;
    match a {
      case OnSpan(t, local) => LocalMoves(s.p, t, local, r.p); OthersDoNotGrow(s, t, r.p);
      case OnSend(t, send) => GoodOf(c, s); SendShrinks(c, s.p, s.q, t, send);
      case OnClose(t, shut) => ShutDoesNotGrow(s.p, s.q, s.w, t, shut);
      case OnWriter(write) => WriteShrinks(s.q, s.w, write);
    }
  }

  lemma StopMeansClosed(p: Producers, q: Queue)
    requires Handshake(p, q) && q.stop
    ensures q.closed
  {
  }

  lemma GoodOf(c: Config, s: State)
    requires Invariant(c, s)
    ensures Good(c, s.p)
  {
    hide Good;
  }

  function WorkIn(actions: seq<Action>): nat {
    if actions == [] then 0
    else WorkIn(actions[..|actions| - 1]) + (if Works(actions[|actions| - 1]) then 1 else 0)
  }

  /** However the threads interleave, no run out of the stop branch holds more
      send and writer steps than the measure it started with; and once that much
      work has been done the writer has exited and done is closed. */
  lemma {:induction false} ShutdownIsBounded(c: Config, s: State, actions: seq<Action>, r: State)
    requires Stopping(c, s) && Run(c, s, actions) == Some(r)
    ensures Stopping(c, r) && WorkIn(actions) + Measure(r) <= Measure(s)
    ensures WorkIn(actions) == Measure(s) ==> r.w.stage.Exited? && r.q.done
    decreases |actions|
  {
    hide Invariant, Step, Tally, Measure, InStopBranch;
    if actions == [] {
    } else {
      var mid := Run(c, s, actions[..|actions| - 1]).value;
      ShutdownIsBounded(c, s, actions[..|actions| - 1], mid);
      EveryStepShrinks(c, mid, actions[|actions| - 1], r);
    }
    ExitIsDone(c, r);
    if Measure(r) == 0 { NothingLeftToDo(r); }
  }

  lemma NothingLeftToDo(s: State)
    requires Measure(s) == 0
    ensures s.w.stage.Exited?
  {
  }

  lemma ExitIsDone(c: Config, s: State)
    requires Invariant(c, s)
    ensures s.w.stage.Exited? <==> s.q.done
  {
    hide Good, Traced, Handshake, Balanced;
  }

  /** A writer in the stop branch that has not exited can always step, whatever
      the queue holds and however the sink calls come back. */
  lemma WriterCanStep(q: Queue, w: Writer, outcome: Outcome)
    requires InStopBranch(w.stage) && !w.stage.Exited?
    ensures exists a ::
      WriteStep(q, w, a).Some? && (a.Deliver? || a.FlushSink? || a.CloseSink? ==> a.outcome == outcome)
  {
    var a := NextWrite(q, w, outcome);
    assert WriteStep(q, w, a).Some?;
  }

  /** The step a writer takes next when left alone with the stop signal. */
  function NextWrite(q: Queue, w: Writer, outcome: Outcome): Write {
    match w.stage
    case Selecting(final) => if !final then SeeStop else if q.buffered != [] then Receive else Drained
    case Filling(batch, _) => if |batch| < MAX_BATCH && q.buffered != [] then More else Enough
    case Recording(_, _) => Record
    case Delivering(_, _) => Deliver(outcome)
    case Flushing(_) => FlushSink(outcome)
    case ClosingSink => CloseSink(outcome)
    case Exiting => Exit
    case Exited => Exit
  }

  /** A sender always has a way out: under the drop policy always, under the
      blocking policy as soon as stop is closed, whatever the queue holds. */
  lemma SenderCanStep(c: Config, s: State, t: Tid)
    requires Reachable(c, s) && At(s.p, t).Sending? && (s.q.stop || !c.blocking)
    ensures exists send :: send != CheckClosed && SendStep(c, s.p, s.q, t, send).Some?
  {
    hide Good, Traced, Handshake, Flows, Balanced, Answered, Run, Step;
    ReachableInvariant(c, s);
    PlaceFacts(c, s.p, t);
    if c.blocking {
      assert SendStep(c, s.p, s.q, t, GiveUp).Some?;
    } else if |s.q.buffered| < c.capacity {
      assert SendStep(c, s.p, s.q, t, Enqueue).Some?;
    } else {
      assert SendStep(c, s.p, s.q, t, Drop).Some?;
    }
  }

  // ----- does Close lose anything? -------------------------------------------------

  /** An event that passed the closed check and reached neither the sink nor the
      dropped counter, with the writer gone. */
  ghost predicate LosesToShutdown(s: State) {
    s.q.done && (s.q.buffered != [] || s.q.lost > 0)
  }

  ghost predicate Leads(c: Config, s: State, r: State) {
    exists actions :: Run(c, s, actions) == Some(r)
  }

  /** Every sink call from the n-th on came back without an error. */
  ghost predicate AllWell(calls: seq<SinkCall>, n: nat) {
    forall i :: n <= i < |calls| ==> calls[i].outcome.Ok?
  }

  /** What the writer has left to do when nobody else moves. */
  function Left(q: Queue, w: Writer): nat {
    5 * |q.buffered| + Weight(w.stage) + (if InStopBranch(w.stage) then 0 else if w.stage.Flushing? then 12 else 10)
  }

  lemma NextWriteShrinks(q: Queue, w: Writer)
    requires q.stop && !w.stage.Exited?
    ensures WriteStep(q, w, NextWrite(q, w, Ok)).Some?
    ensures var (q', w') := WriteStep(q, w, NextWrite(q, w, Ok)).value; q'.stop && Left(q', w') < Left(q, w)
    ensures var w' := WriteStep(q, w, NextWrite(q, w, Ok)).value.1; w.calls <= w'.calls && AllWell(w'.calls, |w.calls|)
  {
  }

  /** With stop closed the writer alone can run to its exit. */
  lemma WriterFinishes(c: Config, s: State) returns (actions: seq<Action>, r: State)
    requires s.q.stop
    ensures Run(c, s, actions) == Some(r) && r.w.stage.Exited? && r.p == s.p && r.q.stop
    ensures s.w.calls <= r.w.calls && AllWell(r.w.calls, |s.w.calls|)
    decreases Left(s.q, s.w)
  {
    if s.w.stage.Exited? {
      actions, r := [], s;
    } else {
      NextWriteShrinks(s.q, s.w);
      var a := OnWriter(NextWrite(s.q, s.w, Ok));
      var mid := Step(c, s, a).value;
      var rest;
      hide WriteStep, NextWrite, Left;
      rest, r := WriterFinishes(c, mid);
      actions := [a] + rest;
      assert [a][..0] == [];
      assert Run(c, s, []) == Some(s);
      assert Run(c, s, [a]) == Some(mid);
      RunConcat(c, s, [a], rest);
      assert forall i :: 0 <= i < |mid.w.calls| ==> r.w.calls[i] == mid.w.calls[i];
    }
  }

  /** Which sends straddle the closed flag is settled by the swap. */
  lemma {:induction false} StraddlersAreFixed(c: Config, s: State, actions: seq<Action>, r: State)
    requires s.q.closed && Run(c, s, actions) == Some(r)
    ensures r.q.closed && r.q.straddling == s.q.straddling
    decreases |actions|
  {
    if actions == [] {
    } else {
      var mid := Run(c, s, actions[..|actions| - 1]).value;
      StraddlersAreFixed(c, s, actions[..|actions| - 1], mid);
      StraddlersStay(c, mid, actions[|actions| - 1], r);
    }
  }

  lemma StraddlersStay(c: Config, s: State, a: Action, r: State)
    requires s.q.closed && Step(c, s, a) == Some(r)
    ensures r.q.closed && r.q.straddling == s.q.straddling
  {
    hide LocalStep, Settle, Senders;
  }

  /** The swap of a first Close, taken by thread t. */
  function Swapped(c: Config, s: State, t: Tid): State
    requires At(s.p, t).Idle? && !s.q.closed
  {
    Step(c, s, OnClose(t, Swap)).value
  }

  lemma QuietCloseLosesNothing(c: Config, s: State, t: Tid, actions: seq<Action>, r: State)
    requires Reachable(c, s) && At(s.p, t).Idle? && !s.q.closed && Senders(s.p) == map[]
    requires Run(c, Swapped(c, s, t), actions) == Some(r)
    ensures !LosesToShutdown(r)
    ensures r.q.done ==> Delivered(r.w.calls) == r.q.queued
  {
    var s1 := Swapped(c, s, t);
    assert s1.q.straddling == map[] && s1.q.closed;
    StraddlersAreFixed(c, s1, actions, r);
    ReachableInvariant(c, s);
    hide Invariant, Step, LosesToShutdown, Senders;
    StepInvariant(c, s, OnClose(t, Swap), s1);
    RunInvariant(c, s1, actions, r);
    NothingLeft(c, r);
  }

  lemma NothingLeft(c: Config, s: State)
    requires Invariant(c, s) && s.q.closed && s.q.straddling == map[]
    ensures !LosesToShutdown(s)
    ensures s.q.done ==> Delivered(s.w.calls) == s.q.queued
  {
    hide Good, Traced, Balanced, Delivered, Accepted, Failures, Streaming, Complete;
    if s.q.cut < |s.q.queued| { LateIsStraddling(s.p, s.q, s.q.cut); }
  }

  lemma LateIsStraddling(p: Producers, q: Queue, i: nat)
    requires Handshake(p, q) && q.closed && q.cut <= i < |q.queued|
    ensures q.straddling != map[]
  {
    assert q.carriers[i] in q.straddling;
  }

  /** A send under way at the swap can be lost: the writer drains and leaves,
      then the send lands in a queue nobody reads. No sink call need fail for it. */
  lemma BusyCloseCanLose(c: Config, s: State, t: Tid, u: Tid) returns (actions: seq<Action>, r: State)
    requires Reachable(c, s) && c.capacity >= 1 && At(s.p, t).Idle? && !s.q.closed && u in Senders(s.p)
    ensures Run(c, Swapped(c, s, t), actions) == Some(r) && LosesToShutdown(r)
    ensures r.q.buffered != [] && AllWell(r.w.calls, |s.w.calls|)
  {
    hide Invariant, LosesToShutdown, LocalStep, SendStep, WriteStep;
    var s1 := Swapped(c, s, t);
    ReachableInvariant(c, s);
    StepInvariant(c, s, OnClose(t, Swap), s1);
    var first := OnClose(t, CloseStop);
    var s2 := Step(c, s1, first).value;
    assert [first][..0] == [];
    assert Run(c, s1, []) == Some(s1) && Run(c, s1, [first]) == Some(s2);
    var writing, s3 := WriterFinishes(c, s2);
    RunConcat(c, s1, [first], writing);
    StepInvariant(c, s1, first, s2);
    RunInvariant(c, s2, writing, s3);
    ExitIsDone(c, s3);
    assert At(s3.p, u).Sending?;
    actions, r := LastSend(c, s1, [first] + writing, s3, u);
  }

  lemma LastSend(c: Config, s: State, before: seq<Action>, mid: State, u: Tid) returns (actions: seq<Action>, r: State)
    requires Run(c, s, before) == Some(mid) && Invariant(c, mid)
    requires mid.q.done && mid.q.stop && At(mid.p, u).Sending? && c.capacity >= 1
    ensures Run(c, s, actions) == Some(r) && LosesToShutdown(r)
    ensures r.q.buffered != [] && r.w == mid.w
  {
    GoodOf(c, mid);
    PlaceFacts(c, mid.p, u);
    hide Good, Invariant;
    if mid.q.buffered != [] {
      actions, r := before, mid;
    } else {
      var last := OnSend(u, Enqueue);
      actions, r := before + [last], Step(c, mid, last).value;
      assert actions[..|before|] == before;
    }
  }

  /** "Close drains", said of the way to the sink, holds of every continuation
      exactly when no send has passed the closed check and is still under way as
      Close swaps the flag: the caller's side of the bargain is to stop using spans
      first. */
  lemma CloseIsLosslessIffQuiet(c: Config, s: State, t: Tid)
    requires Reachable(c, s) && c.capacity >= 1 && At(s.p, t).Idle? && !s.q.closed
    ensures (forall r :: Leads(c, Swapped(c, s, t), r) ==> !LosesToShutdown(r)) <==> Senders(s.p) == map[]
  {
    hide LosesToShutdown, Step, Run;
    if Senders(s.p) == map[] {
      forall r | Leads(c, Swapped(c, s, t), r)
        ensures !LosesToShutdown(r)
      {
        var actions :| Run(c, Swapped(c, s, t), actions) == Some(r);
        QuietCloseLosesNothing(c, s, t, actions, r);
      }
    } else {
      var u :| u in Senders(s.p);
      var actions, r := BusyCloseCanLose(c, s, t, u);
      assert Leads(c, Swapped(c, s, t), r);
    }
  }
}
