/** No thread is ever stuck inside the tracer for want of a step, and no send drops
    or gives up an event without its reason. */
module Progress {
  import opened Events
  import opened Protocol
  import opened SpanLife
  import opened RunHistory
  import opened EventOrder
  import opened Delivery
  import opened Gauges
  import opened Reach

  /** The thread is between taking and releasing the span's mutex. */
  predicate Inside(th: Thread, id: ID) {
    match th
    case Locked(k, _) => k == id
    case Ended(k) => k == id
    case Tallied(k) => k == id
    case Leaving(k) => k == id
    case Stamping(k) => k == id
    case Releasing(k) => k == id
    case Checking(e) => !e.Start? && e.spanID == id
    case Sending(e) => !e.Start? && e.spanID == id
    case _ => false
  }

  /** A mutex is held only by a thread that is inside it. */
  ghost predicate HoldersAreInside(p: Producers) {
    forall id :: id in p.spans && p.spans[id].holder.Some? ==>
      p.spans[id].holder.value in p.threads && Inside(p.threads[p.spans[id].holder.value], id)
  }

  lemma LocalHolder(p: Producers, t: Tid, a: Local, r: Producers, id: ID)
    requires LocalStep(p, t, a) == Some(r) && id in r.spans
    requires id in p.spans && p.spans[id].holder == Some(t) ==> Inside(At(p, t), id)
    ensures t in r.threads && r.threads == p.threads[t := r.threads[t]]
    ensures || r.spans[id].holder == None
            || (r.spans[id].holder == Some(t) && Inside(r.threads[t], id))
            || (id in p.spans && r.spans[id].holder == p.spans[id].holder && p.spans[id].holder != Some(t))
  {
  }

  lemma LocalHolders(p: Producers, t: Tid, a: Local, r: Producers)
    requires HoldersAreInside(p) && LocalStep(p, t, a) == Some(r)
    ensures HoldersAreInside(r)
  {
    hide LocalStep, Inside;
    forall id | id in r.spans && r.spans[id].holder.Some?
      ensures r.spans[id].holder.value in r.threads && Inside(r.threads[r.spans[id].holder.value], id)
    {
      assert id in p.spans && p.spans[id].holder == Some(t) ==> Inside(At(p, t), id);
      LocalHolder(p, t, a, r, id);
    }
  }

  lemma SendHolders(c: Config, p: Producers, q: Queue, t: Tid, a: Send, r: Producers, q': Queue)
    requires HoldersAreInside(p) && SendStep(c, p, q, t, a) == Some((r, q'))
    ensures HoldersAreInside(r)
  {
  }

  lemma StepHolders(c: Config, s: State, a: Action, r: State)
    requires HoldersAreInside(s.p) && Step(c, s, a) == Some(r)
    ensures HoldersAreInside(r.p)
  {
    hide LocalStep, SendStep, WriteStep, Senders;
    match a {
      case OnSpan(t, local) => LocalHolders(s.p, t, local, r.p);
      case OnSend(t, send) => SendHolders(c, s.p, s.q, t, send, r.p, r.q);
      case OnClose(_, _) =>
      case OnWriter(_) =>
    }
  }

  lemma {:induction false} RunHolders(c: Config, actions: seq<Action>, s: State)
    requires Run(c, Init(c), actions) == Some(s)
    ensures HoldersAreInside(s.p)
    decreases |actions|
  {
    if actions == [] {
    } else {
      hide HoldersAreInside, Step;
      var mid := Run(c, Init(c), actions[..|actions| - 1]).value;
      RunHolders(c, actions[..|actions| - 1], mid);
      StepHolders(c, mid, actions[|actions| - 1], s);
    }
  }

  predicate IsBy(a: Action, t: Tid) {
    !a.OnWriter? && a.t == t
  }

  /** The next step of a thread that waits for nobody. */
  function NextOf(p: Producers, q: Queue, c: Config, t: Tid): Action {
    match At(p, t)
    case Idle => OnClose(t, Swap)
    case Counted(_, _, _) => OnSpan(t, EnterFlight)
    case Entered(_, _, _) => OnSpan(t, Mint)
    case Minted(_, _, _, _, _, _, root) =>
      if root.RootPending? then OnSpan(t, CountRoot) else OnSpan(t, Create(p.clock))
    case Returning(_) => OnSpan(t, Publish)
    case Waiting(_, _) => OnSpan(t, Lock)
    case Locked(_, _) => OnSpan(t, Act)
    case Ended(_) => OnSpan(t, CountCompleted)
    case Tallied(_) => OnSpan(t, LeaveFlight)
    case Leaving(_) => OnSpan(t, LeaveTrace)
    case Stamping(_) => OnSpan(t, Stamp(p.clock))
    case Releasing(_) => OnSpan(t, Unlock)
    case Checking(_) => OnSend(t, CheckClosed)
    case Sending(_) =>
      if |q.buffered| < c.capacity then OnSend(t, Enqueue)
      else if c.blocking then OnSend(t, GiveUp)
      else OnSend(t, Drop)
    case Stopping => OnClose(t, CloseStop)
    case Awaiting => OnClose(t, ReturnExpired)
  }

  /** A thread that is in a call can take its next step, unless it waits for a
      mutex that another thread is inside of, or sends to a full queue under the
      blocking policy while stop is open. */
  lemma ThreadsAreNeverStuck(c: Config, s: State, t: Tid)
    requires Reachable(c, s)
    ensures var at := At(s.p, t);
            || (IsBy(NextOf(s.p, s.q, c, t), t) && Step(c, s, NextOf(s.p, s.q, c, t)).Some?)
            || (at.Waiting? && at.id in s.p.spans && s.p.spans[at.id].holder.Some?
                && Inside(At(s.p, s.p.spans[at.id].holder.value), at.id))
            || (at.Sending? && c.blocking && |s.q.buffered| >= c.capacity && !s.q.stop)
  {
    var actions :| Run(c, Init(c), actions) == Some(s);
    hide Run;
    RunHolders(c, actions, s);
    RunTraced(c, actions, s);
    hide Reachable, Good, Traced, HoldersAreInside, LocalStep, SendStep, ShutStep, WriteStep, Inside;
    KnownSpan(c, s.p, t);
    var at := At(s.p, t);
    if at.Waiting? { HolderInside(s.p, at.id); }
    if at.Sending? || at.Checking? {
      SendCanMove(c, s.p, s.q, t);
    } else if at.Idle? || at.Stopping? || at.Awaiting? {
      ShutCanMove(c, s.p, s.q, s.w, t);
    } else if !at.Waiting? || s.p.spans[at.id].holder.None? {
      LocalCanMove(c, s.p, s.q, t);
    }
  }

  /** Busy with a span that its next step looks up. */
  predicate OnASpan(th: Thread) {
    th.Returning? || th.Waiting? || th.Locked? || th.Tallied? || th.Leaving? || th.Stamping? || th.Releasing?
  }

  /** A thread at work on a span that exists, its mutex free if it is wanted. */
  lemma LocalCanMove(c: Config, p: Producers, q: Queue, t: Tid)
    requires var at := At(p, t); !at.Sending? && !at.Checking? && !at.Idle? && !at.Stopping? && !at.Awaiting?
    requires var at := At(p, t);
             OnASpan(at) ==> at.id in p.spans && (at.Waiting? ==> p.spans[at.id].holder.None?)
    ensures NextOf(p, q, c, t).OnSpan? && NextOf(p, q, c, t).t == t
    ensures LocalStep(p, t, NextOf(p, q, c, t).local).Some?
  {
  }

  lemma SendCanMove(c: Config, p: Producers, q: Queue, t: Tid)
    requires At(p, t).Checking? || (At(p, t).Sending? && At(p, t).event.spanID in p.spans)
    ensures NextOf(p, q, c, t).OnSend? && NextOf(p, q, c, t).t == t
    ensures SendStep(c, p, q, t, NextOf(p, q, c, t).send).Some? ||
            (At(p, t).Sending? && c.blocking && |q.buffered| >= c.capacity && !q.stop)
  {
    hide Settle, NotSent;
  }

  lemma ShutCanMove(c: Config, p: Producers, q: Queue, w: Writer, t: Tid)
    requires At(p, t).Idle? || At(p, t).Stopping? || At(p, t).Awaiting?
    ensures NextOf(p, q, c, t).OnClose? && NextOf(p, q, c, t).t == t
    ensures ShutStep(p, q, w, t, NextOf(p, q, c, t).shut).Some?
  {
    hide Senders;
  }

  /** The span a thread is busy with exists. */
  lemma KnownSpan(c: Config, p: Producers, t: Tid)
    requires Good(c, p)
    ensures var at := At(p, t);
            && (OnASpan(at) ==> at.id in p.spans)
            && (at.Sending? ==> at.event.spanID in p.spans)
  {
    hide Good;
    OwnFacts(c, p, t, 0);
  }

  lemma HolderInside(p: Producers, id: ID)
    requires HoldersAreInside(p) && id in p.spans
    ensures p.spans[id].holder.Some? ==> Inside(At(p, p.spans[id].holder.value), id)
  {
    hide Inside;
  }

  /** And a thread in no call can make any: Start under no span, a foreign span or
      one of this tracer's spans that was handed out; any method on such a span,
      SetAttrs with at least one attribute. */
  lemma IdleThreadsCanCall(c: Config, s: State, t: Tid, ctx: Context, name: string, attrs: seq<Attr>,
                           id: ID, call: Call)
    requires At(s.p, t).Idle?
    ensures Step(c, s, OnSpan(t, BeginStart(NoSpan, name, attrs))).Some?
    ensures Step(c, s, OnSpan(t, BeginStart(Own(id), name, attrs))).Some? <==>
            id in s.p.spans && s.p.spans[id].published
    ensures ctx.Foreign? && ctx.id >= 1 ==> Step(c, s, OnSpan(t, BeginStart(ctx, name, attrs))).Some?
    ensures Step(c, s, OnSpan(t, Invoke(id, call))).Some? <==>
            id in s.p.spans && s.p.spans[id].published && call != SetAttrs([])
  {
  }

  /** A span not handed out yet is on its way out of the Start that made it. */
  ghost predicate HandedOut(p: Producers) {
    forall id :: id in p.spans && !p.spans[id].published ==>
      p.spans[id].creator in p.threads && GoesOut(p.threads[p.spans[id].creator], id)
  }

  predicate GoesOut(th: Thread, id: ID) {
    match th
    case Checking(e) => e.Start? && e.spanID == id
    case Sending(e) => e.Start? && e.spanID == id
    case Returning(k) => k == id
    case _ => false
  }

  lemma LocalHandsOut(p: Producers, t: Tid, a: Local, r: Producers, id: ID)
    requires LocalStep(p, t, a) == Some(r) && id in r.spans && !r.spans[id].published
    requires id in p.spans && !p.spans[id].published && p.spans[id].creator == t ==> GoesOut(At(p, t), id)
    ensures t in r.threads && r.threads == p.threads[t := r.threads[t]]
    ensures r.spans[id].creator == t ==> GoesOut(r.threads[t], id)
    ensures r.spans[id].creator != t ==>
              id in p.spans && !p.spans[id].published && p.spans[id].creator == r.spans[id].creator
  {
  }

  lemma LocalHandedOut(p: Producers, t: Tid, a: Local, r: Producers)
    requires HandedOut(p) && LocalStep(p, t, a) == Some(r)
    ensures HandedOut(r)
  {
    hide LocalStep, GoesOut;
    forall id | id in r.spans && !r.spans[id].published
      ensures r.spans[id].creator in r.threads && GoesOut(r.threads[r.spans[id].creator], id)
    {
      LocalHandsOut(p, t, a, r, id);
    }
  }

  lemma SendHandedOut(c: Config, p: Producers, q: Queue, t: Tid, a: Send, r: Producers, q': Queue)
    requires HandedOut(p) && SendStep(c, p, q, t, a) == Some((r, q'))
    ensures HandedOut(r)
  {
  }

  lemma {:induction false} RunHandsOut(c: Config, actions: seq<Action>, s: State)
    requires Run(c, Init(c), actions) == Some(s)
    ensures HandedOut(s.p)
    decreases |actions|
  {
    if actions == [] {
    } else {
      hide LocalStep, SendStep, WriteStep, Senders;
      var mid := Run(c, Init(c), actions[..|actions| - 1]).value;
      RunHandsOut(c, actions[..|actions| - 1], mid);
      match actions[|actions| - 1] {
        case OnSpan(t, local) => LocalHandedOut(mid.p, t, local, s.p);
        case OnSend(t, send) => SendHandedOut(c, mid.p, mid.q, t, send, s.p, s.q);
        case OnClose(_, _) =>
        case OnWriter(_) =>
      }
    }
  }

  /** When its Start has returned, a span can be used. */
  lemma StartedSpansAreHandedOut(c: Config, s: State, id: ID)
    requires Reachable(c, s) && id in s.p.spans && At(s.p, s.p.spans[id].creator).Idle?
    ensures s.p.spans[id].published
  {
    var actions :| Run(c, Init(c), actions) == Some(s);
    hide Run;
    RunHandsOut(c, actions, s);
  }

  // ----- the writer's select -------------------------------------------------------------

  /** The arms of the writer's select are ready when they should be: a queued event
      can always be received, the flush tick and a closed stop are seen in the main
      loop, the last Flush comes only when the queue is empty, and a batch is handed
      on only when it is full or nothing is left to add to it. */
  lemma SelectArms(q: Queue, w: Writer)
    ensures w.stage.Selecting? ==> (WriteStep(q, w, Receive).Some? <==> q.buffered != [])
    ensures w.stage == Selecting(false) ==> WriteStep(q, w, Tick).Some? && (WriteStep(q, w, SeeStop).Some? <==> q.stop)
    ensures WriteStep(q, w, Drained).Some? <==> w.stage == Selecting(true) && q.buffered == []
    ensures w.stage.Filling? ==> (WriteStep(q, w, More).Some? <==> |w.stage.batch| < 1024 && q.buffered != [])
    ensures w.stage.Filling? ==> (WriteStep(q, w, Enough).Some? <==> |w.stage.batch| >= 1024 || q.buffered == [])
  {
  }

  // ----- reasons -----------------------------------------------------------------------

  lemma {:induction false} RunUpTo(c: Config, actions: seq<Action>, n: nat)
    requires Run(c, Init(c), actions).Some? && n < |actions|
    ensures Run(c, Init(c), actions[..n]).Some?
    ensures Step(c, Run(c, Init(c), actions[..n]).value, actions[n]).Some?
    decreases |actions|
  {
    hide Step;
    if n == |actions| - 1 {
    } else {
      assert actions[..|actions| - 1][..n] == actions[..n];
      RunUpTo(c, actions[..|actions| - 1], n);
    }
  }

  /** Wherever a run drops an event the queue is exactly full and the policy is to
      drop; wherever it gives one up, the policy is to block and stop is closed. */
  lemma SendsFailForAReason(c: Config, actions: seq<Action>, n: nat, t: Tid)
    requires Run(c, Init(c), actions).Some? && n < |actions|
    ensures Run(c, Init(c), actions[..n]).Some?
    ensures var q := Run(c, Init(c), actions[..n]).value.q;
            && (actions[n] == OnSend(t, Drop) ==> |q.buffered| == c.capacity && !c.blocking)
            && (actions[n] == OnSend(t, GiveUp) ==> q.stop && q.closed && c.blocking)
  {
    RunUpTo(c, actions, n);
    var s := Run(c, Init(c), actions[..n]).value;
    assert Reachable(c, s);
    hide Run, Good, Traced, Balanced, Answered, Delivered, Accepted, Failures, Streaming, Complete, CloseResult,
      Settle, NotSent;
    ReachableInvariant(c, s);
  }
}
