/** The tracer, its spans and its writer as one step system: any number of
    threads, one step per atomic operation, lock operation or channel operation. */
module Protocol {
  import opened Events

  type Tid = nat

  const MAX_BATCH := 1024

  /** Queue policy and the wall-clock anchor timestamps are measured from. */
  datatype Config = Config(capacity: nat, blocking: bool, anchor: int64)

  // ----- producers -----------------------------------------------------------

  /** What a caller asks of a span. A Fail has been classified before the lock. */
  datatype Call = SetAttrs(attrs: seq<Attr>) | Fail(status: Status, message: string) | EndSpan

  /** The span a Start finds in its context; one minted by another tracer is
      taken as it comes. */
  datatype Context = NoSpan | Own(id: ID) | Foreign(id: ID, traceID: ID)

  datatype Root = NotRoot | RootPending | RootCounted

  /** Where a thread is inside the call it is executing. */
  datatype Thread =
    | Idle
    | Counted(ctx: Context, name: string, attrs: seq<Attr>)   // Start: started is bumped
    | Entered(ctx: Context, name: string, attrs: seq<Attr>)   // Start: spansInFlight is bumped
    | Minted(id: ID, traceID: ID, parentID: ID, foreign: bool, name: string, attrs: seq<Attr>, root: Root)
    | Returning(id: ID)                                       // Start: about to hand the span out
    | Waiting(id: ID, call: Call)                             // before the span's mutex
    | Locked(id: ID, call: Call)                              // inside it
    | Ended(id: ID)                                           // End: completed not yet bumped
    | Tallied(id: ID)                                         // End: spansInFlight not yet lowered
    | Leaving(id: ID)                                         // End of a root: tracesInFlight not yet lowered
    | Stamping(id: ID)                                        // End: about to read the clock
    | Releasing(id: ID)                                       // about to unlock
    | Checking(event: Event)                                  // send: about to load closed
    | Sending(event: Event)                                   // send: closed was false
    | Stopping                                                // Close: won the swap, stop still open
    | Awaiting                                                // Close: waiting for done

  /** A span. Below the source's own fields: who created it, whether Start has
      handed it out, the calls that got the mutex in order, how many of them
      (from -1, the Start) are past their send, and the time its End was stamped. */
  datatype Span = Span(
    traceID: ID, parentID: ID, name: string, startNS: int64, attrs: seq<Attr>,
    holder: Option<Tid>, ended: bool, status: Status, message: string,
    creator: Tid, foreign: bool, published: bool, calls: seq<Call>, settled: int, endNS: Option<int64>)

  datatype Producers = Producers(
    threads: map<Tid, Thread>, spans: map<ID, Span>, ids: nat, clock: int64,
    started: nat, completed: nat, spansInFlight: int, tracesInFlight: int)

  function At(p: Producers, t: Tid): Thread {
    if t in p.threads then p.threads[t] else Idle
  }

  function Move(p: Producers, t: Tid, to: Thread): Producers {
    p.(threads := p.threads[t := to])
  }

  function MoveWith(p: Producers, t: Tid, to: Thread, id: ID, span: Span): Producers {
    p.(threads := p.threads[t := to], spans := p.spans[id := span])
  }

  function StartEvent(id: ID, span: Span): Event {
    Start(id, span.traceID, span.parentID, span.name, span.startNS, span.attrs)
  }

  function EndEvent(id: ID, span: Span, endNS: int64): Event {
    End(id, span.traceID, span.parentID, span.name, span.startNS, endNS, span.status, span.message)
  }

  datatype Local =
    | BeginStart(ctx: Context, name: string, attrs: seq<Attr>)
    | EnterFlight
    | Mint
    | CountRoot
    | Create(now: int64)
    | Publish
    | Invoke(id: ID, call: Call)
    | Lock
    | Act
    | CountCompleted
    | LeaveFlight
    | LeaveTrace
    | Stamp(now: int64)
    | Unlock

  /** Steps a thread takes on counters, clock and spans. */
  function LocalStep(p: Producers, t: Tid, a: Local): Option<Producers> {
    var at := At(p, t);
    match a
    case BeginStart(ctx, name, attrs) =>
      if at.Idle? && ContextUsable(p, ctx)
      then Some(Move(p, t, Counted(ctx, name, attrs)).(started := p.started + 1)) else None
    case EnterFlight =>
      if at.Counted?
      then Some(Move(p, t, Entered(at.ctx, at.name, at.attrs)).(spansInFlight := p.spansInFlight + 1)) else None
    case Mint =>
      if at.Entered? then
        var id := p.ids + 1;
        var to := match at.ctx
                  case NoSpan => Minted(id, id, 0, false, at.name, at.attrs, RootPending)
                  case Own(parent) =>
                    var trace := if parent in p.spans then p.spans[parent].traceID else 0;
                    Minted(id, trace, parent, false, at.name, at.attrs, NotRoot)
                  case Foreign(parent, trace) => Minted(id, trace, parent, true, at.name, at.attrs, NotRoot);
        Some(Move(p, t, to).(ids := id))
      else None
    case CountRoot =>
      if at.Minted? && at.root.RootPending?
      then Some(Move(p, t, at.(root := RootCounted)).(tracesInFlight := p.tracesInFlight + 1)) else None
    case Create(now) =>
      if at.Minted? && !at.root.RootPending? && p.clock <= now then
        var span := Span(at.traceID, at.parentID, at.name, now, at.attrs, None, false, OK, "",
                         t, at.foreign, false, [], -1, None);
        Some(MoveWith(p, t, Checking(StartEvent(at.id, span)), at.id, span).(clock := now))
      else None
    case Publish =>
      if at.Returning? && at.id in p.spans
      then Some(MoveWith(p, t, Idle, at.id, p.spans[at.id].(published := true))) else None
    case Invoke(id, call) =>
      if at.Idle? && id in p.spans && p.spans[id].published && call != SetAttrs([])
      then Some(Move(p, t, Waiting(id, call))) else None
    case Lock =>
      if at.Waiting? && at.id in p.spans && p.spans[at.id].holder.None?
      then Some(MoveWith(p, t, Locked(at.id, at.call), at.id, p.spans[at.id].(holder := Some(t)))) else None
    case Act =>
      if at.Locked? && at.id in p.spans then Some(ActOn(p, t, at.id, p.spans[at.id], at.call)) else None
    case CountCompleted =>
      if at.Ended? then Some(Move(p, t, Tallied(at.id)).(completed := p.completed + 1)) else None
    case LeaveFlight =>
      if at.Tallied? && at.id in p.spans then
        var span := p.spans[at.id];
        Some(Move(p, t, if span.parentID == 0 then Leaving(at.id) else Stamping(at.id))
             .(spansInFlight := p.spansInFlight - 1))
      else None
    case LeaveTrace =>
      if at.Leaving? && at.id in p.spans
      then Some(Move(p, t, Stamping(at.id)).(tracesInFlight := p.tracesInFlight - 1)) else None
    case Stamp(now) =>
      if at.Stamping? && at.id in p.spans && p.clock <= now
      then Some(MoveWith(p, t, Checking(EndEvent(at.id, p.spans[at.id], now)), at.id,
                         p.spans[at.id].(endNS := Some(now))).(clock := now)) else None
    case Unlock =>
      if at.Releasing? && at.id in p.spans
      then Some(MoveWith(p, t, Idle, at.id, p.spans[at.id].(holder := None))) else None
  }

  /** A context can carry a span only after the Start that made it returned. */
  predicate ContextUsable(p: Producers, ctx: Context) {
    match ctx
    case NoSpan => true
    case Own(id) => id in p.spans && p.spans[id].published
    case Foreign(id, _) => id >= 1
  }

  /** The body of a span method under the mutex, up to its send. */
  function ActOn(p: Producers, t: Tid, id: ID, span: Span, call: Call): Producers {
    var n := |span.calls| + 1;
    var seen := span.(calls := span.calls + [call]);
    if span.ended then MoveWith(p, t, Releasing(id), id, seen.(settled := n))
    else
      match call
      case SetAttrs(attrs) => MoveWith(p, t, Checking(Attrs(id, span.traceID, attrs)), id, seen)
      case Fail(status, message) =>
        MoveWith(p, t, Releasing(id), id, seen.(status := status, message := message, settled := n))
      case EndSpan => MoveWith(p, t, Ended(id), id, seen.(ended := true))
  }

  // ----- the queue -----------------------------------------------------------

  /** Why an event never got into the queue. */
  datatype Fate = Refused | Dropped | GivenUp

  datatype Unsent = Unsent(id: ID, call: int, fate: Fate)

  /** The event channel and the shutdown flags. The rest is history: everything
      ever queued, by which call of its span and by which thread, how much of it
      preceded the closed flag, the sends under way when that flag flipped, and the
      calls whose events were not queued. */
  datatype Queue = Queue(
    buffered: seq<Event>, closed: bool, stop: bool, done: bool,
    passed: nat, dropped: nat, lost: nat,
    queued: seq<Event>, origins: seq<int>, carriers: seq<Tid>,
    cut: nat, straddling: map<Tid, Event>, unsent: seq<Unsent>)

  datatype Send = CheckClosed | Enqueue | Drop | GiveUp

  /** The send is over, however it went: the caller returns or unlocks. */
  function Settle(p: Producers, t: Tid, e: Event): Producers {
    var id := e.spanID;
    if id in p.spans
    then MoveWith(p, t, if e.Start? then Returning(id) else Releasing(id), id,
                  p.spans[id].(settled := |p.spans[id].calls|))
    else p
  }

  /** Record that the latest call of the event's span queued nothing. */
  function NotSent(p: Producers, q: Queue, e: Event, fate: Fate): Queue {
    if e.spanID in p.spans
    then q.(unsent := q.unsent + [Unsent(e.spanID, |p.spans[e.spanID].calls| - 1, fate)])
    else q
  }

  function SendStep(c: Config, p: Producers, q: Queue, t: Tid, a: Send): Option<(Producers, Queue)> {
    var at := At(p, t);
    match a
    case CheckClosed =>
      if at.Checking? then
        if q.closed then Some((Settle(p, t, at.event), NotSent(p, q, at.event, Refused)))
        else Some((Move(p, t, Sending(at.event)), q.(passed := q.passed + 1)))
      else None
    case Enqueue =>
      if at.Sending? && |q.buffered| < c.capacity && at.event.spanID in p.spans then
        Some((Settle(p, t, at.event),
              q.(buffered := q.buffered + [at.event], queued := q.queued + [at.event],
                 origins := q.origins + [|p.spans[at.event.spanID].calls| - 1], carriers := q.carriers + [t])))
      else None
    case Drop =>
      if at.Sending? && !c.blocking && |q.buffered| >= c.capacity
      then Some((Settle(p, t, at.event), NotSent(p, q, at.event, Dropped).(dropped := q.dropped + 1))) else None
    case GiveUp =>
      if at.Sending? && c.blocking && q.stop
      then Some((Settle(p, t, at.event), NotSent(p, q, at.event, GivenUp).(lost := q.lost + 1))) else None
  }

  // ----- the writer ----------------------------------------------------------

  /** `final` marks the writer's stop branch. */
  datatype Stage =
    | Selecting(final: bool)
    | Filling(batch: seq<Event>, final: bool)
    | Recording(batch: seq<Event>, final: bool)
    | Delivering(batch: seq<Event>, final: bool)
    | Flushing(final: bool)
    | ClosingSink
    | Exiting
    | Exited

  /** `recorded` is every event handed to the summary, `calls` every sink call. */
  datatype Writer = Writer(
    stage: Stage, calls: seq<SinkCall>, recorded: seq<Event>,
    written: nat, failed: nat, writeErrors: nat, closeErr: Option<string>)

  datatype Write =
    | Receive
    | More
    | Enough
    | Record
    | Deliver(outcome: Outcome)
    | Tick
    | SeeStop
    | Drained
    | FlushSink(outcome: Outcome)
    | CloseSink(outcome: Outcome)
    | Exit

  function WriteStep(q: Queue, w: Writer, a: Write): Option<(Queue, Writer)> {
    var at := w.stage;
    match a
    case Receive =>
      if at.Selecting? && q.buffered != []
      then Some((q.(buffered := q.buffered[1..]), w.(stage := Filling([q.buffered[0]], at.final)))) else None
    case More =>
      if at.Filling? && |at.batch| < MAX_BATCH && q.buffered != []
      then Some((q.(buffered := q.buffered[1..]), w.(stage := Filling(at.batch + [q.buffered[0]], at.final)))) else None
    case Enough =>
      if at.Filling? && (|at.batch| >= MAX_BATCH || q.buffered == [])
      then Some((q, w.(stage := Recording(at.batch, at.final)))) else None
    case Record =>
      if at.Recording?
      then Some((q, w.(stage := Delivering(at.batch, at.final), recorded := w.recorded + at.batch))) else None
    case Deliver(outcome) =>
      if at.Delivering? then
        var n := |at.batch|;
        Some((q, w.(stage := Selecting(at.final), calls := w.calls + [WriteBatch(at.batch, outcome)],
                    written := if outcome.Ok? then w.written + n else w.written,
                    failed := if outcome.Ok? then w.failed else w.failed + n,
                    writeErrors := if outcome.Ok? then w.writeErrors else w.writeErrors + 1)))
      else None
    case Tick =>
      if at.Selecting? && !at.final then Some((q, w.(stage := Flushing(false)))) else None
    case SeeStop =>
      if at.Selecting? && !at.final && q.stop then Some((q, w.(stage := Selecting(true)))) else None
    case Drained =>
      if at.Selecting? && at.final && q.buffered == [] then Some((q, w.(stage := Flushing(true)))) else None
    case FlushSink(outcome) =>
      if at.Flushing? then
        Some((q, w.(stage := if at.final then ClosingSink else Selecting(false), calls := w.calls + [Flush(outcome)],
                    writeErrors := if outcome.Ok? then w.writeErrors else w.writeErrors + 1)))
      else None
    case CloseSink(outcome) =>
      if at.ClosingSink? then
        Some((q, w.(stage := Exiting, calls := w.calls + [Close(outcome)],
                    closeErr := if outcome.Err? then Some(outcome.error) else w.closeErr,
                    writeErrors := if outcome.Panic? then w.writeErrors + 1 else w.writeErrors)))
      else None
    case Exit =>
      if at.Exiting? then Some((q.(done := true), w.(stage := Exited))) else None
  }

  // ----- Close ---------------------------------------------------------------

  datatype Shut = Swap | CloseStop | ReturnDone | ReturnExpired

  /** Also yields what Close returned, when it did so through done. */
  function ShutStep(p: Producers, q: Queue, w: Writer, t: Tid, a: Shut)
    : Option<(Producers, Queue, seq<Option<string>>)>
  {
    var at := At(p, t);
    match a
    case Swap =>
      if at.Idle? then
        if q.closed then Some((Move(p, t, Awaiting), q, []))
        else Some((Move(p, t, Stopping), q.(closed := true, cut := |q.queued|, straddling := Senders(p)), []))
      else None
    case CloseStop =>
      if at.Stopping? then Some((Move(p, t, Awaiting), q.(stop := true), [])) else None
    case ReturnDone =>
      if at.Awaiting? && q.done then Some((Move(p, t, Idle), q, [w.closeErr])) else None
    case ReturnExpired =>
      if at.Awaiting? then Some((Move(p, t, Idle), q, [])) else None
  }

  /** The sends that have read closed as false and not finished. */
  function Senders(p: Producers): map<Tid, Event> {
    map t | t in p.threads && p.threads[t].Sending? :: p.threads[t].event
  }

  // ----- the whole -----------------------------------------------------------

  datatype State = State(p: Producers, q: Queue, w: Writer, closeResults: seq<Option<string>>)

  datatype Action =
    | OnSpan(t: Tid, local: Local)
    | OnSend(t: Tid, send: Send)
    | OnClose(t: Tid, shut: Shut)
    | OnWriter(write: Write)

  function Init(c: Config): State {
    State(Producers(map[], map[], 0, c.anchor, 0, 0, 0, 0),
          Queue([], false, false, false, 0, 0, 0, [], [], [], 0, map[], []),
          Writer(Selecting(false), [], [], 0, 0, 0, None), [])
  }

  function Step(c: Config, s: State, a: Action): Option<State> {
    match a
    case OnSpan(t, local) =>
      (match LocalStep(s.p, t, local) case None => None case Some(p) => Some(s.(p := p)))
    case OnSend(t, send) =>
      (match SendStep(c, s.p, s.q, t, send) case None => None case Some((p, q)) => Some(s.(p := p, q := q)))
    case OnClose(t, shut) =>
      (match ShutStep(s.p, s.q, s.w, t, shut)
       case None => None
       case Some((p, q, r)) => Some(s.(p := p, q := q, closeResults := s.closeResults + r)))
    case OnWriter(write) =>
      (match WriteStep(s.q, s.w, write) case None => None case Some((q, w)) => Some(s.(q := q, w := w)))
  }

  function Run(c: Config, s: State, actions: seq<Action>): Option<State> {
    if actions == [] then Some(s)
    else
      match Run(c, s, actions[..|actions| - 1])
      case None => None
      case Some(mid) => Step(c, mid, actions[|actions| - 1])
  }

  ghost predicate Reachable(c: Config, s: State) {
    exists actions :: Run(c, Init(c), actions) == Some(s)
  }
}
