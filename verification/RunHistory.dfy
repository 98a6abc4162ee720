/** What an observer of a run's actions alone can say about its spans: who asked
    for them and how, which calls took effect in which order, and the clock readings
    at their start and end. The tracer's state agrees with that observer. */
module RunHistory {
  import opened Events
  import opened Protocol
  import opened SpanLife

  // ----- the observer --------------------------------------------------------------

  /** The call on spans a thread made last. */
  function LastCall(actions: seq<Action>, t: Tid): Option<Local> {
    if actions == [] then None
    else
      match actions[|actions| - 1]
      case OnSpan(u, local) =>
        if u == t && (local.BeginStart? || local.Invoke?) then Some(local)
        else LastCall(actions[..|actions| - 1], t)
      case _ => LastCall(actions[..|actions| - 1], t)
  }

  /** The thread has taken a mutex since it made its last call. */
  predicate LockedSince(actions: seq<Action>, t: Tid) {
    if actions == [] then false
    else
      match actions[|actions| - 1]
      case OnSpan(u, local) =>
        if u == t && (local.BeginStart? || local.Invoke?) then false
        else (u == t && local.Lock?) || LockedSince(actions[..|actions| - 1], t)
      case _ => LockedSince(actions[..|actions| - 1], t)
  }

  /** How many ids have been minted. */
  function Mints(actions: seq<Action>): nat {
    if actions == [] then 0
    else
      var before, a := actions[..|actions| - 1], actions[|actions| - 1];
      Mints(before) + (if a.OnSpan? && a.local.Mint? then 1 else 0)
  }

  /** The id a thread minted last: ids count up from 1. */
  function LastMint(actions: seq<Action>, t: Tid): ID {
    if actions == [] then 0
    else
      var before, a := actions[..|actions| - 1], actions[|actions| - 1];
      if a == OnSpan(t, Mint) then Mints(before) + 1 else LastMint(before, t)
  }

  /** A span as its Start asked for it, and the clock reading that Start took. */
  datatype Birth = Birth(creator: Tid, ctx: Context, name: string, attrs: seq<Attr>, startNS: int64)

  function BirthOf(actions: seq<Action>, id: ID): Option<Birth> {
    if actions == [] then None
    else
      var before, a := actions[..|actions| - 1], actions[|actions| - 1];
      if a.OnSpan? && a.local.Create? && LastMint(before, a.t) == id then
        match LastCall(before, a.t)
        case Some(BeginStart(ctx, name, attrs)) => Some(Birth(a.t, ctx, name, attrs, a.local.now))
        case _ => None
      else BirthOf(before, id)
  }

  /** The calls on a span in the order they took effect, each under its mutex. */
  function CallsIn(actions: seq<Action>, id: ID): seq<Call> {
    if actions == [] then []
    else
      var before, a := actions[..|actions| - 1], actions[|actions| - 1];
      if a.OnSpan? && a.local.Act? && LockedSince(before, a.t) then
        match LastCall(before, a.t)
        case Some(Invoke(k, call)) => if k == id then CallsIn(before, id) + [call] else CallsIn(before, id)
        case _ => CallsIn(before, id)
      else CallsIn(before, id)
  }

  /** The clock reading taken by an End of the span, inside its mutex. */
  function EndStamp(actions: seq<Action>, id: ID): Option<int64> {
    if actions == [] then None
    else
      var before, a := actions[..|actions| - 1], actions[|actions| - 1];
      if a.OnSpan? && a.local.Stamp? && LastCall(before, a.t) == Some(Invoke(id, EndSpan)) && LockedSince(before, a.t)
      then Some(a.local.now)
      else EndStamp(before, id)
  }

  // ----- the state agrees --------------------------------------------------------------

  /** Parent and trace are what the context asked for: none makes the span the
      root of its own trace, one of this tracer's spans makes it that span's child
      in that span's trace, and a foreign one is taken as it comes. */
  ghost predicate Fits(p: Producers, ctx: Context, id: ID, traceID: ID, parentID: ID, foreign: bool) {
    match ctx
    case NoSpan => traceID == id && parentID == 0 && !foreign
    case Own(q) => q in p.spans && parentID == q && traceID == p.spans[q].traceID && !foreign
    case Foreign(q, trace) => parentID == q && traceID == trace && foreign
  }

  /** A thread in the middle of a call is carrying out the call it made last. */
  ghost predicate ThreadTold(actions: seq<Action>, p: Producers, t: Tid) {
    var last := LastCall(actions, t);
    match At(p, t)
    case Counted(ctx, name, attrs) => last == Some(BeginStart(ctx, name, attrs))
    case Entered(ctx, name, attrs) => last == Some(BeginStart(ctx, name, attrs))
    case Minted(id, trace, parent, foreign, name, attrs, _) =>
      && last.Some? && last.value.BeginStart? && last.value.name == name && last.value.attrs == attrs
      && LastMint(actions, t) == id && Fits(p, last.value.ctx, id, trace, parent, foreign)
    case Waiting(id, call) => last == Some(Invoke(id, call)) && call != SetAttrs([])
    case Locked(id, call) => last == Some(Invoke(id, call)) && call != SetAttrs([]) && LockedSince(actions, t)
    case Ended(id) => last == Some(Invoke(id, EndSpan)) && LockedSince(actions, t)
    case Tallied(id) => last == Some(Invoke(id, EndSpan)) && LockedSince(actions, t)
    case Leaving(id) => last == Some(Invoke(id, EndSpan)) && LockedSince(actions, t)
    case Stamping(id) => last == Some(Invoke(id, EndSpan)) && LockedSince(actions, t)
    case _ => true
  }

  /** The span is what the run's calls and clock readings make it. */
  ghost predicate Recounts(actions: seq<Action>, p: Producers, id: ID) {
    var birth := BirthOf(actions, id);
    && (id in p.spans <==> birth.Some?)
    && (id in p.spans ==>
        && var span := p.spans[id];
        && span.creator == birth.value.creator && span.name == birth.value.name && span.attrs == birth.value.attrs
        && span.startNS == birth.value.startNS
        && Fits(p, birth.value.ctx, id, span.traceID, span.parentID, span.foreign)
        && span.calls == CallsIn(actions, id) && SetAttrs([]) !in span.calls
        && span.endNS == EndStamp(actions, id))
    && (id !in p.spans ==> CallsIn(actions, id) == [] && EndStamp(actions, id) == None)
  }

  ghost predicate Told(actions: seq<Action>, p: Producers) {
    && p.ids == Mints(actions)
    && (forall t :: t in p.threads ==> ThreadTold(actions, p, t))
    && (forall id :: Recounts(actions, p, id))
  }

  // ----- every step keeps it ------------------------------------------------------------

  lemma ObserveOne(actions: seq<Action>, a: Action)
    ensures (actions + [a])[..|actions + [a]| - 1] == actions && (actions + [a])[|actions + [a]| - 1] == a
  {
  }

  /** Actions that say nothing about any span. */
  predicate Silent(a: Action) {
    !a.OnSpan? || a.local in {EnterFlight, CountRoot, CountCompleted, LeaveFlight, LeaveTrace, Publish, Lock, Unlock}
  }

  lemma SilentlyObserved(actions: seq<Action>, a: Action)
    requires Silent(a)
    ensures Mints(actions + [a]) == Mints(actions)
    ensures forall t :: LastCall(actions + [a], t) == LastCall(actions, t)
    ensures forall t :: LastMint(actions + [a], t) == LastMint(actions, t)
    ensures forall t :: LockedSince(actions + [a], t) == (LockedSince(actions, t) || a == OnSpan(t, Lock))
    ensures forall id :: BirthOf(actions + [a], id) == BirthOf(actions, id)
    ensures forall id :: CallsIn(actions + [a], id) == CallsIn(actions, id)
    ensures forall id :: EndStamp(actions + [a], id) == EndStamp(actions, id)
  {
    ObserveOne(actions, a);
  }

  ghost predicate OnlyMoves(p: Producers, r: Producers, t: Tid) {
    r.threads == p.threads || (t in r.threads && r.threads == p.threads[t := r.threads[t]])
  }

  /** What a step may do to threads and spans while nothing is observed. */
  ghost predicate Unobserved(p: Producers, r: Producers, t: Tid) {
    && r.ids == p.ids && OnlyMoves(p, r, t)
    && r.spans.Keys == p.spans.Keys
    && forall id :: id in p.spans ==>
      && Evolves(p.spans[id], r.spans[id])
      && r.spans[id].calls == p.spans[id].calls && r.spans[id].endNS == p.spans[id].endNS
  }

  lemma FitsStays(p: Producers, r: Producers, ctx: Context, id: ID, traceID: ID, parentID: ID, foreign: bool)
    requires Fits(p, ctx, id, traceID, parentID, foreign) && AllEvolve(p, r)
    ensures Fits(r, ctx, id, traceID, parentID, foreign)
  {
  }

  lemma ThreadToldStays(actions: seq<Action>, p: Producers, r: Producers, longer: seq<Action>, u: Tid)
    requires ThreadTold(actions, p, u) && At(r, u) == At(p, u) && AllEvolve(p, r)
    requires LastCall(longer, u) == LastCall(actions, u) && LastMint(longer, u) == LastMint(actions, u)
    requires LockedSince(longer, u) == LockedSince(actions, u)
    ensures ThreadTold(longer, r, u)
  {
    hide LastCall, LastMint, LockedSince;
  }

  lemma RecountsStays(actions: seq<Action>, p: Producers, r: Producers, longer: seq<Action>, id: ID)
    requires Recounts(actions, p, id) && AllEvolve(p, r) && (id in r.spans ==> id in p.spans)
    requires id in p.spans ==> r.spans[id].calls == p.spans[id].calls && r.spans[id].endNS == p.spans[id].endNS
    requires BirthOf(longer, id) == BirthOf(actions, id) && CallsIn(longer, id) == CallsIn(actions, id)
    requires EndStamp(longer, id) == EndStamp(actions, id)
    ensures Recounts(longer, r, id)
  {
    hide BirthOf, CallsIn, EndStamp;
    if id in p.spans { assert Evolves(p.spans[id], r.spans[id]); }
  }

  lemma SilentTold(actions: seq<Action>, p: Producers, a: Action, t: Tid, r: Producers)
    requires Told(actions, p) && Silent(a) && Unobserved(p, r, t) && (a.OnSpan? ==> a.t == t)
    requires ThreadTold(actions + [a], r, t)
    ensures Told(actions + [a], r)
  {
    SilentlyObserved(actions, a);
    hide LastCall, LastMint, LockedSince, Mints, BirthOf, CallsIn, EndStamp, Evolves;
    assert AllEvolve(p, r);
    forall u | u in r.threads
      ensures ThreadTold(actions + [a], r, u)
    {
      if u != t { ThreadToldStays(actions, p, r, actions + [a], u); }
    }
    forall id
      ensures Recounts(actions + [a], r, id)
    {
      RecountsStays(actions, p, r, actions + [a], id);
    }
  }

  /** The same for an action the observer does take note of, given what it does to
      thread t and to span id. */
  lemma LoudTold(actions: seq<Action>, p: Producers, a: Action, t: Tid, id: ID, r: Producers)
    requires Told(actions, p) && AllEvolve(p, r) && OnlyMoves(p, r, t)
    requires r.ids == Mints(actions + [a]) && ThreadTold(actions + [a], r, t) && Recounts(actions + [a], r, id)
    requires forall u :: u != t ==>
               && LastCall(actions + [a], u) == LastCall(actions, u)
               && LastMint(actions + [a], u) == LastMint(actions, u)
               && LockedSince(actions + [a], u) == LockedSince(actions, u)
    requires forall k :: k != id ==> (k in r.spans <==> k in p.spans) && (k in p.spans ==> r.spans[k] == p.spans[k])
    requires forall k :: k != id ==>
               && BirthOf(actions + [a], k) == BirthOf(actions, k) && CallsIn(actions + [a], k) == CallsIn(actions, k)
               && EndStamp(actions + [a], k) == EndStamp(actions, k)
    ensures Told(actions + [a], r)
  {
    hide LastCall, LastMint, LockedSince, Mints, BirthOf, CallsIn, EndStamp, Evolves;
    forall u | u in r.threads
      ensures ThreadTold(actions + [a], r, u)
    {
      if u != t { ThreadToldStays(actions, p, r, actions + [a], u); }
    }
    forall k
      ensures Recounts(actions + [a], r, k)
    {
      if k != id { RecountsStays(actions, p, r, actions + [a], k); }
    }
  }

  /** What the observer makes of one more action: only its thread's last call and
      mint, and only one span, can look different. */
  lemma Observed(actions: seq<Action>, t: Tid, local: Local)
    ensures var a := OnSpan(t, local);
            && (forall u :: u != t ==> LastCall(actions + [a], u) == LastCall(actions, u)
                                       && LastMint(actions + [a], u) == LastMint(actions, u)
                                       && LockedSince(actions + [a], u) == LockedSince(actions, u))
            && (!local.BeginStart? && !local.Invoke? && LockedSince(actions, t) ==> LockedSince(actions + [a], t))
            && LastCall(actions + [a], t) ==
               (if local.BeginStart? || local.Invoke? then Some(local) else LastCall(actions, t))
            && LastMint(actions + [a], t) == (if local.Mint? then Mints(actions) + 1 else LastMint(actions, t))
            && Mints(actions + [a]) == Mints(actions) + (if local.Mint? then 1 else 0)
            && (forall k :: !(local.Create? && LastMint(actions, t) == k) ==>
                  BirthOf(actions + [a], k) == BirthOf(actions, k))
            && (forall k :: !(local.Act? && CallOn(LastCall(actions, t), k)) ==>
                  CallsIn(actions + [a], k) == CallsIn(actions, k))
            && (forall k :: !(local.Stamp? && LastCall(actions, t) == Some(Invoke(k, EndSpan))) ==>
                  EndStamp(actions + [a], k) == EndStamp(actions, k))
  {
    ObserveOne(actions, OnSpan(t, local));
  }

  predicate CallOn(last: Option<Local>, id: ID) {
    last.Some? && last.value.Invoke? && last.value.id == id
  }

  lemma CallTold(actions: seq<Action>, p: Producers, t: Tid, a: Local, r: Producers)
    requires Told(actions, p) && LocalStep(p, t, a) == Some(r) && (a.BeginStart? || a.Invoke?)
    ensures Told(actions + [OnSpan(t, a)], r)
  {
    Observed(actions, t, a);
    hide LastCall, LastMint, LockedSince, Mints, BirthOf, CallsIn, EndStamp, Evolves;
    assert AllEvolve(p, r) by { EvolvesItself(p, r); }
    RecountsStays(actions, p, r, actions + [OnSpan(t, a)], 0);
    LoudTold(actions, p, OnSpan(t, a), t, 0, r);
  }

  lemma EvolvesItself(p: Producers, r: Producers)
    requires r.spans == p.spans
    ensures AllEvolve(p, r)
  {
  }

  lemma MintTold(c: Config, actions: seq<Action>, p: Producers, t: Tid, r: Producers)
    requires Good(c, p) && Told(actions, p) && LocalStep(p, t, Mint) == Some(r)
    ensures Told(actions + [OnSpan(t, Mint)], r)
  {
    OwnFacts(c, p, t, 0);
    Observed(actions, t, Mint);
    hide Good, LastCall, LastMint, LockedSince, Mints, BirthOf, CallsIn, EndStamp, Evolves;
    assert AllEvolve(p, r) by { EvolvesItself(p, r); }
    assert ThreadTold(actions, p, t);
    RecountsStays(actions, p, r, actions + [OnSpan(t, Mint)], 0);
    LoudTold(actions, p, OnSpan(t, Mint), t, 0, r);
  }

  lemma CreateShape(c: Config, p: Producers, t: Tid, a: Local, r: Producers)
    requires Good(c, p) && LocalStep(p, t, a) == Some(r) && a.Create?
    ensures At(p, t).Minted? && At(p, t).id !in p.spans && r.ids == p.ids && OnlyMoves(p, r, t) && At(r, t).Checking?
    ensures var at := At(p, t);
            && at.id in r.spans && r.spans == p.spans[at.id := r.spans[at.id]]
            && var span := r.spans[at.id];
            && span.creator == t && span.name == at.name && span.attrs == at.attrs && span.startNS == a.now
            && span.traceID == at.traceID && span.parentID == at.parentID && span.foreign == at.foreign
            && span.calls == [] && span.endNS == None
  {
    hide Good;
    OwnFacts(c, p, t, 0);
  }

  lemma CreateObserved(actions: seq<Action>, t: Tid, now: int64, ctx: Context, name: string, attrs: seq<Attr>)
    requires LastCall(actions, t) == Some(BeginStart(ctx, name, attrs))
    ensures BirthOf(actions + [OnSpan(t, Create(now))], LastMint(actions, t)) == Some(Birth(t, ctx, name, attrs, now))
  {
    ObserveOne(actions, OnSpan(t, Create(now)));
  }

  lemma CreateTold(c: Config, actions: seq<Action>, p: Producers, t: Tid, a: Local, r: Producers)
    requires Good(c, p) && Told(actions, p) && LocalStep(p, t, a) == Some(r) && a.Create?
    ensures Told(actions + [OnSpan(t, a)], r)
  {
    hide Good, Told, LocalStep, LastCall, LastMint, LockedSince, Mints, BirthOf, CallsIn, EndStamp, AllEvolve;
    CreateShape(c, p, t, a, r);
    var at := At(p, t);
    var id := at.id;
    CreateKeeps(c, p, t, a, r);
    OwnTold(actions, p, t, id);
    Observed(actions, t, a);
    var last := LastCall(actions, t).value;
    CreateObserved(actions, t, a.now, last.ctx, last.name, last.attrs);
    FitsStays(p, r, last.ctx, id, at.traceID, at.parentID, at.foreign);
    assert Recounts(actions + [OnSpan(t, a)], r, id);
    hide Recounts;
    LoudTold(actions, p, OnSpan(t, a), t, id, r);
  }

  /** A span whose calls or end time the observer just saw change. */
  lemma RecountsAnew(actions: seq<Action>, p: Producers, longer: seq<Action>, r: Producers, id: ID)
    requires Recounts(actions, p, id) && AllEvolve(p, r) && id in p.spans && BirthOf(longer, id) == BirthOf(actions, id)
    requires id in r.spans && r.spans[id].calls == CallsIn(longer, id) && r.spans[id].endNS == EndStamp(longer, id)
    requires SetAttrs([]) !in r.spans[id].calls
    ensures Recounts(longer, r, id)
  {
    hide BirthOf, CallsIn, EndStamp;
    assert Evolves(p.spans[id], r.spans[id]);
  }

  /** Thread t changes one span it is inside of, and nothing else. */
  ghost predicate OnlyChanges(p: Producers, r: Producers, t: Tid, id: ID) {
    && r.ids == p.ids && OnlyMoves(p, r, t) && id in p.spans && id in r.spans && r.spans == p.spans[id := r.spans[id]]
  }

  lemma ActShape(p: Producers, t: Tid, r: Producers)
    requires LocalStep(p, t, Act) == Some(r)
    ensures At(p, t).Locked? && OnlyChanges(p, r, t, At(p, t).id)
    ensures r.spans[At(p, t).id].calls == p.spans[At(p, t).id].calls + [At(p, t).call]
    ensures r.spans[At(p, t).id].endNS == p.spans[At(p, t).id].endNS
    ensures At(r, t).Checking? || At(r, t).Releasing? || (At(r, t) == Ended(At(p, t).id) && At(p, t).call.EndSpan?)
  {
  }

  lemma StampShape(p: Producers, t: Tid, a: Local, r: Producers)
    requires LocalStep(p, t, a) == Some(r) && a.Stamp?
    ensures At(p, t).Stamping? && OnlyChanges(p, r, t, At(p, t).id)
    ensures r.spans[At(p, t).id].calls == p.spans[At(p, t).id].calls && r.spans[At(p, t).id].endNS == Some(a.now)
    ensures At(r, t).Checking?
  {
  }

  lemma OwnTold(actions: seq<Action>, p: Producers, t: Tid, id: ID)
    requires Told(actions, p)
    ensures t in p.threads ==> ThreadTold(actions, p, t)
    ensures Recounts(actions, p, id) && p.ids == Mints(actions)
  {
    hide ThreadTold, Recounts, Mints;
  }

  lemma ActObserved(actions: seq<Action>, t: Tid, id: ID, call: Call)
    requires LastCall(actions, t) == Some(Invoke(id, call)) && LockedSince(actions, t)
    ensures CallsIn(actions + [OnSpan(t, Act)], id) == CallsIn(actions, id) + [call]
  {
    ObserveOne(actions, OnSpan(t, Act));
  }

  lemma StampObserved(actions: seq<Action>, t: Tid, id: ID, now: int64)
    requires LastCall(actions, t) == Some(Invoke(id, EndSpan)) && LockedSince(actions, t)
    ensures EndStamp(actions + [OnSpan(t, Stamp(now))], id) == Some(now)
  {
    ObserveOne(actions, OnSpan(t, Stamp(now)));
  }

  lemma ActTold(c: Config, actions: seq<Action>, p: Producers, t: Tid, r: Producers)
    requires Good(c, p) && Told(actions, p) && LocalStep(p, t, Act) == Some(r)
    ensures Told(actions + [OnSpan(t, Act)], r)
  {
    hide Good, Told, LocalStep, LastCall, LastMint, LockedSince, Mints, BirthOf, CallsIn, EndStamp, AllEvolve;
    ActShape(p, t, r);
    var id, longer := At(p, t).id, actions + [OnSpan(t, Act)];
    ActKeeps(c, p, t, r);
    OwnTold(actions, p, t, id);
    Observed(actions, t, Act);
    ActObserved(actions, t, id, At(p, t).call);
    RecountsHas(actions, p, id);
    RecountsAnew(actions, p, longer, r, id);
    hide Recounts;
    LoudTold(actions, p, OnSpan(t, Act), t, id, r);
  }

  lemma RecountsHas(actions: seq<Action>, p: Producers, id: ID)
    requires Recounts(actions, p, id) && id in p.spans
    ensures SetAttrs([]) !in p.spans[id].calls
    ensures p.spans[id].calls == CallsIn(actions, id) && p.spans[id].endNS == EndStamp(actions, id)
  {
    hide BirthOf, CallsIn, EndStamp;
  }

  lemma StampTold(c: Config, actions: seq<Action>, p: Producers, t: Tid, a: Local, r: Producers)
    requires Good(c, p) && Told(actions, p) && LocalStep(p, t, a) == Some(r) && a.Stamp?
    ensures Told(actions + [OnSpan(t, a)], r)
  {
    hide Good, Told, LocalStep, LastCall, LastMint, LockedSince, Mints, BirthOf, CallsIn, EndStamp, AllEvolve;
    StampShape(p, t, a, r);
    var id, longer := At(p, t).id, actions + [OnSpan(t, a)];
    StampKeeps(c, p, t, a, r);
    OwnTold(actions, p, t, id);
    Observed(actions, t, a);
    StampObserved(actions, t, id, a.now);
    RecountsHas(actions, p, id);
    RecountsAnew(actions, p, longer, r, id);
    hide Recounts;
    LoudTold(actions, p, OnSpan(t, a), t, id, r);
  }

  lemma SilentShape(p: Producers, t: Tid, a: Local, r: Producers)
    requires LocalStep(p, t, a) == Some(r) && Silent(OnSpan(t, a))
    ensures Unobserved(p, r, t) && !At(p, t).Idle?
  {
  }

  lemma SilentThread(actions: seq<Action>, p: Producers, t: Tid, a: Local, r: Producers)
    requires LocalStep(p, t, a) == Some(r) && Silent(OnSpan(t, a))
    requires t in p.threads ==> ThreadTold(actions, p, t)
    ensures ThreadTold(actions + [OnSpan(t, a)], r, t)
  {
    SilentlyObserved(actions, OnSpan(t, a));
    hide LastCall, LastMint, LockedSince;
  }

  lemma SilentLocalTold(actions: seq<Action>, p: Producers, t: Tid, a: Local, r: Producers)
    requires Told(actions, p) && LocalStep(p, t, a) == Some(r) && Silent(OnSpan(t, a))
    ensures Told(actions + [OnSpan(t, a)], r)
  {
    hide Told, LocalStep, ThreadTold, Unobserved, LastCall, LastMint, LockedSince, Mints, BirthOf, CallsIn, EndStamp;
    OwnTold(actions, p, t, 0);
    SilentShape(p, t, a, r);
    SilentThread(actions, p, t, a, r);
    SilentTold(actions, p, OnSpan(t, a), t, r);
  }

  lemma SendShape(c: Config, p: Producers, q: Queue, t: Tid, a: Send, r: Producers, q': Queue)
    requires SendStep(c, p, q, t, a) == Some((r, q')) && At(p, t).event.spanID in p.spans
    ensures OnlyChanges(p, r, t, At(p, t).event.spanID)
    ensures r.spans[At(p, t).event.spanID].calls == p.spans[At(p, t).event.spanID].calls
    ensures r.spans[At(p, t).event.spanID].endNS == p.spans[At(p, t).event.spanID].endNS
    ensures At(r, t).Sending? || At(r, t).Returning? || At(r, t).Releasing?
  {
  }

  lemma SendTold(c: Config, actions: seq<Action>, p: Producers, q: Queue, t: Tid, a: Send, r: Producers, q': Queue)
    requires Good(c, p) && Told(actions, p) && SendStep(c, p, q, t, a) == Some((r, q'))
    ensures Told(actions + [OnSend(t, a)], r)
  {
    hide Good, SendStep, Told, LastCall, LastMint, LockedSince, Mints, BirthOf, CallsIn, EndStamp, Evolves, ThreadOK;
    SendKeeps(c, p, q, t, a, r, q');
    OffersKnown(c, p, q, t, a);
    SendShape(c, p, q, t, a, r, q');
    SilentTold(actions, p, OnSend(t, a), t, r);
  }

  lemma OffersKnown(c: Config, p: Producers, q: Queue, t: Tid, a: Send)
    requires Good(c, p) && SendStep(c, p, q, t, a).Some?
    ensures (At(p, t).Checking? || At(p, t).Sending?) && At(p, t).event.spanID in p.spans
  {
    hide Good;
    OwnFacts(c, p, t, 0);
  }

  lemma ShutTold(c: Config, actions: seq<Action>, p: Producers, q: Queue, w: Writer, t: Tid, a: Shut)
    requires Told(actions, p) && ShutStep(p, q, w, t, a).Some?
    ensures Told(actions + [OnClose(t, a)], ShutStep(p, q, w, t, a).value.0)
  {
    hide LastCall, LastMint, LockedSince, Mints, BirthOf, CallsIn, EndStamp, Senders;
    SilentTold(actions, p, OnClose(t, a), t, ShutStep(p, q, w, t, a).value.0);
  }

  lemma WriteTold(actions: seq<Action>, p: Producers, a: Write)
    requires Told(actions, p)
    ensures Told(actions + [OnWriter(a)], p)
  {
    hide Told, LastCall, LastMint, LockedSince, Mints, BirthOf, CallsIn, EndStamp;
    OwnTold(actions, p, 0, 0);
    SilentlyObserved(actions, OnWriter(a));
    ThreadToldStays(actions, p, p, actions + [OnWriter(a)], 0);
    SilentTold(actions, p, OnWriter(a), 0, p);
  }

  lemma StepTold(c: Config, actions: seq<Action>, s: State, a: Action, r: State)
    requires Good(c, s.p) && Told(actions, s.p) && Step(c, s, a) == Some(r)
    ensures Told(actions + [a], r.p)
  {
    hide Good, Told, LocalStep, SendStep, ShutStep, WriteStep;
    match a {
      case OnSpan(t, local) =>
        match local {
          case BeginStart(_, _, _) => CallTold(actions, s.p, t, local, r.p);
          case Invoke(_, _) => CallTold(actions, s.p, t, local, r.p);
          case Mint => MintTold(c, actions, s.p, t, r.p);
          case Create(_) => CreateTold(c, actions, s.p, t, local, r.p);
          case Act => ActTold(c, actions, s.p, t, r.p);
          case Stamp(_) => StampTold(c, actions, s.p, t, local, r.p);
          case _ => SilentLocalTold(actions, s.p, t, local, r.p);
        }
      case OnSend(t, send) => SendTold(c, actions, s.p, s.q, t, send, r.p, r.q);
      case OnClose(t, shut) => ShutTold(c, actions, s.p, s.q, s.w, t, shut);
      case OnWriter(write) => WriteTold(actions, s.p, write);
    }
  }

  // ----- runs ---------------------------------------------------------------------------------

  /** In any run the tracer's spans are exactly what its callers asked for: which
      exist, their ids, names, attributes, parents and traces, the calls on them in
      the order these took effect, and the clock readings of start and end. */
  lemma {:induction false} RunIsTold(c: Config, actions: seq<Action>, s: State)
    requires Run(c, Init(c), actions) == Some(s)
    ensures Good(c, s.p) && Told(actions, s.p)
    decreases |actions|
  {
    if actions == [] {
    } else {
      var before, a := actions[..|actions| - 1], actions[|actions| - 1];
      var mid := Run(c, Init(c), before).value;
      RunIsTold(c, before, mid);
      hide Told, Good, Step, AllEvolve;
      StepTold(c, before, mid, a, s);
      StepKeepsGood(c, mid, a, s);
      assert before + [a] == actions;
    }
  }

  /** Whichever run led here, the span is what that run's callers asked for. */
  ghost predicate AsRun(c: Config, s: State, id: ID) {
    forall actions :: Run(c, Init(c), actions) == Some(s) ==> Recounts(actions, s.p, id)
  }

  lemma SpansAreAsRun(c: Config, s: State, id: ID)
    ensures AsRun(c, s, id)
  {
    hide Recounts, Run, Good;
    forall actions | Run(c, Init(c), actions) == Some(s)
      ensures Recounts(actions, s.p, id)
    {
      RunIsTold(c, actions, s);
    }
  }

  // ----- the clock --------------------------------------------------------------------------------

  /** The clock reading a step takes, if it takes one. */
  function Reading(a: Action): Option<int64> {
    match a
    case OnSpan(_, Create(now)) => Some(now)
    case OnSpan(_, Stamp(now)) => Some(now)
    case _ => None
  }

  lemma ReadingMovesClock(c: Config, s: State, a: Action, r: State)
    requires Step(c, s, a) == Some(r)
    ensures s.p.clock <= r.p.clock && (Reading(a).Some? ==> s.p.clock <= Reading(a).value == r.p.clock)
  {
    hide Senders;
  }

  lemma {:induction false} ReadingsAreBehind(c: Config, actions: seq<Action>, s: State, i: nat)
    requires Run(c, Init(c), actions) == Some(s) && i < |actions| && Reading(actions[i]).Some?
    ensures Reading(actions[i]).value <= s.p.clock
    decreases |actions|
  {
    hide Step, Reading;
    var before, a := actions[..|actions| - 1], actions[|actions| - 1];
    var mid := Run(c, Init(c), before).value;
    ReadingMovesClock(c, mid, a, s);
    if i < |before| { ReadingsAreBehind(c, before, mid, i); }
  }

  /** Readings never go back. */
  lemma {:induction false} ReadingsGoForward(c: Config, actions: seq<Action>, s: State, i: nat, j: nat)
    requires Run(c, Init(c), actions) == Some(s) && i < j < |actions|
    requires Reading(actions[i]).Some? && Reading(actions[j]).Some?
    ensures Reading(actions[i]).value <= Reading(actions[j]).value
    decreases |actions|
  {
    hide Step, Reading;
    var before, a := actions[..|actions| - 1], actions[|actions| - 1];
    var mid := Run(c, Init(c), before).value;
    if j < |before| {
      ReadingsGoForward(c, before, mid, i, j);
    } else {
      ReadingsAreBehind(c, before, mid, i);
      ReadingMovesClock(c, mid, a, s);
    }
  }

  lemma {:induction false} LastCallAt(actions: seq<Action>, t: Tid) returns (i: nat)
    requires LastCall(actions, t).Some?
    ensures i < |actions| && actions[i] == OnSpan(t, LastCall(actions, t).value)
    ensures forall j :: i < j < |actions| && actions[j].OnSpan? && actions[j].t == t ==>
              !actions[j].local.BeginStart? && !actions[j].local.Invoke?
  {
    var before, a := actions[..|actions| - 1], actions[|actions| - 1];
    if a.OnSpan? && a.t == t && (a.local.BeginStart? || a.local.Invoke?) {
      i := |actions| - 1;
    } else {
      i := LastCallAt(before, t);
    }
  }

  lemma {:induction false} LockedAt(actions: seq<Action>, t: Tid, i: nat) returns (l: nat)
    requires LockedSince(actions, t) && i < |actions|
    requires actions[i].OnSpan? && actions[i].t == t && (actions[i].local.BeginStart? || actions[i].local.Invoke?)
    ensures i < l < |actions| && actions[l] == OnSpan(t, Lock)
  {
    if actions[|actions| - 1] == OnSpan(t, Lock) {
      l := |actions| - 1;
    } else {
      l := LockedAt(actions[..|actions| - 1], t, i);
    }
  }

  /** An End's time is read inside that End: the thread invokes EndSpan on the span,
      makes no other call, takes the mutex, and then takes the reading that becomes
      the end time. */
  lemma {:induction false} EndStampAt(actions: seq<Action>, id: ID) returns (t: Tid, i: nat, l: nat, m: nat)
    requires EndStamp(actions, id).Some?
    ensures i < l < m < |actions| && actions[i] == OnSpan(t, Invoke(id, EndSpan)) && actions[l] == OnSpan(t, Lock)
    ensures actions[m] == OnSpan(t, Stamp(EndStamp(actions, id).value))
    ensures forall j :: i < j < m && actions[j].OnSpan? && actions[j].t == t ==>
              !actions[j].local.BeginStart? && !actions[j].local.Invoke?
  {
    var before, a := actions[..|actions| - 1], actions[|actions| - 1];
    if a.OnSpan? && a.local.Stamp? && LastCall(before, a.t) == Some(Invoke(id, EndSpan)) && LockedSince(before, a.t) {
      t, m := a.t, |actions| - 1;
      i := LastCallAt(before, t);
      l := LockedAt(before, t, i);
      assert forall j :: 0 <= j < |before| ==> before[j] == actions[j];
    } else {
      t, i, l, m := EndStampAt(before, id);
      assert forall j :: 0 <= j < |before| ==> before[j] == actions[j];
    }
  }

  lemma {:induction false} BirthAt(actions: seq<Action>, id: ID) returns (k: nat)
    requires BirthOf(actions, id).Some?
    ensures k < |actions|
    ensures actions[k] == OnSpan(BirthOf(actions, id).value.creator, Create(BirthOf(actions, id).value.startNS))
  {
    var before, a := actions[..|actions| - 1], actions[|actions| - 1];
    if a.OnSpan? && a.local.Create? && LastMint(before, a.t) == id {
      k := |actions| - 1;
    } else {
      k := BirthAt(before, id);
    }
  }

  /** Times order what happened: the end time of a span is one of the clock readings
      of the run, taken after its End took the mutex, and no earlier than any reading
      taken before that, the start of every span created by then included. */
  lemma EndTimeIsReadInItsEnd(c: Config, actions: seq<Action>, s: State, id: ID)
    returns (t: Tid, i: nat, l: nat, m: nat)
    requires Run(c, Init(c), actions) == Some(s) && id in s.p.spans && s.p.spans[id].endNS.Some?
    ensures i < l < m < |actions| && actions[i] == OnSpan(t, Invoke(id, EndSpan)) && actions[l] == OnSpan(t, Lock)
    ensures actions[m] == OnSpan(t, Stamp(s.p.spans[id].endNS.value))
    ensures forall j :: 0 <= j < m && Reading(actions[j]).Some? ==>
              Reading(actions[j]).value <= s.p.spans[id].endNS.value
  {
    hide Run, Recounts, Reading, EndStamp, BirthOf, CallsIn, Good;
    RunIsTold(c, actions, s);
    OwnTold(actions, s.p, 0, id);
    RecountsHas(actions, s.p, id);
    t, i, l, m := EndStampAt(actions, id);
    StampIsReading(actions[m]);
    forall j | 0 <= j < m && Reading(actions[j]).Some?
      ensures Reading(actions[j]).value <= s.p.spans[id].endNS.value
    {
      ReadingsGoForward(c, actions, s, j, m);
    }
  }

  lemma StampIsReading(a: Action)
    ensures a.OnSpan? && a.local.Stamp? ==> Reading(a) == Some(a.local.now)
    ensures a.OnSpan? && a.local.Create? ==> Reading(a) == Some(a.local.now)
  {
  }

  /** In particular a span created before another one's End was invoked started no
      later than that other one ended. */
  lemma StartedBeforeEnded(c: Config, actions: seq<Action>, k: nat, s: State, a: ID, b: ID)
    requires k <= |actions| && Run(c, Init(c), actions) == Some(s)
    requires b in s.p.spans && BirthOf(actions[..k], b) == BirthOf(actions, b)
    requires a in s.p.spans && s.p.spans[a].endNS.Some?
    requires forall j :: 0 <= j < k ==> !(actions[j].OnSpan? && actions[j].local == Invoke(a, EndSpan))
    ensures s.p.spans[b].startNS <= s.p.spans[a].endNS.value
  {
    hide Run, Reading, EndStamp, BirthOf, CallsIn, Good;
    var t, i, l, m := EndTimeIsReadInItsEnd(c, actions, s, a);
    RunIsTold(c, actions, s);
    OwnTold(actions, s.p, 0, b);
    var n := BirthAt(actions[..k], b);
    assert actions[..k][n] == actions[n];
    StampIsReading(actions[n]);
  }
}
