/** The tracer feeding the SQLite sink: whatever is dropped on the way and
    whichever flushes fail, the rows that make it tell the truth. */
module TruthfulRows {
  import opened Events
  import opened Tables
  import opened RowMeaning
  import opened Protocol
  import opened SpanLife
  import opened EventOrder
  import opened RunHistory
  import opened Delivery
  import opened Reach
  import opened SqliteSink

  /** Where in the delivered stream the committed events, and the ones still
      pending, stand. */
  function Positions(log: seq<SinkCall>): (seq<nat>, seq<nat>) {
    if log == [] then ([], [])
    else
      var before := log[..|log| - 1];
      var (committed, window) := Positions(before);
      match log[|log| - 1]
      case WriteBatch(events, _) =>
        var n := |Delivered(before)|;
        (committed, window + seq(|events|, i requires 0 <= i < |events| => n + i))
      case Flush(outcome) => (if outcome.Ok? then committed + window else committed, [])
      case Close(_) => (committed, window)
  }

  /** at lists increasing positions of stream and part holds what stands there. */
  ghost predicate Picks(stream: seq<Event>, at: seq<nat>, part: seq<Event>) {
    && |at| == |part|
    && (forall i :: 0 <= i < |at| ==> at[i] < |stream| && stream[at[i]] == part[i])
    && (forall i, j :: 0 <= i < j < |at| ==> at[i] < at[j])
  }

  /** What is committed or pending was delivered, in delivery order. */
  lemma {:induction false} CommittedIsPicked(log: seq<SinkCall>)
    ensures var (c, w) := Positions(log);
            Picks(Delivered(log), c + w, Windows(log).0 + Windows(log).1) && |c| == |Windows(log).0|
  {
    if log == [] {
    } else {
      var before, call := log[..|log| - 1], log[|log| - 1];
      CommittedIsPicked(before);
      var (c, w) := Positions(before);
      var (es, ws) := Windows(before);
      match call {
        case WriteBatch(events, _) =>
          PicksMore(Delivered(before), c, w, es, ws, events);
        case Flush(outcome) =>
          if outcome.Ok? {
            assert (c + w) + [] == c + w && (es + ws) + [] == es + ws;
          } else {
            PicksFewer(Delivered(before), c, w, es, ws);
            assert c + [] == c && es + [] == es;
          }
        case Close(_) =>
      }
    }
  }

  lemma PicksMore(stream: seq<Event>, c: seq<nat>, w: seq<nat>, es: seq<Event>, ws: seq<Event>, events: seq<Event>)
    requires Picks(stream, c + w, es + ws)
    ensures var more := seq(|events|, i requires 0 <= i < |events| => |stream| + i);
            Picks(stream + events, c + (w + more), es + (ws + events))
  {
    var more := seq(|events|, i requires 0 <= i < |events| => |stream| + i);
    assert c + (w + more) == (c + w) + more && es + (ws + events) == (es + ws) + events;
  }

  lemma PicksNext(stream: seq<Event>, at: seq<nat>, part: seq<Event>, e: Event)
    requires Picks(stream, at, part)
    ensures Picks(stream + [e], at, part) && Picks(stream + [e], at + [|stream|], part + [e])
  {
  }

  lemma PicksFewer(stream: seq<Event>, c: seq<nat>, w: seq<nat>, es: seq<Event>, ws: seq<Event>)
    requires Picks(stream, c + w, es + ws) && |c| == |es|
    ensures Picks(stream, c, es)
  {
    assert forall i :: 0 <= i < |c| ==> (c + w)[i] == c[i] && (es + ws)[i] == es[i];
  }

  /** Each committed event is a queued event, and order is kept. */
  lemma CommittedAreQueued(c: Config, s: State)
    requires Reachable(c, s)
    ensures Picks(s.q.queued, Positions(s.w.calls).0, Committed(s.w.calls))
    ensures StrictOrder(Committed(s.w.calls))
  {
    DeliveryIsFirstInFirstOut(c, s);
    QueueIsStrictlyOrdered(c, s);
    CommittedIsPicked(s.w.calls);
    hide Delivered, Windows, Positions, Reachable;
    var (at, w) := Positions(s.w.calls);
    var es, stream, queued := Committed(s.w.calls), Delivered(s.w.calls), s.q.queued;
    PicksFewer(stream, at, w, es, Windows(s.w.calls).1);
    assert forall i :: 0 <= i < |stream| ==> queued[i] == stream[i];
    forall i, j | 0 <= i < j < |es| && es[i].spanID == es[j].spanID
      ensures !es[j].Start? && !es[i].End?
    {
      assert queued[at[i]] == es[i] && queued[at[j]] == es[j] && at[i] < at[j];
    }
  }

  /** The row a span deserves once its Start or End is durable: the minted
      identity, and the end only if the End is durable too. */
  function Deserved(span: Span, ended: bool): SpanCells
    requires ended ==> span.endNS.Some?
  {
    SpanCells(span.traceID, if span.parentID != 0 then Some(span.parentID) else None, span.name, span.startNS,
              if ended && span.endNS.value != 0 then Some(span.endNS.value) else None,
              if ended then StatusCode(span.status) else 0,
              if ended && span.message != "" then Some(span.message) else None)
  }

  ghost predicate StartIn(es: seq<Event>, id: ID) { exists i :: 0 <= i < |es| && es[i].Start? && es[i].spanID == id }
  ghost predicate EndIn(es: seq<Event>, id: ID) { exists i :: 0 <= i < |es| && es[i].End? && es[i].spanID == id }

  /** In a strictly ordered stream a span's row is decided by its End if that is
      there and by its Start otherwise. */
  lemma OrderedRow(es: seq<Event>, id: ID, k: nat)
    requires StrictOrder(es) && k < |es| && Writes(es[k], id) && (es[k].Start? ==> !EndIn(es, id))
    ensures id in ApplyAll(EMPTY, es).spans
    ensures exists f :: 0 <= f <= k && Writes(es[f], id)
              && ApplyAll(EMPTY, es).spans[id] == Completed(CellsOf(RowOf(es[f])), CellsOf(RowOf(es[k])))
  {
    forall i | k < i < |es|
      ensures !Writes(es[i], id)
    {
    }
    var f := FirstWriter(es, id, k);
    RowColumns(es, id, f, k);
  }

  lemma FirstWriter(es: seq<Event>, id: ID, k: nat) returns (f: nat)
    requires k < |es| && Writes(es[k], id)
    ensures f <= k && Writes(es[f], id) && forall i :: 0 <= i < f ==> !Writes(es[i], id)
  {
    f := 0;
    while !Writes(es[f], id)
      invariant f <= k && forall i :: 0 <= i < f ==> !Writes(es[i], id)
      decreases k - f
    {
      f := f + 1;
    }
  }

  /** A committed Start or End makes the row its span's identity calls for. */
  lemma CommittedCells(c: Config, s: State, i: nat)
    requires Reachable(c, s) && i < |Committed(s.w.calls)|
    requires Committed(s.w.calls)[i].Start? || Committed(s.w.calls)[i].End?
    ensures var e := Committed(s.w.calls)[i];
            && e.spanID in s.p.spans
            && var span := s.p.spans[e.spanID];
            && (e.End? ==> span.endNS.Some? && (span.status, span.message) == Verdict(span.calls))
            && CellsOf(RowOf(e)) == Deserved(span, e.End?)
  {
    CommittedAreQueued(c, s);
    var at := Positions(s.w.calls).0;
    QueuedEventsAreTrue(c, s, at[i]);
    var actions :| Run(c, Init(c), actions) == Some(s);
    RunTraced(c, actions, s);
    assert Comes(s.p, s.q.queued[at[i]], s.q.origins[at[i]]);
  }

  /** A span has a row exactly if its Start or its End was committed, and the row
      is the one it deserves: identity as minted, an end time, status and error
      only if the End was committed, and those are the verdict of the last Fail
      that took the mutex before the first End. The span behind it is what the
      run's callers asked for. */
  ghost predicate TruthfulRow(c: Config, s: State, t: Tables, id: ID) {
    var es := Committed(s.w.calls);
    && (id in t.spans <==> StartIn(es, id) || EndIn(es, id))
    && (id in t.spans ==>
        && id in s.p.spans && AsRun(c, s, id)
        && var span := s.p.spans[id];
        && (EndIn(es, id) ==> span.endNS.Some? && (span.status, span.message) == Verdict(span.calls))
        && t.spans[id] == Deserved(span, EndIn(es, id))
        && (t.spans[id].status == 1 <==> EndIn(es, id) && Verdict(span.calls).0 == Error)
        && (t.spans[id].status == 2 <==> EndIn(es, id) && Verdict(span.calls).0 == Canceled)
        && (t.spans[id].status == 0 <==> !EndIn(es, id) || Verdict(span.calls).0 == OK))
  }

  lemma RowIsDeserved(c: Config, s: State, db: File, id: ID)
    requires Reachable(c, s) && Join(db) == ApplyAll(EMPTY, Committed(s.w.calls))
    ensures var es := Committed(s.w.calls);
            && (id in Join(db).spans <==> StartIn(es, id) || EndIn(es, id))
            && (id in Join(db).spans ==>
                && id in s.p.spans
                && var span := s.p.spans[id];
                && (EndIn(es, id) ==> span.endNS.Some? && (span.status, span.message) == Verdict(span.calls))
                && Join(db).spans[id] == Deserved(span, EndIn(es, id)))
  {
    var es := Committed(s.w.calls);
    CommittedAreQueued(c, s);
    RowExists(es, id);
    hide Reachable, Join, Verdict, Deserved, ApplyAll, Committed, CellsOf;
    if StartIn(es, id) || EndIn(es, id) {
      var k: nat;
      if EndIn(es, id) {
        k :| 0 <= k < |es| && es[k].End? && es[k].spanID == id;
      } else {
        k :| 0 <= k < |es| && es[k].Start? && es[k].spanID == id;
      }
      assert Writes(es[k], id);
      OrderedRow(es, id, k);
      var f :| 0 <= f <= k && Writes(es[f], id)
               && ApplyAll(EMPTY, es).spans[id] == Completed(CellsOf(RowOf(es[f])), CellsOf(RowOf(es[k])));
      CommittedCells(c, s, f);
      CommittedCells(c, s, k);
      SameIdentity(s.p.spans[id], es[f].End?, es[k].End?);
    }
  }

  lemma StatusNumbers(span: Span, ended: bool)
    requires ended ==> span.endNS.Some? && (span.status, span.message) == Verdict(span.calls)
    ensures var status := Deserved(span, ended).status;
            && (status == 1 <==> ended && Verdict(span.calls).0 == Error)
            && (status == 2 <==> ended && Verdict(span.calls).0 == Canceled)
            && (status == 0 <==> !ended || Verdict(span.calls).0 == OK)
  {
    hide Verdict;
  }

  /** The file written for a tracer in any reachable state, row by row. */
  lemma RowsAreTruthful(c: Config, s: State, db: File, id: ID)
    requires Reachable(c, s) && Join(db) == ApplyAll(EMPTY, Committed(s.w.calls))
    ensures TruthfulRow(c, s, Join(db), id)
  {
    hide Reachable, Join, Verdict, Deserved, ApplyAll, Committed, AsRun;
    RowIsDeserved(c, s, db, id);
    SpansAreAsRun(c, s, id);
    if id in Join(db).spans {
      StatusNumbers(s.p.spans[id], EndIn(Committed(s.w.calls), id));
    }
  }

  lemma SameIdentity(span: Span, a: bool, b: bool)
    requires a || b ==> span.endNS.Some?
    ensures Completed(Deserved(span, a), Deserved(span, b)) == Deserved(span, b)
  {
  }

  /** "end_ns IS NULL" means exactly "no committed End": running, crashed, dropped
      or lost in a failed commit. */
  ghost predicate TruthfulEnd(s: State, t: Tables, id: ID) {
    id in t.spans ==>
      && (t.spans[id].endNS.Some? <==> EndIn(Committed(s.w.calls), id))
      && (t.spans[id].endNS.Some? ==> t.spans[id].startNS <= t.spans[id].endNS.value)
  }

  /** So it is with a clock past the epoch. */
  lemma NullEndMeansNoEnd(c: Config, s: State, db: File, id: ID)
    requires Reachable(c, s) && c.anchor > 0 && Join(db) == ApplyAll(EMPTY, Committed(s.w.calls))
    ensures TruthfulEnd(s, Join(db), id)
  {
    if id in Join(db).spans { EndOfRow(c, s, db, id); }
  }

  lemma EndOfRow(c: Config, s: State, db: File, id: ID)
    requires Reachable(c, s) && c.anchor > 0 && Join(db) == ApplyAll(EMPTY, Committed(s.w.calls))
    requires id in Join(db).spans
    ensures Join(db).spans[id].endNS.Some? <==> EndIn(Committed(s.w.calls), id)
    ensures Join(db).spans[id].endNS.Some? ==> Join(db).spans[id].startNS <= Join(db).spans[id].endNS.value
  {
    RowsAreTruthful(c, s, db, id);
    var actions :| Run(c, Init(c), actions) == Some(s);
    RunTraced(c, actions, s);
    assert SpanOK(s.p, c.anchor, id);
    hide Join, Committed, Verdict, Run;
  }
}
