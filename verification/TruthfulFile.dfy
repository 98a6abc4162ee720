/** The tracer and the SQLite sink put together: the file the sink writes when it
    serves the writer's calls tells the truth about the tracer's spans. */
module TruthfulFile {
  import opened Events
  import opened Tables
  import opened Coalescing
  import opened SqliteSink
  import opened Protocol
  import opened CrossSink
  import opened TruthfulRows
  import opened TruthfulAttrs

  /** The sink's part of a writer's call history: all of it, or all but the final
      Close. */
  ghost predicate Served(calls: seq<SinkCall>, log: seq<SinkCall>) {
    calls == log || exists outcome :: calls == log + [Close(outcome)]
  }

  lemma CloseCommitsNothing(calls: seq<SinkCall>, log: seq<SinkCall>)
    requires Served(calls, log)
    ensures Committed(calls) == Committed(log)
  {
    if calls != log {
      var outcome :| calls == log + [Close(outcome)];
      WindowsSnoc(log, Close(outcome));
    }
  }

  /** All a file can be asked to say about the tracer in state s. */
  ghost predicate Truthful(c: Config, s: State, t: Tables) {
    && (forall id :: TruthfulRow(c, s, t, id))
    && (c.anchor > 0 ==> forall id :: TruthfulEnd(s, t, id))
    && (forall id, path :: TruthfulAttr(c, s, t, id, path))
  }

  lemma CommittedTablesAreTruthful(c: Config, s: State, db: File)
    requires Reachable(c, s) && Join(db) == ApplyAll(EMPTY, Committed(s.w.calls))
    ensures Truthful(c, s, Join(db))
  {
    hide Reachable, Join, ApplyAll, Committed, TruthfulRow, TruthfulEnd;
    forall id
      ensures TruthfulRow(c, s, Join(db), id)
    {
      RowsAreTruthful(c, s, db, id);
    }
    if c.anchor > 0 {
      forall id
        ensures TruthfulEnd(s, Join(db), id)
      {
        NullEndMeansNoEnd(c, s, db, id);
      }
    }
    forall id, path
      ensures TruthfulAttr(c, s, Join(db), id, path)
    {
      AttrIsBacked(c, s, db, id, path);
    }
  }

  lemma AttrIsBacked(c: Config, s: State, db: File, id: ID, path: string)
    requires Reachable(c, s) && Join(db) == ApplyAll(EMPTY, Committed(s.w.calls))
    ensures TruthfulAttr(c, s, Join(db), id, path)
  {
    hide Reachable, Join, ApplyAll, Committed, Lookup, Gives;
    if (id, path) in Join(db).attrs {
      var i, k := AttrsAreTruthful(c, s, db, id, path);
      assert Backs(s, Join(db), id, path, i, k);
    }
  }

  /** The sink, driven any way the driver lets it be: if what it answered is what
      the writer of a reachable tracer got, the file is truthful about that tracer. */
  method WriteTrace(requests: seq<Request>, ghost c: Config, ghost s: State)
    returns (db: File, cache: map<string, ID>, log: seq<SinkCall>)
    requires Reachable(c, s)
    ensures AnswersAll(log, requests) && Resolved(db) && NamesAgree(db.names, cache)
    ensures Served(s.w.calls, log) ==> Truthful(c, s, Join(db))
  {
    hide Reachable, Join, ApplyAll, Committed, AnswersAll, Resolved, NamesAgree, Truthful, Served;
    db, cache, log := Materialize(requests);
    if Served(s.w.calls, log) {
      CloseCommitsNothing(s.w.calls, log);
      CommittedTablesAreTruthful(c, s, db);
    }
  }

  // ----- every history the sink can give is served ---------------------------------------

  /** A history this sink can give: it takes every batch, never panics, and fails a
      Flush only when it has something to write. */
  ghost predicate Possible(calls: seq<SinkCall>) {
    forall i :: 0 <= i < |calls| ==> PossibleCall(calls[i], calls[..i])
  }

  ghost predicate PossibleCall(call: SinkCall, before: seq<SinkCall>) {
    match call
    case WriteBatch(_, outcome) => outcome.Ok?
    case Flush(outcome) =>
      var p := AbsorbAll(NOTHING, Windows(before).1);
      outcome.Ok? || (outcome.Err? && (p.rows != [] || p.attrs != []))
    case Close(_) => false
  }

  /** The request that such a call answers: a batch, or a commit that the driver
      serves or refuses. */
  ghost function RequestFor(call: SinkCall, before: seq<SinkCall>): Request {
    var p := AbsorbAll(NOTHING, Windows(before).1);
    if call.WriteBatch? then Request.Deliver(call.events)
    else Commit(Driver(call.outcome.Ok?, 3 * |p.rows| + |p.attrs| + 2, true))
  }

  /** For every such history there are requests that make any run of the sink commit
      exactly what the history commits. */
  lemma {:induction false} HistoriesCanBeDriven(calls: seq<SinkCall>) returns (requests: seq<Request>)
    requires Possible(calls)
    ensures forall log :: AnswersAll(log, requests) ==> Windows(log) == Windows(calls)
    ensures |requests| == |calls|
  {
    hide Possible, PossibleCall, RequestFor;
    if calls == [] {
      requests := [];
    } else {
      hide AnswersAll, Windows;
      var before, call := calls[..|calls| - 1], calls[|calls| - 1];
      assert before + [call] == calls;
      PossibleBefore(before, call);
      var earlier := HistoriesCanBeDriven(before);
      requests := earlier + [RequestFor(call, before)];
      forall log | AnswersAll(log, requests)
        ensures Windows(log) == Windows(calls)
      {
        DrivenFurther(before, call, earlier, log);
      }
    }
  }

  lemma PossibleBefore(before: seq<SinkCall>, call: SinkCall)
    requires Possible(before + [call])
    ensures Possible(before) && PossibleCall(call, before)
  {
    hide PossibleCall;
    var calls := before + [call];
    assert calls[..|before|] == before && calls[|before|] == call;
    forall i | 0 <= i < |before|
      ensures PossibleCall(before[i], before[..i])
    {
      assert calls[i] == before[i] && calls[..i] == before[..i];
    }
  }

  lemma DrivenFurther(before: seq<SinkCall>, call: SinkCall, earlier: seq<Request>, log: seq<SinkCall>)
    requires PossibleCall(call, before) && AnswersAll(log, earlier + [RequestFor(call, before)])
    requires forall l :: AnswersAll(l, earlier) ==> Windows(l) == Windows(before)
    ensures Windows(log) == Windows(before + [call])
  {
    hide Windows;
    var n := |earlier|;
    var request, shorter := RequestFor(call, before), log[..n];
    assert forall i :: 0 <= i < n ==> shorter[..i] == log[..i] && (earlier + [request])[i] == earlier[i];
    assert AnswersAll(shorter, earlier) by { hide Answers; }
    assert (earlier + [request])[n] == request;
    assert Answers(log[n], request, shorter);
    assert log == shorter + [log[n]];
    WindowsSnoc(shorter, log[n]);
    WindowsSnoc(before, call);
  }

  /** So a truthful file is there for every reachable tracer whose sink answered as
      this sink can: the requests below bring it about, however they are answered. */
  lemma EveryTraceCanBeWritten(c: Config, s: State, log: seq<SinkCall>) returns (requests: seq<Request>)
    requires Reachable(c, s) && Served(s.w.calls, log) && Possible(log)
    ensures forall l, db ::
      AnswersAll(l, requests) && Join(db) == ApplyAll(EMPTY, Committed(l)) ==> Truthful(c, s, Join(db))
  {
    hide Reachable, Join, ApplyAll, AnswersAll, Truthful, Possible, Served, Windows;
    requests := HistoriesCanBeDriven(log);
    forall l, db | AnswersAll(l, requests) && Join(db) == ApplyAll(EMPTY, Committed(l))
      ensures Truthful(c, s, Join(db))
    {
      CloseCommitsNothing(s.w.calls, log);
      CommittedTablesAreTruthful(c, s, db);
    }
  }
}
