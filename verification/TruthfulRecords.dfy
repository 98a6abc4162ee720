/** The tracer feeding the log sink: a record tells how its span really ended and
    carries only what the span was given while it was open. */
module TruthfulRecords {
  import opened Events
  import opened Protocol
  import opened SpanLife
  import opened EventOrder
  import opened RunHistory
  import opened Delivery
  import opened Reach
  import opened SlogSink
  import opened SlogRecords
  import opened CrossSink
  import opened TruthfulRows
  import opened TruthfulAttrs

  /** Where the Ends stand in the stream. */
  function EndPlaces(es: seq<Event>): seq<nat> {
    if es == [] then []
    else EndPlaces(es[..|es| - 1]) + (if es[|es| - 1].End? then [|es| as int - 1] else [])
  }

  lemma {:induction false} EndsArePlaced(es: seq<Event>)
    ensures Picks(es, EndPlaces(es), EndsIn(es))
  {
    if es == [] {
    } else {
      var rest, e := es[..|es| - 1], es[|es| - 1];
      EndsArePlaced(rest);
      hide Picks;
      PicksNext(rest, EndPlaces(rest), EndsIn(rest), e);
      assert rest + [e] == es && EndPlaces(rest) + [] == EndPlaces(rest) && EndsIn(rest) + [] == EndsIn(rest);
    }
  }

  /** Some event of the stream gave the attribute to the span. */
  ghost predicate GivenIn(es: seq<Event>, id: ID, a: Attr) {
    exists m :: 0 <= m < |es| && Adds(es[m], id) && a in es[m].attrs
  }

  lemma GivenStays(es: seq<Event>, e: Event, id: ID, a: Attr)
    requires GivenIn(es, id, a)
    ensures GivenIn(es + [e], id, a)
  {
    var m :| 0 <= m < |es| && Adds(es[m], id) && a in es[m].attrs;
    assert (es + [e])[m] == es[m];
  }

  lemma GivenLast(es: seq<Event>, e: Event, a: Attr)
    requires Adds(e, e.spanID) && a in e.attrs
    ensures GivenIn(es + [e], e.spanID, a)
  {
    assert (es + [e])[|es|] == e;
  }

  lemma MergeAddsNothing(attrs: seq<Attr>, a: Attr)
    requires a in Merge(attrs)
    ensures a in attrs
  {
    var i :| 0 <= i < |Merge(attrs)| && Merge(attrs)[i] == a;
    var l := MergedWasGiven(attrs, i);
  }

  /** What the open map holds for a span was given to it. */
  lemma {:induction false} OpenWasGiven(es: seq<Event>, id: ID, a: Attr)
    requires id in ObserveAll(IDLE, es).open && a in ObserveAll(IDLE, es).open[id]
    ensures GivenIn(es, id, a)
  {
    if es == [] {
    } else {
      hide GivenIn;
      var rest, e := es[..|es| - 1], es[|es| - 1];
      assert rest + [e] == es;
      var g := ObserveAll(IDLE, rest);
      if Adds(e, id) && a in e.attrs {
        GivenLast(rest, e, a);
      } else {
        assert id in g.open && a in g.open[id];
        OpenWasGiven(rest, id, a);
        GivenStays(rest, e, id, a);
      }
    }
  }

  lemma {:induction false} RecordWasGiven(es: seq<Event>, i: nat, a: Attr)
    requires i < |ObserveAll(IDLE, es).records| && a in ObserveAll(IDLE, es).records[i].attrs
    ensures GivenIn(es, ObserveAll(IDLE, es).records[i].spanID, a)
  {
    if es == [] {
    } else {
      hide GivenIn, Merge;
      var rest, e := es[..|es| - 1], es[|es| - 1];
      assert rest + [e] == es;
      var g := ObserveAll(IDLE, rest);
      var id := ObserveAll(IDLE, es).records[i].spanID;
      if i < |g.records| {
        RecordWasGiven(rest, i, a);
      } else {
        MergeAddsNothing(g.open[id], a);
        OpenWasGiven(rest, id, a);
      }
      GivenStays(rest, e, id, a);
    }
  }

  /** The records of everything delivered so far. */
  function Records(s: State): seq<Record> {
    ObserveAll(IDLE, Delivered(s.w.calls)).records
  }

  /** One record for each End delivered, in delivery order; each span has at most
      one, under its minted identity, with its own duration and the verdict of the
      last Fail before its first End; and every attribute in it was given to the
      span by a call that found it open. */
  lemma RecordsAreTruthful(c: Config, s: State, i: nat)
    requires Reachable(c, s) && i < |Records(s)|
    ensures var ends := EndsIn(Delivered(s.w.calls));
            && |Records(s)| == |ends| && Reports(Records(s)[i], ends[i])
            && ends[i].spanID in s.p.spans
            && var span := s.p.spans[ends[i].spanID];
            && AsRun(c, s, ends[i].spanID)
            && ends[i].name == span.name && ends[i].traceID == span.traceID && ends[i].startNS == span.startNS
            && span.endNS == Some(ends[i].endNS) && (ends[i].status, ends[i].error) == Verdict(span.calls)
            && forall a :: a in Records(s)[i].attrs ==> Offered(span, a)
    ensures forall j :: 0 <= j < i ==> Records(s)[j].spanID != Records(s)[i].spanID
  {
    hide Reachable, Delivered, ObserveAll, Verdict, EndPlaces, EndsIn, Offered, Reports, AsRun;
    var es := Delivered(s.w.calls);
    var ends, at := EndsIn(es), EndPlaces(es);
    OneRecordPerEnd(es);
    ReportsIDs(es, i);
    EndsArePlaced(es);
    DeliveredIsQueued(c, s);
    QueueIsStrictlyOrdered(c, s);
    QueuedEventsAreTrue(c, s, at[i]);
    assert s.q.queued[at[i]] == ends[i];
    EndIsStamped(c, s, at[i]);
    forall a | a in Records(s)[i].attrs
      ensures Offered(s.p.spans[ends[i].spanID], a)
    {
      RecordWasGiven(es, i, a);
      GivenWasOffered(c, s, ends[i].spanID, a);
    }
    forall j | 0 <= j < i
      ensures Records(s)[j].spanID != Records(s)[i].spanID
    {
      ReportsIDs(es, j);
      assert s.q.queued[at[j]] == ends[j] && at[j] < at[i];
    }
  }

  lemma ReportsIDs(es: seq<Event>, i: nat)
    requires i < |ObserveAll(IDLE, es).records|
    ensures |EndsIn(es)| == |ObserveAll(IDLE, es).records|
    ensures ObserveAll(IDLE, es).records[i].spanID == EndsIn(es)[i].spanID
  {
    hide ObserveAll, EndsIn;
    OneRecordPerEnd(es);
  }

  lemma EndIsStamped(c: Config, s: State, i: nat)
    requires Reachable(c, s) && i < |s.q.queued| && s.q.queued[i].End?
    ensures s.q.queued[i].spanID in s.p.spans && s.p.spans[s.q.queued[i].spanID].endNS == Some(s.q.queued[i].endNS)
  {
    hide Good;
    var actions :| Run(c, Init(c), actions) == Some(s);
    RunTraced(c, actions, s);
    assert Comes(s.p, s.q.queued[i], s.q.origins[i]);
  }

  lemma DeliveredIsQueued(c: Config, s: State)
    requires Reachable(c, s)
    ensures Delivered(s.w.calls) <= s.q.queued
    ensures forall i :: 0 <= i < |Delivered(s.w.calls)| ==> s.q.queued[i] == Delivered(s.w.calls)[i]
  {
    hide Reachable, Delivered;
    DeliveryIsFirstInFirstOut(c, s);
  }

  /** Some call, or the Start, gave the attribute to the span while it was open. */
  ghost predicate Offered(span: Span, a: Attr) {
    exists k: int :: GivesWhileOpen(span, k) && a in GivenBy(span, k)
  }

  lemma GivenWasOffered(c: Config, s: State, id: ID, a: Attr)
    requires Reachable(c, s) && GivenIn(Delivered(s.w.calls), id, a)
    ensures id in s.p.spans && Offered(s.p.spans[id], a)
  {
    hide Reachable, Delivered, Verdict;
    var es := Delivered(s.w.calls);
    var m :| 0 <= m < |es| && Adds(es[m], id) && a in es[m].attrs;
    DeliveredIsQueued(c, s);
    QueuedEventsAreTrue(c, s, m);
    var k := s.q.origins[m];
    assert GivesWhileOpen(s.p.spans[id], k) && a in GivenBy(s.p.spans[id], k);
  }
}
