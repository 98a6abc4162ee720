/** What the log sink's records are worth: bounded state on any stream, one
    record per End in stream order, and complete attributes exactly while the
    spans in flight fit under the cap. */
module SlogRecords {
  import opened Events
  import opened SlogSink

  predicate Adds(e: Event, id: ID) {
    (e.Start? || e.Attrs?) && e.spanID == id
  }

  predicate Ends(e: Event, id: ID) {
    e.End? && e.spanID == id
  }

  // ----- on any stream ----------------------------------------------------------

  /** However many Ends are lost, the open map stays within its cap. */
  lemma {:induction false} OpenIsBounded(es: seq<Event>)
    ensures |ObserveAll(IDLE, es).open| <= 65536
  {
    if es == [] {
    } else {
      var rest, e := es[..|es| - 1], es[|es| - 1];
      OpenIsBounded(rest);
      var g := ObserveAll(IDLE, rest);
      if e.End? { RemovingShrinks(g.open, e.spanID); }
    }
  }

  lemma RemovingShrinks(m: map<ID, seq<Attr>>, id: ID)
    ensures |m - {id}| <= |m|
  {
    if id in m {
      assert m == (m - {id})[id := m[id]];
    } else {
      assert m == m - {id};
    }
  }

  function EndsIn(es: seq<Event>): (ends: seq<Event>)
    ensures forall i :: 0 <= i < |ends| ==> ends[i].End?
  {
    if es == [] then []
    else EndsIn(es[..|es| - 1]) + (if es[|es| - 1].End? then [es[|es| - 1]] else [])
  }

  /** What a record says about its span's End, attributes aside. */
  ghost predicate Reports(r: Record, e: Event)
    requires e.End?
  {
    && r.message == e.name && r.spanID == e.spanID && r.traceID == e.traceID && r.status == e.status
    && (-TWO_63 <= e.endNS - e.startNS < TWO_63 ==> r.duration == e.endNS - e.startNS)
    && (r.level.Failure? <==> e.status.Error?) && (r.level.Warn? <==> e.status.Canceled?)
    && (r.error == None <==> e.error == "") && (r.error.Some? ==> r.error.value == e.error)
  }

  /** Every End becomes exactly one record, in stream order, whatever was lost
      before it; only the gathered attributes may be missing. */
  lemma {:induction false} OneRecordPerEnd(es: seq<Event>)
    ensures var records, ends := ObserveAll(IDLE, es).records, EndsIn(es);
            |records| == |ends| && forall i :: 0 <= i < |ends| ==> Reports(records[i], ends[i])
  {
    if es == [] {
    } else {
      OneRecordPerEnd(es[..|es| - 1]);
    }
  }

  /** An open entry was added to after the last End of its span. */
  lemma {:induction false} OpenWasAddedTo(es: seq<Event>, id: ID) returns (i: nat)
    requires id in ObserveAll(IDLE, es).open
    ensures i < |es| && Adds(es[i], id) && forall j :: i < j < |es| ==> !Ends(es[j], id)
  {
    var rest, e := es[..|es| - 1], es[|es| - 1];
    if Adds(e, id) { i := |es| - 1; } else { i := OpenWasAddedTo(rest, id); }
  }

  /** An End is the last its span shows, and the first End. */
  lemma EndIsLast(es: seq<Event>, k: nat)
    requires StrictOrder(es) && k < |es| && es[k].End?
    ensures forall i :: k < i < |es| ==> es[i].spanID != es[k].spanID
    ensures forall i :: 0 <= i < k ==> !Ends(es[i], es[k].spanID)
  {
  }

  /** With each span's events in order, no entry survives its span's End. */
  lemma NoEntryOutlivesItsEnd(es: seq<Event>, k: nat)
    requires StrictOrder(es) && k < |es| && es[k].End?
    ensures es[k].spanID !in ObserveAll(IDLE, es).open
  {
    hide ObserveAll, StrictOrder;
    var id := es[k].spanID;
    assert Ends(es[k], id);
    EndIsLast(es, k);
    if id in ObserveAll(IDLE, es).open {
      var i := OpenWasAddedTo(es, id);
    }
  }

  // ----- without the cap ------------------------------------------------------------

  /** The attributes a span was given since its last End, if it was begun at all. */
  function Since(es: seq<Event>, id: ID): Option<seq<Attr>> {
    if es == [] then None
    else
      var before, e := Since(es[..|es| - 1], id), es[|es| - 1];
      if Adds(e, id) then Some(Given(before) + e.attrs)
      else if Ends(e, id) then None
      else before
  }

  function Given(a: Option<seq<Attr>>): seq<Attr> {
    if a.Some? then a.value else []
  }

  /** The spans in flight: begun and not ended since. */
  function Live(es: seq<Event>): set<ID> {
    if es == [] then {}
    else
      var before, e := Live(es[..|es| - 1]), es[|es| - 1];
      if e.Start? || e.Attrs? then before + {e.spanID} else if e.End? then before - {e.spanID} else before
  }

  lemma {:induction false} LiveIsBegun(es: seq<Event>, id: ID)
    ensures id in Live(es) <==> Since(es, id).Some?
  {
    if es == [] {
    } else {
      LiveIsBegun(es[..|es| - 1], id);
    }
  }

  /** Never more spans in flight than the cap. */
  ghost predicate Room(es: seq<Event>) {
    forall n :: 0 <= n <= |es| ==> |Live(es[..n])| <= 65536
  }

  /** Every span in flight is tracked with all it was given. */
  ghost predicate Exact(open: map<ID, seq<Attr>>, es: seq<Event>) {
    forall id :: (id in open <==> Since(es, id).Some?) && (id in open ==> open[id] == Since(es, id).value)
  }

  lemma ExactHasLiveKeys(open: map<ID, seq<Attr>>, es: seq<Event>)
    requires Exact(open, es)
    ensures open.Keys == Live(es) && |open| == |Live(es)|
  {
    forall id
      ensures id in open.Keys <==> id in Live(es)
    {
      LiveIsBegun(es, id);
    }
    assert open.Keys == Live(es);
    assert |open| == |open.Keys|;
  }

  lemma {:induction false} RoomMakesExact(es: seq<Event>)
    requires Room(es)
    ensures Exact(ObserveAll(IDLE, es).open, es)
  {
    if es == [] {
    } else {
      var rest, e := es[..|es| - 1], es[|es| - 1];
      assert forall n :: 0 <= n <= |rest| ==> rest[..n] == es[..n];
      RoomMakesExact(rest);
      assert rest + [e] == es == es[..|es|];
      ObservedExactly(rest, e);
    }
  }

  lemma ObservedExactly(rest: seq<Event>, e: Event)
    requires Exact(ObserveAll(IDLE, rest).open, rest)
    requires |Live(rest + [e])| <= MAX_OPEN
    ensures Exact(ObserveAll(IDLE, rest + [e]).open, rest + [e])
  {
    var g := ObserveAll(IDLE, rest);
    assert (rest + [e])[..|rest|] == rest;
    NotSkipped(g, rest, e);
    assert ObserveAll(IDLE, rest + [e]) == Observe(g, e);
    hide Live, ObserveAll, Observe, Since;
    forall id
      ensures id in Observe(g, e).open <==> Since(rest + [e], id).Some?
      ensures id in Observe(g, e).open ==> Observe(g, e).open[id] == Since(rest + [e], id).value
    {
      ObservedFor(g, rest, e, id);
    }
  }

  /** The event adds to the open map without meeting the cap. */
  ghost predicate Fits(g: Gathered, e: Event) {
    (e.Start? || e.Attrs?) && e.spanID !in g.open ==> |g.open| < MAX_OPEN
  }

  lemma NotSkipped(g: Gathered, rest: seq<Event>, e: Event)
    requires Exact(g.open, rest) && |Live(rest + [e])| <= MAX_OPEN
    ensures Fits(g, e)
  {
    ExactHasLiveKeys(g.open, rest);
    hide Exact;
    assert (rest + [e])[..|rest|] == rest;
    if (e.Start? || e.Attrs?) && e.spanID !in g.open {
      assert Live(rest + [e]) == Live(rest) + {e.spanID};
    }
  }

  lemma ObservedFor(g: Gathered, rest: seq<Event>, e: Event, id: ID)
    requires Fits(g, e)
    requires (id in g.open <==> Since(rest, id).Some?) && (id in g.open ==> g.open[id] == Since(rest, id).value)
    ensures id in Observe(g, e).open <==> Since(rest + [e], id).Some?
    ensures id in Observe(g, e).open ==> Observe(g, e).open[id] == Since(rest + [e], id).value
  {
    assert (rest + [e])[..|rest|] == rest;
  }

  /** The cap costs nothing if and only if the spans in flight always fit. */
  lemma ExactIffRoom(es: seq<Event>)
    ensures Room(es) <==> forall n :: 0 <= n <= |es| ==> Exact(ObserveAll(IDLE, es[..n]).open, es[..n])
  {
    hide Exact, ObserveAll, Live;
    if Room(es) {
      forall n | 0 <= n <= |es|
        ensures Exact(ObserveAll(IDLE, es[..n]).open, es[..n])
      {
        assert forall m :: 0 <= m <= n ==> es[..n][..m] == es[..m];
        RoomMakesExact(es[..n]);
      }
    } else {
      var n :| 0 <= n <= |es| && |Live(es[..n])| > MAX_OPEN;
      OpenIsBounded(es[..n]);
      if Exact(ObserveAll(IDLE, es[..n]).open, es[..n]) {
        ExactHasLiveKeys(ObserveAll(IDLE, es[..n]).open, es[..n]);
      }
    }
  }

  /** The records a sink without a cap would emit. */
  function RecordsOf(es: seq<Event>): seq<Record> {
    if es == [] then []
    else
      var rest, e := es[..|es| - 1], es[|es| - 1];
      RecordsOf(rest) + (if e.End? then [RecordFor(e, Merge(Given(Since(rest, e.spanID))))] else [])
  }

  lemma {:induction false} RoomMakesCompleteRecords(es: seq<Event>)
    requires Room(es)
    ensures ObserveAll(IDLE, es).records == RecordsOf(es)
  {
    if es == [] {
    } else {
      var rest := es[..|es| - 1];
      assert forall n :: 0 <= n <= |rest| ==> rest[..n] == es[..n];
      RoomMakesCompleteRecords(rest);
      RoomMakesExact(rest);
      assert Merge([]) == [];
    }
  }

  // ----- in per-span order ------------------------------------------------------------

  /** Everything a span was ever given. */
  function AllAttrs(es: seq<Event>, id: ID): seq<Attr> {
    if es == [] then []
    else AllAttrs(es[..|es| - 1], id) + (if Adds(es[|es| - 1], id) then es[|es| - 1].attrs else [])
  }

  lemma {:induction false} SinceTheBeginning(es: seq<Event>, id: ID)
    requires forall i :: 0 <= i < |es| ==> !Ends(es[i], id)
    ensures Given(Since(es, id)) == AllAttrs(es, id)
  {
    if es == [] {
    } else {
      SinceTheBeginning(es[..|es| - 1], id);
    }
  }

  lemma {:induction false} NothingAfter(es: seq<Event>, k: nat, id: ID)
    requires k <= |es| && forall i :: k <= i < |es| ==> !Adds(es[i], id)
    ensures AllAttrs(es, id) == AllAttrs(es[..k], id)
    decreases |es|
  {
    if k < |es| {
      assert es[..|es| - 1][..k] == es[..k];
      NothingAfter(es[..|es| - 1], k, id);
    } else {
      assert es[..k] == es;
    }
  }

  lemma {:induction false} RecordOfEnd(es: seq<Event>, k: nat)
    requires k < |es| && es[k].End?
    ensures |EndsIn(es[..k])| < |RecordsOf(es)|
    ensures RecordsOf(es)[|EndsIn(es[..k])|] == RecordFor(es[k], Merge(Given(Since(es[..k], es[k].spanID))))
    decreases |es|
  {
    hide Since, Merge;
    if k < |es| - 1 {
      assert es[..|es| - 1][..k] == es[..k];
      RecordOfEnd(es[..|es| - 1], k);
    } else {
      AsManyRecords(es[..k]);
    }
  }

  lemma {:induction false} AsManyRecords(es: seq<Event>)
    ensures |RecordsOf(es)| == |EndsIn(es)|
  {
    if es == [] {
    } else {
      AsManyRecords(es[..|es| - 1]);
    }
  }

  /** In per-span order and with room, the record of a span's End carries every
      attribute the span was ever given, duplicates merged. */
  lemma RecordCarriesEverything(es: seq<Event>, k: nat)
    requires StrictOrder(es) && Room(es) && k < |es| && es[k].End?
    ensures |EndsIn(es[..k])| < |ObserveAll(IDLE, es).records|
    ensures ObserveAll(IDLE, es).records[|EndsIn(es[..k])|] == RecordFor(es[k], Merge(AllAttrs(es, es[k].spanID)))
  {
    hide ObserveAll, Merge, Room, RecordsOf, EndsIn, AllAttrs, Since, StrictOrder;
    var id := es[k].spanID;
    RoomMakesCompleteRecords(es);
    RecordOfEnd(es, k);
    EndIsLast(es, k);
    SinceTheBeginning(es[..k], id);
    NothingAfter(es, k, id);
  }
}
