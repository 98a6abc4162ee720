/** The tracer feeding the attrs table: every stored value was given to its span
    by a call that found it open, and nothing committed overrode it since. */
module TruthfulAttrs {
  import opened Events
  import opened Tables
  import opened Protocol
  import opened SpanLife
  import opened EventOrder
  import opened RunHistory
  import opened SqliteSink
  import opened SlogRecords
  import opened CrossSink
  import opened TruthfulRows

  /** What a list of attributes gives for a leaf path. */
  function Gives(attrs: seq<Attr>, path: string): Option<Value> {
    LastLeaf(Flatten("", attrs), path)
  }

  function GivenAt(es: seq<Event>, i: nat, id: ID, path: string): Option<Value>
    requires i < |es|
  {
    if Adds(es[i], id) then Gives(es[i].attrs, path) else None
  }

  /** The event a span's last value for a path comes from. */
  lemma {:induction false} LastGiver(es: seq<Event>, id: ID, path: string) returns (i: nat)
    requires Gives(AllAttrs(es, id), path).Some?
    ensures i < |es| && GivenAt(es, i, id, path) == Gives(AllAttrs(es, id), path)
    ensures forall j :: i < j < |es| ==> GivenAt(es, j, id, path) == None
  {
    GivenNothing(path);
    hide LastLeaf, Flatten;
    var rest, e := es[..|es| - 1], es[|es| - 1];
    if Adds(e, id) {
      FlattenConcat("", AllAttrs(rest, id), e.attrs);
      LastLeafConcat(Flatten("", AllAttrs(rest, id)), Flatten("", e.attrs), path);
    } else {
      assert AllAttrs(rest, id) + [] == AllAttrs(rest, id);
    }
    if GivenAt(es, |es| - 1, id, path).Some? {
      i := |es| - 1;
    } else {
      i := LastGiver(rest, id, path);
      forall j | i < j < |es|
        ensures GivenAt(es, j, id, path) == None
      {
        if j < |rest| { assert GivenAt(rest, j, id, path) == None; }
      }
    }
  }

  lemma GivenNothing(path: string)
    ensures Gives([], path) == None
  {
  }

  /** What call number k on a span gave it: -1 is its Start. */
  function GivenBy(span: Span, k: int): seq<Attr>
    requires -1 <= k < |span.calls| && (k >= 0 ==> span.calls[k].SetAttrs?)
  {
    if k == -1 then span.attrs else span.calls[k].attrs
  }

  /** The call gave attributes to a span that was still open. */
  ghost predicate GivesWhileOpen(span: Span, k: int) {
    -1 <= k < |span.calls| && (k >= 0 ==> span.calls[k].SetAttrs? && OpenFor(span.calls, k))
  }

  /** A cell of the attrs table is the value one call on its span gave for that
      path, the call having got the mutex before any End. It comes from the last
      committed event that says anything about the path. */
  lemma AttrsAreTruthful(c: Config, s: State, db: File, id: ID, path: string) returns (i: nat, k: int)
    requires Reachable(c, s) && Join(db) == ApplyAll(EMPTY, Committed(s.w.calls))
    requires (id, path) in Join(db).attrs
    ensures i < |Committed(s.w.calls)| && id in s.p.spans && AsRun(c, s, id) && GivesWhileOpen(s.p.spans[id], k)
    ensures Lookup(Join(db).attrs, id, path) == CellFor(Gives(GivenBy(s.p.spans[id], k), path))
    ensures Adds(Committed(s.w.calls)[i], id) && Committed(s.w.calls)[i].attrs == GivenBy(s.p.spans[id], k)
    ensures forall j :: i < j < |Committed(s.w.calls)| ==> GivenAt(Committed(s.w.calls), j, id, path) == None
  {
    hide Reachable, Join, Committed, ApplyAll, Gives, Verdict, Positions, AsRun;
    var es := Committed(s.w.calls);
    TableHoldsLastLeaves(es, id, path);
    assert Gives(AllAttrs(es, id), path).Some? by { GivesIsLastLeaf(AllAttrs(es, id), path); }
    i := LastGiver(es, id, path);
    GivesIsLastLeaf(AllAttrs(es, id), path);
    CommittedAreQueued(c, s);
    var at := Positions(s.w.calls).0;
    QueuedEventsAreTrue(c, s, at[i]);
    k := s.q.origins[at[i]];
  }

  /** The cell under (id, path), if any, says what the last committed event that
      mentions the path gave, and a call on the open span gave that. */
  ghost predicate TruthfulAttr(c: Config, s: State, t: Tables, id: ID, path: string) {
    (id, path) in t.attrs ==>
      id in s.p.spans && AsRun(c, s, id) && exists i: nat, k: int :: Backs(s, t, id, path, i, k)
  }

  ghost predicate Backs(s: State, t: Tables, id: ID, path: string, i: nat, k: int)
    requires id in s.p.spans
  {
    var es, span := Committed(s.w.calls), s.p.spans[id];
    && i < |es| && GivesWhileOpen(span, k)
    && Lookup(t.attrs, id, path) == CellFor(Gives(GivenBy(span, k), path))
    && Adds(es[i], id) && es[i].attrs == GivenBy(span, k)
    && forall j :: i < j < |es| ==> GivenAt(es, j, id, path) == None
  }

  lemma GivesIsLastLeaf(attrs: seq<Attr>, path: string)
    ensures Gives(attrs, path) == LastLeaf(Flatten("", attrs), path)
  {
  }
}
