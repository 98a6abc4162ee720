/** The pending buffers between two commits, as values: rows in queue order, and
    for each span with a row opened by a Start the position of that row. */
module Coalescing {
  import opened Events
  import opened Tables

  datatype Pending = Pending(rows: seq<Row>, open: map<ID, nat>, attrs: seq<AttrRow>)

  const NOTHING := Pending([], map[], [])

  /** An open position is the last one holding its span: the fact that lets an
      End rewrite the row in place. */
  ghost predicate Coherent(p: Pending) {
    forall id :: id in p.open ==>
      && p.open[id] < |p.rows| && p.rows[p.open[id]].id == id
      && forall k :: p.open[id] < k < |p.rows| ==> p.rows[k].id != id
  }

  /** The row an in-place completion leaves behind. */
  function CompleteRow(r: Row, e: Event): Row
    requires e.End?
  {
    r.(endNS := e.endNS, status := e.status, errText := e.error)
  }

  /** A row queued at the back; a Start's row becomes its span's open row. */
  function Push(p: Pending, row: Row, opens: bool): Pending {
    p.(rows := p.rows + [row], open := if opens then p.open[row.id := |p.rows|] else p.open)
  }

  /** An End meeting its span's open row. */
  function Complete(p: Pending, e: Event): Pending
    requires Coherent(p) && e.End? && e.spanID in p.open
  {
    var k := p.open[e.spanID];
    p.(rows := p.rows[k := CompleteRow(p.rows[k], e)])
  }

  function Absorb(p: Pending, e: Event): Pending
    requires Coherent(p)
  {
    match e
    case Start(id, _, _, _, _, _) =>
      Push(p, StartRow(e), true).(attrs := p.attrs + EventAttrs(e))
    case Attrs(_, _, _) =>
      p.(attrs := p.attrs + EventAttrs(e))
    case End(id, _, _, _, _, _, _, _) =>
      if id in p.open then Complete(p, e) else Push(p, EndRow(e), false)
    case Other(_) => p
  }

  lemma PushCoherent(p: Pending, row: Row, opens: bool)
    requires Coherent(p)
    requires !opens ==> row.id !in p.open
    ensures Coherent(Push(p, row, opens))
  {
    var q := Push(p, row, opens);
    forall id | id in q.open
      ensures q.open[id] < |q.rows| && q.rows[q.open[id]].id == id
      ensures forall k :: q.open[id] < k < |q.rows| ==> q.rows[k].id != id
    {
      if !(opens && id == row.id) { assert id in p.open; }
    }
  }

  lemma CompleteCoherent(p: Pending, e: Event)
    requires Coherent(p) && e.End? && e.spanID in p.open
    ensures Coherent(Complete(p, e))
  {
    var q := Complete(p, e);
    forall id | id in q.open
      ensures q.open[id] < |q.rows| && q.rows[q.open[id]].id == id
      ensures forall k :: q.open[id] < k < |q.rows| ==> q.rows[k].id != id
    {
      assert id in p.open;
    }
  }

  lemma AbsorbCoherent(p: Pending, e: Event)
    requires Coherent(p)
    ensures Coherent(Absorb(p, e))
  {
    match e {
      case Start(_, _, _, _, _, _) => PushCoherent(p, StartRow(e), true);
      case Attrs(_, _, _) =>
      case End(id, _, _, _, _, _, _, _) =>
        if id in p.open { CompleteCoherent(p, e); } else { PushCoherent(p, EndRow(e), false); }
      case Other(_) =>
    }
  }

  /** What committing the buffers does to the tables. */
  function Apply(t: Tables, p: Pending): Tables {
    Tables(UpsertAll(t.spans, p.rows), ReplaceAll(t.attrs, p.attrs))
  }

  lemma {:induction false} UpsertAllKeepsOthers(spans: map<ID, SpanCells>, rows: seq<Row>, id: ID)
    requires forall k :: 0 <= k < |rows| ==> rows[k].id != id
    ensures id in UpsertAll(spans, rows) <==> id in spans
    ensures id in spans ==> UpsertAll(spans, rows)[id] == spans[id]
  {
    if rows == [] {
    } else {
      UpsertAllKeepsOthers(spans, rows[..|rows| - 1], id);
    }
  }

  /** Overwriting one span before or after rows of other spans is the same. */
  lemma {:induction false} UpsertAllCommutes(spans: map<ID, SpanCells>, rows: seq<Row>, id: ID, cells: SpanCells)
    requires forall k :: 0 <= k < |rows| ==> rows[k].id != id
    ensures UpsertAll(spans[id := cells], rows) == UpsertAll(spans, rows)[id := cells]
  {
    if rows == [] {
    } else {
      UpsertAllCommutes(spans, rows[..|rows| - 1], id, cells);
    }
  }

  /** Completing the last pending row of a span in place has the effect of an
      upsert queued behind everything else. */
  lemma CompletingInPlace(spans: map<ID, SpanCells>, rows: seq<Row>, k: nat, e: Event)
    requires e.End? && k < |rows| && rows[k].id == e.spanID
    requires forall j :: k < j < |rows| ==> rows[j].id != e.spanID
    ensures UpsertAll(spans, rows[k := CompleteRow(rows[k], e)]) == Upsert(UpsertAll(spans, rows), EndRow(e))
  {
    var before, after := rows[..k], rows[k + 1..];
    var row, done := rows[k], CompleteRow(rows[k], e);
    assert rows == before + [row] + after;
    assert rows[k := done] == before + [done] + after;
    UpsertAllConcat(spans, before + [row], after);
    UpsertAllConcat(spans, before + [done], after);
    assert (before + [row])[..k] == before && (before + [done])[..k] == before;
    var base := UpsertAll(spans, before);
    var withRow := Upsert(base, row);
    assert UpsertAll(spans, before + [row]) == withRow;
    assert UpsertAll(spans, before + [done]) == Upsert(base, done);
    var cells := Completed(withRow[row.id], CellsOf(EndRow(e)));
    assert Upsert(base, done) == withRow[row.id := cells];
    UpsertAllCommutes(withRow, after, row.id, cells);
    UpsertAllKeepsOthers(withRow, after, row.id);
  }

  lemma PushUpserts(spans: map<ID, SpanCells>, rows: seq<Row>, row: Row)
    ensures UpsertAll(spans, rows + [row]) == Upsert(UpsertAll(spans, rows), row)
  {
    assert (rows + [row])[..|rows|] == rows;
  }

  /** One event absorbed into the buffers means what it means when applied
      directly: no assumption on the stream, on what is pending or on the tables. */
  lemma AbsorbRefines(t: Tables, p: Pending, e: Event)
    requires Coherent(p)
    ensures Apply(t, Absorb(p, e)) == ApplyEvent(Apply(t, p), e)
  {
    ReplaceAllConcat(t.attrs, p.attrs, EventAttrs(e));
    match e {
      case Start(_, _, _, _, _, _) => PushUpserts(t.spans, p.rows, StartRow(e));
      case Attrs(_, _, _) =>
      case End(id, _, _, _, _, _, _, _) =>
        if id in p.open {
          CompletingInPlace(t.spans, p.rows, p.open[id], e);
        } else {
          PushUpserts(t.spans, p.rows, EndRow(e));
        }
      case Other(_) =>
    }
  }

  ghost function AbsorbAll(p: Pending, es: seq<Event>): (q: Pending)
    requires Coherent(p)
    ensures Coherent(q)
  {
    if es == [] then p
    else
      var q := AbsorbAll(p, es[..|es| - 1]);
      AbsorbCoherent(q, es[|es| - 1]);
      Absorb(q, es[|es| - 1])
  }

  /** A whole window coalesced and committed once is the window applied event by
      event. */
  lemma {:induction false} CoalescingRefines(t: Tables, p: Pending, es: seq<Event>)
    requires Coherent(p)
    ensures Apply(t, AbsorbAll(p, es)) == ApplyAll(Apply(t, p), es)
  {
    if es == [] {
    } else {
      CoalescingRefines(t, p, es[..|es| - 1]);
      AbsorbRefines(t, AbsorbAll(p, es[..|es| - 1]), es[|es| - 1]);
    }
  }

  lemma {:induction false} AbsorbAllConcat(p: Pending, a: seq<Event>, b: seq<Event>)
    requires Coherent(p)
    ensures AbsorbAll(p, a + b) == AbsorbAll(AbsorbAll(p, a), b)
  {
    if b == [] {
      assert a + b == a;
    } else {
      assert (a + b)[..|a + b| - 1] == a + b[..|b| - 1];
      AbsorbAllConcat(p, a, b[..|b| - 1]);
    }
  }

  /** Coalescing pays off: a span whose Start and End share a window queues one
      row, complete, whatever other events surround the two. */
  lemma StartAndEndShareARow(p: Pending, s: Event, e: Event, between: seq<Event>)
    requires Coherent(p) && s.Start? && e.End? && e.spanID == s.spanID
    requires forall i :: 0 <= i < |between| ==> between[i].spanID != s.spanID
    ensures var q := AbsorbAll(Absorb(p, s), between);
            var done := Absorb(q, e);
            |done.rows| == |q.rows| && s.spanID in q.open
            && done.rows[q.open[s.spanID]] == StartRow(s).(endNS := e.endNS, status := e.status, errText := e.error)
  {
    AbsorbCoherent(p, s);
    OpenRowStays(Absorb(p, s), s.spanID, between);
  }

  lemma {:induction false} OpenRowStays(p: Pending, id: ID, es: seq<Event>)
    requires Coherent(p) && id in p.open
    requires forall i :: 0 <= i < |es| ==> es[i].spanID != id
    ensures var q := AbsorbAll(p, es);
            && id in q.open && q.open[id] == p.open[id]
            && q.open[id] < |q.rows| && q.rows[q.open[id]] == p.rows[p.open[id]]
  {
    if es == [] {
    } else {
      OpenRowStays(p, id, es[..|es| - 1]);
      var q := AbsorbAll(p, es[..|es| - 1]);
      AbsorbCoherent(q, es[|es| - 1]);
    }
  }
}
