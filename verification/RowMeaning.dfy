/** What the reference fold leaves in the tables, said without folding: which
    event of the stream each column of a row comes from. */
module RowMeaning {
  import opened Events
  import opened Tables

  /** Events that put a span row into the file. */
  predicate Writes(e: Event, id: ID) {
    (e.Start? || e.End?) && e.spanID == id
  }

  function RowOf(e: Event): Row
    requires e.Start? || e.End?
  {
    if e.Start? then StartRow(e) else EndRow(e)
  }

  /** A row exists exactly for the spans whose Start or End is in the stream. */
  lemma {:induction false} RowExists(es: seq<Event>, id: ID)
    ensures id in ApplyAll(EMPTY, es).spans <==> exists i :: 0 <= i < |es| && Writes(es[i], id)
  {
    if es == [] {
    } else {
      var rest, e := es[..|es| - 1], es[|es| - 1];
      RowExists(rest, id);
      if Writes(e, id) {
        assert Writes(es[|es| - 1], id);
      } else if id in ApplyAll(EMPTY, rest).spans {
        var i :| 0 <= i < |rest| && Writes(rest[i], id);
        assert Writes(es[i], id);
      }
    }
  }

  /** Identity columns are those of the first Start or End; end time, status and
      error are those of the last, whatever came in between. */
  lemma {:induction false} RowColumns(es: seq<Event>, id: ID, first: nat, last: nat)
    requires first <= last < |es| && Writes(es[first], id) && Writes(es[last], id)
    requires forall i :: 0 <= i < first ==> !Writes(es[i], id)
    requires forall i :: last < i < |es| ==> !Writes(es[i], id)
    ensures id in ApplyAll(EMPTY, es).spans
    ensures ApplyAll(EMPTY, es).spans[id] == Completed(CellsOf(RowOf(es[first])), CellsOf(RowOf(es[last])))
    decreases |es|
  {
    var rest, e := es[..|es| - 1], es[|es| - 1];
    if last < |es| - 1 {
      assert !Writes(e, id);
      RowColumns(rest, id, first, last);
    } else if first == last {
      RowExists(rest, id);
    } else {
      var before := LastBefore(rest, id, first);
      RowColumns(rest, id, first, before);
    }
  }

  lemma LastBefore(es: seq<Event>, id: ID, first: nat) returns (last: nat)
    requires first < |es| && Writes(es[first], id)
    ensures first <= last < |es| && Writes(es[last], id)
    ensures forall i :: last < i < |es| ==> !Writes(es[i], id)
  {
    last := |es| - 1;
    while !Writes(es[last], id)
      invariant first <= last < |es|
      invariant forall i :: last < i < |es| ==> !Writes(es[i], id)
      decreases last
    {
      last := last - 1;
    }
  }

  /** All attribute rows of a stream in order. */
  function AttrRows(es: seq<Event>): seq<AttrRow> {
    if es == [] then [] else AttrRows(es[..|es| - 1]) + EventAttrs(es[|es| - 1])
  }

  lemma {:induction false} AttrsAreReplacements(es: seq<Event>)
    ensures ApplyAll(EMPTY, es).attrs == ReplaceAll(map[], AttrRows(es))
  {
    if es == [] {
    } else {
      AttrsAreReplacements(es[..|es| - 1]);
      ReplaceAllConcat(map[], AttrRows(es[..|es| - 1]), EventAttrs(es[|es| - 1]));
    }
  }

  predicate Sets(r: AttrRow, span: ID, key: string) {
    r.spanID == span && r.key == key
  }

  /** Nothing is in the attrs table but what some row wrote. */
  lemma {:induction false} AttrExists(rows: seq<AttrRow>, span: ID, key: string)
    ensures (span, key) in ReplaceAll(map[], rows) <==> exists i :: 0 <= i < |rows| && Sets(rows[i], span, key)
  {
    if rows == [] {
    } else {
      var rest, r := rows[..|rows| - 1], rows[|rows| - 1];
      AttrExists(rest, span, key);
      if Sets(r, span, key) {
        assert Sets(rows[|rows| - 1], span, key);
      } else if (span, key) in ReplaceAll(map[], rest) {
        var i :| 0 <= i < |rest| && Sets(rest[i], span, key);
        assert Sets(rows[i], span, key);
      }
    }
  }

  /** Last write per (span, key) wins. */
  lemma {:induction false} LastAttrWins(rows: seq<AttrRow>, span: ID, key: string, last: nat)
    requires last < |rows| && Sets(rows[last], span, key)
    requires forall j :: last < j < |rows| ==> !Sets(rows[j], span, key)
    ensures (span, key) in ReplaceAll(map[], rows) && ReplaceAll(map[], rows)[(span, key)] == rows[last].cell
    decreases |rows|
  {
    if last < |rows| - 1 {
      assert !Sets(rows[|rows| - 1], span, key);
      LastAttrWins(rows[..|rows| - 1], span, key, last);
    }
  }

  /** Strict order is what makes rows truthful: a Start arriving behind its End
      would erase the end time. */
  lemma StartBehindEndErases(s: Event, e: Event)
    requires s.Start? && e.End? && s.spanID == e.spanID && e.endNS != 0
    ensures ApplyAll(EMPTY, [s, e]).spans[s.spanID].endNS == Some(e.endNS)
    ensures ApplyAll(EMPTY, [e, s]).spans[s.spanID].endNS == None
  {
    RowColumns([s, e], s.spanID, 0, 1);
    RowColumns([e, s], s.spanID, 0, 1);
  }
}
