/** The trace file as finite maps, and the reference meaning of an event stream:
    every event applied directly to the tables, one at a time. */
module Tables {
  import opened Events

  // ----- attribute cells ---------------------------------------------------

  datatype SqlValue = Integer(i: int64) | Real(f: Float) | Str(s: string)

  /** A cell of the attrs table: the slog.Kind number beside the stored value. */
  datatype Cell = Cell(kind: nat, value: SqlValue)

  const KIND_ANY := 0
  const KIND_BOOL := 1
  const KIND_DURATION := 2
  const KIND_FLOAT64 := 3
  const KIND_INT64 := 4
  const KIND_STRING := 5
  const KIND_TIME := 6
  const KIND_UINT64 := 7

  function AttrCell(v: Value): Cell {
    match v
    case Text(s) => Cell(KIND_STRING, Str(s))
    case Int64(i) => Cell(KIND_INT64, Integer(i))
    case Uint64(u) => Cell(KIND_UINT64, Integer(Wrap64(u)))
    case Float64(f) => Cell(KIND_FLOAT64, Real(f))
    case Bool(b) => Cell(KIND_BOOL, Integer(if b then 1 else 0))
    case Duration(ns) => Cell(KIND_DURATION, Integer(ns))
    case Time(ns) => Cell(KIND_TIME, Integer(ns))
    case Any(s) => Cell(KIND_ANY, Str(s))
    case Group(_) => Cell(KIND_ANY, Str(""))  // flattened away before cells are made
  }

  /** A reader's decoding of a cell, guided by its kind column. */
  function ReadCell(c: Cell): Option<Value> {
    match c.value
    case Str(s) =>
      if c.kind == KIND_STRING then Some(Text(s)) else if c.kind == KIND_ANY then Some(Any(s)) else None
    case Real(f) =>
      if c.kind == KIND_FLOAT64 then Some(Float64(f)) else None
    case Integer(i) =>
      if c.kind == KIND_INT64 then Some(Int64(i))
      else if c.kind == KIND_UINT64 then Some(Uint64(if i < 0 then i + TWO_64 else i))
      else if c.kind == KIND_BOOL then Some(Bool(i != 0))
      else if c.kind == KIND_DURATION then Some(Duration(i))
      else if c.kind == KIND_TIME then Some(Time(i))
      else None
  }

  /** Nothing is lost on the way into a cell, unsigned values above MaxInt64
      included. */
  lemma CellRoundTrip(v: Value)
    requires !v.Group?
    ensures ReadCell(AttrCell(v)) == Some(v)
  {
    if v.Uint64? {
      var u := v.u;
      if u < TWO_63 {
        assert (u + TWO_63) % TWO_64 == u + TWO_63;
      } else {
        assert (u + TWO_63) % TWO_64 == u + TWO_63 - TWO_64;
      }
    }
  }

  /** The file format: the kind numbers and the stored form of each kind of value. */
  lemma CellFormat(v: Value)
    ensures match v
            case Any(s) => AttrCell(v) == Cell(0, Str(s))
            case Bool(b) => AttrCell(v) == Cell(1, Integer(if b then 1 else 0))
            case Duration(ns) => AttrCell(v) == Cell(2, Integer(ns))
            case Float64(f) => AttrCell(v) == Cell(3, Real(f))
            case Int64(i) => AttrCell(v) == Cell(4, Integer(i))
            case Text(s) => AttrCell(v) == Cell(5, Str(s))
            case Time(ns) => AttrCell(v) == Cell(6, Integer(ns))
            case Uint64(u) =>
              AttrCell(v).kind == 7 && AttrCell(v).value == Integer(if u < TWO_63 then u else u - TWO_64)
            case Group(_) => true
  {
    if v.Uint64? { CellRoundTrip(v); }
  }

  // ----- flattening --------------------------------------------------------

  datatype AttrRow = AttrRow(spanID: ID, key: string, cell: Cell)

  /** Depth-first walk with dot-joined keys: a keyless group adds no level and
      a keyless leaf is dropped. */
  function Flatten(prefix: string, attrs: seq<Attr>): seq<(string, Value)>
    decreases attrs
  {
    if attrs == [] then []
    else FlattenOne(prefix, attrs[0]) + Flatten(prefix, attrs[1..])
  }

  function FlattenOne(prefix: string, attr: Attr): seq<(string, Value)>
    decreases attr
  {
    if attr.value.Group? then
      Flatten(if attr.key != "" then prefix + attr.key + "." else prefix, attr.value.members)
    else if attr.key == "" then []
    else [(prefix + attr.key, attr.value)]
  }

  lemma {:induction false} FlattenConcat(prefix: string, a: seq<Attr>, b: seq<Attr>)
    ensures Flatten(prefix, a + b) == Flatten(prefix, a) + Flatten(prefix, b)
  {
    if a == [] {
      assert a + b == b;
    } else {
      assert (a + b)[1..] == a[1..] + b;
      FlattenConcat(prefix, a[1..], b);
    }
  }

  lemma FlattenSnoc(prefix: string, attrs: seq<Attr>, attr: Attr)
    ensures Flatten(prefix, attrs + [attr]) == Flatten(prefix, attrs) + FlattenOne(prefix, attr)
  {
    FlattenConcat(prefix, attrs, [attr]);
    assert [attr][1..] == [];
  }

  /** The leaves of an attribute forest with the keys met on the way down. */
  function Leaves(attrs: seq<Attr>): seq<(seq<string>, Value)>
    decreases attrs
  {
    if attrs == [] then []
    else LeavesOne(attrs[0]) + Leaves(attrs[1..])
  }

  function LeavesOne(attr: Attr): seq<(seq<string>, Value)>
    decreases attr
  {
    if attr.value.Group? then
      var inner := Leaves(attr.value.members);
      if attr.key == "" then inner
      else seq(|inner|, i requires 0 <= i < |inner| => ([attr.key] + inner[i].0, inner[i].1))
    else if attr.key == "" then []
    else [([attr.key], attr.value)]
  }

  function Dotted(path: seq<string>): string {
    if path == [] then ""
    else if |path| == 1 then path[0]
    else path[0] + "." + Dotted(path[1..])
  }

  /** Every leaf has a nonempty path of nonempty keys, and the walk emits exactly
      the leaves, in order, each under the dotted form of its path. */
  lemma {:induction false} FlattenIsDottedLeaves(prefix: string, attrs: seq<Attr>)
    ensures |Flatten(prefix, attrs)| == |Leaves(attrs)|
    ensures forall i :: 0 <= i < |Leaves(attrs)| ==>
      && Leaves(attrs)[i].0 != [] && "" !in Leaves(attrs)[i].0
      && Flatten(prefix, attrs)[i] == (prefix + Dotted(Leaves(attrs)[i].0), Leaves(attrs)[i].1)
    decreases attrs
  {
    if attrs == [] {
    } else {
      FlattenOneIsDottedLeaves(prefix, attrs[0]);
      FlattenIsDottedLeaves(prefix, attrs[1..]);
    }
  }

  lemma {:induction false} FlattenOneIsDottedLeaves(prefix: string, attr: Attr)
    ensures |FlattenOne(prefix, attr)| == |LeavesOne(attr)|
    ensures forall i :: 0 <= i < |LeavesOne(attr)| ==>
      && LeavesOne(attr)[i].0 != [] && "" !in LeavesOne(attr)[i].0
      && FlattenOne(prefix, attr)[i] == (prefix + Dotted(LeavesOne(attr)[i].0), LeavesOne(attr)[i].1)
    decreases attr
  {
    if attr.value.Group? {
      if attr.key == "" {
        FlattenIsDottedLeaves(prefix, attr.value.members);
      } else {
        var deeper := prefix + attr.key + ".";
        FlattenIsDottedLeaves(deeper, attr.value.members);
        var inner := Leaves(attr.value.members);
        forall i | 0 <= i < |inner|
          ensures prefix + Dotted([attr.key] + inner[i].0) == deeper + Dotted(inner[i].0)
        {
          assert ([attr.key] + inner[i].0)[1..] == inner[i].0;
          assert prefix + (attr.key + "." + Dotted(inner[i].0)) == deeper + Dotted(inner[i].0);
        }
      }
    }
  }

  function RowsOf(spanID: ID, leaves: seq<(string, Value)>): (rows: seq<AttrRow>)
    ensures |rows| == |leaves|
  {
    seq(|leaves|, i requires 0 <= i < |leaves| => AttrRow(spanID, leaves[i].0, AttrCell(leaves[i].1)))
  }

  // ----- tables ------------------------------------------------------------

  /** A spans row with its name resolved, as the spans_named view shows it. */
  datatype SpanCells = SpanCells(traceID: ID, parentID: Option<ID>, name: string, startNS: int64,
                                 endNS: Option<int64>, status: int, error: Option<string>)

  /** The file as its readers see it. */
  datatype Tables = Tables(spans: map<ID, SpanCells>, attrs: map<(ID, string), Cell>)

  const EMPTY := Tables(map[], map[])

  /** A spans row on its way into the file; zero and "" stand for NULL. */
  datatype Row = Row(id: ID, traceID: ID, parentID: ID, name: string, startNS: int64,
                     endNS: int64, status: Status, errText: string)

  function StartRow(e: Event): Row
    requires e.Start?
  {
    Row(e.spanID, e.traceID, e.parentID, e.name, e.startNS, 0, OK, "")
  }

  function EndRow(e: Event): Row
    requires e.End?
  {
    Row(e.spanID, e.traceID, e.parentID, e.name, e.startNS, e.endNS, e.status, e.error)
  }

  function CellsOf(r: Row): SpanCells {
    SpanCells(r.traceID, if r.parentID != 0 then Some(r.parentID) else None, r.name, r.startNS,
              if r.endNS != 0 then Some(r.endNS) else None, StatusCode(r.status),
              if r.errText != "" then Some(r.errText) else None)
  }

  /** What an existing row keeps and what a conflicting insert overwrites. */
  function Completed(was: SpanCells, given: SpanCells): SpanCells {
    was.(endNS := given.endNS, status := given.status, error := given.error)
  }

  /** INSERT ... ON CONFLICT (id) DO UPDATE SET end_ns, status, error. */
  function Upsert(spans: map<ID, SpanCells>, r: Row): map<ID, SpanCells> {
    spans[r.id := if r.id in spans then Completed(spans[r.id], CellsOf(r)) else CellsOf(r)]
  }

  function UpsertAll(spans: map<ID, SpanCells>, rows: seq<Row>): map<ID, SpanCells> {
    if rows == [] then spans
    else Upsert(UpsertAll(spans, rows[..|rows| - 1]), rows[|rows| - 1])
  }

  /** INSERT OR REPLACE on the (span_id, key) primary key. */
  function Replace(attrs: map<(ID, string), Cell>, r: AttrRow): map<(ID, string), Cell> {
    attrs[(r.spanID, r.key) := r.cell]
  }

  function ReplaceAll(attrs: map<(ID, string), Cell>, rows: seq<AttrRow>): map<(ID, string), Cell> {
    if rows == [] then attrs
    else Replace(ReplaceAll(attrs, rows[..|rows| - 1]), rows[|rows| - 1])
  }

  lemma {:induction false} UpsertAllConcat(spans: map<ID, SpanCells>, a: seq<Row>, b: seq<Row>)
    ensures UpsertAll(spans, a + b) == UpsertAll(UpsertAll(spans, a), b)
  {
    if b == [] {
      assert a + b == a;
    } else {
      assert (a + b)[..|a + b| - 1] == a + b[..|b| - 1];
      UpsertAllConcat(spans, a, b[..|b| - 1]);
    }
  }

  lemma {:induction false} ReplaceAllConcat(attrs: map<(ID, string), Cell>, a: seq<AttrRow>, b: seq<AttrRow>)
    ensures ReplaceAll(attrs, a + b) == ReplaceAll(ReplaceAll(attrs, a), b)
  {
    if b == [] {
      assert a + b == a;
    } else {
      assert (a + b)[..|a + b| - 1] == a + b[..|b| - 1];
      ReplaceAllConcat(attrs, a, b[..|b| - 1]);
    }
  }

  // ----- the reference semantics -------------------------------------------

  /** The attribute rows an event contributes. */
  function EventAttrs(e: Event): seq<AttrRow> {
    if e.Start? || e.Attrs? then RowsOf(e.spanID, Flatten("", e.attrs)) else []
  }

  /** One event written straight to the tables. */
  function ApplyEvent(t: Tables, e: Event): Tables {
    var spans :=
      if e.Start? then Upsert(t.spans, StartRow(e))
      else if e.End? then Upsert(t.spans, EndRow(e))
      else t.spans;
    Tables(spans, ReplaceAll(t.attrs, EventAttrs(e)))
  }

  function ApplyAll(t: Tables, es: seq<Event>): Tables {
    if es == [] then t
    else ApplyEvent(ApplyAll(t, es[..|es| - 1]), es[|es| - 1])
  }

  lemma {:induction false} ApplyAllConcat(t: Tables, a: seq<Event>, b: seq<Event>)
    ensures ApplyAll(t, a + b) == ApplyAll(ApplyAll(t, a), b)
  {
    if b == [] {
      assert a + b == a;
    } else {
      assert (a + b)[..|a + b| - 1] == a + b[..|b| - 1];
      ApplyAllConcat(t, a, b[..|b| - 1]);
    }
  }

  // ----- commit windows ----------------------------------------------------

  /** The events a sink that commits on Flush has made durable, and the ones it
      still holds: a successful Flush commits the window, a failed one drops it. */
  function Windows(log: seq<SinkCall>): (seq<Event>, seq<Event>) {
    if log == [] then ([], [])
    else
      var (committed, window) := Windows(log[..|log| - 1]);
      match log[|log| - 1]
      case WriteBatch(events, _) => (committed, window + events)
      case Flush(outcome) => (if outcome.Ok? then committed + window else committed, [])
      case Close(_) => (committed, window)
  }

  function Committed(log: seq<SinkCall>): seq<Event> {
    Windows(log).0
  }
}
