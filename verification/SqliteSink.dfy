/** The SQLite sink: heap-allocated pending rows that Ends complete in place, one
    transaction per Flush, and a name cache that survives rollbacks. The driver
    is a parameter: it says where, if anywhere, a transaction fails. */
module SqliteSink {
  import opened Events
  import opened Tables
  import opened Coalescing

  // ----- the file ------------------------------------------------------------

  datatype RawSpan = RawSpan(traceID: ID, parentID: Option<ID>, nameID: ID, startNS: int64,
                             endNS: Option<int64>, status: int, error: Option<string>)

  datatype File = File(names: map<ID, string>, spans: map<ID, RawSpan>, attrs: map<(ID, string), Cell>)

  const NEW_FILE := File(map[], map[], map[])

  function Resolve(r: RawSpan, name: string): SpanCells {
    SpanCells(r.traceID, r.parentID, name, r.startNS, r.endNS, r.status, r.error)
  }

  /** spans JOIN names: a row whose name_id resolves to nothing is not seen. */
  function Join(f: File): Tables {
    Tables(map id | id in f.spans && f.spans[id].nameID in f.names :: Resolve(f.spans[id], f.names[f.spans[id].nameID]),
           f.attrs)
  }

  /** No span row is lost to the join. */
  ghost predicate Resolved(f: File) {
    forall id :: id in f.spans ==> f.spans[id].nameID in f.names
  }

  /** The cache and the names table are inverse to each other, so names are
      unique and the cache is neither stale nor incomplete. */
  ghost predicate NamesAgree(names: map<ID, string>, ids: map<string, ID>) {
    && ids.Keys == names.Values
    && (forall i :: i in names ==> names[i] in ids && ids[names[i]] == i)
  }

  /** How far the driver gets: whether Begin works, after how many statements
      one fails, whether Commit works. */
  datatype Driver = Driver(beginOK: bool, statements: nat, commitOK: bool)

  // ----- a transaction -------------------------------------------------------

  class Tx {
    var file: File
    var budget: nat
    var lastID: ID

    constructor (file: File, budget: nat)
      ensures this.file == file && this.budget == budget
    {
      this.file, this.budget, this.lastID := file, budget, 0;
    }

    method Spend() returns (ok: bool)
      modifies this`budget
      ensures ok == (old(budget) > 0)
      ensures budget == if ok then old(budget) - 1 else 0
    {
      ok := budget > 0;
      if ok { budget := budget - 1; }
    }

    /** INSERT INTO names; fails on the UNIQUE constraint. The rowid is above
        every rowid in use. */
    method InsertName(name: string) returns (ok: bool)
      modifies this
      ensures ok == (old(budget) > 0 && name !in old(file).names.Values)
      ensures budget == if old(budget) > 0 then old(budget) - 1 else 0
      ensures ok ==> lastID !in old(file).names && file == old(file).(names := old(file).names[lastID := name])
      ensures !ok ==> file == old(file)
    {
      ok := Spend();
      if ok && name in file.names.Values { ok := false; }
      if ok {
        var rest := file.names.Keys;
        var top: ID := 0;
        while rest != {}
          invariant rest <= file.names.Keys
          invariant forall k :: k in file.names ==> k in rest || k <= top
          decreases rest
        {
          var k :| k in rest;
          rest, top := rest - {k}, if k > top then k else top;
        }
        lastID := top + 1;
        file := file.(names := file.names[lastID := name]);
      }
    }

    /** The upsert statement: a conflicting id keeps its identity columns. */
    method UpsertSpan(id: ID, row: RawSpan) returns (ok: bool)
      modifies this
      ensures ok == (old(budget) > 0)
      ensures budget == if ok then old(budget) - 1 else 0
      ensures ok ==> file == old(file).(spans := old(file).spans[id :=
                       if id in old(file).spans
                       then old(file).spans[id].(endNS := row.endNS, status := row.status, error := row.error)
                       else row])
      ensures !ok ==> file == old(file)
    {
      ok := Spend();
      if ok {
        var kept := if id in file.spans
                    then file.spans[id].(endNS := row.endNS, status := row.status, error := row.error)
                    else row;
        file := file.(spans := file.spans[id := kept]);
      }
    }

    method ReplaceAttr(row: AttrRow) returns (ok: bool)
      modifies this
      ensures ok == (old(budget) > 0)
      ensures budget == if ok then old(budget) - 1 else 0
      ensures file == if ok then old(file).(attrs := Replace(old(file).attrs, row)) else old(file)
    {
      ok := Spend();
      if ok { file := file.(attrs := Replace(file.attrs, row)); }
    }
  }

  lemma NewNameAgrees(names: map<ID, string>, ids: map<string, ID>, name: string)
    requires NamesAgree(names, ids) && name !in ids
    ensures name !in names.Values
    ensures forall id: ID :: id !in names ==> NamesAgree(names[id := name], ids[name := id])
  {
    forall id: ID | id !in names
      ensures NamesAgree(names[id := name], ids[name := id])
    {
      var grown := names[id := name];
      assert grown[id] == name;
      forall n | n in ids
        ensures n in grown.Values
      {
        var i :| i in names && names[i] == n;
        assert grown[i] == n;
      }
      assert grown.Values == ids.Keys + {name};
    }
  }

  /** A name under an unused rowid hides and renames no span. */
  lemma JoinIgnoresNewNames(f: File, name: string)
    requires Resolved(f)
    ensures forall id: ID :: id !in f.names ==>
      Resolved(f.(names := f.names[id := name])) && Join(f.(names := f.names[id := name])) == Join(f)
  {
    forall id: ID | id !in f.names
      ensures Resolved(f.(names := f.names[id := name])) && Join(f.(names := f.names[id := name])) == Join(f)
    {
      var g := f.(names := f.names[id := name]);
      assert forall i :: i in f.spans ==> g.names[f.spans[i].nameID] == f.names[f.spans[i].nameID];
      assert Join(g).spans == Join(f).spans;
    }
  }

  /** Encoding a pending row for the statement. */
  function Encode(row: Row, nameID: ID): RawSpan {
    var c := CellsOf(row);
    RawSpan(c.traceID, c.parentID, nameID, c.startNS, c.endNS, c.status, c.error)
  }

  /** The statement on the stored table is the upsert on the joined one. */
  lemma JoinUpserts(f: File, row: Row, nameID: ID)
    requires Resolved(f) && nameID in f.names && f.names[nameID] == row.name
    ensures var raw := Encode(row, nameID);
            var kept := if row.id in f.spans
                        then f.spans[row.id].(endNS := raw.endNS, status := raw.status, error := raw.error) else raw;
            var g := f.(spans := f.spans[row.id := kept]);
            Resolved(g) && Join(g) == Tables(Upsert(Join(f).spans, row), f.attrs)
  {
    var raw := Encode(row, nameID);
    var kept := if row.id in f.spans
                then f.spans[row.id].(endNS := raw.endNS, status := raw.status, error := raw.error) else raw;
    var g := f.(spans := f.spans[row.id := kept]);
    assert Join(g).spans == Upsert(Join(f).spans, row);
  }

  // ----- pending rows --------------------------------------------------------

  class SpanRow {
    const id: ID
    const traceID: ID
    const parentID: ID
    const name: string
    const startNS: int64
    var endNS: int64
    var status: Status
    var errText: string

    constructor (row: Row)
      ensures Value() == row
    {
      id, traceID, parentID, name, startNS := row.id, row.traceID, row.parentID, row.name, row.startNS;
      endNS, status, errText := row.endNS, row.status, row.errText;
    }

    function Value(): Row
      reads this
    {
      Row(id, traceID, parentID, name, startNS, endNS, status, errText)
    }

    method Finish(event: Event)
      requires event.End?
      modifies this
      ensures Value() == CompleteRow(old(Value()), event)
    {
      endNS, status, errText := event.endNS, event.status, event.error;
    }
  }

  lemma UpsertNext(spans: map<ID, SpanCells>, rows: seq<Row>, i: nat)
    requires i < |rows|
    ensures UpsertAll(spans, rows[..i + 1]) == Upsert(UpsertAll(spans, rows[..i]), rows[i])
  {
    assert rows[..i + 1][..i] == rows[..i];
  }

  lemma ApplyNothing(t: Tables)
    ensures Apply(t, NOTHING) == t
  {
  }

  // ----- the sink ------------------------------------------------------------

  class Sink {
    var db: File
    var pendingSpans: seq<SpanRow>
    var pendingByID: map<ID, SpanRow>
    var pendingAttrs: seq<AttrRow>
    var nameIDs: map<string, ID>
    var internedThisFlush: map<string, ID>
    ghost var buffers: Pending       // the pending state as a value
    ghost var Repr: set<SpanRow>     // the queued row objects

    /** Queued rows are distinct objects, and pendingByID[id] is the very object
        standing last for id in pendingSpans. */
    ghost predicate Aliased()
      reads this, Repr
    {
      && (forall i :: 0 <= i < |pendingSpans| ==> pendingSpans[i] in Repr)
      && (forall i, j :: 0 <= i < j < |pendingSpans| ==> pendingSpans[i] != pendingSpans[j])
      && |buffers.rows| == |pendingSpans|
      && (forall i :: 0 <= i < |pendingSpans| ==> pendingSpans[i].Value() == buffers.rows[i])
      && Coherent(buffers)
      && pendingByID.Keys == buffers.open.Keys
      && (forall id :: id in pendingByID ==> pendingByID[id] == pendingSpans[buffers.open[id]])
      && pendingAttrs == buffers.attrs
    }

    ghost predicate Valid()
      reads this, Repr
    {
      Aliased() && Resolved(db) && NamesAgree(db.names, nameIDs) && internedThisFlush == map[]
    }

    constructor ()
      ensures Valid() && db == NEW_FILE && buffers == NOTHING && Repr == {}
    {
      db := NEW_FILE;
      pendingSpans, pendingByID, pendingAttrs := [], map[], [];
      nameIDs, internedThisFlush := map[], map[];
      buffers, Repr := NOTHING, {};
    }

    /** The walk of one event's attribute tree into pendingAttrs. */
    method AppendAttrs(spanID: ID, prefix: string, attrs: seq<Attr>)
      modifies this`pendingAttrs
      ensures pendingAttrs == old(pendingAttrs) + RowsOf(spanID, Flatten(prefix, attrs))
      decreases attrs
    {
      assert attrs[..|attrs|] == attrs;
      for i := 0 to |attrs|
        invariant pendingAttrs == old(pendingAttrs) + RowsOf(spanID, Flatten(prefix, attrs[..i]))
      {
        var attr := attrs[i];
        FlattenSnoc(prefix, attrs[..i], attr);
        assert attrs[..i + 1] == attrs[..i] + [attr];
        if attr.value.Group? {
          AppendAttrs(spanID, if attr.key != "" then prefix + attr.key + "." else prefix, attr.value.members);
        } else if attr.key != "" {
          pendingAttrs := pendingAttrs + [AttrRow(spanID, prefix + attr.key, AttrCell(attr.value))];
        }
      }
    }

    method WriteBatch(events: seq<Event>) returns (outcome: Outcome)
      requires Valid()
      modifies this, Repr
      ensures Valid() && fresh(Repr - old(Repr))
      ensures outcome == Ok && db == old(db) && nameIDs == old(nameIDs)
      ensures buffers == AbsorbAll(old(buffers), events)
    {
      for i := 0 to |events|
        invariant Valid() && db == old(db) && nameIDs == old(nameIDs)
        invariant fresh(Repr - old(Repr))
        invariant buffers == AbsorbAll(old(buffers), events[..i])
      {
        assert events[..i + 1][..i] == events[..i];
        Take(events[i]);
      }
      assert events[..|events|] == events;
      outcome := Ok;
    }

    /** One turn of WriteBatch's loop. */
    method Take(event: Event)
      requires Aliased()
      modifies this`pendingSpans, this`pendingByID, this`pendingAttrs, this`buffers, this`Repr, Repr
      ensures Aliased() && fresh(Repr - old(Repr))
      ensures buffers == Absorb(old(buffers), event)
    {
      AbsorbCoherent(buffers, event);
      match event {
        case Start(id, _, _, _, _, attrs) =>
          OpenRow(StartRow(event));
          QueueAttrs(id, attrs);
        case Attrs(id, _, attrs) =>
          QueueAttrs(id, attrs);
        case End(id, _, _, _, _, _, _, _) =>
          if id in pendingByID {
            CompleteInPlace(event);
          } else {
            QueueRow(EndRow(event));
          }
        case Other(_) =>
      }
    }

    /** One event's attributes, flattened and queued. */
    method QueueAttrs(spanID: ID, attrs: seq<Attr>)
      requires Aliased()
      modifies this`pendingAttrs, this`buffers
      ensures Aliased()
      ensures buffers == old(buffers).(attrs := old(buffers).attrs + RowsOf(spanID, Flatten("", attrs)))
    {
      AppendAttrs(spanID, "", attrs);
      buffers := buffers.(attrs := pendingAttrs);
    }

    /** A Start's row, queued at the back and made its span's open row. */
    method OpenRow(row: Row)
      requires Aliased()
      modifies this`pendingSpans, this`pendingByID, this`buffers, this`Repr
      ensures Aliased() && fresh(Repr - old(Repr))
      ensures buffers == Push(old(buffers), row, true)
    {
      PushCoherent(buffers, row, true);
      var pending := new SpanRow(row);
      pendingSpans, pendingByID := pendingSpans + [pending], pendingByID[row.id := pending];
      buffers, Repr := Push(buffers, row, true), Repr + {pending};
    }

    /** An End's row whose Start is not pending, queued at the back. */
    method QueueRow(row: Row)
      requires Aliased() && row.id !in pendingByID
      modifies this`pendingSpans, this`buffers, this`Repr
      ensures Aliased() && fresh(Repr - old(Repr))
      ensures buffers == Push(old(buffers), row, false)
    {
      PushCoherent(buffers, row, false);
      var pending := new SpanRow(row);
      pendingSpans := pendingSpans + [pending];
      buffers, Repr := Push(buffers, row, false), Repr + {pending};
    }

    /** The write goes through pendingByID; the aliasing makes it land in the
        queue, on the span's last row and on no other. */
    method CompleteInPlace(event: Event)
      requires Aliased() && event.End? && event.spanID in pendingByID
      modifies pendingByID[event.spanID], this`buffers
      ensures Aliased()
      ensures buffers == Complete(old(buffers), event)
    {
      CompleteCoherent(buffers, event);
      var row := pendingByID[event.spanID];
      row.Finish(event);
      buffers := Complete(buffers, event);
    }

    /** The commit moment: all of the window or none of it, and either way the
        buffers are empty afterwards. */
    method Flush(driver: Driver) returns (outcome: Outcome)
      requires Valid()
      modifies this
      ensures Valid() && buffers == NOTHING && Repr == {} && !outcome.Panic?
      ensures outcome.Ok? ==> Join(db) == Apply(Join(old(db)), old(buffers))
      ensures !outcome.Ok? ==> db == old(db) && nameIDs == old(nameIDs)
      ensures old(pendingSpans == [] && pendingAttrs == []) ==> outcome.Ok? && db == old(db)
      ensures (driver.beginOK && driver.commitOK
               && driver.statements >= 3 * |old(pendingSpans)| + |old(pendingAttrs)| + 2) ==> outcome.Ok?
      ensures outcome.Ok? && old(pendingSpans != [] || pendingAttrs != []) ==> driver.beginOK && driver.commitOK
    {
      hide Resolved, NamesAgree, Join, Apply;
      if pendingSpans == [] && pendingAttrs == [] {
        assert forall id :: id !in buffers.open;
        assert buffers == NOTHING;
        ApplyNothing(Join(db));
        Repr := {};
        return Ok;
      }
      outcome := Transact(driver);
      ClearPending();
    }

    /** Begin, write everything, commit, and only then let the names inserted on
        the way into the cache. */
    method Transact(driver: Driver) returns (outcome: Outcome)
      requires Valid()
      modifies this`db, this`nameIDs, this`internedThisFlush
      ensures Resolved(db) && NamesAgree(db.names, nameIDs) && !outcome.Panic?
      ensures outcome.Ok? ==> Join(db) == Apply(Join(old(db)), buffers) && driver.beginOK && driver.commitOK
      ensures !outcome.Ok? ==> db == old(db) && nameIDs == old(nameIDs)
      ensures driver.beginOK && driver.commitOK && driver.statements >= 3 * |pendingSpans| + |pendingAttrs| + 2
              ==> outcome.Ok?
    {
      assert nameIDs + internedThisFlush == nameIDs;
      hide Resolved, NamesAgree, Join, Apply, Coherent;
      if !driver.beginOK {
        return Err("beginning commit");
      }
      var tx := new Tx(db, driver.statements);
      var ok := WritePending(tx);
      if !ok {
        return Err("writing");
      }
      if !driver.commitOK {
        return Err("committing");
      }
      db := tx.file;
      nameIDs := nameIDs + internedThisFlush;
      return Ok;
    }

    method ClearPending()
      modifies this`pendingSpans, this`pendingAttrs, this`pendingByID, this`internedThisFlush, this`buffers, this`Repr
      ensures pendingSpans == [] && pendingAttrs == [] && pendingByID == map[] && internedThisFlush == map[]
      ensures Aliased() && buffers == NOTHING && Repr == {}
    {
      pendingSpans, pendingAttrs, pendingByID, internedThisFlush := [], [], map[], map[];
      buffers, Repr := NOTHING, {};
    }

    /** What holds of the open transaction and the two caches at every step. */
    ghost predicate Interning(tx: Tx)
      reads this, tx
    {
      && Resolved(tx.file)
      && nameIDs.Keys !! internedThisFlush.Keys
      && NamesAgree(tx.file.names, nameIDs + internedThisFlush)
    }

    /** Two levels: names committed earlier, then names inserted in this
        transaction, then the table itself. The insert is reached only for a
        name the table does not hold, so UNIQUE never fails it. */
    method InternName(tx: Tx, name: string) returns (ok: bool, id: ID)
      requires Interning(tx)
      modifies this`internedThisFlush, tx
      ensures ok ==> Interning(tx) && id in tx.file.names && tx.file.names[id] == name
      ensures ok ==> Join(tx.file) == Join(old(tx.file))
      ensures old(tx.budget) >= 2 ==> ok && tx.budget >= old(tx.budget) - 2
    {
      if name in nameIDs {
        assert (nameIDs + internedThisFlush)[name] == nameIDs[name];
        return true, nameIDs[name];
      }
      if name in internedThisFlush {
        assert (nameIDs + internedThisFlush)[name] == internedThisFlush[name];
        return true, internedThisFlush[name];
      }
      ok, id := AddName(tx, name);
    }

    /** First sight of a name: insert it and hold it aside for this flush. */
    method AddName(tx: Tx, name: string) returns (ok: bool, id: ID)
      requires Interning(tx) && name !in nameIDs && name !in internedThisFlush
      modifies this`internedThisFlush, tx
      ensures ok ==> Interning(tx) && id in tx.file.names && tx.file.names[id] == name
      ensures ok ==> Join(tx.file) == Join(old(tx.file))
      ensures old(tx.budget) >= 2 ==> ok && tx.budget >= old(tx.budget) - 2
    {
      hide Resolved, NamesAgree, Join;
      NewNameAgrees(tx.file.names, nameIDs + internedThisFlush, name);
      JoinIgnoresNewNames(tx.file, name);
      ok := tx.InsertName(name);
      if !ok { return false, 0; }
      ok := tx.Spend();  // reading the rowid back can fail too
      if !ok { return false, 0; }
      id := tx.lastID;
      assert nameIDs + internedThisFlush[name := id] == (nameIDs + internedThisFlush)[name := id];
      internedThisFlush := internedThisFlush[name := id];
    }

    method WritePending(tx: Tx) returns (ok: bool)
      requires Aliased() && Interning(tx)
      modifies this`internedThisFlush, tx
      ensures ok ==> Interning(tx)
      ensures ok ==> Join(tx.file) == Apply(Join(old(tx.file)), buffers)
      ensures old(tx.budget) >= 3 * |pendingSpans| + |pendingAttrs| + 2 ==> ok
    {
      ok := WriteSpans(tx);
      if ok && pendingAttrs != [] {
        ok := WriteAttrs(tx);
      }
    }

    method WriteSpans(tx: Tx) returns (ok: bool)
      requires Aliased() && Interning(tx)
      modifies this`internedThisFlush, tx
      ensures ok ==> Interning(tx)
      ensures ok ==> Join(tx.file) == Tables(UpsertAll(Join(old(tx.file)).spans, buffers.rows), old(tx.file).attrs)
      ensures old(tx.budget) >= 3 * |pendingSpans| + 1 ==> ok && tx.budget >= old(tx.budget) - 1 - 3 * |pendingSpans|
    {
      ok := tx.Spend();  // preparing the statement
      if !ok { return; }
      ghost var before, budget, rows := Join(tx.file), tx.budget, buffers.rows;
      for i := 0 to |pendingSpans|
        invariant Interning(tx)
        invariant Join(tx.file) == Tables(UpsertAll(before.spans, rows[..i]), before.attrs)
        invariant budget >= 3 * |pendingSpans| ==> tx.budget >= budget - 3 * i
      {
        ok := WriteSpan(tx, pendingSpans[i]);
        if !ok { return; }
        UpsertNext(before.spans, rows, i);
      }
      assert rows[..|pendingSpans|] == rows;
    }

    method WriteSpan(tx: Tx, row: SpanRow) returns (ok: bool)
      requires Interning(tx)
      modifies this`internedThisFlush, tx
      ensures ok ==> Interning(tx)
      ensures ok ==> Join(tx.file) == Tables(Upsert(Join(old(tx.file)).spans, row.Value()), old(tx.file).attrs)
      ensures old(tx.budget) >= 3 ==> ok && tx.budget >= old(tx.budget) - 3
    {
      var nameID;
      ok, nameID := InternName(tx, row.name);
      if !ok { return; }
      JoinUpserts(tx.file, row.Value(), nameID);
      ok := tx.UpsertSpan(row.id, Encode(row.Value(), nameID));
    }

    method WriteAttrs(tx: Tx) returns (ok: bool)
      requires Interning(tx)
      modifies tx
      ensures ok ==> Interning(tx)
      ensures ok ==> tx.file == old(tx.file).(attrs := ReplaceAll(old(tx.file).attrs, pendingAttrs))
      ensures old(tx.budget) >= |pendingAttrs| + 1 ==> ok
    {
      ok := tx.Spend();  // preparing the statement
      if !ok { return; }
      ghost var budget := tx.budget;
      for i := 0 to |pendingAttrs|
        invariant tx.file == old(tx.file).(attrs := ReplaceAll(old(tx.file).attrs, pendingAttrs[..i]))
        invariant budget >= |pendingAttrs| ==> tx.budget >= budget - i
      {
        assert pendingAttrs[..i + 1][..i] == pendingAttrs[..i];
        ok := tx.ReplaceAttr(pendingAttrs[i]);
        if !ok { return; }
      }
      assert pendingAttrs[..|pendingAttrs|] == pendingAttrs;
    }
  }

  // ----- whole runs ----------------------------------------------------------

  datatype Request = Deliver(events: seq<Event>) | Commit(driver: Driver)

  /** Begin and Commit work and the statements last for everything pending. */
  ghost predicate Suffices(driver: Driver, p: Pending) {
    driver.beginOK && driver.commitOK && driver.statements >= 3 * |p.rows| + |p.attrs| + 2
  }

  /** What a call made after the history in log may return: batches are always
      taken; a commit succeeds if the driver serves it or nothing is pending, and
      with something pending it cannot succeed unless Begin and Commit work. */
  ghost predicate Answers(call: SinkCall, request: Request, log: seq<SinkCall>) {
    match request
    case Deliver(events) => call == WriteBatch(events, Ok)
    case Commit(driver) =>
      var p := AbsorbAll(NOTHING, Windows(log).1);
      var empty := p.rows == [] && p.attrs == [];
      && call.Flush? && !call.outcome.Panic?
      && (Suffices(driver, p) || empty ==> call.outcome.Ok?)
      && (call.outcome.Ok? && !empty ==> driver.beginOK && driver.commitOK)
  }

  /** A call history that answers a list of requests. */
  ghost predicate AnswersAll(log: seq<SinkCall>, requests: seq<Request>) {
    |log| == |requests| && forall i :: 0 <= i < |log| ==> Answers(log[i], requests[i], log[..i])
  }

  /** The sink stands where its call history says. */
  ghost predicate Reflects(sink: Sink, log: seq<SinkCall>)
    reads sink, sink.Repr
  {
    && sink.Valid()
    && sink.buffers == AbsorbAll(NOTHING, Windows(log).1)
    && Join(sink.db) == ApplyAll(EMPTY, Windows(log).0)
  }

  method Open() returns (sink: Sink)
    ensures fresh(sink) && fresh(sink.Repr) && Reflects(sink, [])
  {
    sink := new Sink();
    assert Join(sink.db) == EMPTY;
  }

  method Serve(sink: Sink, request: Request, ghost log: seq<SinkCall>) returns (call: SinkCall)
    requires Reflects(sink, log)
    modifies sink, sink.Repr
    ensures Reflects(sink, log + [call]) && fresh(sink.Repr - old(sink.Repr))
    ensures Answers(call, request, log)
  {
    ghost var tables, committed, window := Join(sink.db), Windows(log).0, Windows(log).1;
    match request {
      case Deliver(events) =>
        AbsorbAllConcat(NOTHING, window, events);
        var outcome := sink.WriteBatch(events);
        call := WriteBatch(events, outcome);
      case Commit(driver) =>
        CoalescingRefines(tables, NOTHING, window);
        ApplyAllConcat(EMPTY, committed, window);
        var outcome := sink.Flush(driver);
        call := Flush(outcome);
    }
    WindowsSnoc(log, call);
  }

  lemma WindowsSnoc(log: seq<SinkCall>, call: SinkCall)
    ensures var (committed, window) := Windows(log);
            Windows(log + [call]) ==
              match call
              case WriteBatch(events, _) => (committed, window + events)
              case Flush(outcome) => (if outcome.Ok? then committed + window else committed, [])
              case Close(_) => (committed, window)
  {
    assert (log + [call])[..|log|] == log;
  }

  method Drive(requests: seq<Request>) returns (sink: Sink, log: seq<SinkCall>)
    ensures fresh(sink) && fresh(sink.Repr) && Reflects(sink, log)
    ensures AnswersAll(log, requests)
    decreases |requests|
  {
    hide Reflects, Answers;
    if requests == [] {
      sink := Open();
      log := [];
    } else {
      var last := |requests| - 1;
      sink, log := Drive(requests[..last]);
      var call := Serve(sink, requests[last], log);
      ghost var before := log;
      log := log + [call];
      assert forall i :: 0 <= i <= |before| ==> log[..i] == before[..i];
      assert before[..|before|] == before;
    }
  }

  /** Any stream of events, cut into batches and commits anywhere, with any
      transaction failing anywhere: the file read through the join is the event
      by event fold over exactly the committed windows, commits fail only when the
      driver makes them, every span row resolves its name, and the cache is the
      inverse of the committed names table. */
  method Materialize(requests: seq<Request>) returns (db: File, cache: map<string, ID>, log: seq<SinkCall>)
    ensures AnswersAll(log, requests)
    ensures Join(db) == ApplyAll(EMPTY, Committed(log))
    ensures Resolved(db) && NamesAgree(db.names, cache)
  {
    var sink;
    sink, log := Drive(requests);
    db, cache := sink.db, sink.nameIDs;
  }
}
