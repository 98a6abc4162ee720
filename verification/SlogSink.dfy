/** The log sink: attributes gathered per open span up to a cap, one record per
    End, duplicate keys merged so that the last write wins. */
module SlogSink {
  import opened Events

  const MAX_OPEN: nat := 65536

  // ----- merging duplicate keys ---------------------------------------------------

  /** Where a key first appears, or the length when it does not. */
  function Find(attrs: seq<Attr>, key: string): (k: nat)
    ensures k <= |attrs| && (k < |attrs| ==> attrs[k].key == key)
    ensures forall j :: 0 <= j < k ==> attrs[j].key != key
  {
    if attrs == [] || attrs[0].key == key then 0 else 1 + Find(attrs[1..], key)
  }

  /** The value a key was last given. */
  function LastOf(attrs: seq<Attr>, key: string): Option<Value> {
    if attrs == [] then None
    else if attrs[|attrs| - 1].key == key then Some(attrs[|attrs| - 1].value)
    else LastOf(attrs[..|attrs| - 1], key)
  }

  /** Each key once, at its place of first appearance, with its last value. */
  ghost predicate LastWins(attrs: seq<Attr>, merged: seq<Attr>) {
    && (forall k :: 0 <= k < |attrs| ==> Find(merged, attrs[k].key) < |merged|)
    && (forall i :: 0 <= i < |merged| ==> LastOf(attrs, merged[i].key) == Some(merged[i].value))
    && (forall i, j :: 0 <= i < j < |merged| ==> Find(attrs, merged[i].key) < Find(attrs, merged[j].key))
  }

  function Overwrite(merged: seq<Attr>, attr: Attr): seq<Attr> {
    var at := Find(merged, attr.key);
    if at < |merged| then merged[at := attr] else merged + [attr]
  }

  function Merge(attrs: seq<Attr>): seq<Attr> {
    if attrs == [] then [] else Overwrite(Merge(attrs[..|attrs| - 1]), attrs[|attrs| - 1])
  }

  method MergeLastWins(attrs: seq<Attr>) returns (merged: seq<Attr>)
    ensures merged == Merge(attrs) && LastWins(attrs, merged)
  {
    merged := [];
    var position: map<string, nat> := map[];
    for i := 0 to |attrs|
      invariant merged == Merge(attrs[..i])
      invariant forall k :: k in position <==> Find(merged, k) < |merged|
      invariant forall k :: k in position ==> position[k] == Find(merged, k)
    {
      var attr := attrs[i];
      assert attrs[..i + 1][..i] == attrs[..i];
      ghost var before := merged;
      if attr.key in position {
        merged := merged[position[attr.key] := attr];
      } else {
        position := position[attr.key := |merged|];
        merged := merged + [attr];
      }
      forall k
        ensures Find(merged, k) < |merged| <==> Find(before, k) < |before| || k == attr.key
        ensures (k != attr.key || Find(before, k) < |before|) && Find(merged, k) < |merged| ==>
          Find(merged, k) == Find(before, k)
      {
        FindAfterOverwrite(before, attr, k);
      }
    }
    assert attrs[..|attrs|] == attrs;
    MergeIsLastWins(attrs);
  }

  lemma FindIs(attrs: seq<Attr>, key: string, k: nat)
    requires k <= |attrs| && (k < |attrs| ==> attrs[k].key == key)
    requires forall j :: 0 <= j < k ==> attrs[j].key != key
    ensures Find(attrs, key) == k
  {
    assert Find(attrs, key) >= k;
  }

  lemma FindAfterOverwrite(merged: seq<Attr>, attr: Attr, key: string)
    ensures var was := Find(merged, key);
            Find(Overwrite(merged, attr), key) ==
              if was < |merged| || key == attr.key then was else |Overwrite(merged, attr)|
  {
    var was := Find(merged, key);
    var now := Overwrite(merged, attr);
    var at := Find(merged, attr.key);
    FindIs(now, key, if was < |merged| || key == attr.key then was else |now|);
  }

  lemma FindInLonger(attrs: seq<Attr>, attr: Attr, key: string)
    ensures var was := Find(attrs, key);
            Find(attrs + [attr], key) == if was < |attrs| || key == attr.key then was else |attrs| + 1
  {
    var was := Find(attrs, key);
    FindIs(attrs + [attr], key, if was < |attrs| || key == attr.key then was else |attrs| + 1);
  }

  /** What the loop builds is the last-wins merge. */
  lemma {:induction false} MergeIsLastWins(attrs: seq<Attr>)
    ensures LastWins(attrs, Merge(attrs))
  {
    if attrs == [] {
    } else {
      var rest, attr := attrs[..|attrs| - 1], attrs[|attrs| - 1];
      MergeIsLastWins(rest);
      assert rest + [attr] == attrs;
      OverwriteKeepsLastWins(rest, Merge(rest), attr);
    }
  }

  lemma OverwriteKeepsLastWins(attrs: seq<Attr>, merged: seq<Attr>, attr: Attr)
    requires LastWins(attrs, merged)
    ensures LastWins(attrs + [attr], Overwrite(merged, attr))
  {
    hide Find, LastOf;
    var longer, now := attrs + [attr], Overwrite(merged, attr);
    forall k | 0 <= k < |longer|
      ensures Find(now, longer[k].key) < |now|
    {
      FindAfterOverwrite(merged, attr, longer[k].key);
    }
    forall i | 0 <= i < |now|
      ensures LastOf(longer, now[i].key) == Some(now[i].value)
    {
      LastOfSnoc(attrs, attr, now[i].key);
      if now[i].key == attr.key { OnlyThere(attrs, merged, attr, i); }
    }
    forall i, j | 0 <= i < j < |now|
      ensures Find(longer, now[i].key) < Find(longer, now[j].key)
    {
      FindInLonger(attrs, attr, now[i].key);
      FindInLonger(attrs, attr, now[j].key);
      MergedKeyAppears(attrs, merged, i);
    }
  }

  lemma LastOfSnoc(attrs: seq<Attr>, attr: Attr, key: string)
    ensures LastOf(attrs + [attr], key) == if attr.key == key then Some(attr.value) else LastOf(attrs, key)
  {
    assert (attrs + [attr])[..|attrs|] == attrs;
  }

  lemma {:induction false} LastOfAppears(attrs: seq<Attr>, key: string)
    ensures LastOf(attrs, key).Some? <==> Find(attrs, key) < |attrs|
  {
    if attrs == [] {
    } else {
      var rest, attr := attrs[..|attrs| - 1], attrs[|attrs| - 1];
      assert rest + [attr] == attrs;
      LastOfAppears(rest, key);
      FindInLonger(rest, attr, key);
    }
  }

  lemma MergedKeyAppears(attrs: seq<Attr>, merged: seq<Attr>, i: nat)
    requires LastWins(attrs, merged)
    ensures i < |merged| ==> Find(attrs, merged[i].key) < |attrs|
  {
    if i < |merged| { LastOfAppears(attrs, merged[i].key); }
  }

  lemma MergedKeysDiffer(attrs: seq<Attr>, merged: seq<Attr>, i: nat, j: nat)
    requires LastWins(attrs, merged) && i < |merged| && j < |merged| && i != j
    ensures merged[i].key != merged[j].key
  {
    hide LastOf;
    var first, second := if i < j then i else j, if i < j then j else i;
    assert Find(attrs, merged[first].key) < Find(attrs, merged[second].key);
  }

  /** Where the overwritten key sits, its new value is. */
  lemma OnlyThere(attrs: seq<Attr>, merged: seq<Attr>, attr: Attr, i: nat)
    requires LastWins(attrs, merged)
    requires i < |Overwrite(merged, attr)| && Overwrite(merged, attr)[i].key == attr.key
    ensures Overwrite(merged, attr)[i] == attr
  {
    hide LastWins;
    var at := Find(merged, attr.key);
    if at < |merged| && i < |merged| {
      forall j | 0 <= j < |merged| && j != at
        ensures merged[j].key != attr.key
      {
        MergedKeysDiffer(attrs, merged, j, at);
      }
    }
  }

  // The merge is the only sequence its description fits.

  ghost predicate Increasing(x: seq<nat>) {
    forall i, j :: 0 <= i < j < |x| ==> x[i] < x[j]
  }

  lemma DropLargest(x: seq<nat>, k: nat)
    requires Increasing(x) && x != []
    ensures k in x ==> k <= x[|x| - 1]
    ensures k in x[..|x| - 1] <==> k in x && k != x[|x| - 1]
  {
    assert x == x[..|x| - 1] + [x[|x| - 1]];
  }

  ghost predicate Within(x: seq<nat>, y: seq<nat>) {
    forall k :: k in x ==> k in y
  }

  lemma HeadWithin(x: seq<nat>, y: seq<nat>)
    requires Within(x, y)
    ensures x != [] ==> x[0] in y
  {
  }

  lemma {:induction false} SameIncreasing(x: seq<nat>, y: seq<nat>)
    requires Increasing(x) && Increasing(y) && Within(x, y) && Within(y, x)
    ensures x == y
  {
    HeadWithin(x, y);
    HeadWithin(y, x);
    if x != [] && y != [] {
      var m, n := x[|x| - 1], y[|y| - 1];
      assert m in y && n in x;
      DropLargest(x, n);
      DropLargest(y, m);
      SameWithoutLast(x, y);
      SameWithoutLast(y, x);
      SameIncreasing(x[..|x| - 1], y[..|y| - 1]);
      assert x == x[..|x| - 1] + [m] && y == y[..|y| - 1] + [n];
    }
  }

  lemma SameWithoutLast(x: seq<nat>, y: seq<nat>)
    requires Increasing(x) && Increasing(y) && x != [] && y != []
    requires x[|x| - 1] == y[|y| - 1] && Within(x, y)
    ensures Within(x[..|x| - 1], y[..|y| - 1])
  {
    var rest := x[..|x| - 1];
    forall k | k in rest
      ensures k in y[..|y| - 1]
    {
      DropLargest(x, k);
      DropLargest(y, k);
    }
  }

  function Places(attrs: seq<Attr>, merged: seq<Attr>): (p: seq<nat>)
    ensures |p| == |merged|
  {
    seq(|merged|, i requires 0 <= i < |merged| => Find(attrs, merged[i].key))
  }

  lemma PlacesCovered(attrs: seq<Attr>, a: seq<Attr>, b: seq<Attr>, k: nat)
    requires LastWins(attrs, a) && LastWins(attrs, b) && k in Places(attrs, a)
    ensures k in Places(attrs, b)
  {
    hide LastOf;
    var i :| 0 <= i < |a| && Places(attrs, a)[i] == k;
    MergedKeyAppears(attrs, a, i);
    assert attrs[k].key == a[i].key;
    var j := Find(b, attrs[k].key);
    assert Places(attrs, b)[j] == k;
  }

  lemma LastWinsIsUnique(attrs: seq<Attr>, a: seq<Attr>, b: seq<Attr>)
    requires LastWins(attrs, a) && LastWins(attrs, b)
    ensures a == b
  {
    var x, y := Places(attrs, a), Places(attrs, b);
    forall k | k in x
      ensures k in y
    {
      PlacesCovered(attrs, a, b, k);
    }
    forall k | k in y
      ensures k in x
    {
      PlacesCovered(attrs, b, a, k);
    }
    SameIncreasing(x, y);
    forall i | 0 <= i < |a|
      ensures a[i] == b[i]
    {
      MergedKeyAppears(attrs, a, i);
      MergedKeyAppears(attrs, b, i);
      assert x[i] == y[i];
      assert a[i].key == attrs[x[i]].key == b[i].key;
      assert LastOf(attrs, a[i].key) == Some(a[i].value) && LastOf(attrs, b[i].key) == Some(b[i].value);
    }
  }

  // ----- the records ----------------------------------------------------------------

  datatype Level = Info | Warn | Failure

  datatype Record = Record(level: Level, message: string, spanID: ID, traceID: ID, duration: int64,
                           status: Status, error: Option<string>, attrs: seq<Attr>)

  function LevelOf(status: Status): Level {
    match status
    case OK => Info
    case Canceled => Warn
    case Error => Failure
  }

  function RecordFor(e: Event, attrs: seq<Attr>): Record
    requires e.End?
  {
    Record(LevelOf(e.status), e.name, e.spanID, e.traceID, Wrap64(e.endNS - e.startNS), e.status,
           if e.error != "" then Some(e.error) else None, attrs)
  }

  /** The sink's state as a value: what is gathered per open span, and every
      record handed to the logger. */
  datatype Gathered = Gathered(open: map<ID, seq<Attr>>, records: seq<Record>)

  const IDLE := Gathered(map[], [])

  function Observe(g: Gathered, e: Event): Gathered {
    if e.Start? || e.Attrs? then
      if e.spanID in g.open then g.(open := g.open[e.spanID := g.open[e.spanID] + e.attrs])
      else if |g.open| >= MAX_OPEN then g
      else g.(open := g.open[e.spanID := e.attrs])
    else if e.End? then
      Gathered(g.open - {e.spanID},
               g.records + [RecordFor(e, if e.spanID in g.open then Merge(g.open[e.spanID]) else [])])
    else g
  }

  function ObserveAll(g: Gathered, es: seq<Event>): Gathered {
    if es == [] then g else Observe(ObserveAll(g, es[..|es| - 1]), es[|es| - 1])
  }

  lemma {:induction false} ObserveAllConcat(g: Gathered, x: seq<Event>, y: seq<Event>)
    ensures ObserveAll(g, x + y) == ObserveAll(ObserveAll(g, x), y)
  {
    if y == [] {
      assert x + y == x;
    } else {
      assert (x + y)[..|x + y| - 1] == x + y[..|y| - 1];
      ObserveAllConcat(g, x, y[..|y| - 1]);
    }
  }

  // ----- the sink ---------------------------------------------------------------------

  class OpenSpan {
    var attrs: seq<Attr>

    constructor ()
      ensures attrs == []
    {
      attrs := [];
    }
  }

  class Sink {
    var open: map<ID, OpenSpan>
    var records: seq<Record>
    ghost var spans: set<OpenSpan>

    ghost predicate Valid()
      reads this
    {
      && (forall id :: id in open ==> open[id] in spans)
      && (forall a, b :: a in open && b in open && a != b ==> open[a] != open[b])
    }

    ghost function State(): Gathered
      requires Valid()
      reads this, spans
    {
      Gathered(map id | id in open :: open[id].attrs, records)
    }

    constructor ()
      ensures Valid() && State() == IDLE && fresh(spans)
    {
      open, records, spans := map[], [], {};
    }

    method WriteBatch(batch: seq<Event>)
      requires Valid()
      modifies this, spans
      ensures Valid() && fresh(spans - old(spans))
      ensures State() == ObserveAll(old(State()), batch)
    {
      for i := 0 to |batch|
        invariant Valid() && fresh(spans - old(spans))
        invariant State() == ObserveAll(old(State()), batch[..i])
      {
        assert batch[..i + 1][..i] == batch[..i];
        var event := batch[i];
        match event {
          case Start(_, _, _, _, _, _) => Accumulate(event);
          case Attrs(_, _, _) => Accumulate(event);
          case End(_, _, _, _, _, _, _, _) => Finish(event);
          case Other(_) =>
        }
      }
      assert batch[..|batch|] == batch;
    }

    method Accumulate(event: Event)
      requires Valid() && (event.Start? || event.Attrs?)
      modifies this, spans
      ensures Valid() && fresh(spans - old(spans))
      ensures State() == Observe(old(State()), event)
    {
      SameSize();
      ghost var id, was := event.spanID, State();
      if event.spanID !in open {
        if |open| >= MAX_OPEN {
          return;
        }
        Track(event.spanID);
        assert [] + event.attrs == event.attrs;
        assert was.open[id := []][id := [] + event.attrs] == was.open[id := event.attrs];
      }
      Append(event.spanID, event.attrs);
    }

    method Track(id: ID)
      requires Valid() && id !in open
      modifies this`open, this`spans
      ensures Valid() && spans > old(spans) && fresh(spans - old(spans))
      ensures id in open && State() == old(State()).(open := old(State()).open[id := []])
    {
      var span := new OpenSpan();
      open := open[id := span];
      spans := spans + {span};
    }

    method Append(id: ID, attrs: seq<Attr>)
      requires Valid() && id in open
      modifies open[id]
      ensures Valid() && State() == old(State()).(open := old(State()).open[id := old(State()).open[id] + attrs])
    {
      var span := open[id];
      span.attrs := span.attrs + attrs;
    }

    method Finish(event: Event)
      requires Valid() && event.End?
      modifies this
      ensures Valid() && spans == old(spans)
      ensures State() == Observe(old(State()), event)
    {
      Emit(event);
      open := open - {event.spanID};
    }

    method Emit(event: Event)
      requires Valid() && event.End?
      modifies this`records
      ensures records == old(records) +
        [RecordFor(event, if event.spanID in open then Merge(open[event.spanID].attrs) else [])]
    {
      var recordAttrs := [];
      if event.spanID in open {
        recordAttrs := MergeLastWins(open[event.spanID].attrs);
      }
      records := records + [RecordFor(event, recordAttrs)];
    }

    lemma SameSize()
      requires Valid()
      ensures |open| == |State().open|
    {
      assert open.Keys == State().open.Keys;
      assert |open| == |open.Keys| && |State().open| == |State().open.Keys|;
    }
  }
}
