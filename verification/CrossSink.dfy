/** The two sinks side by side: what the attrs table and the log record say about
    the same span, and exactly when they say the same. */
module CrossSink {
  import opened Events
  import opened Tables
  import opened SlogSink
  import opened SlogRecords

  // ----- the table: last write per leaf path ----------------------------------------

  /** The value a leaf path was last given. */
  function LastLeaf(leaves: seq<(string, Value)>, path: string): Option<Value> {
    if leaves == [] then None
    else if leaves[|leaves| - 1].0 == path then Some(leaves[|leaves| - 1].1)
    else LastLeaf(leaves[..|leaves| - 1], path)
  }

  function CellFor(v: Option<Value>): Option<Cell> {
    if v.Some? then Some(AttrCell(v.value)) else None
  }

  function Lookup(attrs: map<(ID, string), Cell>, id: ID, path: string): Option<Cell> {
    if (id, path) in attrs then Some(attrs[(id, path)]) else None
  }

  lemma {:induction false} LastLeafConcat(a: seq<(string, Value)>, b: seq<(string, Value)>, path: string)
    ensures LastLeaf(a + b, path) == if LastLeaf(b, path).Some? then LastLeaf(b, path) else LastLeaf(a, path)
  {
    if b == [] {
      assert a + b == a;
    } else {
      assert (a + b)[..|a + b| - 1] == a + b[..|b| - 1];
      LastLeafConcat(a, b[..|b| - 1], path);
    }
  }

  lemma {:induction false} ReplacedLeaves(attrs: map<(ID, string), Cell>, span: ID, leaves: seq<(string, Value)>,
                                          id: ID, path: string)
    ensures Lookup(ReplaceAll(attrs, RowsOf(span, leaves)), id, path) ==
            if span == id && LastLeaf(leaves, path).Some? then CellFor(LastLeaf(leaves, path))
            else Lookup(attrs, id, path)
  {
    hide AttrCell;
    if leaves == [] {
    } else {
      var rest := leaves[..|leaves| - 1];
      assert RowsOf(span, leaves)[..|leaves| - 1] == RowsOf(span, rest);
      ReplacedLeaves(attrs, span, rest, id, path);
    }
  }

  /** A span's rows in the attrs table are the last-wins fold of the leaf paths
      it was ever given, in event order. */
  lemma {:induction false} TableHoldsLastLeaves(es: seq<Event>, id: ID, path: string)
    ensures Lookup(ApplyAll(EMPTY, es).attrs, id, path) == CellFor(LastLeaf(Flatten("", AllAttrs(es, id)), path))
  {
    if es != [] {
      hide AttrCell, Flatten, FlattenOne, LastLeaf, ReplaceAll, Lookup, CellFor;
      var rest, e := es[..|es| - 1], es[|es| - 1];
      TableHoldsLastLeaves(rest, id, path);
      var was := ApplyAll(EMPTY, rest).attrs;
      var given := if e.Start? || e.Attrs? then Flatten("", e.attrs) else [];
      ReplacedLeaves(was, e.spanID, given, id, path);
      assert EventAttrs(e) == RowsOf(e.spanID, given);
      if Adds(e, id) {
        FlattenConcat("", AllAttrs(rest, id), e.attrs);
        LastLeafConcat(Flatten("", AllAttrs(rest, id)), given, path);
        CellOfLast(LastLeaf(given, path), LastLeaf(Flatten("", AllAttrs(rest, id)), path));
      } else {
        NothingGiven(e, id, path);
        assert AllAttrs(rest, id) + [] == AllAttrs(rest, id);
      }
    } else {
      assert Lookup(map[], id, path) == None;
    }
  }

  lemma CellOfLast(a: Option<Value>, b: Option<Value>)
    ensures CellFor(if a.Some? then a else b) == if a.Some? then CellFor(a) else CellFor(b)
  {
  }

  lemma NothingGiven(e: Event, id: ID, path: string)
    requires !Adds(e, id)
    ensures !(e.Start? || e.Attrs?) ==> LastLeaf([], path) == None
    ensures e.Start? || e.Attrs? ==> e.spanID != id
  {
  }

  // ----- groups ----------------------------------------------------------------------

  /** Flattening the attribute yields the path. */
  predicate Holds(a: Attr, path: string) {
    LastLeaf(FlattenOne("", a), path).Some?
  }

  /** Attributes of different keys have no leaf path in common. */
  ghost predicate NoCollisions(attrs: seq<Attr>) {
    forall i, j, p :: 0 <= i < |attrs| && 0 <= j < |attrs| && Holds(attrs[i], p) && Holds(attrs[j], p) ==>
      attrs[i].key == attrs[j].key
  }

  /** The last value of a key has every leaf path an earlier value of it had. */
  ghost predicate Covers(attrs: seq<Attr>) {
    forall i, p :: 0 <= i < |attrs| && Holds(attrs[i], p) ==>
      LastOf(attrs, attrs[i].key).Some? && Holds(Attr(attrs[i].key, LastOf(attrs, attrs[i].key).value), p)
  }

  lemma {:induction false} NoHolder(attrs: seq<Attr>, path: string)
    requires forall i :: 0 <= i < |attrs| ==> !Holds(attrs[i], path)
    ensures LastLeaf(Flatten("", attrs), path) == None
  {
    hide FlattenOne;
    if attrs == [] {
    } else {
      var rest, a := attrs[..|attrs| - 1], attrs[|attrs| - 1];
      NoHolder(rest, path);
      FlattenSnoc("", rest, a);
      assert rest + [a] == attrs;
      LastLeafConcat(Flatten("", rest), FlattenOne("", a), path);
      assert !Holds(a, path);
    }
  }

  lemma {:induction false} HolderDecides(attrs: seq<Attr>, path: string, j: nat)
    requires j < |attrs| && Holds(attrs[j], path)
    requires forall i :: j < i < |attrs| ==> !Holds(attrs[i], path)
    ensures LastLeaf(Flatten("", attrs), path) == LastLeaf(FlattenOne("", attrs[j]), path)
    decreases |attrs|
  {
    hide FlattenOne;
    var rest, a := attrs[..|attrs| - 1], attrs[|attrs| - 1];
    FlattenSnoc("", rest, a);
    assert rest + [a] == attrs;
    LastLeafConcat(Flatten("", rest), FlattenOne("", a), path);
    if j < |rest| {
      assert !Holds(a, path);
      HolderDecides(rest, path, j);
    }
  }

  /** The last attribute that yields the path, if any does. */
  lemma LastHolder(attrs: seq<Attr>, path: string) returns (found: bool, j: nat)
    ensures found ==> j < |attrs| && Holds(attrs[j], path) && forall i :: j < i < |attrs| ==> !Holds(attrs[i], path)
    ensures !found ==> forall i :: 0 <= i < |attrs| ==> !Holds(attrs[i], path)
  {
    hide Holds;
    found, j := false, |attrs|;
    while j > 0 && !found
      invariant j <= |attrs| && (found ==> j < |attrs| && Holds(attrs[j], path))
      invariant forall i :: (if found then j + 1 else j) <= i < |attrs| ==> !Holds(attrs[i], path)
      decreases j, !found
    {
      j := j - 1;
      found := Holds(attrs[j], path);
    }
  }

  lemma LeafIffHeld(attrs: seq<Attr>, path: string)
    ensures LastLeaf(Flatten("", attrs), path).Some? <==> exists i :: 0 <= i < |attrs| && Holds(attrs[i], path)
  {
    var found, j := LastHolder(attrs, path);
    if found { HolderDecides(attrs, path, j); } else { NoHolder(attrs, path); }
  }

  /** Where a key was last given its value. */
  lemma {:induction false} LastGiven(attrs: seq<Attr>, key: string) returns (l: nat)
    requires LastOf(attrs, key).Some?
    ensures l < |attrs| && attrs[l] == Attr(key, LastOf(attrs, key).value)
    ensures forall i :: l < i < |attrs| ==> attrs[i].key != key
  {
    if attrs[|attrs| - 1].key == key { l := |attrs| - 1; } else { l := LastGiven(attrs[..|attrs| - 1], key); }
  }

  /** Every merged attribute is the last one of its key. */
  lemma MergedWasGiven(attrs: seq<Attr>, i: nat) returns (l: nat)
    requires i < |Merge(attrs)|
    ensures l < |attrs| && attrs[l] == Merge(attrs)[i]
    ensures LastOf(attrs, Merge(attrs)[i].key) == Some(Merge(attrs)[i].value)
  {
    MergeIsLastWins(attrs);
    l := LastGiven(attrs, Merge(attrs)[i].key);
  }

  ghost predicate SameLeaf(attrs: seq<Attr>, path: string) {
    LastLeaf(Flatten("", Merge(attrs)), path) == LastLeaf(Flatten("", attrs), path)
  }

  lemma SameMeansCovered(attrs: seq<Attr>, i: nat, path: string)
    requires NoCollisions(attrs) && SameLeaf(attrs, path) && i < |attrs| && Holds(attrs[i], path)
    ensures LastOf(attrs, attrs[i].key).Some? && Holds(Attr(attrs[i].key, LastOf(attrs, attrs[i].key).value), path)
  {
    hide LastLeaf, Flatten, FlattenOne, Merge, LastOf, Holds;
    LeafIffHeld(attrs, path);
    LeafIffHeld(Merge(attrs), path);
    var j :| 0 <= j < |Merge(attrs)| && Holds(Merge(attrs)[j], path);
    var l := MergedWasGiven(attrs, j);
    assert attrs[i].key == attrs[l].key;
  }

  lemma CoveredMeansSame(attrs: seq<Attr>, path: string)
    requires NoCollisions(attrs) && Covers(attrs)
    ensures SameLeaf(attrs, path)
  {
    hide LastLeaf, Flatten, FlattenOne, Merge, LastOf, Holds, LastWins;
    var merged := Merge(attrs);
    var found, j := LastHolder(attrs, path);
    if found {
      var key := attrs[j].key;
      var l := LastGiven(attrs, key);
      assert l == j;
      HolderDecides(attrs, path, j);
      var q := MergedAt(attrs, j);
      OnlyHolder(attrs, q, path);
      HolderDecides(merged, path, q);
    } else {
      NoHolder(attrs, path);
      forall i | 0 <= i < |merged|
        ensures !Holds(merged[i], path)
      {
        var l := MergedWasGiven(attrs, i);
      }
      NoHolder(merged, path);
    }
  }

  lemma MergedAt(attrs: seq<Attr>, j: nat) returns (q: nat)
    requires j < |attrs| && LastOf(attrs, attrs[j].key) == Some(attrs[j].value)
    ensures q < |Merge(attrs)| && Merge(attrs)[q] == attrs[j]
  {
    MergeIsLastWins(attrs);
    q := Find(Merge(attrs), attrs[j].key);
  }

  lemma OnlyHolder(attrs: seq<Attr>, q: nat, path: string)
    requires NoCollisions(attrs) && q < |Merge(attrs)| && Holds(Merge(attrs)[q], path)
    ensures forall i :: 0 <= i < |Merge(attrs)| && i != q ==> !Holds(Merge(attrs)[i], path)
  {
    hide Merge, Holds, LastWins;
    var merged := Merge(attrs);
    MergeIsLastWins(attrs);
    var l := MergedWasGiven(attrs, q);
    forall i | 0 <= i < |merged| && i != q
      ensures !Holds(merged[i], path)
    {
      var k := MergedWasGiven(attrs, i);
      MergedKeysDiffer(attrs, merged, i, q);
    }
  }

  // ----- colliding paths included --------------------------------------------------

  function Leaf(a: Attr, path: string): Option<Value> {
    LastLeaf(FlattenOne("", a), path)
  }

  /** The attribute at j is the last that yields the path. */
  ghost predicate LastHolds(attrs: seq<Attr>, path: string, j: nat) {
    j < |attrs| && Holds(attrs[j], path) && forall i :: j < i < |attrs| ==> !Holds(attrs[i], path)
  }

  /** The attribute at k is the last of its key. */
  ghost predicate FinalAt(attrs: seq<Attr>, k: nat) {
    k < |attrs| && forall i :: k < i < |attrs| ==> attrs[i].key != attrs[k].key
  }

  /** Among the keys whose last value yields the path, the one that appeared last. */
  ghost predicate Outlasts(attrs: seq<Attr>, path: string, k: nat) {
    && FinalAt(attrs, k) && Holds(attrs[k], path)
    && forall l: nat :: FinalAt(attrs, l) && Holds(attrs[l], path) ==>
         Find(attrs, attrs[l].key) <= Find(attrs, attrs[k].key)
  }

  /** What was last written to the path is what the latest-appearing key whose last
      value yields the path says about it. */
  ghost predicate SettledAt(attrs: seq<Attr>, path: string) {
    forall j: nat :: LastHolds(attrs, path, j) ==>
      exists k: nat :: Outlasts(attrs, path, k) && Leaf(attrs[k], path) == Leaf(attrs[j], path)
  }

  ghost predicate Settled(attrs: seq<Attr>) {
    forall p: string :: SettledAt(attrs, p)
  }

  lemma FinalIsMerged(attrs: seq<Attr>, k: nat) returns (q: nat)
    requires FinalAt(attrs, k)
    ensures q < |Merge(attrs)| && Merge(attrs)[q] == attrs[k]
  {
    LastOfFinal(attrs, k);
    q := MergedAt(attrs, k);
  }

  lemma {:induction false} LastOfFinal(attrs: seq<Attr>, k: nat)
    requires FinalAt(attrs, k)
    ensures LastOf(attrs, attrs[k].key) == Some(attrs[k].value)
    decreases |attrs|
  {
    if k == |attrs| - 1 {
    } else {
      var rest := attrs[..|attrs| - 1];
      assert attrs[|attrs| - 1].key != attrs[k].key;
      assert forall i :: k < i < |rest| ==> rest[i] == attrs[i];
      LastOfFinal(rest, k);
    }
  }

  lemma SameKeyAt(attrs: seq<Attr>, k: nat, l: nat)
    requires FinalAt(attrs, k) && FinalAt(attrs, l) && Find(attrs, attrs[k].key) == Find(attrs, attrs[l].key)
    ensures k == l
  {
    var f := Find(attrs, attrs[k].key);
    assert f < |attrs| && attrs[f].key == attrs[k].key == attrs[l].key;
  }

  /** The merge's last attribute yielding a path comes from the key that outlasts. */
  lemma MergedHolderOutlasts(attrs: seq<Attr>, path: string, q: nat) returns (k: nat)
    requires LastHolds(Merge(attrs), path, q)
    ensures Outlasts(attrs, path, k) && attrs[k] == Merge(attrs)[q]
  {
    hide Merge, Holds, LastOf;
    var merged := Merge(attrs);
    MergeIsLastWins(attrs);
    k := LastGiven(attrs, merged[q].key);
    forall l: nat | FinalAt(attrs, l) && Holds(attrs[l], path)
      ensures Find(attrs, attrs[l].key) <= Find(attrs, attrs[k].key)
    {
      var i := FinalIsMerged(attrs, l);
      assert i <= q;
      assert i < q ==> Find(attrs, merged[i].key) < Find(attrs, merged[q].key);
    }
  }

  lemma SameIffSettled(attrs: seq<Attr>, path: string)
    ensures SameLeaf(attrs, path) <==> SettledAt(attrs, path)
  {
    hide LastLeaf, Flatten, FlattenOne, Merge, Holds, Outlasts;
    var merged := Merge(attrs);
    var found, j := LastHolder(attrs, path);
    var kept, q := LastHolder(merged, path);
    if !found {
      NoHolder(attrs, path);
      NothingKept(attrs, path);
      NoHolder(merged, path);
    } else if !kept {
      HolderDecides(attrs, path, j);
      NoHolder(merged, path);
      NothingOutlasts(attrs, path);
      assert LastHolds(attrs, path, j);
      HeldIsSome(attrs[j], path);
    } else {
      HolderDecides(attrs, path, j);
      HolderDecides(merged, path, q);
      var k := MergedHolderOutlasts(attrs, path, q);
      assert LastHolds(attrs, path, j);
      forall l: nat | Outlasts(attrs, path, l)
        ensures l == k
      {
        OutlastsIsUnique(attrs, path, k, l);
      }
    }
  }

  lemma HeldIsSome(a: Attr, path: string)
    requires Holds(a, path)
    ensures LastLeaf(FlattenOne("", a), path).Some?
  {
  }

  lemma OutlastsIsUnique(attrs: seq<Attr>, path: string, k: nat, l: nat)
    requires Outlasts(attrs, path, k) && Outlasts(attrs, path, l)
    ensures k == l
  {
    SameKeyAt(attrs, k, l);
  }

  lemma NothingKept(attrs: seq<Attr>, path: string)
    requires forall i :: 0 <= i < |attrs| ==> !Holds(attrs[i], path)
    ensures forall i :: 0 <= i < |Merge(attrs)| ==> !Holds(Merge(attrs)[i], path)
  {
    hide Merge, Holds;
    forall i | 0 <= i < |Merge(attrs)|
      ensures !Holds(Merge(attrs)[i], path)
    {
      var l := MergedWasGiven(attrs, i);
    }
  }

  lemma NothingOutlasts(attrs: seq<Attr>, path: string)
    requires forall i :: 0 <= i < |Merge(attrs)| ==> !Holds(Merge(attrs)[i], path)
    ensures forall k: nat :: !Outlasts(attrs, path, k)
  {
    hide Merge, Holds;
    forall k: nat | FinalAt(attrs, k)
      ensures !Holds(attrs[k], path)
    {
      var q := FinalIsMerged(attrs, k);
    }
  }

  // ----- the sinks agree ------------------------------------------------------------------

  /** A log record's attributes, leaf by leaf and cell by cell, are the span's rows. */
  ghost predicate Agrees(es: seq<Event>, id: ID, record: Record) {
    forall p: string :: Lookup(ApplyAll(EMPTY, es).attrs, id, p) == CellFor(LastLeaf(Flatten("", record.attrs), p))
  }

  /** Where the log sink puts the record of the End at position k. */
  function RecordOfEndAt(es: seq<Event>, k: nat): Record
    requires StrictOrder(es) && Room(es) && k < |es| && es[k].End?
  {
    RecordCarriesEverything(es, k);
    ObserveAll(IDLE, es).records[|EndsIn(es[..k])|]
  }

  lemma AgreesIffSameLeaves(es: seq<Event>, k: nat)
    requires StrictOrder(es) && Room(es) && k < |es| && es[k].End?
    ensures Agrees(es, es[k].spanID, RecordOfEndAt(es, k)) <==>
            forall p: string :: SameLeaf(AllAttrs(es, es[k].spanID), p)
  {
    hide StrictOrder, Room, ApplyAll, ObserveAll, AllAttrs, LastLeaf, Flatten, FlattenOne, Merge, Lookup,
      AttrCell, EndsIn, LastOf;
    var id, record := es[k].spanID, RecordOfEndAt(es, k);
    var attrs := AllAttrs(es, id);
    RecordCarriesEverything(es, k);
    assert record.attrs == Merge(attrs);
    forall p: string
      ensures Lookup(ApplyAll(EMPTY, es).attrs, id, p) == CellFor(LastLeaf(Flatten("", attrs), p))
    {
      TableHoldsLastLeaves(es, id, p);
    }
    if Agrees(es, id, record) {
      forall p: string
        ensures SameLeaf(attrs, p)
      {
        SameCells(attrs, p);
      }
    }
    if forall p: string :: SameLeaf(attrs, p) {
      forall p: string
        ensures Lookup(ApplyAll(EMPTY, es).attrs, id, p) == CellFor(LastLeaf(Flatten("", record.attrs), p))
      {
        assert SameLeaf(attrs, p);
      }
    }
  }

  /** With nothing lost, the record and the rows of a span agree if and only if its
      attributes are settled. */
  lemma AgreesIffSettled(es: seq<Event>, k: nat)
    requires StrictOrder(es) && Room(es) && k < |es| && es[k].End?
    ensures Agrees(es, es[k].spanID, RecordOfEndAt(es, k)) <==> Settled(AllAttrs(es, es[k].spanID))
  {
    hide StrictOrder, Room, AllAttrs, SameLeaf, SettledAt, Agrees;
    AgreesIffSameLeaves(es, k);
    forall p: string
      ensures SameLeaf(AllAttrs(es, es[k].spanID), p) <==> SettledAt(AllAttrs(es, es[k].spanID), p)
    {
      SameIffSettled(AllAttrs(es, es[k].spanID), p);
    }
  }

  /** Where no two keys share a leaf path, that comes down to one thing: no rewrite
      of a key dropped a leaf that an earlier value had. */
  lemma AgreesIffCovers(es: seq<Event>, k: nat)
    requires StrictOrder(es) && Room(es) && k < |es| && es[k].End?
    requires NoCollisions(AllAttrs(es, es[k].spanID))
    ensures Agrees(es, es[k].spanID, RecordOfEndAt(es, k)) <==> Covers(AllAttrs(es, es[k].spanID))
  {
    hide StrictOrder, Room, AllAttrs, SameLeaf, Agrees, NoCollisions, LastOf, Holds;
    var attrs := AllAttrs(es, es[k].spanID);
    AgreesIffSameLeaves(es, k);
    if Covers(attrs) {
      forall p: string
        ensures SameLeaf(attrs, p)
      {
        CoveredMeansSame(attrs, p);
      }
    }
    if forall p: string :: SameLeaf(attrs, p) {
      forall i, p | 0 <= i < |attrs| && Holds(attrs[i], p)
        ensures LastOf(attrs, attrs[i].key).Some? && Holds(Attr(attrs[i].key, LastOf(attrs, attrs[i].key).value), p)
      {
        SameMeansCovered(attrs, i, p);
      }
    }
  }

  /** Different leaf values never share a cell. */
  lemma SameCells(attrs: seq<Attr>, path: string)
    requires CellFor(LastLeaf(Flatten("", Merge(attrs)), path)) == CellFor(LastLeaf(Flatten("", attrs), path))
    ensures SameLeaf(attrs, path)
  {
    hide AttrCell, ReadCell;
    var a, b := LastLeaf(Flatten("", Merge(attrs)), path), LastLeaf(Flatten("", attrs), path);
    if a.Some? && b.Some? {
      LeavesAreNoGroups("", Merge(attrs));
      LeavesAreNoGroups("", attrs);
      LastLeafIsIn(Flatten("", Merge(attrs)), path);
      LastLeafIsIn(Flatten("", attrs), path);
      CellRoundTrip(a.value);
      CellRoundTrip(b.value);
    }
  }

  lemma {:induction false} LastLeafIsIn(leaves: seq<(string, Value)>, path: string)
    requires LastLeaf(leaves, path).Some?
    ensures (path, LastLeaf(leaves, path).value) in leaves
  {
    if leaves[|leaves| - 1].0 != path { LastLeafIsIn(leaves[..|leaves| - 1], path); }
  }

  lemma {:induction false} LeavesAreNoGroups(prefix: string, attrs: seq<Attr>)
    ensures forall l :: l in Flatten(prefix, attrs) ==> !l.1.Group?
    decreases attrs
  {
    if attrs == [] {
    } else {
      var a := attrs[0];
      if a.value.Group? {
        LeavesAreNoGroups(if a.key != "" then prefix + a.key + "." else prefix, a.value.members);
      }
      LeavesAreNoGroups(prefix, attrs[1..]);
    }
  }

  // ----- flat attributes ---------------------------------------------------------------------

  predicate Flat(attrs: seq<Attr>) {
    forall i :: 0 <= i < |attrs| ==> !attrs[i].value.Group? && attrs[i].key != ""
  }

  lemma FlatHolds(a: Attr, path: string)
    requires !a.value.Group? && a.key != ""
    ensures FlattenOne("", a) == [(a.key, a.value)] && (Holds(a, path) <==> a.key == path)
  {
    assert "" + a.key == a.key;
    assert LastLeaf([(a.key, a.value)][..0], path) == None;
  }

  lemma {:induction false} FlatLeaves(attrs: seq<Attr>, path: string)
    requires Flat(attrs)
    ensures LastLeaf(Flatten("", attrs), path) == LastOf(attrs, path)
  {
    hide Flatten, FlattenOne;
    if attrs != [] {
      var rest, a := attrs[..|attrs| - 1], attrs[|attrs| - 1];
      FlatLeaves(rest, path);
      FlatHolds(a, path);
      FlattenSnoc("", rest, a);
      assert rest + [a] == attrs;
      LastLeafConcat(Flatten("", rest), [(a.key, a.value)], path);
    } else {
      FlattenNothing();
    }
  }

  lemma FlattenNothing()
    ensures Flatten("", []) == []
  {
  }

  lemma FlatCovers(attrs: seq<Attr>)
    requires Flat(attrs)
    ensures NoCollisions(attrs) && Covers(attrs)
  {
    hide FlattenOne, Holds, LastOf;
    forall i, p | 0 <= i < |attrs|
      ensures Holds(attrs[i], p) <==> attrs[i].key == p
    {
      FlatHolds(attrs[i], p);
    }
    forall i, p | 0 <= i < |attrs| && Holds(attrs[i], p)
      ensures LastOf(attrs, attrs[i].key).Some? && Holds(Attr(attrs[i].key, LastOf(attrs, attrs[i].key).value), p)
    {
      LastOfAppears(attrs, attrs[i].key);
      var l := LastGiven(attrs, attrs[i].key);
      assert Holds(attrs[l], p);
    }
  }

  lemma MergedStaysFlat(attrs: seq<Attr>)
    requires Flat(attrs)
    ensures Flat(Merge(attrs))
  {
    forall i | 0 <= i < |Merge(attrs)|
      ensures !Merge(attrs)[i].value.Group? && Merge(attrs)[i].key != ""
    {
      var l := MergedWasGiven(attrs, i);
    }
  }

  /** For flat attributes with keys the record, key by key, is the span's rows. */
  lemma FlatRecordsAgree(es: seq<Event>, k: nat, key: string)
    requires StrictOrder(es) && Room(es) && k < |es| && es[k].End? && Flat(AllAttrs(es, es[k].spanID))
    ensures LastWins(AllAttrs(es, es[k].spanID), RecordOfEndAt(es, k).attrs)
    ensures Lookup(ApplyAll(EMPTY, es).attrs, es[k].spanID, key) == CellFor(LastOf(RecordOfEndAt(es, k).attrs, key))
  {
    hide StrictOrder, Room, ApplyAll, ObserveAll, AllAttrs, LastLeaf, Flatten, FlattenOne, Merge, Lookup, NoCollisions,
      AttrCell, EndsIn, LastOf, Holds, LastWins, Covers, CellFor, Flat;
    var attrs := AllAttrs(es, es[k].spanID);
    RecordCarriesEverything(es, k);
    MergeIsLastWins(attrs);
    FlatCovers(attrs);
    AgreesIffCovers(es, k);
    MergedStaysFlat(attrs);
    FlatLeaves(Merge(attrs), key);
  }

  // ----- groups can tell the sinks apart ---------------------------------------------------

  /** A span given these attributes and ended. */
  function Story(attrs: seq<Attr>): seq<Event> {
    [Start(1, 1, 0, "span", 1, attrs), End(1, 1, 0, "span", 1, 2, OK, "")]
  }

  lemma StoryIsPlain(attrs: seq<Attr>)
    ensures StrictOrder(Story(attrs)) && Room(Story(attrs)) && AllAttrs(Story(attrs), 1) == attrs
  {
    var es := Story(attrs);
    assert es[..2] == es && es[..1] == [es[0]] && es[..0] == [];
    assert es[..2][..1] == es[..1] && es[..1][..0] == [];
    assert AllAttrs(es[..1], 1) == [] + attrs == attrs && AllAttrs(es, 1) == attrs + [] == attrs;
    assert Live(es[..0]) == {} && Live(es[..1]) == {1} && Live(es[..2]) == {};
    forall n | 0 <= n <= |es|
      ensures |Live(es[..n])| <= MAX_OPEN
    {
      assert n == 0 || n == 1 || n == 2;
    }
  }

  const FIRST := Attr("db", Group([Attr("rows", Int64(1))]))
  const SECOND := Attr("db", Group([Attr("query", Text("q"))]))

  /** Two groups under one key: the table keeps db.rows, the record lost it. */
  lemma RewrittenGroupDisagrees()
    ensures var es := Story([FIRST, SECOND]);
            && StrictOrder(es) && Room(es) && !Agrees(es, 1, RecordOfEndAt(es, 1))
            && Lookup(ApplyAll(EMPTY, es).attrs, 1, "db.rows") == Some(AttrCell(Int64(1)))
  {
    hide Flatten, FlattenOne, LastLeaf, ApplyAll, Lookup, Room, StrictOrder, Agrees, AllAttrs, RecordOfEndAt;
    var attrs := [FIRST, SECOND];
    SingleLeaf("db", "rows", Int64(1), "db.rows");
    SingleLeaf("db", "query", Text("q"), "db.rows");
    assert "db" + "." + "rows" == "db.rows" && |"db" + "." + "query"| != |"db.rows"|;
    HolderDecides(attrs, "db.rows", 0);
    assert attrs[..1] == [FIRST] && attrs[..1][..0] == [];
    assert Merge([]) == [] && Merge([FIRST]) == [FIRST] && Merge(attrs) == [SECOND];
    NoHolder([SECOND], "db.rows");
    assert !SameLeaf(attrs, "db.rows");
    StoryIsPlain(attrs);
    AgreesIffSameLeaves(Story(attrs), 1);
    TableHoldsLastLeaves(Story(attrs), 1, "db.rows");
  }

  const GROUP := Attr("db", Group([Attr("rows", Int64(1))]))
  const PLAIN := Attr("db.rows", Int64(2))
  const AGAIN := Attr("db", Group([Attr("rows", Int64(3))]))

  /** A plain key that spells a group's leaf path: the merge moves the group's last
      value in front of it, so the record ends on the older value. */
  lemma CollidingKeyDisagrees()
    ensures var es := Story([GROUP, PLAIN, AGAIN]);
            && StrictOrder(es) && Room(es) && !Agrees(es, 1, RecordOfEndAt(es, 1))
            && Lookup(ApplyAll(EMPTY, es).attrs, 1, "db.rows") == Some(AttrCell(Int64(3)))
  {
    hide Flatten, FlattenOne, LastLeaf, ApplyAll, Lookup, Room, StrictOrder, Agrees, AllAttrs, RecordOfEndAt;
    var attrs := [GROUP, PLAIN, AGAIN];
    assert "db" + "." + "rows" == "db.rows";
    SingleLeaf("db", "rows", Int64(1), "db.rows");
    SingleLeaf("db", "rows", Int64(3), "db.rows");
    FlatHolds(PLAIN, "db.rows");
    PlainLeaf(PLAIN);
    HolderDecides(attrs, "db.rows", 2);
    assert attrs[..2] == [GROUP, PLAIN] && [GROUP, PLAIN][..1] == [GROUP] && [GROUP][..0] == [];
    assert Merge([]) == [] && Merge([GROUP]) == [GROUP] && Merge([GROUP, PLAIN]) == [GROUP, PLAIN];
    assert Merge(attrs) == [AGAIN, PLAIN];
    HolderDecides([AGAIN, PLAIN], "db.rows", 1);
    assert !SameLeaf(attrs, "db.rows");
    StoryIsPlain(attrs);
    AgreesIffSameLeaves(Story(attrs), 1);
    TableHoldsLastLeaves(Story(attrs), 1, "db.rows");
  }

  lemma PlainLeaf(a: Attr)
    requires !a.value.Group? && a.key != ""
    ensures LastLeaf(FlattenOne("", a), a.key) == Some(a.value)
  {
    FlatHolds(a, a.key);
  }

  lemma SingleLeaf(group: string, key: string, value: Value, path: string)
    requires group != "" && key != "" && !value.Group?
    ensures var attr := Attr(group, Group([Attr(key, value)]));
            && LastLeaf(FlattenOne("", attr), path) == (if group + "." + key == path then Some(value) else None)
            && (Holds(attr, path) <==> group + "." + key == path)
  {
    var prefix := "" + group + ".";
    var inner := [Attr(key, value)];
    assert inner[1..] == [];
    assert Flatten(prefix, inner) == FlattenOne(prefix, inner[0]) == [(prefix + key, value)];
    assert LastLeaf([(prefix + key, value)][..0], path) == None;
    assert prefix + key == group + "." + key;
  }
}
