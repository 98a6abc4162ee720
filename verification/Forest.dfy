/** Parents, traces and roots. */
module Forest {
  import opened Events
  import opened Protocol
  import opened SpanLife
  import opened Reach

  lemma ReachableGood(c: Config, s: State)
    requires Reachable(c, s)
    ensures Good(c, s.p)
  {
    hide Good;
    ReachableInvariant(c, s);
  }

  /** Up the parents to a trace root, or to a span whose parent belongs to
      another tracer. Parents are older, so the walk ends. */
  ghost function Top(c: Config, s: State, id: ID): ID
    requires Reachable(c, s) && id in s.p.spans
    decreases id
  {
    ReachableGood(c, s);
    assert SpanOK(s.p, c.anchor, id);
    var span := s.p.spans[id];
    if span.parentID == 0 || span.foreign then id else Top(c, s, span.parentID)
  }

  /** The parents of a span lead to a root of this tracer, and that root is its
      trace. */
  ghost predicate Rooted(c: Config, s: State, id: ID)
    requires Reachable(c, s) && id in s.p.spans
  {
    var top := Top(c, s, id);
    top in s.p.spans && s.p.spans[top].parentID == 0 && s.p.spans[id].traceID == top
  }

  /** Ids are positive and at most the last one minted; a parent that is one of
      this tracer's spans is older and of the same trace; and a span's trace ID is
      the ID of the root its parents lead to if and only if they do not lead to a
      span that was started under another tracer's span. */
  lemma {:induction false} TraceIsItsRoot(c: Config, s: State, id: ID)
    requires Reachable(c, s) && id in s.p.spans
    ensures 1 <= id <= s.p.ids
    ensures var span := s.p.spans[id];
            span.parentID != 0 && !span.foreign ==>
              span.parentID in s.p.spans && span.parentID < id && s.p.spans[span.parentID].traceID == span.traceID
    ensures var top := Top(c, s, id);
            && top in s.p.spans && top <= id && s.p.spans[top].traceID == s.p.spans[id].traceID
            && (Rooted(c, s, id) <==> !s.p.spans[top].foreign)
    decreases id
  {
    hide Reachable;
    ReachableGood(c, s);
    assert SpanOK(s.p, c.anchor, id);
    var span := s.p.spans[id];
    if span.parentID == 0 || span.foreign {
      assert Top(c, s, id) == id;
    } else {
      TraceIsItsRoot(c, s, span.parentID);
    }
  }

  /** The spans of a tracer form a forest whose trees are its traces if and only
      if no span was started under another tracer's span. */
  lemma ForestIffNoForeignParent(c: Config, s: State)
    requires Reachable(c, s)
    ensures (forall id :: id in s.p.spans ==> Rooted(c, s, id)) <==>
            (forall id :: id in s.p.spans ==> !s.p.spans[id].foreign)
  {
    hide Reachable, Rooted;
    if forall id :: id in s.p.spans ==> Rooted(c, s, id) {
      forall id | id in s.p.spans
        ensures !s.p.spans[id].foreign
      {
        TraceIsItsRoot(c, s, id);
      }
    }
    if forall id :: id in s.p.spans ==> !s.p.spans[id].foreign {
      forall id | id in s.p.spans
        ensures Rooted(c, s, id)
      {
        TraceIsItsRoot(c, s, id);
      }
    }
  }

  /** The exception is real: nothing checks which tracer the context's span came
      from, so a span can end up naming a younger, unknown parent. */
  lemma ForeignParentBreaksTheForest(c: Config) returns (s: State)
    ensures Reachable(c, s)
    ensures 1 in s.p.spans && s.p.spans[1].parentID == 7 && 7 !in s.p.spans && s.p.spans[1].traceID == 5
  {
    s := Init(c);
    assert Run(c, Init(c), []) == Some(s);
    var steps := [BeginStart(Foreign(7, 5), "stray", []), EnterFlight, Mint, Create(c.anchor)];
    s := Advance(c, s, steps[0]);
    s := Advance(c, s, steps[1]);
    s := Advance(c, s, steps[2]);
    s := Advance(c, s, steps[3]);
  }

  lemma Advance(c: Config, s: State, a: Local) returns (r: State)
    requires Reachable(c, s) && LocalStep(s.p, 0, a).Some?
    ensures Reachable(c, r) && r == s.(p := LocalStep(s.p, 0, a).value)
  {
    r := s.(p := LocalStep(s.p, 0, a).value);
    ReachableStep(c, s, OnSpan(0, a));
  }
}
