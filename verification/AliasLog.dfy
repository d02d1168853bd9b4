/** Whole alias logs: what a replayed log answers, with no reference to classes. */
module AliasLog {
  import opened Collections
  import opened AuditEvents
  import opened AliasPartition

  /** The relation a log asserts between ids of tenant `t`: an assertion links any
      two ids that each mean one of its ids, a retraction cuts its ids loose from
      everything, and nothing else changes what an id means. */
  ghost predicate Same(log: seq<AuditEvent>, t: Tenant, a: Id, b: Id)
    decreases |log|, 0
  {
    if log == [] then a == b else
      var past, e := log[..|log| - 1], log[|log| - 1];
      if e.tenant != t then Same(past, t, a, b) else
        match e.payload
        case AliasAsserted(r, ms, _, _) =>
          || Same(past, t, a, b)
          || (MeansOneOf(past, t, a, Named(r, ms)) && MeansOneOf(past, t, b, Named(r, ms)))
        case AliasRetracted(r, ms, _, _) =>
          a == b || (a !in Named(r, ms) && b !in Named(r, ms) && Same(past, t, a, b))
        case _ => Same(past, t, a, b)
  }

  ghost predicate MeansOneOf(log: seq<AuditEvent>, t: Tenant, a: Id, s: Class)
    decreases |log|, 1
  {
    exists x :: x in s && Same(log, t, a, x)
  }

  /** Replaying any log answers exactly the relation the log asserts. */
  lemma {:induction false} ReplayAnswers(log: seq<AuditEvent>, t: Tenant, a: Id, b: Id)
    ensures b in ClassOf(Fold(log, t), a) <==> Same(log, t, a, b)
    decreases |log|, 0
  {
    ClassOfIsJoined(Fold(log, t), a, b);
    if log != [] {
      var past, e := log[..|log| - 1], log[|log| - 1];
      var p := Fold(past, t);
      FoldValid(past, t);
      JoinedIsSame(past, t);
      if e.tenant == t {
        match e.payload
        case AliasAsserted(r, ms, _, _) =>
          AssertedAnswers(past, t, Named(r, ms), a, b);
        case AliasRetracted(r, ms, _, _) =>
          RemoveAllAnswers(p, [r] + ms, a, b);
        case _ =>
      }
    }
  }

  /** The induction hypothesis of `ReplayAnswers`, for every pair at once. */
  lemma {:induction false} JoinedIsSame(log: seq<AuditEvent>, t: Tenant)
    ensures forall a, b :: Joined(Fold(log, t), a, b) <==> Same(log, t, a, b)
    decreases |log|, 1
  {
    forall a, b
      ensures Joined(Fold(log, t), a, b) <==> Same(log, t, a, b)
    {
      ReplayAnswers(log, t, a, b);
      ClassOfIsJoined(Fold(log, t), a, b);
    }
  }

  lemma AssertedAnswers(past: seq<AuditEvent>, t: Tenant, s: Class, a: Id, b: Id)
    requires ValidPartition(Fold(past, t))
    requires forall x, y :: Joined(Fold(past, t), x, y) <==> Same(past, t, x, y)
    ensures Joined(MergeAsserted(Fold(past, t), s), a, b) <==>
            Same(past, t, a, b) || (MeansOneOf(past, t, a, s) && MeansOneOf(past, t, b, s))
  {
    var p := Fold(past, t);
    if |s| >= 2 {
      MergeAnswers(p, s, a, b);
    } else {
      if x, y :| x in s && y in s && Same(past, t, a, x) && Same(past, t, b, y) {
        assert x == y by {
          if x != y { SubsetCardinality({x, y}, s); }
        }
        assert Joined(p, a, x) && Joined(p, b, x);
        assert Joined(p, x, b);
        JoinedTransitive(p, a, x, b);
      }
    }
  }

  // ----- assertions alone: connected components

  ghost predicate AssertionsOnly(log: seq<AuditEvent>) {
    forall i :: 0 <= i < |log| ==> log[i].payload.AliasAsserted?
  }

  /** Tenant `t`'s asserted sets, the hyperedges of its alias graph. */
  function Edges(log: seq<AuditEvent>, t: Tenant): set<Class> {
    set i | 0 <= i < |log| && log[i].tenant == t && log[i].payload.AliasAsserted? ::
      Named(log[i].payload.representative, log[i].payload.members)
  }

  ghost predicate Linked(edges: set<Class>, a: Id, b: Id) {
    exists s :: s in edges && a in s && b in s
  }

  ghost predicate IsPath(edges: set<Class>, path: seq<Id>, a: Id, b: Id) {
    && path != []
    && path[0] == a && path[|path| - 1] == b
    && (forall i :: 0 < i < |path| ==> Linked(edges, path[i - 1], path[i]))
  }

  ghost predicate Connected(edges: set<Class>, a: Id, b: Id) {
    exists path :: IsPath(edges, path, a, b)
  }

  lemma ConnectedStep(edges: set<Class>, a: Id, b: Id, c: Id)
    requires Connected(edges, a, b) && Linked(edges, b, c)
    ensures Connected(edges, a, c)
  {
    var path :| IsPath(edges, path, a, b);
    assert IsPath(edges, path + [c], a, c);
  }

  lemma {:induction false} ConnectedTransitive(edges: set<Class>, path: seq<Id>, a: Id, b: Id, c: Id)
    requires Connected(edges, a, b) && IsPath(edges, path, b, c)
    ensures Connected(edges, a, c)
    decreases |path|
  {
    if |path| > 1 {
      var n := |path| - 1;
      assert IsPath(edges, path[..n], b, path[n - 1]);
      ConnectedTransitive(edges, path[..n], a, b, path[n - 1]);
      ConnectedStep(edges, a, path[n - 1], c);
    }
  }

  lemma {:induction false} ConnectedSymmetric(edges: set<Class>, path: seq<Id>, a: Id, b: Id)
    requires IsPath(edges, path, a, b)
    ensures Connected(edges, b, a)
    decreases |path|
  {
    if |path| == 1 {
      assert IsPath(edges, [b], b, a);
    } else {
      assert IsPath(edges, path[1..], path[1], b);
      ConnectedSymmetric(edges, path[1..], path[1], b);
      assert Linked(edges, path[0], path[1]);
      assert Linked(edges, path[1], a);
      ConnectedStep(edges, b, path[1], a);
    }
  }

  lemma ConnectedMonotone(small: set<Class>, large: set<Class>, a: Id, b: Id)
    requires small <= large && Connected(small, a, b)
    ensures Connected(large, a, b)
  {
    var path :| IsPath(small, path, a, b);
    forall i | 0 < i < |path|
      ensures Linked(large, path[i - 1], path[i])
    {
      assert Linked(small, path[i - 1], path[i]);
    }
    assert IsPath(large, path, a, b);
  }

  lemma EdgesOfPrefix(log: seq<AuditEvent>, t: Tenant)
    requires log != []
    ensures Edges(log[..|log| - 1], t) <= Edges(log, t)
  {
    var past := log[..|log| - 1];
    forall s | s in Edges(past, t)
      ensures s in Edges(log, t)
    {
      var i :| 0 <= i < |past| && past[i].tenant == t && past[i].payload.AliasAsserted? &&
               s == Named(past[i].payload.representative, past[i].payload.members);
      assert log[i] == past[i];
    }
  }

  lemma {:induction false} SameIsConnected(log: seq<AuditEvent>, t: Tenant, a: Id, b: Id)
    requires AssertionsOnly(log) && Same(log, t, a, b)
    ensures Connected(Edges(log, t), a, b)
    decreases |log|
  {
    var edges := Edges(log, t);
    if log == [] {
      assert IsPath(edges, [a], a, b);
    } else {
      var past, e := log[..|log| - 1], log[|log| - 1];
      EdgesOfPrefix(log, t);
      if Same(past, t, a, b) {
        SameIsConnected(past, t, a, b);
        ConnectedMonotone(Edges(past, t), edges, a, b);
      } else {
        var s := Named(e.payload.representative, e.payload.members);
        var x :| x in s && Same(past, t, a, x);
        var y :| y in s && Same(past, t, b, y);
        SameIsConnected(past, t, a, x);
        SameIsConnected(past, t, b, y);
        ConnectedMonotone(Edges(past, t), edges, a, x);
        ConnectedMonotone(Edges(past, t), edges, b, y);
        assert s in edges;
        ConnectedStep(edges, a, x, y);
        var path :| IsPath(edges, path, b, y);
        ConnectedSymmetric(edges, path, b, y);
        var back :| IsPath(edges, back, y, b);
        ConnectedTransitive(edges, back, a, y, b);
      }
    }
  }

  lemma {:induction false} LinkedIsSame(log: seq<AuditEvent>, t: Tenant, s: Class, a: Id, b: Id)
    requires AssertionsOnly(log) && s in Edges(log, t) && a in s && b in s
    ensures Same(log, t, a, b)
    decreases |log|
  {
    var n := |log| - 1;
    var past, e := log[..n], log[n];
    if e.tenant == t && s == Named(e.payload.representative, e.payload.members) {
      SameReflexive(past, t, a);
      SameReflexive(past, t, b);
      assert MeansOneOf(past, t, a, s) && MeansOneOf(past, t, b, s);
    } else {
      var i :| 0 <= i < |log| && log[i].tenant == t && log[i].payload.AliasAsserted? &&
               s == Named(log[i].payload.representative, log[i].payload.members);
      assert past[i] == log[i];
      LinkedIsSame(past, t, s, a, b);
    }
  }

  lemma {:induction false} SameReflexive(log: seq<AuditEvent>, t: Tenant, a: Id)
    ensures Same(log, t, a, a)
    decreases |log|
  {
    if log != [] {
      SameReflexive(log[..|log| - 1], t, a);
    }
  }

  lemma SameTransitive(log: seq<AuditEvent>, t: Tenant, a: Id, b: Id, c: Id)
    requires Same(log, t, a, b) && Same(log, t, b, c)
    ensures Same(log, t, a, c)
  {
    JoinedIsSame(log, t);
    FoldValid(log, t);
    assert Joined(Fold(log, t), a, b) && Joined(Fold(log, t), b, c);
    JoinedTransitive(Fold(log, t), a, b, c);
  }

  lemma {:induction false} PathIsSame(log: seq<AuditEvent>, t: Tenant, path: seq<Id>, a: Id, b: Id)
    requires AssertionsOnly(log) && IsPath(Edges(log, t), path, a, b)
    ensures Same(log, t, a, b)
    decreases |path|
  {
    if |path| == 1 {
      SameReflexive(log, t, a);
    } else {
      var n := |path| - 1;
      assert IsPath(Edges(log, t), path[..n], a, path[n - 1]);
      PathIsSame(log, t, path[..n], a, path[n - 1]);
      var s :| s in Edges(log, t) && path[n - 1] in s && path[n] in s;
      LinkedIsSame(log, t, s, path[n - 1], b);
      SameTransitive(log, t, a, path[n - 1], b);
    }
  }

  /** With assertions alone an id resolves to exactly its connected component. */
  lemma AssertionsAnswerComponents(log: seq<AuditEvent>, t: Tenant, a: Id, b: Id)
    requires AssertionsOnly(log)
    ensures b in ClassOf(Fold(log, t), a) <==> Connected(Edges(log, t), a, b)
  {
    ReplayAnswers(log, t, a, b);
    if Same(log, t, a, b) {
      SameIsConnected(log, t, a, b);
    }
    if path :| IsPath(Edges(log, t), path, a, b) {
      PathIsSame(log, t, path, a, b);
    }
  }

  /** So the order, and any repetition, of assertions is immaterial. */
  lemma AssertionOrderIsImmaterial(log1: seq<AuditEvent>, log2: seq<AuditEvent>, t: Tenant, a: Id)
    requires AssertionsOnly(log1) && AssertionsOnly(log2)
    requires forall e :: e in log1 <==> e in log2
    ensures ClassOf(Fold(log1, t), a) == ClassOf(Fold(log2, t), a)
  {
    EdgesOfSet(log1, log2, t);
    EdgesOfSet(log2, log1, t);
    SameComponents(log1, log2, t, a);
    SameComponents(log2, log1, t, a);
  }

  lemma SameComponents(log1: seq<AuditEvent>, log2: seq<AuditEvent>, t: Tenant, a: Id)
    requires AssertionsOnly(log1) && AssertionsOnly(log2)
    requires Edges(log1, t) == Edges(log2, t)
    ensures ClassOf(Fold(log1, t), a) <= ClassOf(Fold(log2, t), a)
  {
    var answer := ClassOf(Fold(log1, t), a);
    forall b | b in answer
      ensures b in ClassOf(Fold(log2, t), a)
    {
      AssertionsAnswerComponents(log1, t, a, b);
      AssertionsAnswerComponents(log2, t, a, b);
    }
  }

  lemma EdgesOfSet(log1: seq<AuditEvent>, log2: seq<AuditEvent>, t: Tenant)
    requires forall e :: e in log1 ==> e in log2
    ensures Edges(log1, t) <= Edges(log2, t)
  {
    forall s | s in Edges(log1, t)
      ensures s in Edges(log2, t)
    {
      var i :| 0 <= i < |log1| && log1[i].tenant == t && log1[i].payload.AliasAsserted? &&
               s == Named(log1[i].payload.representative, log1[i].payload.members);
      assert log1[i] in log1;
      var j :| 0 <= j < |log2| && log2[j] == log1[i];
    }
  }

  // ----- what a tenant's projection depends on

  predicate IsAliasEventOf(t: Tenant, e: AuditEvent) {
    e.tenant == t && (e.payload.AliasAsserted? || e.payload.AliasRetracted?)
  }

  function AliasEventsOf(log: seq<AuditEvent>, t: Tenant): seq<AuditEvent> {
    if log == [] then [] else
      var past, e := AliasEventsOf(log[..|log| - 1], t), log[|log| - 1];
      if IsAliasEventOf(t, e) then past + [e] else past
  }

  /** Other tenants' events, and events of other kinds, never touch the projection. */
  lemma {:induction false} FoldReadsOwnAliasEvents(log: seq<AuditEvent>, t: Tenant)
    ensures Fold(log, t) == Fold(AliasEventsOf(log, t), t)
    decreases |log|
  {
    if log != [] {
      var past, e := log[..|log| - 1], log[|log| - 1];
      FoldReadsOwnAliasEvents(past, t);
      if IsAliasEventOf(t, e) {
        var own := AliasEventsOf(past, t) + [e];
        assert own[..|own| - 1] == AliasEventsOf(past, t);
      }
    }
  }
}
