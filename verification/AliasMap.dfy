/** The alias index: per-tenant classes updated in place, and proved to project the
    audit log they are emitted to. */
module AliasIndex {
  import opened Collections
  import opened Wrappers
  import opened AuditEvents
  import opened AliasPartition
  import opened AliasLog

  const REASON_BYTE_LIMIT := 256

  datatype AliasError = ReasonTooLong(length: nat) | DegenerateAssertion

  datatype Operator = Operator(actor: ActorId, reason: seq<bv8>, timestamp: int)

  /** An operator call, accepted or not. */
  datatype Call =
    | Assertion(tenant: Tenant, representative: Id, members: seq<Id>, op: Operator)
    | Retraction(tenant: Tenant, id: Id, op: Operator)

  function Elems(cs: seq<Class>): Partition {
    set c | c in cs
  }

  ghost predicate ValidClasses(cs: seq<Class>) {
    && (forall i :: 0 <= i < |cs| ==> |cs[i]| >= 2)
    && (forall i, j :: 0 <= i < j < |cs| ==> cs[i] !! cs[j])
  }

  lemma ValidClassesArePartition(cs: seq<Class>)
    requires ValidClasses(cs)
    ensures ValidPartition(Elems(cs))
  {
    forall c, d | c in cs && d in cs && c != d
      ensures c !! d
    {
      var i :| 0 <= i < |cs| && cs[i] == c;
      var j :| 0 <= j < |cs| && cs[j] == d;
    }
  }

  // ----- the least member of a class

  lemma {:induction false} LeastMember(s: Class) returns (m: Id)
    requires s != {}
    ensures m in s && forall x :: x in s ==> m <= x
  {
    m :| m in s;
    var rest := s - {m};
    assert forall x :: x in s ==> x == m || x in rest;
    if rest != {} {
      var least := LeastMember(rest);
      m := if least <= m then least else m;
    }
  }

  lemma LeastExists(s: Class)
    requires s != {}
    ensures exists m :: m in s && forall x :: x in s ==> m <= x
  {
    var m := LeastMember(s);
  }

  function Least(s: Class): (m: Id)
    requires s != {}
    ensures m in s && forall x :: x in s ==> m <= x
  {
    LeastExists(s);
    var m :| m in s && forall x :: x in s ==> m <= x;
    m
  }

  /** Equal canonical ids mean equal answers, and only then. */
  lemma CanonicalDecidesMembership(p: Partition, a: Id, b: Id)
    requires ValidPartition(p)
    ensures Least(ClassOf(p, a)) == Least(ClassOf(p, b)) <==> b in ClassOf(p, a)
  {
    var m := Least(ClassOf(p, a));
    ClassOfIsJoined(p, a, m);
    ClassOfIsJoined(p, b, m);
    ClassOfIsJoined(p, a, b);
    if m == Least(ClassOf(p, b)) {
      assert Joined(p, m, b);
      JoinedTransitive(p, a, m, b);
    }
    if Joined(p, a, b) {
      JoinedAnswerAlike(p, a, b);
    }
  }

  lemma JoinedAnswerAlike(p: Partition, a: Id, b: Id)
    requires ValidPartition(p) && Joined(p, a, b)
    ensures ClassOf(p, a) == ClassOf(p, b)
  {
    assert Joined(p, b, a);
    forall x
      ensures x in ClassOf(p, a) <==> x in ClassOf(p, b)
    {
      ClassOfIsJoined(p, a, x);
      ClassOfIsJoined(p, b, x);
      if Joined(p, a, x) { JoinedTransitive(p, b, a, x); }
      if Joined(p, b, x) { JoinedTransitive(p, a, b, x); }
    }
  }

  // ----- canonical order of a projection

  /** `cs` lists the classes of `p`, each once, by ascending least member. */
  ghost predicate IsCanonicalListing(cs: seq<Class>, p: Partition) {
    && Elems(cs) == p
    && (forall i :: 0 <= i < |cs| ==> cs[i] != {})
    && (forall i, j :: 0 <= i < j < |cs| ==> Least(cs[i]) < Least(cs[j]))
  }

  /** A partition has one canonical listing. */
  lemma {:induction false} CanonicalListingUnique(xs: seq<Class>, ys: seq<Class>, p: Partition)
    requires IsCanonicalListing(xs, p) && IsCanonicalListing(ys, p)
    ensures xs == ys
    decreases |xs|
  {
    if xs == [] {
      if ys != [] {
        SameHead(ys, xs, p);
      }
    } else {
      assert xs[0] in Elems(xs);
      assert ys != [] && xs[0] == ys[0] by { SameHead(xs, ys, p); }
      TailListing(xs, p);
      TailListing(ys, p);
      CanonicalListingUnique(xs[1..], ys[1..], p - {xs[0]});
      assert xs == [xs[0]] + xs[1..] && ys == [ys[0]] + ys[1..];
    }
  }

  lemma SameHead(xs: seq<Class>, ys: seq<Class>, p: Partition)
    requires xs != [] && IsCanonicalListing(xs, p) && IsCanonicalListing(ys, p)
    ensures ys != [] && xs[0] == ys[0]
  {
    assert xs[0] in Elems(xs);
    var j :| 0 <= j < |ys| && ys[j] == xs[0];
    assert ys[0] in Elems(ys);
    var i :| 0 <= i < |xs| && xs[i] == ys[0];
  }

  lemma TailListing(xs: seq<Class>, p: Partition)
    requires xs != [] && IsCanonicalListing(xs, p)
    ensures IsCanonicalListing(xs[1..], p - {xs[0]})
  {
    forall c
      ensures c in Elems(xs[1..]) <==> c in p - {xs[0]}
    {
      if c in xs[1..] {
        var i :| 0 <= i < |xs| - 1 && xs[1..][i] == c;
        assert xs[i + 1] == c;
        assert c in Elems(xs);
      }
      if c in p && c != xs[0] {
        assert c in Elems(xs);
        var i :| 0 <= i < |xs| && xs[i] == c;
        assert xs[1..][i - 1] == c;
      }
    }
  }

  // ----- rebuilding from listed classes

  function MergeAll(cs: seq<Class>): Partition {
    if cs == [] then {} else MergeAsserted(MergeAll(cs[..|cs| - 1]), cs[|cs| - 1])
  }

  /** Rebuilding from classes answers as replaying one assertion per class does. */
  lemma {:induction false} MergeAllIsReplay(cs: seq<Class>, log: seq<AuditEvent>, t: Tenant)
    requires |log| == |cs|
    requires forall i :: 0 <= i < |cs| ==>
               && log[i].tenant == t && log[i].payload.AliasAsserted?
               && (var s := Named(log[i].payload.representative, log[i].payload.members);
                   if |cs[i]| >= 2 then s == cs[i] else |s| < 2)
    ensures Fold(log, t) == MergeAll(cs)
    decreases |cs|
  {
    if cs != [] {
      MergeAllIsReplay(cs[..|cs| - 1], log[..|cs| - 1], t);
    }
  }

  /** A valid listing rebuilds to exactly the classes it lists. */
  lemma {:induction false} MergeAllOfDisjoint(cs: seq<Class>)
    requires ValidClasses(cs)
    ensures MergeAll(cs) == Elems(cs)
    decreases |cs|
  {
    if cs != [] {
      var n := |cs| - 1;
      MergeAllOfDisjoint(cs[..n]);
      LastClass(cs);
      MergeApart(Elems(cs[..n]), cs[n]);
    }
  }

  lemma LastClass(cs: seq<Class>)
    requires ValidClasses(cs) && cs != []
    ensures ValidClasses(cs[..|cs| - 1])
    ensures var p := Elems(cs[..|cs| - 1]); forall c :: c in p ==> c !! cs[|cs| - 1]
    ensures Elems(cs) == Elems(cs[..|cs| - 1]) + {cs[|cs| - 1]}
  {
    var n := |cs| - 1;
    forall c | c in Elems(cs[..n])
      ensures c !! cs[n]
    {
      var k :| 0 <= k < n && cs[..n][k] == c;
    }
    assert cs == cs[..n] + [cs[n]];
  }

  // ----- the in-place loops

  function SwapRemove(cs: seq<Class>, i: nat): (r: seq<Class>)
    requires i < |cs|
    ensures |r| == |cs| - 1
  {
    cs[i := cs[|cs| - 1]][..|cs| - 1]
  }

  lemma SwapRemoveElems(cs: seq<Class>, i: nat)
    requires ValidClasses(cs) && i < |cs|
    ensures ValidClasses(SwapRemove(cs, i))
    ensures Elems(SwapRemove(cs, i)) == Elems(cs) - {cs[i]}
    ensures forall c :: c in SwapRemove(cs, i) ==> c !! cs[i]
  {
    var r := SwapRemove(cs, i);
    var n := |cs| - 1;
    forall c | c in r
      ensures c in cs && c !! cs[i]
    {
      var k :| 0 <= k < |r| && r[k] == c;
      assert c == if k == i then cs[n] else cs[k];
    }
    forall c | c in cs && c != cs[i]
      ensures c in r
    {
      var k :| 0 <= k < |cs| && cs[k] == c;
      assert r[if k == n then i else k] == c;
    }
    assert cs[i] !in r by {
      assert !(cs[i] !! cs[i]);
    }
  }

  lemma AppendValid(cs: seq<Class>, c: Class)
    requires ValidClasses(cs) && |c| >= 2 && forall d :: d in cs ==> d !! c
    ensures ValidClasses(cs + [c]) && Elems(cs + [c]) == Elems(cs) + {c}
  {
    forall i | 0 <= i < |cs|
      ensures cs[i] !! c
    {
      assert cs[i] in cs;
    }
  }

  function UnionOf(p: Partition): Class {
    set c, x | c in p && x in c :: x
  }

  /** Midway through a union: `gone` has been drained from `before` into `merged`. */
  ghost predicate Absorbing(before: seq<Class>, cs: seq<Class>, gone: Partition, asserted: Class, merged: Class) {
    && ValidClasses(cs)
    && Elems(cs) + gone == Elems(before)
    && merged == asserted + UnionOf(gone)
    && (forall c :: c in gone ==> !(c !! asserted))
    && (forall c, d :: c in cs && d in gone ==> c !! d)
  }

  /** Drain every class overlapping the growing set, pass after pass until a pass
      absorbs none. */
  method AbsorbOverlapping(before: seq<Class>, asserted: Class) returns (cs: seq<Class>, merged: Class)
    requires ValidClasses(before)
    ensures merged == Absorb(Elems(before), asserted)
    ensures Elems(cs) == set c | c in Elems(before) && c !! asserted
    ensures ValidClasses(cs) && forall c :: c in cs ==> c !! merged
  {
    cs, merged := before, asserted;
    ghost var gone: Partition := {};
    while true
      invariant Absorbing(before, cs, gone, asserted, merged)
      decreases |cs|
    {
      var absorbedAny, i := false, 0;
      ghost var size := |cs|;
      while i < |cs|
        invariant 0 <= i <= |cs| <= size && (absorbedAny ==> |cs| < size)
        invariant Absorbing(before, cs, gone, asserted, merged)
        invariant forall k :: 0 <= k < i ==> cs[k] !! merged
        decreases |cs| - i
      {
        if !(cs[i] !! merged) {
          AbsorbStep(before, cs, i, gone, asserted, merged);
          PassedStayApart(cs, i, merged);
          gone := gone + {cs[i]};
          cs, merged := SwapRemove(cs, i), merged + cs[i];
          absorbedAny := true;
        } else {
          i := i + 1;
        }
      }
      if !absorbedAny {
        break;
      }
    }
    AbsorbDone(before, cs, gone, asserted, merged);
  }

  /** A class overlapping the merged set overlaps the asserted one: it is disjoint
      from every class drained before it. */
  lemma OverlapIsWithAsserted(c: Class, gone: Partition, asserted: Class)
    requires !(c !! asserted + UnionOf(gone)) && forall d :: d in gone ==> c !! d
    ensures !(c !! asserted)
  {
    var x :| x in c && x in asserted + UnionOf(gone);
    assert forall d :: d in gone ==> x !in d;
  }

  lemma Regroup(all: Partition, gone: Partition, c: Class)
    requires c in all
    ensures (all - {c}) + (gone + {c}) == all + gone
  {
  }

  lemma UnionOfMore(gone: Partition, c: Class)
    ensures UnionOf(gone + {c}) == UnionOf(gone) + c
  {
  }

  lemma AbsorbStep(before: seq<Class>, cs: seq<Class>, i: nat, gone: Partition, asserted: Class, merged: Class)
    requires Absorbing(before, cs, gone, asserted, merged) && i < |cs| && !(cs[i] !! merged)
    ensures Absorbing(before, SwapRemove(cs, i), gone + {cs[i]}, asserted, merged + cs[i])
  {
    var c, rest := cs[i], SwapRemove(cs, i);
    assert c in cs;
    assert Elems(rest) + (gone + {c}) == Elems(before) by {
      SwapRemoveElems(cs, i);
      Regroup(Elems(cs), gone, c);
    }
    assert merged + c == asserted + UnionOf(gone + {c}) by {
      UnionOfMore(gone, c);
    }
    assert !(c !! asserted) by {
      OverlapIsWithAsserted(c, gone, asserted);
    }
    RestIsApart(cs, i, gone);
  }

  /** The classes already passed stay clear of the set as it grows. */
  lemma PassedStayApart(cs: seq<Class>, i: nat, merged: Class)
    requires ValidClasses(cs) && i < |cs| && forall k :: 0 <= k < i ==> cs[k] !! merged
    ensures forall k :: 0 <= k < i ==> SwapRemove(cs, i)[k] !! merged + cs[i]
  {
    forall k | 0 <= k < i
      ensures SwapRemove(cs, i)[k] !! merged + cs[i]
    {
      assert SwapRemove(cs, i)[k] == cs[k];
    }
  }

  lemma RestIsApart(cs: seq<Class>, i: nat, gone: Partition)
    requires ValidClasses(cs) && i < |cs| && forall c, d :: c in cs && d in gone ==> c !! d
    ensures ValidClasses(SwapRemove(cs, i))
    ensures forall c, d :: c in SwapRemove(cs, i) && d in gone + {cs[i]} ==> c !! d
  {
    SwapRemoveElems(cs, i);
    forall c, d | c in SwapRemove(cs, i) && d in gone + {cs[i]}
      ensures c !! d
    {
      assert c in Elems(SwapRemove(cs, i));
      assert c in Elems(cs) && c in cs;
    }
  }

  lemma AbsorbDone(before: seq<Class>, cs: seq<Class>, gone: Partition, asserted: Class, merged: Class)
    requires Absorbing(before, cs, gone, asserted, merged)
    requires forall k :: 0 <= k < |cs| ==> cs[k] !! merged
    ensures merged == Absorb(Elems(before), asserted)
    ensures Elems(cs) == set c | c in Elems(before) && c !! asserted
    ensures forall c :: c in cs ==> c !! merged
  {
    assert forall c :: c in Elems(cs) ==> c !! merged && c !! asserted;
    assert gone == set c | c in Elems(before) && !(c !! asserted);
  }

  method UnionClasses(before: seq<Class>, asserted: Class) returns (cs: seq<Class>)
    requires ValidClasses(before) && |asserted| >= 2
    ensures cs != [] && ValidClasses(cs) && Elems(cs) == Merge(Elems(before), asserted)
  {
    var rest, merged := AbsorbOverlapping(before, asserted);
    SubsetCardinality(asserted, merged);
    AppendValid(rest, merged);
    cs := rest + [merged];
  }

  /** The first half of a removal: `id` leaves every class, in place. */
  method TrimEach(before: seq<Class>, id: Id) returns (cs: seq<Class>)
    ensures |cs| == |before| && forall k :: 0 <= k < |cs| ==> cs[k] == before[k] - {id}
  {
    cs := before;
    for i := 0 to |before|
      invariant |cs| == |before|
      invariant forall k :: 0 <= k < i ==> cs[k] == before[k] - {id}
      invariant forall k :: i <= k < |before| ==> cs[k] == before[k]
    {
      cs := cs[i := cs[i] - {id}];
    }
  }

  /** The second half: keep the classes still of two or more. */
  method RetainAliases(before: seq<Class>) returns (cs: seq<Class>)
    requires forall i, j :: 0 <= i < j < |before| ==> before[i] !! before[j]
    ensures ValidClasses(cs)
    ensures forall c :: c in cs <==> c in before && |c| >= 2
  {
    cs := [];
    for i := 0 to |before|
      invariant forall c :: c in cs <==> c in before[..i] && |c| >= 2
      invariant ValidClasses(cs)
    {
      assert before[..i + 1] == before[..i] + [before[i]];
      if |before[i]| >= 2 {
        forall d | d in cs
          ensures d !! before[i]
        {
          var k :| 0 <= k < i && before[k] == d;
        }
        AppendValid(cs, before[i]);
        cs := cs + [before[i]];
      }
    }
    assert before[..|before|] == before;
  }

  method RemoveFromAll(before: seq<Class>, id: Id) returns (cs: seq<Class>)
    requires ValidClasses(before)
    ensures ValidClasses(cs) && Elems(cs) == Remove(Elems(before), id)
  {
    var trimmed := TrimEach(before, id);
    cs := RetainAliases(trimmed);
    TrimmedIsRemove(before, trimmed, id);
  }

  lemma TrimmedIsRemove(before: seq<Class>, trimmed: seq<Class>, id: Id)
    requires |trimmed| == |before| && forall k :: 0 <= k < |trimmed| ==> trimmed[k] == before[k] - {id}
    ensures forall c :: c in Remove(Elems(before), id) <==> c in trimmed && |c| >= 2
  {
    forall c
      ensures c in Remove(Elems(before), id) <==> c in trimmed && |c| >= 2
    {
      if c in trimmed && |c| >= 2 {
        var k :| 0 <= k < |trimmed| && trimmed[k] == c;
        RemoveHas(Elems(before), id, before[k]);
      }
      if c in Remove(Elems(before), id) {
        var d := RemoveFrom(Elems(before), id, c);
        var k :| 0 <= k < |before| && before[k] == d;
        assert trimmed[k] == c;
      }
    }
  }

  lemma RemoveHas(p: Partition, id: Id, d: Class)
    requires d in p && |d - {id}| >= 2
    ensures d - {id} in Remove(p, id)
  {
  }

  lemma RemoveFrom(p: Partition, id: Id, c: Class) returns (d: Class)
    requires c in Remove(p, id)
    ensures d in p && c == d - {id} && |c| >= 2
  {
    d :| d in p && |d - {id}| >= 2 && c == d - {id};
  }

  /** Sort a tenant's classes by their least member. */
  method SortByLeast(before: seq<Class>) returns (cs: seq<Class>)
    requires ValidClasses(before)
    ensures IsCanonicalListing(cs, Elems(before))
  {
    cs := [];
    for i := 0 to |before|
      invariant IsCanonicalListing(cs, Elems(before[..i]))
    {
      var j := 0;
      while j < |cs| && Least(cs[j]) < Least(before[i])
        invariant 0 <= j <= |cs|
        invariant forall k :: 0 <= k < j ==> Least(cs[k]) < Least(before[i])
      {
        j := j + 1;
      }
      InsertListing(before, i, cs, j);
      cs := cs[..j] + [before[i]] + cs[j..];
    }
    assert before[..|before|] == before;
  }

  lemma InsertListing(before: seq<Class>, i: nat, cs: seq<Class>, j: nat)
    requires ValidClasses(before) && i < |before| && IsCanonicalListing(cs, Elems(before[..i]))
    requires j <= |cs| && (forall k :: 0 <= k < j ==> Least(cs[k]) < Least(before[i]))
    requires j < |cs| ==> Least(before[i]) <= Least(cs[j])
    ensures IsCanonicalListing(cs[..j] + [before[i]] + cs[j..], Elems(before[..i + 1]))
  {
    var c := before[i];
    var r := cs[..j] + [c] + cs[j..];
    forall k | j <= k < |cs|
      ensures Least(c) < Least(cs[k])
    {
      assert cs[k] in Elems(cs);
      var m :| 0 <= m < i && before[m] == cs[k];
      assert before[m] !! before[i];
    }
    assert before[..i + 1] == before[..i] + [c];
    assert Elems(r) == Elems(cs) + {c} by {
      assert cs == cs[..j] + cs[j..];
    }
  }

  // ----- the index

  ghost predicate ValidIndex(classes: map<Tenant, seq<Class>>) {
    forall t :: t in classes ==> classes[t] != [] && ValidClasses(classes[t])
  }

  lemma PutValid(classes: map<Tenant, seq<Class>>, t: Tenant, cs: seq<Class>)
    requires ValidIndex(classes) && cs != [] && ValidClasses(cs)
    ensures ValidIndex(classes[t := cs])
  {
  }

  class AliasMap {
    var classes: map<Tenant, seq<Class>>

    /** Every stored tenant has a class, and its classes are valid. */
    ghost predicate Valid()
      reads this
    {
      ValidIndex(classes)
    }

    function View(t: Tenant): Partition
      reads this
    {
      if t in classes then Elems(classes[t]) else {}
    }

    /** The classes are exactly the projection of `log`, for every tenant. */
    ghost predicate Projects(log: seq<AuditEvent>)
      reads this
    {
      Valid() && forall t :: View(t) == Fold(log, t)
    }

    constructor ()
      ensures Projects([])
    {
      classes := map[];
    }

    method UnionIn(t: Tenant, asserted: Class)
      requires Valid() && |asserted| >= 2
      modifies this
      ensures Valid() && View(t) == Merge(old(View(t)), asserted)
      ensures forall u :: u != t ==> View(u) == old(View(u))
    {
      var present := if t in classes then classes[t] else [];
      ghost var view := View(t);
      assert Elems(present) == view;
      var merged := UnionClasses(present, asserted);
      PutValid(classes, t, merged);
      classes := classes[t := merged];
    }

    method RemoveId(t: Tenant, id: Id)
      requires Valid()
      modifies this
      ensures Valid() && View(t) == Remove(old(View(t)), id)
      ensures forall u :: u != t ==> View(u) == old(View(u))
    {
      if t in classes {
        var rest := RemoveFromAll(classes[t], id);
        classes := if rest == [] then classes - {t} else classes[t := rest];
      }
    }

    method RemoveIds(t: Tenant, ids: seq<Id>)
      requires Valid()
      modifies this
      ensures Valid() && View(t) == RemoveAll(old(View(t)), ids)
      ensures forall u :: u != t ==> View(u) == old(View(u))
    {
      for i := 0 to |ids|
        invariant Valid()
        invariant forall u :: u != t ==> View(u) == old(View(u))
        invariant RemoveAll(View(t), ids[i..]) == RemoveAll(old(View(t)), ids)
      {
        assert ids[i..][1..] == ids[i + 1..];
        RemoveId(t, ids[i]);
      }
      assert ids[|ids|..] == [];
    }

    /** Emit an assertion of at least two ids and fold it in. */
    method AcceptAssertion(sink: AuditSink, event: AuditEvent, asserted: Class)
      requires Projects(sink.events) && event.payload.AliasAsserted? && |asserted| >= 2
      requires asserted == Named(event.payload.representative, event.payload.members)
      modifies this, sink
      ensures Projects(sink.events) && sink.events == old(sink.events) + [event]
    {
      ghost var log := sink.events;
      sink.Emit(event);
      UnionIn(event.tenant, asserted);
      forall u
        ensures View(u) == Fold(log + [event], u)
      {
        FoldAssertion(log, event, u, asserted);
      }
    }

    /** A rejected assertion emits and changes nothing; an accepted one emits its
        event and leaves the index projecting the longer log. */
    method Assert(sink: AuditSink, t: Tenant, representative: Id, members: seq<Id>, op: Operator)
      returns (r: Result<(), AliasError>)
      requires Projects(sink.events)
      modifies this, sink
      ensures Projects(sink.events)
      ensures r == if |op.reason| > REASON_BYTE_LIMIT then Err(ReasonTooLong(|op.reason|))
                   else if |Named(representative, members)| < 2 then Err(DegenerateAssertion)
                   else Ok(())
      ensures r.Err? ==> sink.events == old(sink.events) && classes == old(classes)
      ensures r.Ok? ==> sink.events == old(sink.events) +
                          [AuditEvent(t, op.timestamp, AliasAsserted(representative, members, op.actor, op.reason))]
    {
      if |op.reason| > REASON_BYTE_LIMIT {
        return Err(ReasonTooLong(|op.reason|));
      }
      var asserted := Named(representative, members);
      if |asserted| < 2 {
        return Err(DegenerateAssertion);
      }
      var event := AuditEvent(t, op.timestamp, AliasAsserted(representative, members, op.actor, op.reason));
      AcceptAssertion(sink, event, asserted);
      r := Ok(());
    }

    method Retract(sink: AuditSink, t: Tenant, id: Id, op: Operator) returns (r: Result<(), AliasError>)
      requires Projects(sink.events)
      modifies this, sink
      ensures Projects(sink.events)
      ensures r == if |op.reason| > REASON_BYTE_LIMIT then Err(ReasonTooLong(|op.reason|)) else Ok(())
      ensures r.Err? ==> sink.events == old(sink.events) && classes == old(classes)
      ensures r.Ok? ==> sink.events == old(sink.events) +
                          [AuditEvent(t, op.timestamp, AliasRetracted(id, [], op.actor, op.reason))]
    {
      if |op.reason| > REASON_BYTE_LIMIT {
        return Err(ReasonTooLong(|op.reason|));
      }
      var event := AuditEvent(t, op.timestamp, AliasRetracted(id, [], op.actor, op.reason));
      ghost var log := sink.events;
      sink.Emit(event);
      RemoveId(t, id);
      forall u
        ensures View(u) == Fold(log + [event], u)
      {
        FoldRetraction(log, event, u);
      }
      r := Ok(());
    }

    method Resolves(t: Tenant, id: Id) returns (r: Class)
      requires Valid()
      ensures r == ClassOf(View(t), id)
    {
      if t in classes {
        for i := 0 to |classes[t]|
          invariant forall k :: 0 <= k < i ==> id !in classes[t][k]
        {
          if id in classes[t][i] {
            ClassOfStored(classes[t], i, id);
            return classes[t][i];
          }
        }
      }
      r := {id};
    }

    method Canonical(t: Tenant, id: Id) returns (r: Id)
      requires Valid()
      ensures r == Least(ClassOf(View(t), id))
    {
      var answer := Resolves(t, id);
      r := Least(answer);
    }

    /** The replay path: one durable event, of any kind. */
    method Apply(event: AuditEvent)
      requires Valid()
      modifies this
      ensures Valid() && forall t :: View(t) == Step(old(View(t)), t, event)
    {
      match event.payload {
        case AliasAsserted(representative, members, _, _) =>
          var asserted := Named(representative, members);
          if |asserted| >= 2 {
            UnionIn(event.tenant, asserted);
          }
        case AliasRetracted(representative, members, _, _) =>
          RemoveIds(event.tenant, [representative] + members);
        case _ =>
      }
    }

    static method FromEvents(events: seq<AuditEvent>) returns (m: AliasMap)
      ensures fresh(m) && m.Projects(events)
    {
      m := new AliasMap();
      for i := 0 to |events|
        invariant fresh(m) && m.Projects(events[..i])
      {
        m.Apply(events[i]);
        assert events[..i + 1][..i] == events[..i];
      }
      assert events[..|events|] == events;
    }

    method Classes(t: Tenant) returns (cs: seq<Class>)
      requires Valid()
      ensures IsCanonicalListing(cs, View(t))
    {
      cs := SortByLeast(if t in classes then classes[t] else []);
    }

    static method FromClasses(t: Tenant, cs: seq<Class>) returns (m: AliasMap)
      ensures fresh(m) && m.Valid() && m.View(t) == MergeAll(cs)
      ensures forall u :: u != t ==> m.View(u) == {}
    {
      m := new AliasMap();
      assert forall u :: m.View(u) == Fold([], u);
      for i := 0 to |cs|
        invariant fresh(m) && m.Valid() && m.View(t) == MergeAll(cs[..i])
        invariant forall u :: u != t ==> m.View(u) == {}
      {
        assert cs[..i + 1][..i] == cs[..i];
        if |cs[i]| >= 2 {
          m.UnionIn(t, cs[i]);
        }
      }
      assert cs[..|cs|] == cs;
    }
  }

  lemma ClassOfStored(cs: seq<Class>, i: nat, id: Id)
    requires ValidClasses(cs) && i < |cs| && id in cs[i]
    ensures ClassOf(Elems(cs), id) == cs[i]
  {
    forall x | x in ClassOf(Elems(cs), id)
      ensures x in cs[i]
    {
      if x != id {
        var c :| c in Elems(cs) && id in c && x in c;
        var j :| 0 <= j < |cs| && cs[j] == c;
      }
    }
    assert cs[i] in Elems(cs);
  }

  // ----- whole runs

  /** What a call emits: its one event, or nothing when it is refused. */
  function EventOf(call: Call): seq<AuditEvent> {
    if |call.op.reason| > REASON_BYTE_LIMIT then [] else
      match call
      case Assertion(t, representative, members, op) =>
        if |Named(representative, members)| < 2 then []
        else [AuditEvent(t, op.timestamp, AliasAsserted(representative, members, op.actor, op.reason))]
      case Retraction(t, id, op) =>
        [AuditEvent(t, op.timestamp, AliasRetracted(id, [], op.actor, op.reason))]
  }

  function Emitted(calls: seq<Call>): seq<AuditEvent> {
    if calls == [] then [] else Emitted(calls[..|calls| - 1]) + EventOf(calls[|calls| - 1])
  }

  method Perform(m: AliasMap, sink: AuditSink, call: Call)
    requires m.Projects(sink.events)
    modifies m, sink
    ensures m.Projects(sink.events) && sink.events == old(sink.events) + EventOf(call)
  {
    match call {
      case Assertion(t, representative, members, op) =>
        var _ := m.Assert(sink, t, representative, members, op);
      case Retraction(t, id, op) =>
        var _ := m.Retract(sink, t, id, op);
    }
  }

  lemma EmittedNext(calls: seq<Call>, i: nat)
    requires i < |calls|
    ensures Emitted(calls[..i + 1]) == Emitted(calls[..i]) + EventOf(calls[i])
  {
    assert calls[..i + 1][..i] == calls[..i];
  }

  /** Any run of operator calls, refused ones included, emits exactly its accepted calls in
      order.  The live index and the index replayed from the log answer alike, and answer
      what the log says. */
  method LiveEqualsReplay(calls: seq<Call>) returns (live: AliasMap, sink: AuditSink, replayed: AliasMap)
    ensures sink.events == Emitted(calls)
    ensures live.Projects(sink.events) && replayed.Projects(sink.events)
    ensures forall t :: live.View(t) == replayed.View(t)
    ensures forall t, a, b :: b in ClassOf(live.View(t), a) <==> Same(Emitted(calls), t, a, b)
  {
    live := new AliasMap();
    sink := new AuditSink();
    for i := 0 to |calls|
      invariant fresh(live) && fresh(sink) && live.Projects(sink.events)
      invariant sink.events == Emitted(calls[..i])
    {
      EmittedNext(calls, i);
      Perform(live, sink, calls[i]);
    }
    Whole(calls);
    replayed := AliasMap.FromEvents(sink.events);
    forall t, a, b
      ensures b in ClassOf(live.View(t), a) <==> Same(Emitted(calls), t, a, b)
    {
      ReplayAnswers(Emitted(calls), t, a, b);
    }
  }

  /** Replaying a shared log, in which a tenant's run is interleaved with anything else: other
      tenants' events, and events of other kinds. */
  method ReplayInterleaved(calls: seq<Call>, log: seq<AuditEvent>, t: Tenant)
    returns (live: AliasMap, replayed: AliasMap)
    requires AliasEventsOf(log, t) == AliasEventsOf(Emitted(calls), t)
    ensures live.Projects(Emitted(calls)) && replayed.Projects(log)
    ensures live.View(t) == replayed.View(t)
  {
    var sink, again;
    live, sink, again := LiveEqualsReplay(calls);
    replayed := AliasMap.FromEvents(log);
    FoldReadsOwnAliasEvents(log, t);
    FoldReadsOwnAliasEvents(Emitted(calls), t);
  }

  /** Projecting a tenant out and rebuilding it gives back its classes and answers. */
  method ProjectAndRebuild(m: AliasMap, t: Tenant) returns (listed: seq<Class>, rebuilt: AliasMap, relisted: seq<Class>)
    requires m.Valid()
    ensures rebuilt.Valid() && rebuilt.View(t) == m.View(t)
    ensures relisted == listed && IsCanonicalListing(listed, m.View(t))
  {
    listed := m.Classes(t);
    rebuilt := AliasMap.FromClasses(t, listed);
    ghost var p := m.View(t);
    if t in m.classes { ValidClassesArePartition(m.classes[t]); }
    ListingIsValid(listed, p);
    MergeAllOfDisjoint(listed);
    relisted := rebuilt.Classes(t);
    CanonicalListingUnique(listed, relisted, p);
  }

  lemma ListingIsValid(cs: seq<Class>, p: Partition)
    requires ValidPartition(p) && IsCanonicalListing(cs, p)
    ensures ValidClasses(cs)
  {
    forall i | 0 <= i < |cs|
      ensures cs[i] in p
    {
      assert cs[i] in Elems(cs);
    }
  }
}
