/** What an alias log means: for each tenant a partition of the aliased template
    ids, and, independently of any partition, a relation between ids. */
module AliasPartition {
  import opened Collections
  import opened AuditEvents

  type Class = set<Id>
  type Partition = set<Class>

  /** The class invariant: every stored class has at least two members and no id
      is in two classes. */
  ghost predicate ValidPartition(p: Partition) {
    && (forall c :: c in p ==> |c| >= 2)
    && (forall c, d :: c in p && d in p && c != d ==> c !! d)
  }

  /** Everything `id` resolves to: its class, or `id` alone. */
  function ClassOf(p: Partition, id: Id): Class {
    {id} + set c, x | c in p && id in c && x in c :: x
  }

  /** `s` together with every class that shares a member with it. */
  function Absorb(p: Partition, s: Class): Class {
    s + set c, x | c in p && !(c !! s) && x in c :: x
  }

  function Merge(p: Partition, s: Class): Partition {
    (set c | c in p && c !! s) + {Absorb(p, s)}
  }

  /** An asserted set below two ids folds to nothing. */
  function MergeAsserted(p: Partition, s: Class): Partition {
    if |s| >= 2 then Merge(p, s) else p
  }

  function Remove(p: Partition, id: Id): Partition {
    set c | c in p && |c - {id}| >= 2 :: c - {id}
  }

  function RemoveAll(p: Partition, ids: seq<Id>): Partition
    decreases |ids|
  {
    if ids == [] then p else RemoveAll(Remove(p, ids[0]), ids[1..])
  }

  /** The set of ids an assertion or retraction names. */
  function Named(representative: Id, members: seq<Id>): Class {
    {representative} + set x | x in members
  }

  /** One event of the shared stream, as tenant `t`'s projection sees it. */
  function Step(p: Partition, t: Tenant, e: AuditEvent): Partition {
    if e.tenant != t then p else
      match e.payload
      case AliasAsserted(r, ms, _, _) => MergeAsserted(p, Named(r, ms))
      case AliasRetracted(r, ms, _, _) => RemoveAll(p, [r] + ms)
      case _ => p
  }

  function Fold(log: seq<AuditEvent>, t: Tenant): Partition {
    if log == [] then {} else Step(Fold(log[..|log| - 1], t), t, log[|log| - 1])
  }

  lemma FoldSnoc(log: seq<AuditEvent>, e: AuditEvent, t: Tenant)
    ensures Fold(log + [e], t) == Step(Fold(log, t), t, e)
  {
    assert (log + [e])[..|log|] == log;
  }

  /** An assertion of two ids or more, as the operator call emits it. */
  lemma FoldAssertion(log: seq<AuditEvent>, e: AuditEvent, t: Tenant, s: Class)
    requires e.payload.AliasAsserted? && s == Named(e.payload.representative, e.payload.members) && |s| >= 2
    ensures Fold(log + [e], t) == if e.tenant == t then Merge(Fold(log, t), s) else Fold(log, t)
  {
    FoldSnoc(log, e, t);
  }

  /** A single-id retraction, as the operator call emits it. */
  lemma FoldRetraction(log: seq<AuditEvent>, e: AuditEvent, t: Tenant)
    requires e.payload.AliasRetracted? && e.payload.members == []
    ensures Fold(log + [e], t) ==
            if e.tenant == t then Remove(Fold(log, t), e.payload.representative) else Fold(log, t)
  {
    FoldSnoc(log, e, t);
    var p, id := Fold(log, t), e.payload.representative;
    assert RemoveAll(p, [id] + []) == RemoveAll(Remove(p, id), []);
  }

  // ----- the invariant over every log

  lemma MergeValid(p: Partition, s: Class)
    requires ValidPartition(p) && |s| >= 2
    ensures ValidPartition(Merge(p, s))
  {
    var m := Absorb(p, s);
    SubsetCardinality(s, m);
    forall c | c in p && c !! s
      ensures c !! m
    {
      forall x | x in c
        ensures x !in m
      {
        forall d | d in p && !(d !! s)
          ensures x !in d
        {
          assert c != d;
        }
      }
    }
  }

  lemma MergeApart(p: Partition, s: Class)
    requires forall c :: c in p ==> c !! s
    ensures Merge(p, s) == p + {s}
  {
    assert Absorb(p, s) == s;
  }

  lemma RemoveValid(p: Partition, id: Id)
    requires ValidPartition(p)
    ensures ValidPartition(Remove(p, id))
  {
    forall c', d' | c' in Remove(p, id) && d' in Remove(p, id) && c' != d'
      ensures c' !! d'
    {
      var c :| c in p && c' == c - {id};
      var d :| d in p && d' == d - {id};
      assert c != d;
    }
  }

  lemma {:induction false} RemoveAllValid(p: Partition, ids: seq<Id>)
    requires ValidPartition(p)
    ensures ValidPartition(RemoveAll(p, ids))
    decreases |ids|
  {
    if ids != [] {
      RemoveValid(p, ids[0]);
      RemoveAllValid(Remove(p, ids[0]), ids[1..]);
    }
  }

  lemma StepValid(p: Partition, t: Tenant, e: AuditEvent)
    requires ValidPartition(p)
    ensures ValidPartition(Step(p, t, e))
  {
    match e.payload
    case AliasAsserted(r, ms, _, _) =>
      if |Named(r, ms)| >= 2 { MergeValid(p, Named(r, ms)); }
    case AliasRetracted(r, ms, _, _) => RemoveAllValid(p, [r] + ms);
    case _ =>
  }

  /** Whatever a log holds, its projection upholds the class invariant. */
  lemma {:induction false} FoldValid(log: seq<AuditEvent>, t: Tenant)
    ensures ValidPartition(Fold(log, t))
    decreases |log|
  {
    if log != [] {
      FoldValid(log[..|log| - 1], t);
      StepValid(Fold(log[..|log| - 1], t), t, log[|log| - 1]);
    }
  }

  // ----- answers after one step

  /** `a` and `b` mean the same template: the relation behind `ClassOf`. */
  ghost predicate Joined(p: Partition, a: Id, b: Id) {
    a == b || exists c :: c in p && a in c && b in c
  }

  lemma ClassOfIsJoined(p: Partition, a: Id, b: Id)
    ensures b in ClassOf(p, a) <==> Joined(p, a, b)
  {
  }

  lemma JoinedTransitive(p: Partition, a: Id, b: Id, c: Id)
    requires ValidPartition(p) && Joined(p, a, b) && Joined(p, b, c)
    ensures Joined(p, a, c)
  {
    if a != b && b != c {
      var d :| d in p && a in d && b in d;
      var e :| e in p && b in e && c in e;
      assert d == e;
    }
  }

  ghost predicate Touches(p: Partition, s: Class, a: Id) {
    exists x :: x in s && Joined(p, a, x)
  }

  lemma AbsorbMembers(p: Partition, s: Class, a: Id)
    ensures a in Absorb(p, s) <==> Touches(p, s, a)
  {
    if a in s {
      assert Joined(p, a, a);
    } else if c :| c in p && !(c !! s) && a in c {
      var x :| x in c && x in s;
      assert Joined(p, a, x);
    }
  }

  /** An assertion joins exactly the ids that reach it through the old classes. */
  lemma MergeAnswers(p: Partition, s: Class, a: Id, b: Id)
    ensures Joined(Merge(p, s), a, b) <==>
            Joined(p, a, b) || (Touches(p, s, a) && Touches(p, s, b))
  {
    AbsorbMembers(p, s, a);
    AbsorbMembers(p, s, b);
    if c :| c in p && a in c && b in c {
      if c !! s {
        assert c in Merge(p, s);
      } else {
        assert c <= Absorb(p, s) && Absorb(p, s) in Merge(p, s);
      }
    }
    assert Absorb(p, s) in Merge(p, s);
  }

  lemma RemoveAnswers(p: Partition, id: Id, a: Id, b: Id)
    ensures Joined(Remove(p, id), a, b) <==>
            a == b || (a != id && b != id && Joined(p, a, b))
  {
    if a != b && a != id && b != id {
      if c :| c in p && a in c && b in c {
        SubsetCardinality({a, b}, c - {id});
        assert c - {id} in Remove(p, id);
      }
    }
  }

  lemma {:induction false} RemoveAllAnswers(p: Partition, ids: seq<Id>, a: Id, b: Id)
    ensures Joined(RemoveAll(p, ids), a, b) <==>
            a == b || (a !in ids && b !in ids && Joined(p, a, b))
    decreases |ids|
  {
    if ids != [] {
      RemoveAnswers(p, ids[0], a, b);
      RemoveAllAnswers(Remove(p, ids[0]), ids[1..], a, b);
    }
  }

  /** Retracting `id` leaves it alone and takes it, and nothing else, out of
      every other answer: ids once joined only through it stay joined. */
  lemma RetractionAnswers(p: Partition, id: Id, a: Id)
    ensures ClassOf(Remove(p, id), a) == if a == id then {id} else ClassOf(p, a) - {id}
  {
    forall b
      ensures b in ClassOf(Remove(p, id), a) <==>
              b in if a == id then {id} else ClassOf(p, a) - {id}
    {
      RemoveAnswers(p, id, a, b);
      ClassOfIsJoined(Remove(p, id), a, b);
      ClassOfIsJoined(p, a, b);
    }
  }
}
