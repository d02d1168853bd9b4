/** The oracle as it runs after each ingest: events grouped by template, each leaf's
    chain replayed step by step on mutable state. */
module IngestOracle {
  import opened Collections
  import opened Wrappers
  import opened AuditEvents
  import opened SlotTypeSets
  import opened Templates
  import opened TemplateOracle

  type Leaves = map<Id, LeafState>

  // ----- what one ingest must satisfy

  /** Rejections change no template and are dropped. */
  predicate IsTemplateStep(e: AuditEvent) {
    e.payload.Template? && !e.payload.change.RejectedDegenerate?
  }

  /** The template events for `id`, in emission order. */
  function ChangesFor(events: seq<AuditEvent>, id: Id): seq<TemplateChange> {
    if events == [] then [] else
      var init, e := ChangesFor(events[..|events| - 1], id), events[|events| - 1];
      if IsTemplateStep(e) && e.payload.templateId == id then init + [e.payload.change] else init
  }

  predicate LeafAccepted(before: Leaves, changes: seq<TemplateChange>, lineTypes: seq<ParamType>, id: Id,
                         after: LeafState) {
    if id in before then Accepts(before[id], changes, lineTypes, after) else AcceptsCreated(changes, after)
  }

  /** Every event names the tenant, every leaf after the ingest is accounted for by
      its own events, and no event is about a leaf that is not there. */
  predicate IngestAccepted(tenant: Tenant, before: Leaves, events: seq<AuditEvent>, lineTypes: seq<ParamType>,
                           after: Leaves) {
    && (forall i :: 0 <= i < |events| ==> events[i].tenant == tenant)
    && (forall id :: id in after ==> LeafAccepted(before, ChangesFor(events, id), lineTypes, id, after[id]))
    && (forall i :: 0 <= i < |events| && IsTemplateStep(events[i]) ==> events[i].payload.templateId in after)
  }

  // ----- replay by loops

  lemma {:induction false} WidenEachStops(tokens: seq<Token>, ps: seq<U16>, i: nat)
    requires i <= |ps| && WidenEach(tokens, ps[..i]).None?
    ensures WidenEach(tokens, ps).None?
    decreases |ps|
  {
    if i < |ps| {
      PrefixOf(ps, |ps| - 1, i);
      WidenEachStops(tokens, ps[..|ps| - 1], i);
    } else {
      Whole(ps);
    }
  }

  lemma {:induction false} SeedEachStops(tokens: seq<Token>, slots: seq<SlotTypes>, ps: seq<U16>,
                                         lineTypes: seq<ParamType>, i: nat)
    requires i <= |ps| && SeedEach(tokens, slots, ps[..i], lineTypes).None?
    ensures SeedEach(tokens, slots, ps, lineTypes).None?
    decreases |ps|
  {
    if i < |ps| {
      PrefixOf(ps, |ps| - 1, i);
      SeedEachStops(tokens, slots, ps[..|ps| - 1], lineTypes, i);
    } else {
      Whole(ps);
    }
  }

  lemma {:induction false} AddEachStops(s: SlotTypes, added: seq<ParamType>, i: nat)
    requires i <= |added| && AddEach(s, added[..i]).None?
    ensures AddEach(s, added).None?
    decreases |added|
  {
    if i < |added| {
      PrefixOf(added, |added| - 1, i);
      AddEachStops(s, added[..|added| - 1], i);
    } else {
      Whole(added);
    }
  }

  lemma {:induction false} ExpandEachStops(slots: seq<SlotTypes>, es: seq<SlotExpansion>, i: nat)
    requires i <= |es| && ExpandEach(slots, es[..i]).None?
    ensures ExpandEach(slots, es).None?
    decreases |es|
  {
    if i < |es| {
      PrefixOf(es, |es| - 1, i);
      ExpandEachStops(slots, es[..|es| - 1], i);
    } else {
      Whole(es);
    }
  }

  lemma PrefixOf<T>(s: seq<T>, n: nat, i: nat)
    requires i <= n <= |s|
    ensures s[..n][..i] == s[..i]
  {
  }

  method WidenTokens(before: seq<Token>, ps: seq<U16>) returns (r: Option<seq<Token>>)
    ensures r == WidenEach(before, ps)
  {
    var tokens := before;
    for i := 0 to |ps|
      invariant WidenEach(before, ps[..i]) == Some(tokens)
    {
      PrefixOf(ps, i + 1, i);
      if ps[i] >= |tokens| || !tokens[ps[i]].Fixed? {
        WidenEachStops(before, ps, i + 1);
        return None;
      }
      tokens := tokens[ps[i] := Wildcard];
    }
    Whole(ps);
    r := Some(tokens);
  }

  method SeedSlots(tokens: seq<Token>, before: seq<SlotTypes>, ps: seq<U16>, lineTypes: seq<ParamType>)
    returns (r: Option<seq<SlotTypes>>)
    ensures r == SeedEach(tokens, before, ps, lineTypes)
  {
    var slots := before;
    for i := 0 to |ps|
      invariant SeedEach(tokens, before, ps[..i], lineTypes) == Some(slots)
    {
      PrefixOf(ps, i + 1, i);
      var p := ps[i];
      if p > |tokens| || p >= |lineTypes| || WildcardCount(tokens[..p]) > |slots| {
        SeedEachStops(tokens, before, ps, lineTypes, i + 1);
        return None;
      }
      var ordinal := WildcardCount(tokens[..p]);
      slots := slots[..ordinal] + [Seed(lineTypes[p])] + slots[ordinal..];
    }
    Whole(ps);
    r := Some(slots);
  }

  method AddTypes(before: SlotTypes, added: seq<ParamType>) returns (r: Option<SlotTypes>)
    ensures r == AddEach(before, added)
  {
    var s := before;
    for i := 0 to |added|
      invariant AddEach(before, added[..i]) == Some(s)
    {
      PrefixOf(added, i + 1, i);
      if Contains(s, added[i]) {
        AddEachStops(before, added, i + 1);
        return None;
      }
      s := Insert(s, added[i]);
    }
    Whole(added);
    r := Some(s);
  }

  method ExpandSlots(before: seq<SlotTypes>, es: seq<SlotExpansion>) returns (r: Option<seq<SlotTypes>>)
    ensures r == ExpandEach(before, es)
  {
    var slots := before;
    for i := 0 to |es|
      invariant ExpandEach(before, es[..i]) == Some(slots)
    {
      PrefixOf(es, i + 1, i);
      var k := es[i].slotIndex;
      if k >= |slots| || es[i].addedTypes == [] {
        ExpandEachStops(before, es, i + 1);
        return None;
      }
      var s := AddTypes(slots[k], es[i].addedTypes);
      if s.None? {
        ExpandEachStops(before, es, i + 1);
        return None;
      }
      slots := slots[k := s.value];
    }
    Whole(es);
    r := Some(slots);
  }

  /** Adjacent pairs decide it. */
  method AssertIncreasing(ps: seq<U16>) returns (ok: bool)
    ensures ok <==> Increasing(ps)
  {
    for i := 0 to |ps|
      invariant forall j, k :: 0 <= j < k < i ==> ps[j] < ps[k]
    {
      if i > 0 && ps[i - 1] >= ps[i] {
        return false;
      }
    }
    ok := true;
  }

  /** One event of a chain, checked and replayed. */
  method AssertStep(c: Chain, change: TemplateChange, lineTypes: seq<ParamType>) returns (r: Option<Chain>)
    ensures r == ReplayStep(c, change, lineTypes)
  {
    match change {
      case Widened(oldVersion, newVersion, oldTemplate, newTemplate, ps) =>
        var increasing := AssertIncreasing(ps);
        var continues := Continues(c, oldVersion, newVersion, oldTemplate);
        if !continues || !WidenedShape(oldTemplate, newTemplate, ps) || !increasing {
          return None;
        }
        var tokens := WidenTokens(c.typed.tokens, ps);
        if tokens.None? {
          return None;
        }
        var slots := SeedSlots(tokens.value, c.typed.slots, ps, lineTypes);
        r := if slots.None? then None else Settle(Some(Typed(tokens.value, slots.value)), newVersion, newTemplate);
      case TypeExpanded(oldVersion, newVersion, oldTemplate, newTemplate, es) =>
        if !Continues(c, oldVersion, newVersion, oldTemplate) || oldTemplate != newTemplate || !NamesSlotsOnce(es) {
          return None;
        }
        var slots := ExpandSlots(c.typed.slots, es);
        r := if slots.None? then None else Settle(Some(Typed(c.typed.tokens, slots.value)), newVersion, newTemplate);
      case _ => r := None;
    }
  }

  method AssertSteps(before: LeafState, changes: seq<TemplateChange>, lineTypes: seq<ParamType>, after: LeafState)
    returns (ok: bool)
    ensures ok <==> Accepts(before, changes, lineTypes, after)
  {
    var c := Start(before);
    for i := 0 to |changes|
      invariant Replay(Start(before), changes, lineTypes) == Replay(c, changes[i..], lineTypes)
    {
      Tail(changes, i);
      var next := AssertStep(c, changes[i], lineTypes);
      if next.None? {
        return false;
      }
      c := next.value;
    }
    ok := c.typed == Typed(after.tokens, after.slotTypes) && c.version == after.version &&
          c.template == FormatTemplate(after.tokens);
  }

  // ----- the whole ingest

  predicate HasStep(events: seq<AuditEvent>, id: Id) {
    exists i :: 0 <= i < |events| && IsTemplateStep(events[i]) && events[i].payload.templateId == id
  }

  lemma HasStepNext(events: seq<AuditEvent>, i: nat, id: Id)
    requires i < |events|
    ensures HasStep(events[..i + 1], id) <==>
            HasStep(events[..i], id) || (IsTemplateStep(events[i]) && events[i].payload.templateId == id)
  {
    var init, next := events[..i], events[..i + 1];
    if k :| 0 <= k < |init| && IsTemplateStep(init[k]) && init[k].payload.templateId == id {
      assert next[k] == init[k];
    }
    if k :| 0 <= k < |next| && IsTemplateStep(next[k]) && next[k].payload.templateId == id {
      if k < i { assert init[k] == next[k]; }
    }
    assert next[i] == events[i];
  }

  lemma ChangesNext(events: seq<AuditEvent>, i: nat, id: Id)
    requires i < |events|
    ensures ChangesFor(events[..i + 1], id) == ChangesFor(events[..i], id) +
            if IsTemplateStep(events[i]) && events[i].payload.templateId == id then [events[i].payload.change] else []
  {
    PrefixOf(events, i + 1, i);
  }

  function AddTo(grouped: map<Id, seq<TemplateChange>>, id: Id, change: TemplateChange): map<Id, seq<TemplateChange>> {
    grouped[id := GroupOf(grouped, id) + [change]]
  }

  ghost predicate Grouped(events: seq<AuditEvent>, grouped: map<Id, seq<TemplateChange>>) {
    && (forall id :: id in grouped <==> HasStep(events, id))
    && (forall id :: GroupOf(grouped, id) == ChangesFor(events, id))
  }

  lemma GroupNext(events: seq<AuditEvent>, i: nat, grouped: map<Id, seq<TemplateChange>>)
    requires i < |events| && Grouped(events[..i], grouped)
    ensures Grouped(events[..i + 1],
                    if IsTemplateStep(events[i])
                    then AddTo(grouped, events[i].payload.templateId, events[i].payload.change)
                    else grouped)
  {
    forall id
      ensures HasStep(events[..i + 1], id) <==>
              HasStep(events[..i], id) || (IsTemplateStep(events[i]) && events[i].payload.templateId == id)
    {
      HasStepNext(events, i, id);
    }
    var after := if IsTemplateStep(events[i])
                 then AddTo(grouped, events[i].payload.templateId, events[i].payload.change)
                 else grouped;
    forall id
      ensures GroupOf(after, id) == ChangesFor(events[..i + 1], id)
    {
      ChangesNext(events, i, id);
    }
  }

  /** Group the template events by id, in emission order. */
  method TemplateChangesById(events: seq<AuditEvent>) returns (byId: map<Id, seq<TemplateChange>>)
    ensures Grouped(events, byId)
  {
    byId := map[];
    for i := 0 to |events|
      invariant Grouped(events[..i], byId)
    {
      GroupNext(events, i, byId);
      if IsTemplateStep(events[i]) {
        byId := AddTo(byId, events[i].payload.templateId, events[i].payload.change);
      }
    }
    Whole(events);
  }

  method AssertEventsNameTenant(tenant: Tenant, events: seq<AuditEvent>) returns (ok: bool)
    ensures ok <==> forall i :: 0 <= i < |events| ==> events[i].tenant == tenant
  {
    for i := 0 to |events|
      invariant forall k :: 0 <= k < i ==> events[k].tenant == tenant
    {
      if events[i].tenant != tenant {
        return false;
      }
    }
    ok := true;
  }

  method AssertAudited(before: Leaves, changes: seq<TemplateChange>, lineTypes: seq<ParamType>, id: Id,
                       after: LeafState)
    returns (ok: bool)
    ensures ok <==> LeafAccepted(before, changes, lineTypes, id, after)
  {
    if id in before {
      ok := AssertSteps(before[id], changes, lineTypes, after);
    } else {
      ok := after.version == 1 && changes == [Created(FormatTemplate(after.tokens))];
    }
  }

  function GroupOf(grouped: map<Id, seq<TemplateChange>>, id: Id): seq<TemplateChange> {
    if id in grouped then grouped[id] else []
  }

  ghost predicate EachAccepted(before: Leaves, grouped: map<Id, seq<TemplateChange>>, lineTypes: seq<ParamType>,
                               after: Leaves, ids: set<Id>)
    requires ids <= after.Keys
  {
    forall id :: id in ids ==> LeafAccepted(before, GroupOf(grouped, id), lineTypes, id, after[id])
  }

  /** Each leaf takes its own events out of the groups; what is left has no leaf. */
  method AssertEachLeaf(before: Leaves, grouped: map<Id, seq<TemplateChange>>, lineTypes: seq<ParamType>, after: Leaves)
    returns (ok: bool, orphans: map<Id, seq<TemplateChange>>)
    ensures ok <==> EachAccepted(before, grouped, lineTypes, after, after.Keys)
    ensures ok ==> orphans.Keys == grouped.Keys - after.Keys
  {
    var rest := after.Keys;
    orphans := grouped;
    while rest != {}
      invariant rest <= after.Keys
      invariant forall id :: id in orphans <==> id in grouped && id !in after.Keys - rest
      invariant forall id :: id in orphans ==> orphans[id] == grouped[id]
      invariant EachAccepted(before, grouped, lineTypes, after, after.Keys - rest)
      decreases rest
    {
      var id :| id in rest;
      var accepted := AssertAudited(before, GroupOf(orphans, id), lineTypes, id, after[id]);
      if !accepted {
        return false, orphans;
      }
      orphans, rest := orphans - {id}, rest - {id};
    }
    ok := true;
  }

  method AssertChangesAudited(tenant: Tenant, before: Leaves, events: seq<AuditEvent>, lineTypes: seq<ParamType>,
                              after: Leaves)
    returns (ok: bool)
    ensures ok <==> IngestAccepted(tenant, before, events, lineTypes, after)
  {
    ok := AssertEventsNameTenant(tenant, events);
    if !ok {
      return;
    }
    var grouped := TemplateChangesById(events);
    var accepted, orphans := AssertEachLeaf(before, grouped, lineTypes, after);
    ok := accepted && orphans.Keys == {};
    NoOrphans(events, grouped, after);
    GroupsAreChanges(before, events, grouped, lineTypes, after);
  }

  lemma GroupsAreChanges(before: Leaves, events: seq<AuditEvent>, grouped: map<Id, seq<TemplateChange>>,
                         lineTypes: seq<ParamType>, after: Leaves)
    requires Grouped(events, grouped)
    ensures EachAccepted(before, grouped, lineTypes, after, after.Keys) <==>
            forall id :: id in after ==> LeafAccepted(before, ChangesFor(events, id), lineTypes, id, after[id])
  {
  }

  lemma NoOrphans(events: seq<AuditEvent>, grouped: map<Id, seq<TemplateChange>>, after: Leaves)
    requires Grouped(events, grouped)
    ensures grouped.Keys - after.Keys == {} <==>
            forall i :: 0 <= i < |events| && IsTemplateStep(events[i]) ==> events[i].payload.templateId in after
  {
    if id :| id in grouped.Keys - after.Keys {
      assert HasStep(events, id);
    }
    forall i | 0 <= i < |events| && IsTemplateStep(events[i]) && events[i].payload.templateId !in after
      ensures events[i].payload.templateId in grouped.Keys - after.Keys
    {
      assert HasStep(events, events[i].payload.templateId);
    }
  }
}
