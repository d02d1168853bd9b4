/** Exactly what the audit oracle accepts, and what an accepted ingest has told. */
module OracleVerdicts {
  import opened Wrappers
  import opened AuditEvents
  import opened SlotTypeSets
  import opened Templates
  import opened TemplateOracle
  import opened IngestOracle
  import opened MinerAttach

  // ----- one step

  /** A widening is accepted exactly when it continues the chain, declares literals in order at
      positions the line has, and prints the template those turn into. */
  lemma WideningAcceptedIff(c: Chain, cells: seq<Cell>, oldVersion: U32, newVersion: U32, oldTemplate: string,
                            newTemplate: string, ps: seq<U16>, types: seq<ParamType>)
    requires c.typed == Typed(TokensOf(cells), SlotsOf(cells)) && c.template == FormatTemplate(TokensOf(cells))
    requires SpaceFree(TokensOf(cells))
    ensures ReplayStep(c, Widened(oldVersion, newVersion, oldTemplate, newTemplate, ps), types).Some? <==>
            && oldVersion == c.version && newVersion == c.version + 1 && oldTemplate == c.template
            && ps != [] && Widenable(TokensOf(cells), ps, types)
            && newTemplate == FormatTemplate(Marked(TokensOf(cells), ps))
  {
    WideningOpensCells(cells, ps, types);
    if Widenable(TokensOf(cells), ps, types) {
      OpenedTokens(cells, ps, types);
      if ps != [] {
        WidenedShapeHolds(cells, ps, types);
      }
      StepSome(c, oldVersion, newVersion, oldTemplate, newTemplate, ps, types, TokensOf(Opened(cells, ps, types)),
               SlotsOf(Opened(cells, ps, types)));
    }
  }

  lemma StepSome(c: Chain, oldVersion: U32, newVersion: U32, oldTemplate: string, newTemplate: string, ps: seq<U16>,
                 types: seq<ParamType>, tokens: seq<Token>, slots: seq<SlotTypes>)
    requires ReplayWidening(c.typed, ps, types) == Some(Typed(tokens, slots))
    ensures ReplayStep(c, Widened(oldVersion, newVersion, oldTemplate, newTemplate, ps), types).Some? <==>
            && Continues(c, oldVersion, newVersion, oldTemplate) && WidenedShape(oldTemplate, newTemplate, ps)
            && newTemplate == FormatTemplate(tokens)
  {
  }

  /** Each known type is new to the slot, and named once. */
  predicate AllNew(s: SlotTypes, added: seq<ParamType>) {
    forall i :: 0 <= i < |added| && !added[i].Unknown? ==> added[i] !in Members(s) && added[i] !in added[..i]
  }

  lemma AllNewNext(s: SlotTypes, init: seq<ParamType>, t: ParamType)
    ensures AllNew(s, init + [t]) <==> AllNew(s, init) && (t.Unknown? || (t !in Members(s) && t !in KnownTypes(init)))
  {
    var all := init + [t];
    assert all[..|init|] == init && all[|init|] == t;
    forall i | 0 <= i < |init|
      ensures all[i] == init[i] && all[..i] == init[..i]
    {
    }
  }

  lemma {:induction false} AddEachIff(s: SlotTypes, added: seq<ParamType>)
    ensures AddEach(s, added).Some? <==> AllNew(s, added)
    decreases |added|
  {
    if added != [] {
      var n := |added| - 1;
      assert added == added[..n] + [added[n]];
      AddEachIff(s, added[..n]);
      AllNewNext(s, added[..n], added[n]);
      if AddEach(s, added[..n]).Some? {
        AddEachEffect(s, added[..n]);
        ContainsMembers(AddEach(s, added[..n]).value, added[n]);
      }
    }
  }

  /** The expansion names a slot there is, and at least one type, each new to it. */
  predicate Expandable(slots: seq<SlotTypes>, e: SlotExpansion) {
    e.slotIndex < |slots| && e.addedTypes != [] && AllNew(slots[e.slotIndex], e.addedTypes)
  }

  lemma {:induction false} ExpandLeavesOthers(slots: seq<SlotTypes>, es: seq<SlotExpansion>, k: nat)
    requires ExpandEach(slots, es).Some? && k < |slots| && forall i :: 0 <= i < |es| ==> es[i].slotIndex != k
    ensures |ExpandEach(slots, es).value| == |slots| && ExpandEach(slots, es).value[k] == slots[k]
    decreases |es|
  {
    if es != [] {
      ExpandLeavesOthers(slots, es[..|es| - 1], k);
    }
  }

  predicate DistinctSlots(es: seq<SlotExpansion>) {
    forall i, j :: 0 <= i < j < |es| ==> es[i].slotIndex != es[j].slotIndex
  }

  lemma {:induction false} ExpandEachIff(slots: seq<SlotTypes>, es: seq<SlotExpansion>)
    requires DistinctSlots(es)
    ensures ExpandEach(slots, es).Some? <==> forall i :: 0 <= i < |es| ==> Expandable(slots, es[i])
    decreases |es|
  {
    if es != [] {
      var n := |es| - 1;
      ExpandEachIff(slots, es[..n]);
      assert forall i :: 0 <= i < n ==> es[..n][i] == es[i];
      if ExpandEach(slots, es[..n]).Some? {
        LastExpandable(slots, es);
      }
    }
  }

  lemma LastExpandable(slots: seq<SlotTypes>, es: seq<SlotExpansion>)
    requires es != [] && DistinctSlots(es) && ExpandEach(slots, es[..|es| - 1]).Some?
    ensures ExpandEach(slots, es).Some? <==> Expandable(slots, es[|es| - 1])
  {
    var n := |es| - 1;
    var e, mid := es[n], ExpandEach(slots, es[..n]).value;
    ExpandEachLength(slots, es[..n]);
    if e.slotIndex < |slots| {
      ExpandLeavesOthers(slots, es[..n], e.slotIndex);
      AddEachIff(slots[e.slotIndex], e.addedTypes);
    }
  }

  /** A type expansion is accepted exactly when it continues the chain with the template as it
      is, and names at least one slot, each once, with types that are all new there. */
  lemma ExpansionAcceptedIff(c: Chain, oldVersion: U32, newVersion: U32, oldTemplate: string, newTemplate: string,
                             es: seq<SlotExpansion>, types: seq<ParamType>)
    requires c.template == FormatTemplate(c.typed.tokens)
    ensures ReplayStep(c, TypeExpanded(oldVersion, newVersion, oldTemplate, newTemplate, es), types).Some? <==>
            && oldVersion == c.version && newVersion == c.version + 1
            && oldTemplate == c.template && newTemplate == c.template
            && es != [] && DistinctSlots(es) && forall i :: 0 <= i < |es| ==> Expandable(c.typed.slots, es[i])
  {
    if DistinctSlots(es) {
      ExpandEachIff(c.typed.slots, es);
    }
  }

  // ----- one chain

  /** The versions and texts a step declares. */
  function OldText(change: TemplateChange): string
    requires change.Widened? || change.TypeExpanded?
  {
    change.oldTemplate
  }

  function NewText(change: TemplateChange): string
    requires change.Widened? || change.TypeExpanded?
  {
    change.newTemplate
  }

  predicate IsStep(change: TemplateChange) {
    change.Widened? || change.TypeExpanded?
  }

  /** Consecutive versions from `version`, each text taking up where the last left off, from
      `first` to `last`. */
  ghost predicate Tells(changes: seq<TemplateChange>, version: int, first: string, last: string) {
    && (forall k :: 0 <= k < |changes| ==>
          && IsStep(changes[k]) && changes[k].oldVersion == version + k && changes[k].newVersion == version + k + 1)
    && (forall k :: 0 < k < |changes| ==> OldText(changes[k]) == NewText(changes[k - 1]))
    && (if changes == [] then first == last
        else OldText(changes[0]) == first && NewText(changes[|changes| - 1]) == last)
  }

  lemma TellsCons(change: TemplateChange, rest: seq<TemplateChange>, version: int, first: string, last: string)
    requires IsStep(change) && change.oldVersion == version && change.newVersion == version + 1
    requires OldText(change) == first && Tells(rest, version + 1, NewText(change), last)
    ensures Tells([change] + rest, version, first, last)
  {
    var all := [change] + rest;
    forall k | 0 < k < |all|
      ensures all[k] == rest[k - 1]
    {
    }
  }

  lemma {:induction false} ReplayTells(c: Chain, changes: seq<TemplateChange>, types: seq<ParamType>)
    requires Replay(c, changes, types).Some?
    ensures Tells(changes, c.version, c.template, Replay(c, changes, types).value.template)
    decreases |changes|
  {
    if changes != [] {
      var d := ReplayStep(c, changes[0], types).value;
      ReplayTells(d, changes[1..], types);
      assert changes == [changes[0]] + changes[1..];
      TellsCons(changes[0], changes[1..], c.version, c.template, Replay(d, changes[1..], types).value.template);
    }
  }

  /** The events of an accepted leaf tell its history: versions one by one, and texts from the
      template before to the template after. */
  lemma AcceptedTells(before: LeafState, changes: seq<TemplateChange>, types: seq<ParamType>, after: LeafState)
    requires Accepts(before, changes, types, after)
    ensures Tells(changes, before.version, FormatTemplate(before.tokens), FormatTemplate(after.tokens))
    ensures after.version == before.version + |changes|
    ensures changes == [] ==> after == before
  {
    ReplayTells(Start(before), changes, types);
    ReplayVersion(Start(before), changes, types);
  }

  lemma {:induction false} ReplayVersion(c: Chain, changes: seq<TemplateChange>, types: seq<ParamType>)
    requires Replay(c, changes, types).Some?
    ensures Replay(c, changes, types).value.version == c.version + |changes|
    decreases |changes|
  {
    if changes != [] {
      ReplayVersion(ReplayStep(c, changes[0], types).value, changes[1..], types);
    }
  }

  // ----- one ingest

  lemma {:induction false} ChangesHold(events: seq<AuditEvent>, id: Id, i: nat)
    requires i < |events| && IsTemplateStep(events[i]) && events[i].payload.templateId == id
    ensures events[i].payload.change in ChangesFor(events, id)
    decreases |events|
  {
    if i < |events| - 1 {
      ChangesHold(events[..|events| - 1], id, i);
    }
  }

  /** The steps an ingest reports about one template. */
  ghost function StepsAbout(events: seq<AuditEvent>, id: Id): set<nat> {
    set i: nat | i < |events| && IsTemplateStep(events[i]) && events[i].payload.templateId == id
  }

  lemma {:induction false} ChangesCount(events: seq<AuditEvent>, id: Id)
    ensures |ChangesFor(events, id)| == |StepsAbout(events, id)|
    decreases |events|
  {
    if events == [] {
      assert StepsAbout(events, id) == {};
    } else {
      var n := |events| - 1;
      ChangesCount(events[..n], id);
      assert StepsAbout(events, id) == StepsAbout(events[..n], id) +
             if IsTemplateStep(events[n]) && events[n].payload.templateId == id then {n} else {};
    }
  }

  /** What an accepted ingest has told.  Every event names the tenant, and a template there is.
      A template that is new was reported once, by its creation with its own text, and stands at
      version 1.  One that was there was never reported as created. */
  lemma AcceptedIngestTells(tenant: Tenant, before: Leaves, events: seq<AuditEvent>, types: seq<ParamType>,
                            after: Leaves)
    requires IngestAccepted(tenant, before, events, types, after)
    ensures forall i :: 0 <= i < |events| ==> events[i].tenant == tenant
    ensures forall i :: 0 <= i < |events| && IsTemplateStep(events[i]) ==>
              var id, change := events[i].payload.templateId, events[i].payload.change;
              && id in after
              && (id in before ==> IsStep(change))
              && (id !in before ==> change == Created(FormatTemplate(after[id].tokens)))
    ensures forall id :: id in after && id !in before ==> after[id].version == 1 && |StepsAbout(events, id)| == 1
  {
    forall i | 0 <= i < |events| && IsTemplateStep(events[i])
      ensures var id, change := events[i].payload.templateId, events[i].payload.change;
              && id in after
              && (id in before ==> IsStep(change))
              && (id !in before ==> change == Created(FormatTemplate(after[id].tokens)))
    {
      StepReported(before, events, types, after, i);
    }
    forall id | id in after && id !in before
      ensures after[id].version == 1 && |StepsAbout(events, id)| == 1
    {
      ChangesCount(events, id);
    }
  }

  lemma StepReported(before: Leaves, events: seq<AuditEvent>, types: seq<ParamType>, after: Leaves, i: nat)
    requires i < |events| && IsTemplateStep(events[i]) && events[i].payload.templateId in after
    requires var id := events[i].payload.templateId;
             LeafAccepted(before, ChangesFor(events, id), types, id, after[id])
    ensures var id, change := events[i].payload.templateId, events[i].payload.change;
            && (id in before ==> IsStep(change))
            && (id !in before ==> change == Created(FormatTemplate(after[id].tokens)))
  {
    var id := events[i].payload.templateId;
    ChangesHold(events, id, i);
    if id in before {
      var changes := ChangesFor(events, id);
      AcceptedTells(before[id], changes, types, after[id]);
      var k :| 0 <= k < |changes| && changes[k] == events[i].payload.change;
    }
  }
}
