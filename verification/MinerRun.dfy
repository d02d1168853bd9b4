/** The miner over a whole sequence of lines, whatever routing it takes: one ingest is a
    function of the leaves, and every run passes every oracle. */
module MinerRun {
  import opened Wrappers
  import opened AuditEvents
  import opened Templates
  import opened TemplateOracle
  import opened TemplateLaws
  import opened IngestOracle
  import opened Lines
  import opened MinerAttach
  import opened MinerRows

  /** Where the tree search sends a line: to a leaf it found, to a fresh leaf under a new
      id, or nowhere (the template ceiling, or no id to be had). */
  datatype Decision = Attach(id: Id) | Mint(id: Id, lossy: bool) | Divert

  datatype Request = Request(line: string, decision: Decision, now: int)

  datatype Config = Config(tenant: Tenant, limits: Limits, classify: Classifier)

  datatype Outcome = Outcome(leaves: Leaves, events: seq<AuditEvent>, row: Row)

  // ----- what the miner keeps true of its leaves

  predicate HealthyLeaf(leaf: LeafState) {
    && 0 < |leaf.tokens| < 0x1_0000
    && Aligned(leaf.tokens, leaf.slotTypes)
    && SpaceFree(leaf.tokens)
    && 1 <= leaf.version
    && leaf.version - 1 + RoomLeft(leaf) <= 8 * |leaf.tokens|
  }

  predicate Healthy(leaves: Leaves) {
    NO_TEMPLATE !in leaves && forall id :: id in leaves ==> HealthyLeaf(leaves[id])
  }

  // ----- one ingest

  function Diverted(line: string, separators: seq<string>, params: seq<Param>): Row {
    Row(NO_TEMPLATE, 0, params, separators, Some(line), true)
  }

  function EventFor(cfg: Config, now: int, id: Id, change: TemplateChange): AuditEvent {
    AuditEvent(cfg.tenant, now, Template(id, change))
  }

  function EventsFor(cfg: Config, now: int, id: Id, changes: seq<TemplateChange>): (events: seq<AuditEvent>)
    ensures |events| == |changes|
    ensures forall i :: 0 <= i < |changes| ==> events[i] == EventFor(cfg, now, id, changes[i])
  {
    seq(|changes|, i requires 0 <= i < |changes| => EventFor(cfg, now, id, changes[i]))
  }

  function ParseFailure(cfg: Config, line: string): Row {
    var t := Tokens(line);
    Diverted(line, t.separators, CapEach(Mask(t.tokens, cfg.classify).params, cfg.limits))
  }

  /** What becomes of a plan: a rejection is reported and the line diverted, anything
      else is reported and the row stamped with the leaf as it now is. */
  function CarryOut(cfg: Config, leaves: Leaves, req: Request, id: Id, after: LeafState, plan: AttachPlan): Outcome
    requires plan.Rejected? || |after.tokens| == |Tokens(req.line).tokens|
  {
    var tokens := Tokens(req.line).tokens;
    match plan
    case Rejected(change) => Outcome(leaves, [EventFor(cfg, req.now, id, change)], ParseFailure(cfg, req.line))
    case _ =>
      Outcome(leaves[id := after], EventsFor(cfg, req.now, id, EventsOf(plan)),
              RowFor(id, after, req.line, tokens, LineTypes(tokens, cfg.classify), cfg.limits, false))
  }

  function PlanFor(cfg: Config, leaf: LeafState, tokens: seq<string>): (r: (LeafState, AttachPlan))
    requires HealthyLeaf(leaf) && |tokens| == |leaf.tokens|
    ensures |r.0.tokens| == |tokens|
  {
    MaskIsMasked(tokens, cfg.classify);
    var m, types := Mask(tokens, cfg.classify), LineTypes(tokens, cfg.classify);
    AttachedTokens(leaf, m, types);
    PlanAttach(leaf, m, types)
  }

  function AttachTo(cfg: Config, leaves: Leaves, req: Request, id: Id): Outcome
    requires id in leaves && HealthyLeaf(leaves[id]) && |Tokens(req.line).tokens| == |leaves[id].tokens|
  {
    var (after, plan) := PlanFor(cfg, leaves[id], Tokens(req.line).tokens);
    CarryOut(cfg, leaves, req, id, after, plan)
  }

  function MintLeaf(cfg: Config, leaves: Leaves, req: Request, id: Id, lossy: bool): Outcome {
    var tokens := Tokens(req.line).tokens;
    var leaf := FreshLeaf(tokens, cfg.classify);
    Outcome(leaves[id := leaf], [EventFor(cfg, req.now, id, Created(FormatTemplate(leaf.tokens)))],
            RowFor(id, leaf, req.line, tokens, LineTypes(tokens, cfg.classify), cfg.limits, lossy))
  }

  /** A decision the tree search cannot return (a leaf that is not there or has another
      length, an id in use) is read as a divert. */
  function Settled(leaves: Leaves, tokens: seq<string>, decision: Decision): (d: Decision)
    ensures d.Attach? ==> d.id in leaves && |leaves[d.id].tokens| == |tokens|
    ensures d.Mint? ==> d.id !in leaves && d.id != NO_TEMPLATE
  {
    match decision
    case Attach(id) => if id in leaves && |leaves[id].tokens| == |tokens| then decision else Divert
    case Mint(id, _) => if id != NO_TEMPLATE && id !in leaves then decision else Divert
    case Divert => Divert
  }

  /** A line that gets past the guards goes where the decision says. */
  function Route(cfg: Config, leaves: Leaves, req: Request): Outcome
    requires Healthy(leaves)
  {
    Chosen(cfg, leaves, req, Settled(leaves, Tokens(req.line).tokens, req.decision))
  }

  function Chosen(cfg: Config, leaves: Leaves, req: Request, choice: Decision): Outcome
    requires Healthy(leaves) && choice == Settled(leaves, Tokens(req.line).tokens, req.decision)
  {
    match choice
    case Attach(id) => AttachTo(cfg, leaves, req, id)
    case Mint(id, lossy) => MintLeaf(cfg, leaves, req, id, lossy)
    case Divert => Outcome(leaves, [], ParseFailure(cfg, req.line))
  }

  /** The row of a line that never reaches the tree: rejected by the tokenizer, empty, or
      too long. */
  function TurnedAway(cfg: Config, line: string): Option<Row> {
    if '\0' in line then Some(Diverted(line, [], []))
    else if Tokens(line).tokens == [] then Some(Diverted(line, Tokens(line).separators, []))
    else if |Tokens(line).tokens| > cfg.limits.maxLineTokens then Some(ParseFailure(cfg, line))
    else None
  }

  function Mine(cfg: Config, leaves: Leaves, req: Request): Outcome
    requires Healthy(leaves)
  {
    match TurnedAway(cfg, req.line)
    case Some(row) => Outcome(leaves, [], row)
    case None => Route(cfg, leaves, req)
  }

  /** The types the oracle reads off the line; none when the tokenizer rejects it. */
  function OracleTypes(cfg: Config, line: string): seq<ParamType> {
    if '\0' in line then [] else LineTypes(Tokens(line).tokens, cfg.classify)
  }

  // ----- one ingest passes the audit oracle

  lemma {:induction false} ChangesOfEvents(cfg: Config, now: int, id: Id, changes: seq<TemplateChange>, other: Id)
    requires forall i :: 0 <= i < |changes| ==> !changes[i].RejectedDegenerate?
    ensures ChangesFor(EventsFor(cfg, now, id, changes), other) == if other == id then changes else []
    decreases |changes|
  {
    var events := EventsFor(cfg, now, id, changes);
    if changes != [] {
      var n := |changes| - 1;
      ChangesOfEvents(cfg, now, id, changes[..n], other);
      assert events[..n] == EventsFor(cfg, now, id, changes[..n]);
      Last(changes);
    }
  }

  lemma UnchangedAccepted(leaf: LeafState, types: seq<ParamType>)
    ensures Accepts(leaf, [], types, leaf)
  {
  }

  /** An ingest that moved one leaf by an accepted chain, and nothing else. */
  lemma OneLeafMoved(cfg: Config, leaves: Leaves, now: int, id: Id, changes: seq<TemplateChange>,
                     types: seq<ParamType>, after: LeafState)
    requires forall i :: 0 <= i < |changes| ==> !changes[i].RejectedDegenerate?
    requires LeafAccepted(leaves, changes, types, id, after)
    ensures IngestAccepted(cfg.tenant, leaves, EventsFor(cfg, now, id, changes), types, leaves[id := after])
  {
    var events, all := EventsFor(cfg, now, id, changes), leaves[id := after];
    forall other | other in all
      ensures LeafAccepted(leaves, ChangesFor(events, other), types, other, all[other])
    {
      ChangesOfEvents(cfg, now, id, changes, other);
      if other != id {
        UnchangedAccepted(leaves[other], types);
      }
    }
  }

  /** An ingest without template steps leaves every template as it was. */
  lemma NothingMoved(cfg: Config, leaves: Leaves, events: seq<AuditEvent>, types: seq<ParamType>)
    requires forall i :: 0 <= i < |events| ==> events[i].tenant == cfg.tenant && !IsTemplateStep(events[i])
    ensures IngestAccepted(cfg.tenant, leaves, events, types, leaves)
  {
    forall id | id in leaves
      ensures LeafAccepted(leaves, ChangesFor(events, id), types, id, leaves[id])
    {
      NoChanges(events, id);
      UnchangedAccepted(leaves[id], types);
    }
  }

  lemma {:induction false} NoChanges(events: seq<AuditEvent>, id: Id)
    requires forall i :: 0 <= i < |events| ==> !IsTemplateStep(events[i])
    ensures ChangesFor(events, id) == []
    decreases |events|
  {
    if events != [] {
      NoChanges(events[..|events| - 1], id);
    }
  }

  // ----- leaves stay healthy

  /** Words hold no space, so neither do a fresh template's literals. */
  lemma FreshHealthy(line: string, classify: Classifier)
    requires 0 < |Tokens(line).tokens| < 0x1_0000
    ensures HealthyLeaf(FreshLeaf(Tokens(line).tokens, classify))
  {
    var tokens := Tokens(line).tokens;
    TokensAreTokenization(line);
    FreshLeafAgrees(tokens, classify);
    var leaf := FreshLeaf(tokens, classify);
    MeasureBound(CellsOf(leaf.tokens, leaf.slotTypes));
    assert SpaceFree(leaf.tokens) by {
      forall p | 0 <= p < |tokens|
        ensures ' ' !in tokens[p]
      {
        assert IsWord(tokens[p]);
      }
    }
  }

  /** Every expansion declares a type with a bit of its own. */
  ghost predicate Telling(es: seq<SlotExpansion>) {
    forall i :: 0 <= i < |es| ==> KnownTypes(es[i].addedTypes) != {}
  }

  lemma OneKnown(t: ParamType)
    requires !t.Unknown?
    ensures KnownTypes([t]) != {}
  {
    assert t in [t];
    assert t in KnownTypes([t]);
  }

  /** The types of a line are never `Unknown`. */
  lemma {:induction false} CollectTelling(cells: seq<Cell>, skip: seq<U16>, types: seq<ParamType>, n: nat)
    requires n <= |cells| == |types| && |cells| < 0x1_0000
    requires forall p :: 0 <= p < |types| ==> !types[p].Unknown?
    ensures Telling(Collect(cells, skip, types, n))
    decreases n
  {
    if n > 0 {
      CollectTelling(cells, skip, types, n - 1);
      OneKnown(types[n - 1]);
    }
  }

  ghost predicate Steps(changes: seq<TemplateChange>) {
    forall i :: 0 <= i < |changes| ==>
      changes[i].Widened? || (changes[i].TypeExpanded? && changes[i].slotsExpanded != [] &&
                              Telling(changes[i].slotsExpanded))
  }

  lemma ExpandPlanSteps(leaf: LeafState, cells: seq<Cell>, types: seq<ParamType>)
    requires |cells| == |types| && |cells| < 0x1_0000 && leaf.version + 1 < 0x1_0000_0000
    requires forall p :: 0 <= p < |types| ==> !types[p].Unknown?
    ensures Steps(EventsOf(ExpandPlan(leaf, cells, types).1))
  {
    CollectTelling(cells, [], types, |cells|);
  }

  lemma WidenPlanSteps(leaf: LeafState, cells: seq<Cell>, ps: seq<U16>, types: seq<ParamType>)
    requires |cells| == |types| && |cells| < 0x1_0000 && leaf.version + 2 < 0x1_0000_0000
    requires forall i :: 0 <= i < |ps| ==> ps[i] < |types|
    requires forall p :: 0 <= p < |types| ==> !types[p].Unknown?
    ensures Steps(EventsOf(WidenPlan(leaf, cells, ps, types).1))
  {
    var wide := Opened(cells, ps, types);
    CollectTelling(wide, ps, types, |wide|);
  }

  lemma PlanSteps(leaf: LeafState, m: Masked, types: seq<ParamType>)
    requires |m.strs| == |types| == |leaf.tokens| < 0x1_0000
    requires Aligned(leaf.tokens, leaf.slotTypes) && leaf.version + 2 < 0x1_0000_0000
    requires forall p :: 0 <= p < |types| ==> !types[p].Unknown?
    ensures Steps(EventsOf(PlanAttach(leaf, m, types).1))
  {
    var cells, ps := CellsOf(leaf.tokens, leaf.slotTypes), WideningPositions(m, leaf.tokens, |leaf.tokens|);
    if ps == [] {
      ExpandPlanSteps(leaf, cells, types);
    } else {
      WidenPlanSteps(leaf, cells, ps, types);
    }
  }

  lemma {:induction false} StepsNotVacuous(changes: seq<TemplateChange>)
    requires Steps(changes)
    ensures VacuousSteps(changes) == 0
    decreases |changes|
  {
    if changes != [] {
      if changes[0].TypeExpanded? {
        assert KnownTypes(changes[0].slotsExpanded[0].addedTypes) != {};
      }
      StepsNotVacuous(changes[1..]);
    }
  }

  lemma StaysSpaceFree(before: seq<Token>, changes: seq<TemplateChange>, after: seq<Token>)
    requires SpaceFree(before) && Accounted(before, changes, after)
    ensures SpaceFree(after)
  {
  }

  /** Any accepted chain of telling steps keeps a leaf healthy: what it adds to the
      version it takes from the room. */
  lemma StaysHealthy(before: LeafState, changes: seq<TemplateChange>, types: seq<ParamType>, after: LeafState)
    requires HealthyLeaf(before) && Accepts(before, changes, types, after) && Steps(changes)
    ensures HealthyLeaf(after)
  {
    StepsNotVacuous(changes);
    assert |after.tokens| == |before.tokens| && after.version == before.version + |changes| &&
      SpaceFree(after.tokens) by {
      AcceptedAccounted(before, changes, types, after);
      StaysSpaceFree(before.tokens, changes, after.tokens);
    }
    AcceptedMeasure(before, changes, types, after);
  }

  lemma AttachHealthy(leaf: LeafState, m: Masked, types: seq<ParamType>)
    requires |m.strs| == |types| == |leaf.tokens| && HealthyLeaf(leaf)
    requires forall p :: 0 <= p < |types| ==> !types[p].Unknown?
    ensures var (after, plan) := PlanAttach(leaf, m, types);
            && Accepts(leaf, EventsOf(plan), types, after)
            && Steps(EventsOf(plan)) && HealthyLeaf(after)
  {
    var (after, plan) := PlanAttach(leaf, m, types);
    AttachIsAccepted(leaf, m, types);
    PlanSteps(leaf, m, types);
    StaysHealthy(leaf, EventsOf(plan), types, after);
  }

  // ----- the ingest theorem

  lemma RouteAccepted(cfg: Config, leaves: Leaves, req: Request)
    requires Healthy(leaves) && 0 < |Tokens(req.line).tokens| < 0x1_0000
    ensures var o := Route(cfg, leaves, req);
            && IngestAccepted(cfg.tenant, leaves, o.events, LineTypes(Tokens(req.line).tokens, cfg.classify), o.leaves)
            && Healthy(o.leaves) && leaves.Keys <= o.leaves.Keys
  {
    var tokens := Tokens(req.line).tokens;
    var types := LineTypes(tokens, cfg.classify);
    NothingMoved(cfg, leaves, [], types);
    match Settled(leaves, tokens, req.decision)
    case Attach(id) => AttachAccepted(cfg, leaves, req, id);
    case Mint(id, lossy) => MintAccepted(cfg, leaves, req, id, lossy);
    case Divert =>
  }

  /** What an attach plan promises about the leaf. */
  ghost predicate SoundPlan(leaf: LeafState, types: seq<ParamType>, after: LeafState, plan: AttachPlan) {
    && (plan.Rejected? ==> plan.change.RejectedDegenerate?)
    && Accepts(leaf, EventsOf(plan), types, after)
    && Steps(EventsOf(plan)) && HealthyLeaf(after)
  }

  lemma PlanForSound(cfg: Config, leaf: LeafState, tokens: seq<string>)
    requires HealthyLeaf(leaf) && |tokens| == |leaf.tokens|
    ensures var (after, plan) := PlanFor(cfg, leaf, tokens);
            SoundPlan(leaf, LineTypes(tokens, cfg.classify), after, plan)
  {
    MaskIsMasked(tokens, cfg.classify);
    AttachSound(leaf, Mask(tokens, cfg.classify), LineTypes(tokens, cfg.classify));
  }

  lemma AttachSound(leaf: LeafState, m: Masked, types: seq<ParamType>)
    requires |m.strs| == |types| == |leaf.tokens| && HealthyLeaf(leaf)
    requires forall p :: 0 <= p < |types| ==> !types[p].Unknown?
    ensures var (after, plan) := PlanAttach(leaf, m, types); SoundPlan(leaf, types, after, plan)
  {
    AttachHealthy(leaf, m, types);
  }

  lemma CarryOutAudited(cfg: Config, leaves: Leaves, req: Request, id: Id, types: seq<ParamType>, after: LeafState,
                        plan: AttachPlan)
    requires id in leaves && |after.tokens| == |Tokens(req.line).tokens|
    requires SoundPlan(leaves[id], types, after, plan)
    ensures var o := CarryOut(cfg, leaves, req, id, after, plan);
            IngestAccepted(cfg.tenant, leaves, o.events, types, o.leaves)
  {
    if plan.Rejected? {
      NothingMoved(cfg, leaves, [EventFor(cfg, req.now, id, plan.change)], types);
    } else {
      StepsAreNoRejections(EventsOf(plan));
      OneLeafMoved(cfg, leaves, req.now, id, EventsOf(plan), types, after);
    }
  }

  lemma StepsAreNoRejections(changes: seq<TemplateChange>)
    requires Steps(changes)
    ensures forall i :: 0 <= i < |changes| ==> !changes[i].RejectedDegenerate?
  {
  }

  lemma UpdateHealthy(leaves: Leaves, id: Id, after: LeafState)
    requires Healthy(leaves) && id != NO_TEMPLATE && HealthyLeaf(after)
    ensures Healthy(leaves[id := after]) && leaves.Keys <= leaves[id := after].Keys
  {
  }

  lemma CarryOutAccepted(cfg: Config, leaves: Leaves, req: Request, id: Id, types: seq<ParamType>, after: LeafState,
                         plan: AttachPlan)
    requires Healthy(leaves) && id in leaves && |after.tokens| == |Tokens(req.line).tokens|
    requires SoundPlan(leaves[id], types, after, plan)
    ensures var o := CarryOut(cfg, leaves, req, id, after, plan);
            && IngestAccepted(cfg.tenant, leaves, o.events, types, o.leaves)
            && Healthy(o.leaves) && leaves.Keys <= o.leaves.Keys
  {
    CarryOutAudited(cfg, leaves, req, id, types, after, plan);
    UpdateHealthy(leaves, id, after);
  }

  lemma AttachAccepted(cfg: Config, leaves: Leaves, req: Request, id: Id)
    requires Healthy(leaves) && id in leaves && |Tokens(req.line).tokens| == |leaves[id].tokens|
    ensures var o := AttachTo(cfg, leaves, req, id);
            && IngestAccepted(cfg.tenant, leaves, o.events, LineTypes(Tokens(req.line).tokens, cfg.classify), o.leaves)
            && Healthy(o.leaves) && leaves.Keys <= o.leaves.Keys
  {
    var tokens := Tokens(req.line).tokens;
    var (after, plan) := PlanFor(cfg, leaves[id], tokens);
    PlanForSound(cfg, leaves[id], tokens);
    CarryOutAccepted(cfg, leaves, req, id, LineTypes(tokens, cfg.classify), after, plan);
  }

  lemma MintAccepted(cfg: Config, leaves: Leaves, req: Request, id: Id, lossy: bool)
    requires Healthy(leaves) && id !in leaves && id != NO_TEMPLATE && 0 < |Tokens(req.line).tokens| < 0x1_0000
    ensures var o := MintLeaf(cfg, leaves, req, id, lossy);
            && IngestAccepted(cfg.tenant, leaves, o.events, LineTypes(Tokens(req.line).tokens, cfg.classify), o.leaves)
            && Healthy(o.leaves) && leaves.Keys <= o.leaves.Keys
  {
    var tokens := Tokens(req.line).tokens;
    var leaf := FreshLeaf(tokens, cfg.classify);
    FreshHealthy(req.line, cfg.classify);
    var created := Created(FormatTemplate(leaf.tokens));
    OneLeafMoved(cfg, leaves, req.now, id, [created], LineTypes(tokens, cfg.classify), leaf);
    assert EventsFor(cfg, req.now, id, [created]) == [EventFor(cfg, req.now, id, created)];
  }

  /** Whatever the line and the routing: the audit oracle accepts the ingest, the leaves
      stay healthy, and none is lost. */
  lemma MineAccepted(cfg: Config, leaves: Leaves, req: Request)
    requires Healthy(leaves)
    ensures var o := Mine(cfg, leaves, req);
            && IngestAccepted(cfg.tenant, leaves, o.events, OracleTypes(cfg, req.line), o.leaves)
            && Healthy(o.leaves) && leaves.Keys <= o.leaves.Keys
  {
    NothingMoved(cfg, leaves, [], OracleTypes(cfg, req.line));
    if TurnedAway(cfg, req.line).None? {
      RouteAccepted(cfg, leaves, req);
    }
  }

  // ----- one row

  /** A diverted row keeps its line; any other is stamped with a leaf the line agrees
      with, and renders to the line, from the template unless a value overflowed. */
  ghost predicate RowHolds(line: string, row: Row, leaves: Leaves) {
    if row.templateId == NO_TEMPLATE then row.lossy && row.body == Some(line)
    else
      && !row.lossy && row.templateId in leaves && '\0' !in line
      && leaves[row.templateId].version == row.templateVersion
      && Agrees(leaves[row.templateId].tokens, Tokens(line).tokens)
      && Render(row, leaves[row.templateId].tokens) ==
           if AnyOverflow(row.params) then RetainedVerbatim(line) else Faithful(line)
  }

  lemma DivertedHolds(line: string, separators: seq<string>, params: seq<Param>, leaves: Leaves)
    ensures RowHolds(line, Diverted(line, separators, params), leaves)
  {
  }

  lemma StampedHolds(id: Id, leaf: LeafState, line: string, types: seq<ParamType>, limits: Limits, keepBody: bool,
                     leaves: Leaves)
    requires id != NO_TEMPLATE && id in leaves && leaves[id] == leaf && '\0' !in line
    requires |types| == |Tokens(line).tokens| && Agrees(leaf.tokens, Tokens(line).tokens)
    ensures RowHolds(line, RowFor(id, leaf, line, Tokens(line).tokens, types, limits, keepBody), leaves)
  {
    RowRebuildsLine(id, leaf, line, types, limits, keepBody);
  }

  lemma PlanForAgrees(cfg: Config, leaf: LeafState, tokens: seq<string>)
    requires HealthyLeaf(leaf) && |tokens| == |leaf.tokens|
    ensures var (after, plan) := PlanFor(cfg, leaf, tokens);
            !plan.Rejected? ==>
              && Agrees(after.tokens, tokens)
              && forall p :: p in Mask(tokens, cfg.classify).wildcards ==> p < |tokens| && after.tokens[p].Wildcard?
  {
    MaskIsMasked(tokens, cfg.classify);
    AttachAgrees(leaf, tokens, cfg.classify, Mask(tokens, cfg.classify));
  }

  lemma CarryOutRow(cfg: Config, leaves: Leaves, req: Request, id: Id, after: LeafState, plan: AttachPlan)
    requires id != NO_TEMPLATE && '\0' !in req.line
    requires plan.Rejected? || Agrees(after.tokens, Tokens(req.line).tokens)
    ensures var o := CarryOut(cfg, leaves, req, id, after, plan); RowHolds(req.line, o.row, o.leaves)
  {
    var tokens := Tokens(req.line).tokens;
    if plan.Rejected? {
      DivertedHolds(req.line, Tokens(req.line).separators, CapEach(Mask(tokens, cfg.classify).params, cfg.limits),
                    leaves);
    } else {
      StampedHolds(id, after, req.line, LineTypes(tokens, cfg.classify), cfg.limits, false, leaves[id := after]);
    }
  }

  lemma AttachRow(cfg: Config, leaves: Leaves, req: Request, id: Id)
    requires Healthy(leaves) && id in leaves && |Tokens(req.line).tokens| == |leaves[id].tokens| && '\0' !in req.line
    ensures var o := AttachTo(cfg, leaves, req, id); RowHolds(req.line, o.row, o.leaves)
  {
    var (after, plan) := PlanFor(cfg, leaves[id], Tokens(req.line).tokens);
    PlanForAgrees(cfg, leaves[id], Tokens(req.line).tokens);
    CarryOutRow(cfg, leaves, req, id, after, plan);
  }

  lemma MintRow(cfg: Config, leaves: Leaves, req: Request, id: Id, lossy: bool)
    requires id != NO_TEMPLATE && '\0' !in req.line
    ensures var o := MintLeaf(cfg, leaves, req, id, lossy); RowHolds(req.line, o.row, o.leaves)
  {
    var tokens := Tokens(req.line).tokens;
    var leaf := FreshLeaf(tokens, cfg.classify);
    FreshLeafAgrees(tokens, cfg.classify);
    StampedHolds(id, leaf, req.line, LineTypes(tokens, cfg.classify), cfg.limits, lossy, leaves[id := leaf]);
  }

  lemma RouteRow(cfg: Config, leaves: Leaves, req: Request)
    requires Healthy(leaves) && '\0' !in req.line
    ensures var o := Route(cfg, leaves, req); RowHolds(req.line, o.row, o.leaves)
  {
    var tokens := Tokens(req.line).tokens;
    DivertedHolds(req.line, Tokens(req.line).separators, CapEach(Mask(tokens, cfg.classify).params, cfg.limits),
                  leaves);
    match Settled(leaves, tokens, req.decision)
    case Attach(id) => AttachRow(cfg, leaves, req, id);
    case Mint(id, lossy) => MintRow(cfg, leaves, req, id, lossy);
    case Divert =>
  }

  lemma MineRow(cfg: Config, leaves: Leaves, req: Request)
    requires Healthy(leaves)
    ensures var o := Mine(cfg, leaves, req); RowHolds(req.line, o.row, o.leaves)
  {
    if TurnedAway(cfg, req.line).None? {
      RouteRow(cfg, leaves, req);
    }
  }

  // ----- no template loses its last literal

  predicate HasLiteral(tokens: seq<Token>) {
    exists p :: 0 <= p < |tokens| && tokens[p].Fixed?
  }

  /** The leaves that still have one. */
  function Literate(leaves: Leaves): set<Id> {
    set id | id in leaves && HasLiteral(leaves[id].tokens)
  }

  lemma PlanForKeepsLiteral(cfg: Config, leaf: LeafState, tokens: seq<string>)
    requires HealthyLeaf(leaf) && |tokens| == |leaf.tokens| && HasLiteral(leaf.tokens)
    ensures var (after, plan) := PlanFor(cfg, leaf, tokens); HasLiteral(after.tokens)
  {
    MaskIsMasked(tokens, cfg.classify);
    var m, types := Mask(tokens, cfg.classify), LineTypes(tokens, cfg.classify);
    AttachedTokens(leaf, m, types);
    GuardKeepsLiteral(leaf.tokens, WideningPositions(m, leaf.tokens, |leaf.tokens|));
  }

  lemma GuardKeepsLiteral(tokens: seq<Token>, ps: seq<U16>)
    requires HasLiteral(tokens)
    ensures ps == [] || !Degenerate(tokens, ps) ==> HasLiteral(Marked(tokens, ps))
  {
    if ps == [] {
      var p :| 0 <= p < |tokens| && tokens[p].Fixed?;
      assert Marked(tokens, ps)[p].Fixed?;
    } else if !Degenerate(tokens, ps) {
      var p :| 0 <= p < |tokens| && tokens[p].Fixed? && p !in ps;
      assert Marked(tokens, ps)[p].Fixed?;
    }
  }

  lemma UpdateKeepsLiterals(leaves: Leaves, id: Id, leaf: LeafState)
    requires id in Literate(leaves) ==> HasLiteral(leaf.tokens)
    ensures Literate(leaves) <= Literate(leaves[id := leaf])
  {
  }

  lemma AttachKeepsLiterals(cfg: Config, leaves: Leaves, req: Request, id: Id)
    requires Healthy(leaves) && id in leaves && |Tokens(req.line).tokens| == |leaves[id].tokens|
    ensures Literate(leaves) <= Literate(AttachTo(cfg, leaves, req, id).leaves)
  {
    var (after, plan) := PlanFor(cfg, leaves[id], Tokens(req.line).tokens);
    if id in Literate(leaves) {
      PlanForKeepsLiteral(cfg, leaves[id], Tokens(req.line).tokens);
    }
    UpdateKeepsLiterals(leaves, id, after);
  }

  /** A template with a literal has one after any ingest: a line that would leave none is
      turned away. */
  lemma MineKeepsLiterals(cfg: Config, leaves: Leaves, req: Request)
    requires Healthy(leaves)
    ensures Literate(leaves) <= Literate(Mine(cfg, leaves, req).leaves)
  {
    if TurnedAway(cfg, req.line).None? {
      var tokens := Tokens(req.line).tokens;
      match Settled(leaves, tokens, req.decision)
      case Attach(id) => AttachKeepsLiterals(cfg, leaves, req, id);
      case Mint(id, _) => UpdateKeepsLiterals(leaves, id, FreshLeaf(tokens, cfg.classify));
      case Divert =>
    }
  }
}
