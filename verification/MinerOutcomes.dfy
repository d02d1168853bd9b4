/** What becomes of a line, said position by position and without the plan that carries it
    out: when it gets a template, what the template is afterwards, and what the row holds. */
module MinerOutcomes {
  import opened Collections
  import opened Wrappers
  import opened AuditEvents
  import opened SlotTypeSets
  import opened Templates
  import opened TemplateOracle
  import opened TemplateLaws
  import opened IngestOracle
  import opened Lines
  import opened MinerAttach
  import opened MinerRows
  import opened MinerRun
  import Text

  // ----- which lines get a template

  predicate Admissible(cfg: Config, line: string) {
    '\0' !in line && 0 < |Tokens(line).tokens| <= cfg.limits.maxLineTokens
  }

  /** The line has the template's own literal there, and it is no masked token. */
  predicate SharesAt(cfg: Config, template: seq<Token>, tokens: seq<string>, p: nat)
    requires p < |template| == |tokens|
  {
    template[p] == Fixed(tokens[p]) && cfg.classify(tokens[p]).None?
  }

  /** Attaching would leave a template without any literal, though it has one. */
  predicate SharesNothing(cfg: Config, template: seq<Token>, tokens: seq<string>)
    requires |template| == |tokens|
  {
    HasLiteral(template) && forall p :: 0 <= p < |tokens| ==> !SharesAt(cfg, template, tokens, p)
  }

  predicate Mints(cfg: Config, leaves: Leaves, req: Request) {
    && Admissible(cfg, req.line) && req.decision.Mint?
    && req.decision.id != NO_TEMPLATE && req.decision.id !in leaves
  }

  /** The decision names a leaf as long as the line. */
  predicate Fits(cfg: Config, leaves: Leaves, req: Request) {
    && Admissible(cfg, req.line) && req.decision.Attach? && req.decision.id in leaves
    && |leaves[req.decision.id].tokens| == |Tokens(req.line).tokens|
  }

  predicate Attaches(cfg: Config, leaves: Leaves, req: Request) {
    && Fits(cfg, leaves, req)
    && !SharesNothing(cfg, leaves[req.decision.id].tokens, Tokens(req.line).tokens)
  }

  // ----- the leaf after an attach

  lemma {:induction false} CollectEmptyIff(cells: seq<Cell>, skip: seq<U16>, types: seq<ParamType>, n: nat)
    requires n <= |cells| == |types| && |cells| < 0x1_0000
    ensures Collect(cells, skip, types, n) == [] <==> forall p :: 0 <= p < n ==> !GainsType(cells, skip, types, p)
    decreases n
  {
    if n > 0 {
      CollectEmptyIff(cells, skip, types, n - 1);
    }
  }

  lemma {:induction false} GrownNothing(cells: seq<Cell>, skip: seq<U16>, types: seq<ParamType>, n: nat)
    requires n <= |cells| == |types| && forall p :: 0 <= p < n ==> !GainsType(cells, skip, types, p)
    ensures Grown(cells, skip, types, n) == cells
    decreases n
  {
    if n > 0 {
      GrownNothing(cells, skip, types, n - 1);
      GrownNext(cells, skip, types, n - 1);
    }
  }

  predicate SeesNew(cells: seq<Cell>, types: seq<ParamType>, p: nat)
    requires p < |cells| == |types|
  {
    cells[p].Slot? && !Contains(cells[p].types, types[p])
  }

  predicate SeesAnyNew(cells: seq<Cell>, types: seq<ParamType>)
    requires |cells| == |types|
  {
    exists p :: 0 <= p < |cells| && SeesNew(cells, types, p)
  }

  /** Old slots gain a type exactly where they see a new one, widened or not. */
  lemma GainsWhenNew(cells: seq<Cell>, ps: seq<U16>, types: seq<ParamType>)
    requires |cells| == |types| < 0x1_0000 && Widenable(TokensOf(cells), ps, types)
    ensures var wide := Opened(cells, ps, types);
            Collect(wide, ps, types, |wide|) == [] <==> !SeesAnyNew(cells, types)
  {
    var wide := Opened(cells, ps, types);
    forall p | 0 <= p < |cells|
      ensures GainsType(wide, ps, types, p) <==> SeesNew(cells, types, p)
    {
      if p in ps {
        var i :| 0 <= i < |ps| && ps[i] == p;
        assert TokensOf(cells)[p].Fixed?;
      }
    }
    CollectEmptyIff(wide, ps, types, |wide|);
  }

  lemma OpenNothing(cells: seq<Cell>, types: seq<ParamType>)
    ensures Opened(cells, [], types) == cells
  {
  }

  /** The cells an attach leaves, and how many versions it takes. */
  lemma AttachedCells(leaf: LeafState, m: Masked, types: seq<ParamType>, ps: seq<U16>)
    requires |m.strs| == |types| == |leaf.tokens| < 0x1_0000
    requires Aligned(leaf.tokens, leaf.slotTypes) && leaf.version + 2 < 0x1_0000_0000
    requires ps == WideningPositions(m, leaf.tokens, |leaf.tokens|) && (ps == [] || !Degenerate(leaf.tokens, ps))
    requires Widenable(leaf.tokens, ps, types)
    ensures var (after, plan) := PlanAttach(leaf, m, types);
            var cells := CellsOf(leaf.tokens, leaf.slotTypes);
            && !plan.Rejected? && Aligned(after.tokens, after.slotTypes)
            && CellsOf(after.tokens, after.slotTypes) == Grown(Opened(cells, ps, types), ps, types, |cells|)
            && |EventsOf(plan)| == after.version - leaf.version
            && after.version == leaf.version + (if ps == [] then 0 else 1) + if SeesAnyNew(cells, types) then 1 else 0
  {
    var cells := CellsOf(leaf.tokens, leaf.slotTypes);
    CellsRoundTrip(leaf.tokens, leaf.slotTypes);
    var wide := Opened(cells, ps, types);
    var grown := Grown(wide, ps, types, |cells|);
    GainsWhenNew(cells, ps, types);
    CollectEmptyIff(wide, ps, types, |wide|);
    if Collect(wide, ps, types, |wide|) == [] {
      GrownNothing(wide, ps, types, |wide|);
    }
    if ps == [] {
      OpenNothing(cells, types);
    }
    GrownTokens(wide, ps, types, |cells|);
    CellsUnique(grown);
  }

  /** Position by position: a shared literal stays, any other literal becomes a slot for `Str`
      and the line's type, and a slot gains the line's type. */
  ghost predicate AttachedAt(cfg: Config, a: Cell, token: string, b: Cell) {
    match a
    case Lit(s) =>
      if s == token && cfg.classify(token).None? then b == a
      else b.Slot? && Members(b.types) == {Str, TypeOfToken(token, cfg.classify)}
    case Slot(types) =>
      b.Slot? && Members(b.types) == Members(types) + {TypeOfToken(token, cfg.classify)}
  }

  ghost predicate Attached(cfg: Config, before: LeafState, tokens: seq<string>, after: LeafState) {
    && Aligned(before.tokens, before.slotTypes) && Aligned(after.tokens, after.slotTypes)
    && |before.tokens| == |tokens| == |after.tokens|
    && forall p :: 0 <= p < |tokens| ==>
         AttachedAt(cfg, CellsOf(before.tokens, before.slotTypes)[p], tokens[p],
                    CellsOf(after.tokens, after.slotTypes)[p])
  }

  /** Whether the line brings a literal the template does not share. */
  predicate Differs(cfg: Config, template: seq<Token>, tokens: seq<string>)
    requires |template| == |tokens|
  {
    exists p :: 0 <= p < |tokens| && template[p].Fixed? && !SharesAt(cfg, template, tokens, p)
  }

  lemma MismatchIs(cfg: Config, template: seq<Token>, tokens: seq<string>, m: Masked, p: nat)
    requires IsMasked(tokens, cfg.classify, m) && p < |template| == |tokens|
    ensures Mismatch(m, template, p) <==> template[p].Fixed? && !SharesAt(cfg, template, tokens, p)
  {
  }

  /** The positions that widen, and when the guard speaks. */
  lemma PositionsAre(cfg: Config, leaf: LeafState, tokens: seq<string>, m: Masked, ps: seq<U16>)
    requires IsMasked(tokens, cfg.classify, m) && |tokens| == |leaf.tokens| < 0x1_0000
    requires ps == WideningPositions(m, leaf.tokens, |leaf.tokens|)
    ensures forall p :: p in ps <==>
                        0 <= p < |tokens| && leaf.tokens[p].Fixed? && !SharesAt(cfg, leaf.tokens, tokens, p)
    ensures ps != [] <==> Differs(cfg, leaf.tokens, tokens)
    ensures ps != [] && Degenerate(leaf.tokens, ps) <==> SharesNothing(cfg, leaf.tokens, tokens)
  {
    WideningPositionsAre(m, leaf.tokens);
    forall p | 0 <= p < |tokens|
      ensures p in ps <==> leaf.tokens[p].Fixed? && !SharesAt(cfg, leaf.tokens, tokens, p)
    {
      MismatchIs(cfg, leaf.tokens, tokens, m, p);
    }
    if ps != [] {
      assert ps[0] in ps;
    }
  }

  lemma AttachedAtIs(cfg: Config, cells: seq<Cell>, tokens: seq<string>, types: seq<ParamType>, ps: seq<U16>, p: nat)
    requires |cells| == |tokens| == |types| < 0x1_0000 && p < |cells| && types == LineTypes(tokens, cfg.classify)
    requires Widenable(TokensOf(cells), ps, types)
    requires p in ps <==> cells[p].Lit? && !SharesAt(cfg, TokensOf(cells), tokens, p)
    ensures AttachedAt(cfg, cells[p], tokens[p], Grown(Opened(cells, ps, types), ps, types, |cells|)[p])
  {
    SeedMembers(types[p]);
    if cells[p].Slot? {
      InsertMembers(cells[p].types, types[p]);
    }
  }

  lemma PlanForAttached(cfg: Config, leaf: LeafState, tokens: seq<string>)
    requires HealthyLeaf(leaf) && |tokens| == |leaf.tokens| && !SharesNothing(cfg, leaf.tokens, tokens)
    ensures var (after, plan) := PlanFor(cfg, leaf, tokens);
            && !plan.Rejected? && Attached(cfg, leaf, tokens, after)
            && |EventsOf(plan)| == after.version - leaf.version
            && after.version == leaf.version + VersionsTaken(cfg, leaf, tokens)
  {
    var m, types := Mask(tokens, cfg.classify), LineTypes(tokens, cfg.classify);
    MaskIsMasked(tokens, cfg.classify);
    var cells := CellsOf(leaf.tokens, leaf.slotTypes);
    CellsRoundTrip(leaf.tokens, leaf.slotTypes);
    var ps := PlannedPositions(leaf, m, types);
    PositionsAre(cfg, leaf, tokens, m, ps);
    AttachedCells(leaf, m, types, ps);
    forall p | 0 <= p < |tokens|
      ensures AttachedAt(cfg, cells[p], tokens[p], Grown(Opened(cells, ps, types), ps, types, |cells|)[p])
    {
      AttachedAtIs(cfg, cells, tokens, types, ps, p);
    }
  }

  lemma PlanForRefuses(cfg: Config, leaf: LeafState, tokens: seq<string>)
    requires HealthyLeaf(leaf) && |tokens| == |leaf.tokens| && SharesNothing(cfg, leaf.tokens, tokens)
    ensures var (after, plan) := PlanFor(cfg, leaf, tokens);
            && after == leaf && plan.Rejected? && plan.change.RejectedDegenerate?
            && plan.change.version == leaf.version && plan.change.currentTemplate == FormatTemplate(leaf.tokens)
            && plan.change.wouldBeTemplate == FormatTemplate(seq(|tokens|, _ => Wildcard))
            && forall p :: p in plan.change.wouldBePositions <==> 0 <= p < |tokens| && leaf.tokens[p].Fixed?
  {
    var m, types := Mask(tokens, cfg.classify), LineTypes(tokens, cfg.classify);
    MaskIsMasked(tokens, cfg.classify);
    var ps := PlannedPositions(leaf, m, types);
    PositionsAre(cfg, leaf, tokens, m, ps);
    assert Marked(leaf.tokens, ps) == seq(|tokens|, _ => Wildcard);
  }

  // ----- the row

  /** A value within the limit is kept with its type; a longer one leaves its marker. */
  ghost predicate Holds(limits: Limits, param: Param, t: ParamType, value: string) {
    if |Text.Utf8(value)| <= limits.paramBytes then param.typeTag == t && param.value == value
    else param.typeTag == Overflow && param.value == limits.marker(value)
  }

  lemma {:induction false} RowParamAt(template: seq<Token>, tokens: seq<string>, types: seq<ParamType>,
                                      limits: Limits, n: nat, p: nat)
    requires p < n <= |template| && |template| == |tokens| == |types| && template[p].Wildcard?
    ensures var params := RowParams(template, tokens, types, limits, n);
            && WildcardCount(template[..p]) < |params|
            && Holds(limits, params[WildcardCount(template[..p])], types[p], tokens[p])
    decreases n
  {
    if p < n - 1 {
      RowParamAt(template, tokens, types, limits, n - 1, p);
    } else {
      LastRowParam(template, tokens, types, limits, n);
    }
  }

  lemma LastRowParam(template: seq<Token>, tokens: seq<string>, types: seq<ParamType>, limits: Limits, n: nat)
    requires 0 < n <= |template| && |template| == |tokens| == |types| && template[n - 1].Wildcard?
    ensures var params := RowParams(template, tokens, types, limits, n);
            && |params| == WildcardCount(template[..n - 1]) + 1
            && Holds(limits, params[WildcardCount(template[..n - 1])], types[n - 1], tokens[n - 1])
  {
    assert template[..n][..n - 1] == template[..n - 1];
    var init := RowParams(template, tokens, types, limits, n - 1);
    assert RowParams(template, tokens, types, limits, n) == init + [CapParam(types[n - 1], tokens[n - 1], limits)];
  }

  /** A stamped row: one parameter per wildcard, in its place, with the line's own token and
      type, the line's separators, and the body when asked for or when a value overflowed. */
  ghost predicate StampedWith(cfg: Config, row: Row, id: Id, leaf: LeafState, line: string, keepBody: bool) {
    var t := Tokens(line);
    && row.templateId == id && row.templateVersion == leaf.version && !row.lossy
    && |leaf.tokens| == |t.tokens| && |row.params| == WildcardCount(leaf.tokens) && row.separators == t.separators
    && (forall p :: 0 <= p < |t.tokens| && leaf.tokens[p].Wildcard? ==>
          && WildcardCount(leaf.tokens[..p]) < |row.params|
          && Holds(cfg.limits, row.params[WildcardCount(leaf.tokens[..p])],
                   TypeOfToken(t.tokens[p], cfg.classify), t.tokens[p]))
    && row.body == if keepBody || AnyOverflow(row.params) then Some(line) else None
  }

  lemma RowForStamped(cfg: Config, id: Id, leaf: LeafState, line: string, keepBody: bool)
    requires |leaf.tokens| == |Tokens(line).tokens|
    ensures StampedWith(cfg, RowFor(id, leaf, line, Tokens(line).tokens, LineTypes(Tokens(line).tokens, cfg.classify),
                                    cfg.limits, keepBody), id, leaf, line, keepBody)
  {
    var tokens := Tokens(line).tokens;
    Whole(leaf.tokens);
    forall p | 0 <= p < |tokens| && leaf.tokens[p].Wildcard?
      ensures var params := RowParams(leaf.tokens, tokens, LineTypes(tokens, cfg.classify), cfg.limits, |tokens|);
              && WildcardCount(leaf.tokens[..p]) < |params|
              && Holds(cfg.limits, params[WildcardCount(leaf.tokens[..p])],
                       TypeOfToken(tokens[p], cfg.classify), tokens[p])
    {
      RowParamAt(leaf.tokens, tokens, LineTypes(tokens, cfg.classify), cfg.limits, |tokens|, p);
    }
  }

  /** The masked positions of a line, in order. */
  ghost predicate ListsMasked(cfg: Config, tokens: seq<string>, ps: seq<nat>) {
    && (forall i, j :: 0 <= i < j < |ps| ==> ps[i] < ps[j])
    && (forall p :: p in ps <==> 0 <= p < |tokens| && cfg.classify(tokens[p]).Some?)
  }

  lemma {:induction false} CapEachAt(params: seq<TypedParam>, limits: Limits, k: nat)
    requires k < |params|
    ensures |CapEach(params, limits)| == |params|
    ensures Holds(limits, CapEach(params, limits)[k], params[k].typeTag, params[k].value)
    decreases |params|
  {
    var n := |params| - 1;
    CapEachLength(params, limits);
    CapEachLength(params[..n], limits);
    if k < n {
      CapEachAt(params[..n], limits, k);
    }
  }

  lemma {:induction false} CapEachLength(params: seq<TypedParam>, limits: Limits)
    ensures |CapEach(params, limits)| == |params|
    decreases |params|
  {
    if params != [] {
      CapEachLength(params[..|params| - 1], limits);
    }
  }

  /** One parameter per masked token, in order, with the token itself. */
  ghost predicate HoldsMasked(cfg: Config, params: seq<Param>, tokens: seq<string>) {
    exists ps :: ListsMasked(cfg, tokens, ps) && HoldsAt(cfg, params, tokens, ps)
  }

  ghost predicate HoldsAt(cfg: Config, params: seq<Param>, tokens: seq<string>, ps: seq<nat>) {
    && |params| == |ps|
    && forall k :: 0 <= k < |ps| ==>
         ps[k] < |tokens| && Holds(cfg.limits, params[k], TypeOfToken(tokens[ps[k]], cfg.classify), tokens[ps[k]])
  }

  lemma MaskedHeld(cfg: Config, tokens: seq<string>)
    ensures HoldsMasked(cfg, CapEach(Mask(tokens, cfg.classify).params, cfg.limits), tokens)
  {
    var m := Mask(tokens, cfg.classify);
    MaskIsMasked(tokens, cfg.classify);
    CapEachLength(m.params, cfg.limits);
    forall k | 0 <= k < |m.wildcards|
      ensures Holds(cfg.limits, CapEach(m.params, cfg.limits)[k],
                    TypeOfToken(tokens[m.wildcards[k]], cfg.classify), tokens[m.wildcards[k]])
    {
      CapEachAt(m.params, cfg.limits, k);
    }
    assert ListsMasked(cfg, tokens, m.wildcards) && HoldsAt(cfg, CapEach(m.params, cfg.limits), tokens, m.wildcards);
  }

  /** A diverted row: no template, the whole line, and what the masks found. */
  ghost predicate DivertedAs(cfg: Config, row: Row, line: string) {
    && row.templateId == NO_TEMPLATE && row.lossy && row.body == Some(line)
    && ('\0' in line ==> row.separators == [] && row.params == [])
    && ('\0' !in line ==>
          row.separators == Tokens(line).separators && HoldsMasked(cfg, row.params, Tokens(line).tokens))
  }

  lemma FailureDiverts(cfg: Config, line: string)
    requires '\0' !in line
    ensures DivertedAs(cfg, ParseFailure(cfg, line), line)
  {
    MaskedHeld(cfg, Tokens(line).tokens);
  }

  lemma TurnedAwayDiverts(cfg: Config, line: string)
    ensures TurnedAway(cfg, line).Some? <==> !Admissible(cfg, line)
    ensures TurnedAway(cfg, line).Some? ==> DivertedAs(cfg, TurnedAway(cfg, line).value, line)
  {
    if '\0' !in line {
      MaskedHeld(cfg, Tokens(line).tokens);
    }
  }

  // ----- the outcome

  /** An event of this ingest about this template. */
  predicate TemplateEvent(cfg: Config, req: Request, id: Id, e: AuditEvent) {
    e.tenant == cfg.tenant && e.timestamp == req.now && e.payload.Template? && e.payload.templateId == id
  }

  /** A fresh leaf: a slot for the mask's type at each masked token, the token elsewhere. */
  ghost predicate Fresh(cfg: Config, leaf: LeafState, tokens: seq<string>) {
    && leaf.version == 1 && |leaf.tokens| == |tokens| && Aligned(leaf.tokens, leaf.slotTypes)
    && forall p :: 0 <= p < |tokens| ==>
         var cell := CellsOf(leaf.tokens, leaf.slotTypes)[p];
         if cfg.classify(tokens[p]).None? then cell == Lit(tokens[p])
         else cell.Slot? && Members(cell.types) == {TypeOfToken(tokens[p], cfg.classify)}
  }

  lemma SingletonMembers(t: ParamType)
    requires !t.Unknown?
    ensures Members(Singleton(t)) == {t}
  {
    InsertMembers(SlotTypes(0), t);
    assert Members(SlotTypes(0)) == {};
    assert Insert(SlotTypes(0), t) == Singleton(t);
  }

  lemma FreshLeafIs(cfg: Config, tokens: seq<string>)
    ensures Fresh(cfg, FreshLeaf(tokens, cfg.classify), tokens)
  {
    var cells := FreshCells(tokens, cfg.classify);
    SlotCount(cells);
    CellsUnique(cells);
    forall p | 0 <= p < |tokens| && cfg.classify(tokens[p]).Some?
      ensures Members(cells[p].types) == {TypeOfToken(tokens[p], cfg.classify)}
    {
      SingletonMembers(TypeOfToken(tokens[p], cfg.classify));
    }
  }

  /** A mint adds one fresh leaf under the new id, reports it, and stamps the row with it. */
  lemma MineMints(cfg: Config, leaves: Leaves, req: Request)
    requires Healthy(leaves) && Mints(cfg, leaves, req)
    ensures var o, id := Mine(cfg, leaves, req), req.decision.id;
            && o.leaves.Keys == leaves.Keys + {id} && o.leaves == leaves[id := o.leaves[id]]
            && Fresh(cfg, o.leaves[id], Tokens(req.line).tokens)
            && |o.events| == 1 && TemplateEvent(cfg, req, id, o.events[0])
            && o.events[0].payload.change == Created(FormatTemplate(o.leaves[id].tokens))
            && StampedWith(cfg, o.row, id, o.leaves[id], req.line, req.decision.lossy)
  {
    TurnedAwayDiverts(cfg, req.line);
    FreshLeafIs(cfg, Tokens(req.line).tokens);
    RowForStamped(cfg, req.decision.id, FreshLeaf(Tokens(req.line).tokens, cfg.classify), req.line, req.decision.lossy);
  }

  lemma RoutesToAttach(cfg: Config, leaves: Leaves, req: Request)
    requires Healthy(leaves) && Fits(cfg, leaves, req)
    ensures Mine(cfg, leaves, req) == AttachTo(cfg, leaves, req, req.decision.id)
  {
    TurnedAwayDiverts(cfg, req.line);
  }

  /** How many versions an attach takes: one for widened literals, one for new types. */
  function VersionsTaken(cfg: Config, leaf: LeafState, tokens: seq<string>): nat
    requires Aligned(leaf.tokens, leaf.slotTypes) && |leaf.tokens| == |tokens|
  {
    (if Differs(cfg, leaf.tokens, tokens) then 1 else 0) +
    (if SeesAnyNew(CellsOf(leaf.tokens, leaf.slotTypes), LineTypes(tokens, cfg.classify)) then 1 else 0)
  }

  /** The leaf and the row after an attach, and what was reported. */
  ghost predicate AttachedAs(cfg: Config, req: Request, id: Id, before: LeafState, after: LeafState,
                             events: seq<AuditEvent>, row: Row) {
    var tokens := Tokens(req.line).tokens;
    && Attached(cfg, before, tokens, after)
    && after.version == before.version + VersionsTaken(cfg, before, tokens)
    && |events| == after.version - before.version
    && (forall i :: 0 <= i < |events| ==> TemplateEvent(cfg, req, id, events[i]))
    && StampedWith(cfg, row, id, after, req.line, false)
  }

  /** An attach changes that leaf alone, position by position, reports each version it takes,
      and stamps the row with the result. */
  lemma MineAttaches(cfg: Config, leaves: Leaves, req: Request)
    requires Healthy(leaves) && Attaches(cfg, leaves, req)
    ensures var o, id := Mine(cfg, leaves, req), req.decision.id;
            && o.leaves.Keys == leaves.Keys && o.leaves == leaves[id := o.leaves[id]]
            && AttachedAs(cfg, req, id, leaves[id], o.leaves[id], o.events, o.row)
  {
    RoutesToAttach(cfg, leaves, req);
    AttachToIs(cfg, leaves, req);
  }

  lemma AttachToIs(cfg: Config, leaves: Leaves, req: Request)
    requires Healthy(leaves) && Attaches(cfg, leaves, req)
    ensures var o, id := AttachTo(cfg, leaves, req, req.decision.id), req.decision.id;
            && o.leaves.Keys == leaves.Keys && o.leaves == leaves[id := o.leaves[id]]
            && AttachedAs(cfg, req, id, leaves[id], o.leaves[id], o.events, o.row)
  {
    var id, tokens := req.decision.id, Tokens(req.line).tokens;
    PlanForAttached(cfg, leaves[id], tokens);
    var (after, plan) := PlanFor(cfg, leaves[id], tokens);
    RowForStamped(cfg, id, after, req.line, false);
    assert AttachedAs(cfg, req, id, leaves[id], after, EventsFor(cfg, req.now, id, EventsOf(plan)),
                      RowFor(id, after, req.line, tokens, LineTypes(tokens, cfg.classify), cfg.limits, false));
  }

  /** A line that gets no template changes no leaf.  Only one that fits a leaf and shares
      nothing with it is reported, as a rejection that names what would have been lost. */
  lemma MineDiverts(cfg: Config, leaves: Leaves, req: Request)
    requires Healthy(leaves) && !Mints(cfg, leaves, req) && !Attaches(cfg, leaves, req)
    ensures var o := Mine(cfg, leaves, req);
            && o.leaves == leaves && DivertedAs(cfg, o.row, req.line)
            && |o.events| == (if Fits(cfg, leaves, req) then 1 else 0)
            && (Fits(cfg, leaves, req) ==>
                  var leaf, e := leaves[req.decision.id], o.events[0];
                  && TemplateEvent(cfg, req, req.decision.id, e) && e.payload.change.RejectedDegenerate?
                  && e.payload.change.version == leaf.version
                  && e.payload.change.currentTemplate == FormatTemplate(leaf.tokens)
                  && e.payload.change.wouldBeTemplate == FormatTemplate(seq(|leaf.tokens|, _ => Wildcard))
                  && forall p :: p in e.payload.change.wouldBePositions <==>
                                 0 <= p < |leaf.tokens| && leaf.tokens[p].Fixed?)
  {
    TurnedAwayDiverts(cfg, req.line);
    if Admissible(cfg, req.line) {
      FailureDiverts(cfg, req.line);
    }
    if Fits(cfg, leaves, req) {
      RoutesToAttach(cfg, leaves, req);
      PlanForRefuses(cfg, leaves[req.decision.id], Tokens(req.line).tokens);
    }
  }

  /** A line gets a template if and only if it is admissible and its decision is a mint of a
      new id, or an attach to a leaf of its length that it does not share nothing with. */
  lemma TemplatedIff(cfg: Config, leaves: Leaves, req: Request)
    requires Healthy(leaves)
    ensures Mine(cfg, leaves, req).row.templateId != NO_TEMPLATE <==>
            Mints(cfg, leaves, req) || Attaches(cfg, leaves, req)
  {
    if Mints(cfg, leaves, req) {
      MineMints(cfg, leaves, req);
    } else if Attaches(cfg, leaves, req) {
      MineAttaches(cfg, leaves, req);
    } else {
      MineDiverts(cfg, leaves, req);
    }
  }
}
