/** The miner as it runs: leaves as objects, changed in place one line at a time. */
module MinerCluster {
  import opened Collections
  import opened Wrappers
  import opened AuditEvents
  import opened Templates
  import opened IngestOracle
  import opened MergeOracle
  import opened Lines
  import opened MinerAttach
  import opened MinerRows
  import opened MinerRun
  import opened MinerRoundtrip
  import opened MinerLeaf

  /** The row for a line stamped with a leaf: parameters aligned with its wildcards, and
      the body when asked for or when a value overflowed. */
  method StampRow(cfg: Config, id: Id, leaf: LeafState, line: string, t: Tokenized, m: Masked, keepBody: bool)
    returns (row: Row)
    requires t == Tokens(line) && IsMasked(t.tokens, cfg.classify, m) && |leaf.tokens| == |t.tokens|
    requires forall p :: p in m.wildcards ==> leaf.tokens[p].Wildcard?
    ensures row == RowFor(id, leaf, line, t.tokens, LineTypes(t.tokens, cfg.classify), cfg.limits, keepBody)
  {
    var params := BuildRecordParams(leaf.tokens, m, cfg.limits, t.tokens, cfg.classify);
    row := Row(id, leaf.version, params, t.separators,
               if keepBody || AnyOverflow(params) then Some(line) else None, false);
  }

  method CapParams(params: seq<TypedParam>, limits: Limits) returns (capped: seq<Param>)
    ensures capped == CapEach(params, limits)
  {
    capped := [];
    for i := 0 to |params|
      invariant capped == CapEach(params[..i], limits)
    {
      assert params[..i + 1] == params[..i] + [params[i]];
      CapEachSnoc(params[..i], params[i], limits);
      capped := capped + [CapParam(params[i].typeTag, params[i].value, limits)];
    }
    assert params[..|params|] == params;
  }

  /** The events and the row of a plan already carried out on the leaf. */
  method ReportPlan(cfg: Config, req: Request, id: Id, after: LeafState, plan: AttachPlan, t: Tokenized, m: Masked,
                    ghost leaves: Leaves)
    returns (events: seq<AuditEvent>, row: Row)
    requires t == Tokens(req.line) && m == Mask(t.tokens, cfg.classify) && IsMasked(t.tokens, cfg.classify, m)
    requires |after.tokens| == |t.tokens|
    requires plan.Rejected? || forall p :: p in m.wildcards ==> after.tokens[p].Wildcard?
    ensures events == CarryOut(cfg, leaves, req, id, after, plan).events
    ensures row == CarryOut(cfg, leaves, req, id, after, plan).row
  {
    if plan.Rejected? {
      events := [EventFor(cfg, req.now, id, plan.change)];
      var params := CapParams(m.params, cfg.limits);
      row := Diverted(req.line, t.separators, params);
    } else {
      events := EventsFor(cfg, req.now, id, EventsOf(plan));
      row := StampRow(cfg, id, after, req.line, t, m, false);
    }
  }

  lemma HealthyAt(leaves: Leaves, id: Id)
    requires Healthy(leaves) && id in leaves
    ensures HealthyLeaf(leaves[id])
  {
  }

  lemma AttachToIs(cfg: Config, leaves: Leaves, req: Request, id: Id, after: LeafState, plan: AttachPlan)
    requires id in leaves && HealthyLeaf(leaves[id]) && |Tokens(req.line).tokens| == |leaves[id].tokens|
    requires (after, plan) == PlanFor(cfg, leaves[id], Tokens(req.line).tokens)
    ensures var o := CarryOut(cfg, leaves, req, id, after, plan);
            AttachTo(cfg, leaves, req, id) == Outcome(leaves[id := after], o.events, o.row)
  {
    if plan.Rejected? {
      assert after == leaves[id];
      assert leaves[id := after] == leaves;
    }
  }

  /** The events and the row of an attach already carried out on the leaf. */
  method ReportAttach(cfg: Config, req: Request, id: Id, after: LeafState, plan: AttachPlan, t: Tokenized, m: Masked,
                      ghost leaves: Leaves)
    returns (events: seq<AuditEvent>, row: Row)
    requires id in leaves && HealthyLeaf(leaves[id]) && |t.tokens| == |leaves[id].tokens|
    requires t == Tokens(req.line) && m == Mask(t.tokens, cfg.classify)
    requires (after, plan) == PlanFor(cfg, leaves[id], t.tokens)
    ensures Outcome(leaves[id := after], events, row) == AttachTo(cfg, leaves, req, id)
  {
    MaskIsMasked(t.tokens, cfg.classify);
    PlanForAgrees(cfg, leaves[id], t.tokens);
    events, row := ReportPlan(cfg, req, id, after, plan, t, m, leaves);
    AttachToIs(cfg, leaves, req, id, after, plan);
  }

  /** One ingest is the guards, then the routing. */
  lemma MineIs(cfg: Config, leaves: Leaves, req: Request, o: Outcome)
    requires Healthy(leaves) && o == Mine(cfg, leaves, req)
    ensures TurnedAway(cfg, req.line).Some? ==> o == Outcome(leaves, [], TurnedAway(cfg, req.line).value)
    ensures TurnedAway(cfg, req.line).None? ==> o == Route(cfg, leaves, req)
  {
  }

  method FreshRow(cfg: Config, req: Request, id: Id, lossy: bool, t: Tokenized, m: Masked) returns (row: Row)
    requires t == Tokens(req.line) && m == Mask(t.tokens, cfg.classify)
    ensures row == RowFor(id, FreshLeaf(t.tokens, cfg.classify), req.line, t.tokens,
                          LineTypes(t.tokens, cfg.classify), cfg.limits, lossy)
  {
    var params := CapParams(m.params, cfg.limits);
    FreshParams(t.tokens, cfg.classify, cfg.limits);
    row := Row(id, 1, params, t.separators, if lossy || AnyOverflow(params) then Some(req.line) else None, false);
  }

  /** The event and the row of a leaf just minted. */
  method ReportMint(cfg: Config, req: Request, id: Id, lossy: bool, state: LeafState, t: Tokenized, m: Masked,
                    ghost leaves: Leaves)
    returns (events: seq<AuditEvent>, row: Row)
    requires t == Tokens(req.line) && m == Mask(t.tokens, cfg.classify)
    requires id !in leaves && state == FreshLeaf(t.tokens, cfg.classify)
    ensures Outcome(leaves[id := state], events, row) == MintLeaf(cfg, leaves, req, id, lossy)
  {
    events := [EventFor(cfg, req.now, id, Created(FormatTemplate(state.tokens)))];
    row := FreshRow(cfg, req, id, lossy, t, m);
  }

  /** The guards before the tree. */
  method Admit(cfg: Config, line: string) returns (t: Tokenized, m: Masked, turnedAway: Option<Row>)
    ensures turnedAway == TurnedAway(cfg, line)
    ensures turnedAway.None? ==> t == Tokens(line) && m == Mask(t.tokens, cfg.classify)
  {
    t, m := Tokenized([], []), Masked([], [], []);
    var tokenized := Tokenize(line);
    if tokenized.Err? {
      return t, m, Some(Diverted(line, [], []));
    }
    t := tokenized.value;
    if t.tokens == [] {
      return t, m, Some(Diverted(line, t.separators, []));
    }
    m := MaskTokens(t.tokens, cfg.classify);
    if |t.tokens| > cfg.limits.maxLineTokens {
      var params := CapParams(m.params, cfg.limits);
      return t, m, Some(Diverted(line, t.separators, params));
    }
    turnedAway := None;
  }

  method AttachTokens(leaf: Leaf, cfg: Config, tokens: seq<string>, m: Masked) returns (plan: AttachPlan)
    requires HealthyLeaf(leaf.State()) && m == Mask(tokens, cfg.classify) && |tokens| == |leaf.template|
    modifies leaf
    ensures (leaf.State(), plan) == PlanFor(cfg, old(leaf.State()), tokens)
  {
    MaskIsMasked(tokens, cfg.classify);
    var types := TypesOfLine(m, tokens, cfg.classify);
    plan := leaf.Attach(m, types);
  }

  class Miner {
    var leaves: map<Id, Leaf>

    /** One object per template. */
    ghost predicate Valid()
      reads this
    {
      forall i, j :: i in leaves && j in leaves && i != j ==> leaves[i] != leaves[j]
    }

    function States(): Leaves
      reads this, leaves.Values
    {
      map id | id in leaves :: leaves[id].State()
    }

    constructor ()
      ensures Valid() && States() == map[] && leaves == map[]
    {
      leaves := map[];
    }

    /** Attach to one leaf in place; every other leaf is left alone. */
    method AttachLeaf(cfg: Config, id: Id, t: Tokenized, m: Masked) returns (plan: AttachPlan)
      requires Valid() && id in leaves && HealthyLeaf(leaves[id].State())
      requires m == Mask(t.tokens, cfg.classify) && |t.tokens| == |leaves[id].template|
      modifies leaves[id]
      ensures (leaves[id].State(), plan) == PlanFor(cfg, old(leaves[id].State()), t.tokens)
      ensures States() == old(States())[id := leaves[id].State()]
    {
      plan := AttachTokens(leaves[id], cfg, t.tokens, m);
      OneChanged(id);
    }

    twostate lemma OneChanged(id: Id)
      requires leaves == old(leaves) && id in leaves
      requires forall j :: j in leaves && j != id ==> leaves[j].State() == old(leaves[j].State())
      ensures States() == old(States())[id := leaves[id].State()]
    {
    }

    /** A fresh leaf under a new id. */
    method AddLeaf(id: Id, state: LeafState)
      requires Valid() && id !in leaves
      modifies this
      ensures Valid() && fresh(leaves.Values - old(leaves.Values))
      ensures States() == old(States())[id := state]
    {
      var leaf := new Leaf(state);
      leaves := leaves[id := leaf];
    }

    method AttachLine(cfg: Config, req: Request, id: Id, t: Tokenized, m: Masked)
      returns (events: seq<AuditEvent>, row: Row)
      requires Valid() && id in leaves && HealthyLeaf(leaves[id].State())
      requires t == Tokens(req.line) && m == Mask(t.tokens, cfg.classify) && |t.tokens| == |leaves[id].template|
      modifies leaves[id]
      ensures Outcome(States(), events, row) == AttachTo(cfg, old(States()), req, id)
    {
      ghost var before := States();
      var plan := AttachLeaf(cfg, id, t, m);
      events, row := ReportAttach(cfg, req, id, leaves[id].State(), plan, t, m, before);
    }

    method MintLine(cfg: Config, req: Request, id: Id, lossy: bool, t: Tokenized, m: Masked)
      returns (events: seq<AuditEvent>, row: Row)
      requires Valid() && id !in leaves
      requires t == Tokens(req.line) && m == Mask(t.tokens, cfg.classify)
      modifies this
      ensures Valid() && fresh(leaves.Values - old(leaves.Values))
      ensures Outcome(States(), events, row) == MintLeaf(cfg, old(States()), req, id, lossy)
    {
      ghost var before := States();
      MaskIsMasked(t.tokens, cfg.classify);
      var state := BuildFreshLeaf(m, t.tokens, cfg.classify);
      AddLeaf(id, state);
      events, row := ReportMint(cfg, req, id, lossy, state, t, m, before);
    }

    method Settle(tokens: seq<string>, decision: Decision) returns (d: Decision)
      ensures d == Settled(States(), tokens, decision)
    {
      d := decision;
      match decision {
        case Attach(id) =>
          if id !in leaves || |leaves[id].template| != |tokens| {
            d := Divert;
          }
        case Mint(id, _) =>
          if id == NO_TEMPLATE || id in leaves {
            d := Divert;
          }
        case Divert =>
      }
    }

    method RouteLine(cfg: Config, req: Request, t: Tokenized, m: Masked, ghost o: Outcome)
      returns (events: seq<AuditEvent>, row: Row)
      requires Valid() && Healthy(States()) && o == Route(cfg, States(), req)
      requires t == Tokens(req.line) && m == Mask(t.tokens, cfg.classify)
      modifies this, leaves.Values
      ensures Valid() && fresh(leaves.Values - old(leaves.Values))
      ensures Outcome(States(), events, row) == o
    {
      var choice := Settle(t.tokens, req.decision);
      events, row := Follow(cfg, req, choice, t, m, o);
    }

    method Follow(cfg: Config, req: Request, choice: Decision, t: Tokenized, m: Masked, ghost o: Outcome)
      returns (events: seq<AuditEvent>, row: Row)
      requires Valid() && Healthy(States()) && choice == Settled(States(), t.tokens, req.decision)
      requires t == Tokens(req.line) && m == Mask(t.tokens, cfg.classify)
      requires o == Chosen(cfg, States(), req, choice)
      modifies this, leaves.Values
      ensures Valid() && fresh(leaves.Values - old(leaves.Values))
      ensures Outcome(States(), events, row) == o
    {
      match choice {
        case Attach(id) =>
          HealthyAt(States(), id);
          events, row := AttachLine(cfg, req, id, t, m);
        case Mint(id, lossy) =>
          events, row := MintLine(cfg, req, id, lossy, t, m);
        case Divert =>
          var params := CapParams(m.params, cfg.limits);
          events, row := [], Diverted(req.line, t.separators, params);
      }
    }

    method Ingest(cfg: Config, req: Request) returns (events: seq<AuditEvent>, row: Row)
      requires Valid() && Healthy(States())
      modifies this, leaves.Values
      ensures Valid() && fresh(leaves.Values - old(leaves.Values))
      ensures Outcome(States(), events, row) == Mine(cfg, old(States()), req)
    {
      ghost var o := Mine(cfg, States(), req);
      MineIs(cfg, States(), req, o);
      var t, m, turnedAway := Admit(cfg, req.line);
      if turnedAway.Some? {
        return [], turnedAway.value;
      }
      events, row := RouteLine(cfg, req, t, m, o);
    }
  }

  method TypesForOracle(cfg: Config, line: string) returns (types: seq<ParamType>)
    ensures types == OracleTypes(cfg, line)
  {
    var tokenized := Tokenize(line);
    if tokenized.Err? {
      return [];
    }
    var m := MaskTokens(tokenized.value.tokens, cfg.classify);
    types := TypesOfLine(m, tokenized.value.tokens, cfg.classify);
  }

  /** Audit what one ingest did to the leaves. */
  method AuditIngest(cfg: Config, line: string, leaves: Leaves, events: seq<AuditEvent>, after: Leaves)
    returns (ok: bool)
    ensures ok <==> IngestAccepted(cfg.tenant, leaves, events, OracleTypes(cfg, line), after)
  {
    var types := TypesForOracle(cfg, line);
    ok := AssertChangesAudited(cfg.tenant, leaves, events, types, after);
  }

  method AuditMined(cfg: Config, req: Request, leaves: Leaves, events: seq<AuditEvent>, after: Leaves, ghost o: Outcome)
    returns (ok: bool)
    requires Healthy(leaves) && o == Mine(cfg, leaves, req) && events == o.events && after == o.leaves
    ensures ok && IngestAccepted(cfg.tenant, leaves, events, OracleTypes(cfg, req.line), after)
  {
    ok := AuditIngest(cfg, req.line, leaves, events, after);
    MineAccepted(cfg, leaves, req);
  }

  /** The verdict is that of the audit oracle, and it is an acceptance. */
  method IngestAudited(miner: Miner, cfg: Config, req: Request, leaves: Leaves, ghost o: Outcome)
    returns (ok: bool, row: Row, after: Leaves)
    requires miner.Valid() && leaves == miner.States() && Healthy(leaves) && o == Mine(cfg, leaves, req)
    modifies miner, miner.leaves.Values
    ensures miner.Valid() && fresh(miner.leaves.Values - old(miner.leaves.Values))
    ensures after == miner.States() == o.leaves && row == o.row
    ensures ok && IngestAccepted(cfg.tenant, leaves, o.events, OracleTypes(cfg, req.line), o.leaves)
  {
    var events;
    events, row := miner.Ingest(cfg, req);
    after := miner.States();
    ok := AuditMined(cfg, req, leaves, events, after, o);
  }

  /** The first `k` lines are ingested: their leaves, rows and snapshots. */
  ghost predicate Progress(cfg: Config, reqs: seq<Request>, k: nat, leaves: Leaves, rows: seq<Row>,
                           snapshots: Snapshots)
    requires k <= |reqs|
  {
    && leaves == LeavesAfter(cfg, reqs[..k])
    && rows == Rows(cfg, reqs)[..k]
    && snapshots == SnapshotsAfter(cfg, reqs[..k])
  }

  lemma ProgressNext(cfg: Config, reqs: seq<Request>, k: nat, leaves: Leaves, rows: seq<Row>, snapshots: Snapshots)
    requires k < |reqs| && Progress(cfg, reqs, k, leaves, rows, snapshots)
    ensures Healthy(leaves) && Names(Mine(cfg, leaves, reqs[k]).row, Mine(cfg, leaves, reqs[k]).leaves)
    ensures var o := Mine(cfg, leaves, reqs[k]);
            Progress(cfg, reqs, k + 1, o.leaves, rows + [o.row], Snapshot(snapshots, o.row, o.leaves))
  {
    LeavesNext(cfg, reqs, k);
    SnapshotsNext(cfg, reqs, k);
    TakeNext(Rows(cfg, reqs), k);
  }

  /** Ingest every line and audit every ingest. */
  method IngestAll(cfg: Config, reqs: seq<Request>) returns (ok: bool, rows: seq<Row>, snapshots: Snapshots)
    ensures ok && rows == Rows(cfg, reqs) && snapshots == SnapshotsAfter(cfg, reqs)
  {
    var miner := new Miner();
    var leaves: Leaves := map[];
    rows, snapshots := [], map[];
    for k := 0 to |reqs|
      invariant fresh(miner) && fresh(miner.leaves.Values) && miner.Valid()
      invariant leaves == miner.States()
      invariant Progress(cfg, reqs, k, leaves, rows, snapshots)
    {
      ProgressNext(cfg, reqs, k, leaves, rows, snapshots);
      var audited, row, after := IngestAudited(miner, cfg, reqs[k], leaves, Mine(cfg, leaves, reqs[k]));
      if !audited {
        return false, rows, snapshots;
      }
      leaves := after;
      rows, snapshots := rows + [row], Snapshot(snapshots, row, after);
    }
    Whole(reqs);
    Whole(rows);
    ok := true;
  }

  /** Check any rows against any snapshots. */
  method CheckRows(reqs: seq<Request>, rows: seq<Row>, snapshots: Snapshots) returns (ok: bool)
    requires |rows| == |reqs|
    ensures ok <==> RowsStand(reqs, rows, snapshots)
  {
    for k := 0 to |rows|
      invariant forall i :: 0 <= i < k ==> RowStands(reqs[i].line, rows[i], snapshots)
    {
      if rows[k].templateId != NO_TEMPLATE {
        var separate := AssertNoSilentMerge(reqs[k].line, rows[k], snapshots);
        if !separate {
          return false;
        }
      }
      var rebuilt := AssertReconstructs(reqs[k].line, rows[k], snapshots);
      if !rebuilt {
        return false;
      }
    }
    ok := true;
  }

  /** The whole target: no oracle is violated, and it says so. */
  method Roundtrip(cfg: Config, reqs: seq<Request>) returns (ok: bool)
    ensures ok && NoViolation(cfg, reqs)
  {
    EveryRunHolds(cfg, reqs);
    var audited, rows, snapshots := IngestAll(cfg, reqs);
    var standing := CheckRows(reqs, rows, snapshots);
    var monotone := AssertWideningIsMonotone(snapshots);
    ok := audited && standing && monotone;
  }
}
