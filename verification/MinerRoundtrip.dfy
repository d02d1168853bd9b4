/** The fuzz target: a sequence of lines through one miner, every oracle after every
    ingest and again at the end.  No input and no routing makes any of them fail. */
module MinerRoundtrip {
  import opened Collections
  import opened AuditEvents
  import opened Templates
  import opened IngestOracle
  import opened IngestRun
  import opened MergeOracle
  import opened MinerRows
  import opened MinerRun

  // ----- the run as a function of its requests

  /** The leaves after all the requests, from none. */
  function LeavesAfter(cfg: Config, reqs: seq<Request>): (leaves: Leaves)
    ensures Healthy(leaves)
    decreases |reqs|
  {
    if reqs == [] then map[] else
      var init, last := LeavesAfter(cfg, reqs[..|reqs| - 1]), reqs[|reqs| - 1];
      MineAccepted(cfg, init, last);
      Mine(cfg, init, last).leaves
  }

  function OutcomeAt(cfg: Config, reqs: seq<Request>, k: nat): Outcome
    requires k < |reqs|
  {
    Mine(cfg, LeavesAfter(cfg, reqs[..k]), reqs[k])
  }

  lemma LeavesNext(cfg: Config, reqs: seq<Request>, k: nat)
    requires k < |reqs|
    ensures LeavesAfter(cfg, reqs[..k + 1]) == OutcomeAt(cfg, reqs, k).leaves
  {
    PrefixOf(reqs, k + 1, k);
  }

  function IngestAt(cfg: Config, reqs: seq<Request>, k: nat): Ingest
    requires k < |reqs|
  {
    Ingest(OutcomeAt(cfg, reqs, k).events, OracleTypes(cfg, reqs[k].line), OutcomeAt(cfg, reqs, k).leaves)
  }

  /** The run as the oracle sees it. */
  function Trace(cfg: Config, reqs: seq<Request>): (trace: seq<Ingest>)
    ensures |trace| == |reqs|
    ensures forall k :: 0 <= k < |reqs| ==> trace[k] == IngestAt(cfg, reqs, k)
  {
    seq(|reqs|, k requires 0 <= k < |reqs| => IngestAt(cfg, reqs, k))
  }

  lemma TraceLeaves(cfg: Config, reqs: seq<Request>, k: nat)
    requires k <= |reqs|
    ensures LeavesAt(map[], Trace(cfg, reqs), k) == LeavesAfter(cfg, reqs[..k])
  {
    if k > 0 {
      LeavesNext(cfg, reqs, k - 1);
    }
  }

  /** Every ingest of every run is accepted. */
  lemma TraceAccepted(cfg: Config, reqs: seq<Request>)
    ensures AcceptedRun(cfg.tenant, map[], Trace(cfg, reqs))
  {
    forall k | 0 <= k < |reqs|
      ensures AcceptedAt(cfg.tenant, map[], Trace(cfg, reqs), k)
    {
      TraceLeaves(cfg, reqs, k);
      MineAccepted(cfg, LeavesAfter(cfg, reqs[..k]), reqs[k]);
    }
  }

  lemma LeavesGrow(cfg: Config, reqs: seq<Request>, k: nat)
    requires k < |reqs|
    ensures LeavesAfter(cfg, reqs[..k]).Keys <= LeavesAfter(cfg, reqs[..k + 1]).Keys
    ensures Literate(LeavesAfter(cfg, reqs[..k])) <= Literate(LeavesAfter(cfg, reqs[..k + 1]))
  {
    LeavesNext(cfg, reqs, k);
    MineAccepted(cfg, LeavesAfter(cfg, reqs[..k]), reqs[k]);
    MineKeepsLiterals(cfg, LeavesAfter(cfg, reqs[..k]), reqs[k]);
  }

  predicate RisesAt(sets: seq<set<Id>>, k: nat)
    requires k + 1 < |sets|
  {
    sets[k] <= sets[k + 1]
  }

  lemma {:induction false} Rises(sets: seq<set<Id>>, i: nat, j: nat)
    requires i <= j < |sets| && forall k :: 0 <= k && k + 1 < |sets| ==> RisesAt(sets, k)
    ensures sets[i] <= sets[j]
    decreases j
  {
    if i < j {
      Rises(sets, i, j - 1);
      assert RisesAt(sets, j - 1);
    }
  }

  /** No leaf is ever lost, and a template once mined with a literal keeps one for the rest
      of the run. */
  lemma LeavesStay(cfg: Config, reqs: seq<Request>, i: nat, j: nat)
    requires i <= j <= |reqs|
    ensures LeavesAfter(cfg, reqs[..i]).Keys <= LeavesAfter(cfg, reqs[..j]).Keys
    ensures Literate(LeavesAfter(cfg, reqs[..i])) <= Literate(LeavesAfter(cfg, reqs[..j]))
  {
    var n := |reqs| + 1;
    var keys := seq(n, k requires 0 <= k < n => LeavesAfter(cfg, reqs[..k]).Keys);
    var literate := seq(n, k requires 0 <= k < n => Literate(LeavesAfter(cfg, reqs[..k])));
    forall k | 0 <= k && k + 1 < n
      ensures RisesAt(keys, k) && RisesAt(literate, k)
    {
      LeavesGrow(cfg, reqs, k);
    }
    Rises(keys, i, j);
    Rises(literate, i, j);
  }

  lemma TracePersists(cfg: Config, reqs: seq<Request>, id: Id, i: nat, j: nat)
    requires i <= j <= |reqs| && id in LeavesAfter(cfg, reqs[..i])
    ensures Persists(map[], Trace(cfg, reqs), id, i, j)
  {
    forall k | i <= k <= j
      ensures id in LeavesAt(map[], Trace(cfg, reqs), k)
    {
      LeavesStay(cfg, reqs, i, k);
      TraceLeaves(cfg, reqs, k);
    }
  }

  /** A template once mined only widens, and a version names one template. */
  lemma MinedWidens(cfg: Config, reqs: seq<Request>, id: Id, i: nat, j: nat)
    requires i <= j <= |reqs| && id in LeavesAfter(cfg, reqs[..i])
    ensures id in LeavesAfter(cfg, reqs[..j])
    ensures var a, b := LeavesAfter(cfg, reqs[..i])[id], LeavesAfter(cfg, reqs[..j])[id];
            && a.version <= b.version && VersionStep(a.tokens, b.tokens)
            && (a.version == b.version ==> a.tokens == b.tokens)
  {
    TraceAccepted(cfg, reqs);
    TracePersists(cfg, reqs, id, i, j);
    TraceLeaves(cfg, reqs, i);
    TraceLeaves(cfg, reqs, j);
    LeavesStay(cfg, reqs, i, j);
    LifeWidens(cfg.tenant, map[], Trace(cfg, reqs), id, i, j);
  }

  // ----- snapshots

  /** After `k` requests the leaf has this version, with these tokens. */
  ghost predicate Seen(cfg: Config, reqs: seq<Request>, k: nat, key: (Id, U32), tokens: seq<Token>)
    requires k <= |reqs|
  {
    var leaves := LeavesAfter(cfg, reqs[..k]);
    key.0 in leaves && leaves[key.0].version == key.1 && leaves[key.0].tokens == tokens
  }

  lemma SeenInOrder(cfg: Config, reqs: seq<Request>, i: nat, a: (Id, U32), older: seq<Token>, j: nat, b: (Id, U32),
                    newer: seq<Token>)
    requires i <= |reqs| && j <= |reqs| && a.0 == b.0 && a.1 <= b.1
    requires Seen(cfg, reqs, i, a, older) && Seen(cfg, reqs, j, b, newer)
    ensures VersionStep(older, newer) && (a == b ==> older == newer)
  {
    if i <= j {
      MinedWidens(cfg, reqs, a.0, i, j);
    } else {
      MinedWidens(cfg, reqs, a.0, j, i);
    }
  }

  ghost predicate EverSeen(cfg: Config, reqs: seq<Request>, key: (Id, U32), tokens: seq<Token>) {
    exists k :: 0 <= k <= |reqs| && Seen(cfg, reqs, k, key, tokens)
  }

  /** Every snapshot is of a leaf as it once was. */
  ghost predicate Taken(cfg: Config, reqs: seq<Request>, snapshots: Snapshots) {
    forall key :: key in snapshots ==> EverSeen(cfg, reqs, key, snapshots[key])
  }

  lemma TakenMonotone(cfg: Config, reqs: seq<Request>, snapshots: Snapshots)
    requires Taken(cfg, reqs, snapshots)
    ensures Monotone(snapshots)
  {
    forall id, v: U32, w: U32 | v < w && (id, v) in snapshots && (id, w) in snapshots
      ensures VersionStep(snapshots[(id, v)], snapshots[(id, w)])
    {
      var i :| 0 <= i <= |reqs| && Seen(cfg, reqs, i, (id, v), snapshots[(id, v)]);
      var j :| 0 <= j <= |reqs| && Seen(cfg, reqs, j, (id, w), snapshots[(id, w)]);
      SeenInOrder(cfg, reqs, i, (id, v), snapshots[(id, v)], j, (id, w), snapshots[(id, w)]);
    }
  }

  function KeyOf(row: Row): (Id, U32) {
    (row.templateId, row.templateVersion)
  }

  /** The rows of all the requests, in order. */
  function Rows(cfg: Config, reqs: seq<Request>): (rows: seq<Row>)
    ensures |rows| == |reqs|
    ensures forall k :: 0 <= k < |reqs| ==> rows[k] == OutcomeAt(cfg, reqs, k).row
  {
    seq(|reqs|, k requires 0 <= k < |reqs| => OutcomeAt(cfg, reqs, k).row)
  }

  /** Every row that was not diverted has its snapshot. */
  predicate Keyed(rows: seq<Row>, snapshots: Snapshots) {
    forall k :: 0 <= k < |rows| && rows[k].templateId != NO_TEMPLATE ==> KeyOf(rows[k]) in snapshots
  }

  /** A row is rendered against the template of its own version, however far the leaf
      has widened since. */
  lemma RowPasses(cfg: Config, reqs: seq<Request>, k: nat, row: Row, snapshots: Snapshots)
    requires k < |reqs| && row == OutcomeAt(cfg, reqs, k).row
    requires Taken(cfg, reqs, snapshots) && (row.templateId != NO_TEMPLATE ==> KeyOf(row) in snapshots)
    ensures Reconstructs(reqs[k].line, row, snapshots)
    ensures row.templateId != NO_TEMPLATE ==> NotMerged(reqs[k].line, row, snapshots)
  {
    MineRow(cfg, LeavesAfter(cfg, reqs[..k]), reqs[k]);
    LeavesNext(cfg, reqs, k);
    if row.templateId != NO_TEMPLATE {
      var key, leaf := KeyOf(row), LeavesAfter(cfg, reqs[..k + 1])[row.templateId];
      var i :| 0 <= i <= |reqs| && Seen(cfg, reqs, i, key, snapshots[key]);
      SeenInOrder(cfg, reqs, i, key, snapshots[key], k + 1, key, leaf.tokens);
    }
  }

  // ----- the loop's bookkeeping

  /** Keep the tokens of the leaf a row was stamped with, unless its version is known. */
  function Snapshot(snapshots: Snapshots, row: Row, leaves: Leaves): Snapshots
    requires row.templateId == NO_TEMPLATE || row.templateId in leaves
  {
    if row.templateId == NO_TEMPLATE || KeyOf(row) in snapshots then snapshots
    else snapshots[KeyOf(row) := leaves[row.templateId].tokens]
  }

  /** The row names a leaf at its current version, or none. */
  predicate Names(row: Row, leaves: Leaves) {
    row.templateId != NO_TEMPLATE ==>
      row.templateId in leaves && leaves[row.templateId].version == row.templateVersion
  }

  lemma MineNames(cfg: Config, leaves: Leaves, req: Request)
    requires Healthy(leaves)
    ensures Names(Mine(cfg, leaves, req).row, Mine(cfg, leaves, req).leaves)
  {
    MineRow(cfg, leaves, req);
  }

  lemma TakenNext(cfg: Config, reqs: seq<Request>, n: nat, row: Row, snapshots: Snapshots)
    requires n <= |reqs| && Taken(cfg, reqs, snapshots) && Names(row, LeavesAfter(cfg, reqs[..n]))
    ensures Taken(cfg, reqs, Snapshot(snapshots, row, LeavesAfter(cfg, reqs[..n])))
  {
    if row.templateId != NO_TEMPLATE {
      SeenNow(cfg, reqs, n, row.templateId);
    }
  }

  lemma SeenNow(cfg: Config, reqs: seq<Request>, n: nat, id: Id)
    requires n <= |reqs| && id in LeavesAfter(cfg, reqs[..n])
    ensures var leaf := LeavesAfter(cfg, reqs[..n])[id]; EverSeen(cfg, reqs, (id, leaf.version), leaf.tokens)
  {
    var leaf := LeavesAfter(cfg, reqs[..n])[id];
    assert Seen(cfg, reqs, n, (id, leaf.version), leaf.tokens);
  }

  lemma KeyedNext(rows: seq<Row>, snapshots: Snapshots, row: Row, leaves: Leaves)
    requires Keyed(rows, snapshots) && Names(row, leaves)
    ensures Keyed(rows + [row], Snapshot(snapshots, row, leaves))
  {
  }

  /** The snapshots the loop ends with. */
  function SnapshotsAfter(cfg: Config, reqs: seq<Request>): Snapshots
    decreases |reqs|
  {
    if reqs == [] then map[] else
      var init, last := reqs[..|reqs| - 1], reqs[|reqs| - 1];
      var o := Mine(cfg, LeavesAfter(cfg, init), last);
      MineNames(cfg, LeavesAfter(cfg, init), last);
      Snapshot(SnapshotsAfter(cfg, init), o.row, o.leaves)
  }

  lemma SnapshotsNext(cfg: Config, reqs: seq<Request>, k: nat)
    requires k < |reqs|
    ensures Names(OutcomeAt(cfg, reqs, k).row, OutcomeAt(cfg, reqs, k).leaves)
    ensures var o := OutcomeAt(cfg, reqs, k);
            SnapshotsAfter(cfg, reqs[..k + 1]) == Snapshot(SnapshotsAfter(cfg, reqs[..k]), o.row, o.leaves)
  {
    MineNames(cfg, LeavesAfter(cfg, reqs[..k]), reqs[k]);
    TakeNext(reqs, k);
    SnapshotsSnoc(cfg, reqs[..k], reqs[k], Mine(cfg, LeavesAfter(cfg, reqs[..k]), reqs[k]));
  }

  lemma SnapshotsSnoc(cfg: Config, init: seq<Request>, last: Request, o: Outcome)
    requires o == Mine(cfg, LeavesAfter(cfg, init), last) && Names(o.row, o.leaves)
    ensures SnapshotsAfter(cfg, init + [last]) == Snapshot(SnapshotsAfter(cfg, init), o.row, o.leaves)
  {
    assert (init + [last])[..|init|] == init;
  }

  /** At every point of the loop each snapshot is of a leaf as it once was, and every row so
      far has its snapshot. */
  lemma {:induction false} SnapshotsSound(cfg: Config, reqs: seq<Request>, k: nat)
    requires k <= |reqs|
    ensures Taken(cfg, reqs, SnapshotsAfter(cfg, reqs[..k]))
    ensures Keyed(Rows(cfg, reqs)[..k], SnapshotsAfter(cfg, reqs[..k]))
    decreases k
  {
    if k > 0 {
      var n, snapshots, o := k - 1, SnapshotsAfter(cfg, reqs[..k - 1]), OutcomeAt(cfg, reqs, k - 1);
      SnapshotsSound(cfg, reqs, n);
      SnapshotsNext(cfg, reqs, n);
      LeavesNext(cfg, reqs, n);
      TakeNext(Rows(cfg, reqs), n);
      TakenNext(cfg, reqs, k, o.row, snapshots);
      KeyedNext(Rows(cfg, reqs)[..n], snapshots, o.row, o.leaves);
    }
  }

  // ----- the whole target

  /** A row's line is rebuilt from it and, unless it was diverted, shares the literals of the
      version it was stamped with. */
  ghost predicate RowStands(line: string, row: Row, snapshots: Snapshots) {
    && (row.templateId != NO_TEMPLATE ==> NotMerged(line, row, snapshots))
    && Reconstructs(line, row, snapshots)
  }

  ghost predicate RowsStand(reqs: seq<Request>, rows: seq<Row>, snapshots: Snapshots)
    requires |rows| == |reqs|
  {
    forall k :: 0 <= k < |rows| ==> RowStands(reqs[k].line, rows[k], snapshots)
  }

  /** No oracle is violated: every ingest is accounted for by its events, every stamp names a
      leaf at its version, every row stands against the snapshots at the end, and the snapshots
      only widen. */
  ghost predicate NoViolation(cfg: Config, reqs: seq<Request>) {
    && AcceptedRun(cfg.tenant, map[], Trace(cfg, reqs))
    && (forall k :: 0 <= k < |reqs| ==> Names(Rows(cfg, reqs)[k], OutcomeAt(cfg, reqs, k).leaves))
    && RowsStand(reqs, Rows(cfg, reqs), SnapshotsAfter(cfg, reqs))
    && Monotone(SnapshotsAfter(cfg, reqs))
  }

  /** For every sequence of lines and routing decisions, every oracle holds. */
  lemma EveryRunHolds(cfg: Config, reqs: seq<Request>)
    ensures NoViolation(cfg, reqs)
  {
    var rows, snapshots := Rows(cfg, reqs), SnapshotsAfter(cfg, reqs);
    Whole(reqs);
    Whole(rows);
    SnapshotsSound(cfg, reqs, |reqs|);
    TraceAccepted(cfg, reqs);
    TakenMonotone(cfg, reqs, snapshots);
    forall k | 0 <= k < |rows|
      ensures RowStands(reqs[k].line, rows[k], snapshots)
      ensures Names(rows[k], OutcomeAt(cfg, reqs, k).leaves)
    {
      SnapshotsNext(cfg, reqs, k);
      RowPasses(cfg, reqs, k, rows[k], snapshots);
    }
  }
}
