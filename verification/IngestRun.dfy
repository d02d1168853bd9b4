/** Whole runs: any number of ingests, each accepted by the oracle. */
module IngestRun {
  import opened AuditEvents
  import opened Templates
  import opened TemplateOracle
  import opened TemplateLaws
  import opened IngestOracle

  /** One ingest as the oracle sees it: its events, its line's types, the leaves after. */
  datatype Ingest = Ingest(events: seq<AuditEvent>, lineTypes: seq<ParamType>, after: Leaves)

  /** The leaves before ingest `k`. */
  function LeavesAt(start: Leaves, run: seq<Ingest>, k: nat): Leaves
    requires k <= |run|
  {
    if k == 0 then start else run[k - 1].after
  }

  ghost predicate AcceptedAt(tenant: Tenant, start: Leaves, run: seq<Ingest>, k: nat)
    requires k < |run|
  {
    IngestAccepted(tenant, LeavesAt(start, run, k), run[k].events, run[k].lineTypes, run[k].after)
  }

  ghost predicate AcceptedRun(tenant: Tenant, start: Leaves, run: seq<Ingest>) {
    forall k :: 0 <= k < |run| ==> AcceptedAt(tenant, start, run, k)
  }

  /** The leaf is there before ingest `i`, after ingest `j - 1`, and in between. */
  predicate Persists(start: Leaves, run: seq<Ingest>, id: Id, i: nat, j: nat)
    requires i <= j <= |run|
  {
    forall k :: i <= k <= j ==> id in LeavesAt(start, run, k)
  }

  /** Every template event for `id` from ingest `i` up to `j`, in order. */
  function History(run: seq<Ingest>, id: Id, i: nat, j: nat): seq<TemplateChange>
    requires i <= j <= |run|
  {
    if i == j then [] else History(run, id, i, j - 1) + ChangesFor(run[j - 1].events, id)
  }

  // ----- one leaf over its life

  lemma StepOf(tenant: Tenant, start: Leaves, run: seq<Ingest>, id: Id, k: nat)
    requires AcceptedRun(tenant, start, run) && k < |run|
    requires id in LeavesAt(start, run, k) && id in LeavesAt(start, run, k + 1)
    ensures Accepts(LeavesAt(start, run, k)[id], ChangesFor(run[k].events, id), run[k].lineTypes,
                    LeavesAt(start, run, k + 1)[id])
  {
    assert AcceptedAt(tenant, start, run, k);
  }

  lemma BirthOf(tenant: Tenant, start: Leaves, run: seq<Ingest>, id: Id, k: nat)
    requires AcceptedRun(tenant, start, run) && k < |run|
    requires id !in LeavesAt(start, run, k) && id in LeavesAt(start, run, k + 1)
    ensures LeavesAt(start, run, k + 1)[id].version == 1 && |ChangesFor(run[k].events, id)| == 1
  {
    assert AcceptedAt(tenant, start, run, k);
  }

  /** Between two states of a leaf: the version has risen by one per event, and the events
      account for the tokens, no position ever declared twice. */
  ghost predicate Lived(first: LeafState, history: seq<TemplateChange>, last: LeafState) {
    last.version == first.version + |history| && Accounted(first.tokens, history, last.tokens)
  }

  lemma LifeStarts(leaf: LeafState)
    ensures Lived(leaf, [], leaf)
  {
    AccountedNothing(leaf.tokens);
  }

  lemma LifeStep(first: LeafState, history: seq<TemplateChange>, before: LeafState, changes: seq<TemplateChange>,
                 lineTypes: seq<ParamType>, after: LeafState)
    requires Lived(first, history, before) && Accepts(before, changes, lineTypes, after)
    ensures Lived(first, history + changes, after)
  {
    AcceptedAccounted(before, changes, lineTypes, after);
    AccountedTransitive(first.tokens, history, before.tokens, changes, after.tokens);
  }

  lemma PersistsEnds(start: Leaves, run: seq<Ingest>, id: Id, i: nat, j: nat)
    requires i < j <= |run| && Persists(start, run, id, i, j)
    ensures Persists(start, run, id, i, j - 1)
    ensures id in LeavesAt(start, run, i) && id in LeavesAt(start, run, j - 1) && id in LeavesAt(start, run, j)
  {
  }

  lemma LifeNext(tenant: Tenant, start: Leaves, run: seq<Ingest>, id: Id, first: LeafState,
                 history: seq<TemplateChange>, k: nat)
    requires AcceptedRun(tenant, start, run) && k < |run|
    requires id in LeavesAt(start, run, k) && id in LeavesAt(start, run, k + 1)
    requires Lived(first, history, LeavesAt(start, run, k)[id])
    ensures Lived(first, history + ChangesFor(run[k].events, id), LeavesAt(start, run, k + 1)[id])
  {
    StepOf(tenant, start, run, id, k);
    LifeStep(first, history, LeavesAt(start, run, k)[id], ChangesFor(run[k].events, id), run[k].lineTypes,
             LeavesAt(start, run, k + 1)[id]);
  }

  /** A leaf that persists has lived through exactly its step events. */
  lemma {:induction false} LifeAccounted(tenant: Tenant, start: Leaves, run: seq<Ingest>, id: Id, i: nat, j: nat)
    requires AcceptedRun(tenant, start, run) && i <= j <= |run| && Persists(start, run, id, i, j)
    ensures Lived(LeavesAt(start, run, i)[id], History(run, id, i, j), LeavesAt(start, run, j)[id])
    decreases j
  {
    if i == j {
      LifeStarts(LeavesAt(start, run, i)[id]);
    } else {
      PersistsEnds(start, run, id, i, j);
      LifeAccounted(tenant, start, run, id, i, j - 1);
      LifeNext(tenant, start, run, id, LeavesAt(start, run, i)[id], History(run, id, i, j - 1), j - 1);
    }
  }

  /** A leaf born in ingest `i` counts its version from 1. */
  lemma LifeFromBirth(tenant: Tenant, start: Leaves, run: seq<Ingest>, id: Id, i: nat, j: nat)
    requires AcceptedRun(tenant, start, run) && i < j <= |run|
    requires id !in LeavesAt(start, run, i) && Persists(start, run, id, i + 1, j)
    ensures LeavesAt(start, run, j)[id].version == 1 + |History(run, id, i + 1, j)|
  {
    assert id in LeavesAt(start, run, i + 1);
    BirthOf(tenant, start, run, id, i);
    LifeAccounted(tenant, start, run, id, i + 1, j);
  }

  /** A leaf that was away in between has a version its events do not explain. */
  lemma {:induction false} RebornIsYounger(tenant: Tenant, start: Leaves, run: seq<Ingest>, id: Id, i: nat, j: nat)
    requires AcceptedRun(tenant, start, run) && i <= j <= |run|
    requires id in LeavesAt(start, run, j) && !Persists(start, run, id, i, j)
    ensures LeavesAt(start, run, j)[id].version <= |History(run, id, i, j)|
    decreases j
  {
    if id in LeavesAt(start, run, j - 1) {
      RebornIsYounger(tenant, start, run, id, i, j - 1);
      AcceptedAccounted(LeavesAt(start, run, j - 1)[id], ChangesFor(run[j - 1].events, id), run[j - 1].lineTypes,
                        LeavesAt(start, run, j)[id]) by {
        StepOf(tenant, start, run, id, j - 1);
      }
    } else {
      BirthOf(tenant, start, run, id, j - 1);
    }
  }

  /** The version law holds exactly for the leaves that persist. */
  lemma VersionLawIffPersists(tenant: Tenant, start: Leaves, run: seq<Ingest>, id: Id, i: nat, j: nat)
    requires AcceptedRun(tenant, start, run) && i <= j <= |run|
    requires id in LeavesAt(start, run, i) && id in LeavesAt(start, run, j)
    requires LeavesAt(start, run, i)[id].version >= 1
    ensures LeavesAt(start, run, j)[id].version == LeavesAt(start, run, i)[id].version + |History(run, id, i, j)| <==>
            Persists(start, run, id, i, j)
  {
    if Persists(start, run, id, i, j) {
      LifeAccounted(tenant, start, run, id, i, j);
    } else {
      RebornIsYounger(tenant, start, run, id, i, j);
    }
  }

  /** The oracle does not watch for leaves that vanish: one can come back as another
      template under the same id. */
  lemma VanishedLeafMayReturnChanged()
    ensures exists start: Leaves, run: seq<Ingest> ::
      && |run| == 2 && AcceptedRun("t", start, run)
      && 1 in start && 1 in run[1].after
      && !VersionStep(start[1].tokens, run[1].after[1].tokens)
  {
    var was, is_ := LeafState(1, [Fixed("a")], []), LeafState(1, [Fixed("b")], []);
    var start: Leaves := map[1 := was];
    var created := AuditEvent("t", 0, Template(1, Created("b")));
    var run := [Ingest([], [], map[]), Ingest([created], [], map[1 := is_])];
    assert FormatTemplate(is_.tokens) == "b";
    assert ChangesFor([created], 1) == [Created("b")] by {
      assert [created][..0] == [];
    }
    assert AcceptedRun("t", start, run);
    assert was.tokens[0] != is_.tokens[0];
  }

  // ----- the order of versions

  /** Any two versions of a persisting leaf are in the widening order; the same version
      twice is the same template. */
  lemma LifeWidens(tenant: Tenant, start: Leaves, run: seq<Ingest>, id: Id, i: nat, j: nat)
    requires AcceptedRun(tenant, start, run) && i <= j <= |run| && Persists(start, run, id, i, j)
    ensures var a, b := LeavesAt(start, run, i)[id], LeavesAt(start, run, j)[id];
            && a.version <= b.version
            && VersionStep(a.tokens, b.tokens)
            && (a.version == b.version ==> a.tokens == b.tokens)
  {
    LifeAccounted(tenant, start, run, id, i, j);
  }

  // ----- no silent merge

  /** A line that agrees with one version of a template agrees with every later one. */
  lemma AgreementLasts(tenant: Tenant, start: Leaves, run: seq<Ingest>, id: Id, i: nat, j: nat, tokens: seq<string>)
    requires AcceptedRun(tenant, start, run) && i <= j <= |run| && Persists(start, run, id, i, j)
    requires Agrees(LeavesAt(start, run, i)[id].tokens, tokens)
    ensures Agrees(LeavesAt(start, run, j)[id].tokens, tokens)
  {
    LifeWidens(tenant, start, run, id, i, j);
  }

  /** Two lines attached to one template, whenever each was, agree wherever the template
      still has a literal. */
  lemma NoSilentMerge(tenant: Tenant, start: Leaves, run: seq<Ingest>, id: Id, i: nat, j: nat, k: nat,
                      one: seq<string>, two: seq<string>, p: nat)
    requires AcceptedRun(tenant, start, run) && i <= k <= |run| && j <= k
    requires Persists(start, run, id, i, k) && Persists(start, run, id, j, k)
    requires Agrees(LeavesAt(start, run, i)[id].tokens, one) && Agrees(LeavesAt(start, run, j)[id].tokens, two)
    ensures |one| == |two| == |LeavesAt(start, run, k)[id].tokens|
    ensures p < |one| && LeavesAt(start, run, k)[id].tokens[p].Fixed? ==> one[p] == two[p]
  {
    AgreementLasts(tenant, start, run, id, i, k, one);
    AgreementLasts(tenant, start, run, id, j, k, two);
  }

  // ----- slots and the version bound

  /** Slots stay with their wildcards for the whole life, and the steps of the whole
      life, over all its ingests, stay within eight per token. */
  lemma {:induction false} LifeBound(tenant: Tenant, start: Leaves, run: seq<Ingest>, id: Id, i: nat, j: nat)
    requires AcceptedRun(tenant, start, run) && i <= j <= |run| && Persists(start, run, id, i, j)
    requires var a := LeavesAt(start, run, i)[id]; Aligned(a.tokens, a.slotTypes)
    ensures var a, b := LeavesAt(start, run, i)[id], LeavesAt(start, run, j)[id];
            Fits(a, History(run, id, i, j), b) && RoomLeft(a) <= 8 * |a.tokens|
    decreases j
  {
    var a := LeavesAt(start, run, i)[id];
    if i == j {
      MeasureBound(CellsOf(a.tokens, a.slotTypes));
    } else {
      LifeBound(tenant, start, run, id, i, j - 1);
      BoundStep(tenant, start, run, id, a, History(run, id, i, j - 1), j - 1);
    }
  }

  /** The history fits into the room the leaf had. */
  ghost predicate Fits(first: LeafState, history: seq<TemplateChange>, last: LeafState)
    requires Aligned(first.tokens, first.slotTypes)
  {
    && Aligned(last.tokens, last.slotTypes)
    && |history| + RoomLeft(last) <= RoomLeft(first) + VacuousSteps(history)
  }

  lemma BoundStep(tenant: Tenant, start: Leaves, run: seq<Ingest>, id: Id, first: LeafState,
                  history: seq<TemplateChange>, k: nat)
    requires AcceptedRun(tenant, start, run) && k < |run|
    requires id in LeavesAt(start, run, k) && id in LeavesAt(start, run, k + 1)
    requires Aligned(first.tokens, first.slotTypes) && Fits(first, history, LeavesAt(start, run, k)[id])
    ensures Fits(first, history + ChangesFor(run[k].events, id), LeavesAt(start, run, k + 1)[id])
  {
    StepOf(tenant, start, run, id, k);
    AcceptedMeasure(LeavesAt(start, run, k)[id], ChangesFor(run[k].events, id), run[k].lineTypes,
                    LeavesAt(start, run, k + 1)[id]);
    VacuousAppend(history, ChangesFor(run[k].events, id));
  }

  lemma {:induction false} VacuousAppend(xs: seq<TemplateChange>, ys: seq<TemplateChange>)
    ensures VacuousSteps(xs + ys) == VacuousSteps(xs) + VacuousSteps(ys)
    decreases |xs|
  {
    if xs == [] {
      assert xs + ys == ys;
    } else {
      VacuousAppend(xs[1..], ys);
      assert (xs + ys)[1..] == xs[1..] + ys;
    }
  }
}
