/** The checks after a run: rows against the template version they were stamped with,
    and the versions of each template against each other. */
module MergeOracle {
  import opened Collections
  import opened Wrappers
  import opened AuditEvents
  import opened Templates
  import opened Lines
  import opened MinerRows

  type Snapshots = map<(Id, U32), seq<Token>>

  // ----- versions only widen

  method AssertVersionStep(older: seq<Token>, newer: seq<Token>) returns (ok: bool)
    ensures ok <==> VersionStep(older, newer)
  {
    if |older| != |newer| {
      return false;
    }
    for p := 0 to |older|
      invariant forall q :: 0 <= q < p ==> newer[q] == older[q] || newer[q].Wildcard?
    {
      match (older[p], newer[p]) {
        case (Fixed(a), Fixed(b)) => if a != b { return false; }
        case (Wildcard, Fixed(_)) => return false;
        case _ =>
      }
    }
    ok := true;
  }

  predicate Ascending(vs: seq<U32>) {
    forall i, j :: 0 <= i < j < |vs| ==> vs[i] < vs[j]
  }

  /** Every version of `id` that was snapshotted, once each. */
  ghost predicate VersionsOf(keys: set<(Id, U32)>, id: Id, vs: seq<U32>) {
    && (forall v: U32 :: v in vs <==> (id, v) in keys)
    && (forall i, j :: 0 <= i < j < |vs| ==> vs[i] != vs[j])
  }

  function VersionsIn(byId: map<Id, seq<U32>>, id: Id): seq<U32> {
    if id in byId then byId[id] else []
  }

  lemma VersionsNext(keys: set<(Id, U32)>, id: Id, vs: seq<U32>, key: (Id, U32))
    requires VersionsOf(keys, id, vs) && key !in keys
    ensures VersionsOf(keys + {key}, id, if key.0 == id then vs + [key.1] else vs)
  {
    if key.0 == id {
      var next := vs + [key.1];
      assert key.1 !in vs;
      assert forall i :: 0 <= i < |vs| ==> next[i] == vs[i];
      forall v: U32
        ensures v in next <==> (id, v) in keys + {key}
      {
        assert v in next <==> v in vs || v == key.1;
      }
    }
  }

  lemma VersionsAdded(keys: set<(Id, U32)>, byId: map<Id, seq<U32>>, key: (Id, U32))
    requires key !in keys && forall id :: VersionsOf(keys, id, VersionsIn(byId, id))
    ensures var next := byId[key.0 := VersionsIn(byId, key.0) + [key.1]];
            forall id :: VersionsOf(keys + {key}, id, VersionsIn(next, id))
  {
    var next := byId[key.0 := VersionsIn(byId, key.0) + [key.1]];
    forall id
      ensures VersionsOf(keys + {key}, id, VersionsIn(next, id))
    {
      VersionsNext(keys, id, VersionsIn(byId, id), key);
    }
  }

  method GroupVersions(snapshots: Snapshots) returns (byId: map<Id, seq<U32>>)
    ensures forall id :: VersionsOf(snapshots.Keys, id, VersionsIn(byId, id))
    ensures forall id :: id in byId ==> byId[id] != []
  {
    byId := map[];
    var rest := snapshots.Keys;
    ghost var done: set<(Id, U32)> := {};
    while rest != {}
      invariant done + rest == snapshots.Keys && done !! rest
      invariant forall id :: VersionsOf(done, id, VersionsIn(byId, id))
      invariant forall id :: id in byId ==> byId[id] != []
      decreases rest
    {
      var key :| key in rest;
      VersionsAdded(done, byId, key);
      byId := byId[key.0 := VersionsIn(byId, key.0) + [key.1]];
      done, rest := done + {key}, rest - {key};
    }
    assert done == snapshots.Keys;
  }

  /** Insert into a sorted list. */
  method InsertVersion(vs: seq<U32>, v: U32) returns (r: seq<U32>)
    requires Ascending(vs) && v !in vs
    ensures Ascending(r) && forall w :: w in r <==> w in vs || w == v
  {
    var i := |vs|;
    while i > 0 && vs[i - 1] > v
      invariant 0 <= i <= |vs| && forall k :: i <= k < |vs| ==> v < vs[k]
    {
      i := i - 1;
    }
    r := vs[..i] + [v] + vs[i..];
    InsertedMembers(vs, i, v);
  }

  method SortVersions(vs: seq<U32>) returns (r: seq<U32>)
    requires forall i, j :: 0 <= i < j < |vs| ==> vs[i] != vs[j]
    ensures Ascending(r) && forall v :: v in r <==> v in vs
  {
    r := [];
    for i := 0 to |vs|
      invariant Ascending(r) && forall v :: v in r <==> v in vs[..i]
    {
      assert vs[..i + 1] == vs[..i] + [vs[i]];
      r := InsertVersion(r, vs[i]);
    }
    assert vs[..|vs|] == vs;
  }

  /** Any two versions of one template are in the widening order. */
  ghost predicate MonotoneFor(snapshots: Snapshots, id: Id) {
    forall v: U32, w: U32 :: v < w && (id, v) in snapshots && (id, w) in snapshots ==>
      VersionStep(snapshots[(id, v)], snapshots[(id, w)])
  }

  ghost predicate Monotone(snapshots: Snapshots) {
    forall id :: MonotoneFor(snapshots, id)
  }

  predicate StepHolds(snapshots: Snapshots, id: Id, vs: seq<U32>, i: nat)
    requires i + 1 < |vs|
  {
    && (id, vs[i]) in snapshots && (id, vs[i + 1]) in snapshots
    && VersionStep(snapshots[(id, vs[i])], snapshots[(id, vs[i + 1])])
  }

  /** Neighbouring versions in order put all versions in order. */
  lemma {:induction false} NeighboursSuffice(snapshots: Snapshots, id: Id, vs: seq<U32>, i: nat, j: nat)
    requires forall k :: 0 <= k < |vs| ==> (id, vs[k]) in snapshots
    requires forall k :: 0 <= k < |vs| - 1 ==> StepHolds(snapshots, id, vs, k)
    requires i < j < |vs|
    ensures VersionStep(snapshots[(id, vs[i])], snapshots[(id, vs[j])])
    decreases j
  {
    assert StepHolds(snapshots, id, vs, j - 1);
    if i < j - 1 {
      NeighboursSuffice(snapshots, id, vs, i, j - 1);
      VersionStepTransitive(snapshots[(id, vs[i])], snapshots[(id, vs[j - 1])], snapshots[(id, vs[j])]);
    }
  }

  lemma WindowsSuffice(snapshots: Snapshots, id: Id, vs: seq<U32>)
    requires Ascending(vs) && forall v: U32 :: v in vs <==> (id, v) in snapshots
    requires forall k :: 0 <= k < |vs| - 1 ==> StepHolds(snapshots, id, vs, k)
    ensures MonotoneFor(snapshots, id)
  {
    forall v: U32, w: U32 | v < w && (id, v) in snapshots && (id, w) in snapshots
      ensures VersionStep(snapshots[(id, v)], snapshots[(id, w)])
    {
      assert v in vs && w in vs;
      var i :| 0 <= i < |vs| && vs[i] == v;
      var j :| 0 <= j < |vs| && vs[j] == w;
      NeighboursSuffice(snapshots, id, vs, i, j);
    }
  }

  /** Check the windows of one template's sorted versions. */
  method AssertVersions(snapshots: Snapshots, id: Id, versions: seq<U32>) returns (ok: bool)
    requires VersionsOf(snapshots.Keys, id, versions)
    ensures ok <==> MonotoneFor(snapshots, id)
  {
    var vs := SortVersions(versions);
    var i := 0;
    while i + 1 < |vs|
      invariant forall k :: 0 <= k < i && k + 1 < |vs| ==> StepHolds(snapshots, id, vs, k)
    {
      assert vs[i] in vs && vs[i + 1] in vs;
      var step := AssertVersionStep(snapshots[(id, vs[i])], snapshots[(id, vs[i + 1])]);
      if !step {
        return false;
      }
      i := i + 1;
    }
    WindowsSuffice(snapshots, id, vs);
    ok := true;
  }

  /** Neighbours are compared after a sort, yet the answer is about every pair. */
  method AssertWideningIsMonotone(snapshots: Snapshots) returns (ok: bool)
    ensures ok <==> Monotone(snapshots)
  {
    var byId := GroupVersions(snapshots);
    var rest := byId.Keys;
    while rest != {}
      invariant rest <= byId.Keys
      invariant forall id :: id in byId.Keys - rest ==> MonotoneFor(snapshots, id)
      decreases rest
    {
      var id :| id in rest;
      assert VersionsOf(snapshots.Keys, id, VersionsIn(byId, id));
      var step := AssertVersions(snapshots, id, byId[id]);
      if !step {
        return false;
      }
      rest := rest - {id};
    }
    forall id
      ensures MonotoneFor(snapshots, id)
    {
      if id !in byId {
        assert VersionsOf(snapshots.Keys, id, VersionsIn(byId, id));
        assert forall v: U32 :: (id, v) !in snapshots;
      }
    }
    ok := true;
  }

  // ----- rows

  /** The row's line has the template's literals, and the tokenizer takes it. */
  predicate NotMerged(line: string, row: Row, snapshots: Snapshots) {
    && (row.templateId, row.templateVersion) in snapshots
    && '\0' !in line
    && Agrees(snapshots[(row.templateId, row.templateVersion)], Tokens(line).tokens)
  }

  method AssertNoSilentMerge(line: string, row: Row, snapshots: Snapshots) returns (ok: bool)
    ensures ok <==> NotMerged(line, row, snapshots)
  {
    var key := (row.templateId, row.templateVersion);
    if key !in snapshots {
      return false;
    }
    var template := snapshots[key];
    var tokenized := Tokenize(line);
    if tokenized.Err? {
      return false;
    }
    var tokens := tokenized.value.tokens;
    if |tokens| != |template| {
      return false;
    }
    for p := 0 to |tokens|
      invariant forall q :: 0 <= q < p && template[q].Fixed? ==> template[q].text == tokens[q]
    {
      if template[p].Fixed? && tokens[p] != template[p].text {
        return false;
      }
    }
    ok := true;
  }

  /** A diverted row keeps its line and says so; any other renders to its line, from
      its template when it is clean. */
  predicate Reconstructs(line: string, row: Row, snapshots: Snapshots) {
    if row.templateId == NO_TEMPLATE then
      row.lossy && row.body == Some(line) && Render(row, []) == RetainedVerbatim(line)
    else
      && (row.templateId, row.templateVersion) in snapshots
      && (var rendered := Render(row, snapshots[(row.templateId, row.templateVersion)]);
          && rendered.text == line
          && (!row.lossy && !AnyOverflow(row.params) ==> rendered.Faithful?))
  }

  method AssertReconstructs(line: string, row: Row, snapshots: Snapshots) returns (ok: bool)
    ensures ok <==> Reconstructs(line, row, snapshots)
  {
    if row.templateId == NO_TEMPLATE {
      if !row.lossy || row.body != Some(line) {
        return false;
      }
      var diverted := RenderRow(row, []);
      return diverted == RetainedVerbatim(line);
    }
    var key := (row.templateId, row.templateVersion);
    if key !in snapshots {
      return false;
    }
    var rendered := RenderRow(row, snapshots[key]);
    ok := rendered.text == line && (row.lossy || AnyOverflow(row.params) || rendered.Faithful?);
  }

  // ----- what the two checks guarantee a reader

  /** Two lines that pass under one template version have the same tokens wherever it has a
      literal. */
  lemma MergedLinesAgree(line1: string, row1: Row, line2: string, row2: Row, snapshots: Snapshots, p: nat)
    requires NotMerged(line1, row1, snapshots) && NotMerged(line2, row2, snapshots)
    requires row1.templateId == row2.templateId && row1.templateVersion == row2.templateVersion
    ensures var template := snapshots[(row1.templateId, row1.templateVersion)];
            && |Tokens(line1).tokens| == |Tokens(line2).tokens| == |template|
            && (p < |template| && template[p].Fixed? ==> Tokens(line1).tokens[p] == Tokens(line2).tokens[p])
  {
  }

  /** A row passes for one line only: what it renders to is the line. */
  lemma ReconstructsOneLine(line1: string, line2: string, row: Row, snapshots: Snapshots)
    requires Reconstructs(line1, row, snapshots) && Reconstructs(line2, row, snapshots)
    ensures line1 == line2
  {
  }

  /** And a row that claims nothing was lost is rebuilt from its template. */
  lemma CleanRowsAreFaithful(line: string, row: Row, snapshots: Snapshots)
    requires Reconstructs(line, row, snapshots) && row.templateId != NO_TEMPLATE
    requires !row.lossy && !AnyOverflow(row.params)
    ensures (row.templateId, row.templateVersion) in snapshots
    ensures var template := snapshots[(row.templateId, row.templateVersion)];
            && |row.params| == WildcardCount(template) && |row.separators| == |template| + 1
            && line == Interleave(row.separators, Words(template, row.params))
  {
  }
}
