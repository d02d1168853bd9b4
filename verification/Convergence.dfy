/** Template-count convergence: a running count of templates in constant memory, its
    sampled curve, and its decomposition by service. */
module Convergence {
  import opened Wrappers
  import opened Arithmetic
  import opened AuditEvents
  import opened Collections
  import ResultsRows
  import Text

  const MAX_SERVICES := 1024
  const OTHER_SERVICES := "<other>"
  const SAMPLE_BUDGET := 1024
  const ONE_MILLION := 1_000_000

  /** One emitted record: the template it was stamped with, and its service. */
  datatype Observation = Observation(templateId: nat, service: string)

  // ----- counting by the largest id

  function Max(a: nat, b: nat): nat {
    if a < b then b else a
  }

  /** The largest id seen. */
  function LargestId(log: seq<Observation>): nat {
    if log == [] then 0 else Max(LargestId(log[..|log| - 1]), log[|log| - 1].templateId)
  }

  predicate Creates(log: seq<Observation>, id: nat) {
    id != NO_TEMPLATE && id > LargestId(log)
  }

  /** How many observations raised the largest id. */
  function CreatedCount(log: seq<Observation>): nat {
    if log == [] then 0 else
      var init, last := log[..|log| - 1], log[|log| - 1];
      CreatedCount(init) + if Creates(init, last.templateId) then 1 else 0
  }

  function DistinctIds(log: seq<Observation>): set<nat> {
    set i | 0 <= i < |log| && log[i].templateId != NO_TEMPLATE :: log[i].templateId
  }

  /** Each id is, when first seen, larger than every id before it. */
  predicate Allocated(log: seq<Observation>) {
    log == [] || (
      var init, last := log[..|log| - 1], log[|log| - 1];
      && Allocated(init)
      && (last.templateId == NO_TEMPLATE || last.templateId in DistinctIds(init) || AboveAll(init, last.templateId)))
  }

  predicate AboveAll(log: seq<Observation>, id: nat) {
    forall i :: 0 <= i < |log| ==> log[i].templateId < id
  }

  lemma {:induction false} LargestIs(log: seq<Observation>)
    ensures forall i :: 0 <= i < |log| ==> log[i].templateId <= LargestId(log)
    ensures LargestId(log) == 0 || exists i :: 0 <= i < |log| && log[i].templateId == LargestId(log)
    decreases |log|
  {
    if log != [] {
      var n := |log| - 1;
      LargestIs(log[..n]);
      if LargestId(log) == log[n].templateId {
      } else if LargestId(log) != 0 {
        var i :| 0 <= i < n && log[..n][i].templateId == LargestId(log[..n]);
        assert log[i].templateId == LargestId(log);
      }
    }
  }

  /** A line creates a template when it carries an id, above every id before it. */
  lemma CreatesIff(log: seq<Observation>, id: nat)
    ensures Creates(log, id) <==> id != NO_TEMPLATE && AboveAll(log, id)
  {
    LargestIs(log);
  }

  lemma DistinctNext(init: seq<Observation>, last: Observation)
    ensures DistinctIds(init + [last]) ==
            DistinctIds(init) + if last.templateId == NO_TEMPLATE then {} else {last.templateId}
  {
    var log := init + [last];
    assert log[|init|] == last;
    forall id | id in DistinctIds(init)
      ensures id in DistinctIds(log)
    {
      var i :| 0 <= i < |init| && init[i].templateId == id && id != NO_TEMPLATE;
      assert log[i] == init[i];
    }
  }

  lemma {:induction false} LargestBounds(log: seq<Observation>, id: nat)
    requires id in DistinctIds(log)
    ensures id <= LargestId(log)
    decreases |log|
  {
    var n := |log| - 1;
    assert log == log[..n] + [log[n]];
    DistinctNext(log[..n], log[n]);
    if id in DistinctIds(log[..n]) {
      LargestBounds(log[..n], id);
    }
  }

  /** The running count never exceeds the number of distinct templates, and equals it if
      and only if ids are handed out in ascending order. */
  lemma {:induction false} CountIsDistinct(log: seq<Observation>)
    ensures CreatedCount(log) <= |DistinctIds(log)|
    ensures CreatedCount(log) == |DistinctIds(log)| <==> Allocated(log)
    decreases |log|
  {
    if log != [] {
      var n := |log| - 1;
      var init, last := log[..n], log[n];
      assert log == init + [last];
      CountIsDistinct(init);
      DistinctNext(init, last);
      CreatesIff(init, last.templateId);
      var ids := DistinctIds(init);
      if last.templateId != NO_TEMPLATE && last.templateId !in ids {
        assert |ids + {last.templateId}| == |ids| + 1;
      } else {
        assert DistinctIds(log) == ids;
        if last.templateId != NO_TEMPLATE {
          LargestBounds(init, last.templateId);
        }
      }
    }
  }

  // ----- the curve

  datatype Sample = Sample(lines: nat, templateCount: nat)

  predicate IsSampled(n: nat, cadence: nat, total: nat)
    requires cadence >= 1
  {
    n % cadence == 0 || n == total
  }

  /** A sample after every line on the cadence, and after the last. */
  function Curve(log: seq<Observation>, cadence: nat, total: nat): seq<Sample>
    requires cadence >= 1
  {
    if log == [] then [] else
      Curve(log[..|log| - 1], cadence, total) +
      if IsSampled(|log|, cadence, total) then [Sample(|log|, CreatedCount(log))] else []
  }

  /** Samples come in line order, at lines that were seen, and counts never decrease. */
  ghost predicate Ascends(curve: seq<Sample>, lines: nat, count: nat) {
    && (forall i :: 0 <= i < |curve| ==> 1 <= curve[i].lines <= lines && curve[i].templateCount <= count)
    && (forall i, j :: 0 <= i < j < |curve| ==>
          curve[i].lines < curve[j].lines && curve[i].templateCount <= curve[j].templateCount)
  }

  lemma {:induction false} CurveAscends(log: seq<Observation>, cadence: nat, total: nat)
    requires cadence >= 1
    ensures Ascends(Curve(log, cadence, total), |log|, CreatedCount(log))
    decreases |log|
  {
    if log != [] {
      CurveAscends(log[..|log| - 1], cadence, total);
    }
  }

  /** Up to line n = q cadence + r there are q samples, one more when n is the last line
      and off the cadence. */
  lemma {:induction false} CurveLength(log: seq<Observation>, cadence: nat, total: nat, q: nat, r: nat)
    requires cadence >= 1 && r < cadence && |log| == q * cadence + r && |log| <= total
    ensures |Curve(log, cadence, total)| == q + if |log| == total && r > 0 then 1 else 0
    decreases |log|
  {
    if log != [] {
      var init := log[..|log| - 1];
      DivisionIs(|log|, cadence, q, r);
      if r > 0 {
        CurveLength(init, cadence, total, q, r - 1);
      } else {
        assert (q - 1) * cadence + (cadence - 1) == |log| - 1;
        CurveLength(init, cadence, total, q - 1, cadence - 1);
      }
    }
  }

  function Min(a: nat, b: nat): nat {
    if a < b then a else b
  }

  /** The k-th sample, counting from none, sits at (k + 1) cadences or at the end. */
  lemma {:induction false} CurvePosition(log: seq<Observation>, cadence: nat, total: nat, k: nat)
    requires cadence >= 1 && |log| <= total && k < |Curve(log, cadence, total)|
    ensures Curve(log, cadence, total)[k].lines == Min((k + 1) * cadence, total)
    decreases |log|
  {
    var init := log[..|log| - 1];
    if k < |Curve(init, cadence, total)| {
      CurvePosition(init, cadence, total, k);
    } else {
      LastPosition(init, cadence, total);
    }
  }

  lemma LastPosition(init: seq<Observation>, cadence: nat, total: nat)
    requires cadence >= 1 && |init| < total
    ensures IsSampled(|init| + 1, cadence, total) ==>
              |init| + 1 == Min((|Curve(init, cadence, total)| + 1) * cadence, total)
  {
    var n := |init|;
    var q, r := n / cadence, n % cadence;
    CurveLength(init, cadence, total, q, r);
    assert (q + 1) * cadence == q * cadence + cadence;
    NextMultiple(n, cadence, q, r);
  }

  lemma NextMultiple(n: nat, cadence: nat, q: nat, r: nat)
    requires cadence >= 1 && r < cadence && n == q * cadence + r
    ensures (n + 1) % cadence == 0 <==> r + 1 == cadence
  {
    if r + 1 < cadence {
      DivisionIs(n + 1, cadence, q, r + 1);
    } else {
      DivisionIs(n + 1, cadence, q + 1, 0);
    }
  }

  function Cadence(total: nat): nat {
    Max(CeilDiv(total, SAMPLE_BUDGET), 1)
  }

  lemma CadenceCovers(n: nat)
    ensures n <= SAMPLE_BUDGET * Cadence(n)
  {
  }

  lemma WithinBudget(n: nat, c: nat, q: nat, r: nat)
    requires c >= 1 && r < c && n == q * c + r <= SAMPLE_BUDGET * c
    ensures q + (if r > 0 then 1 else 0) <= SAMPLE_BUDGET
  {
    if q > SAMPLE_BUDGET {
      MulMonotone(SAMPLE_BUDGET + 1, q, c);
    }
  }

  /** Over a whole corpus the curve stays within the budget: as many samples as cadences,
      the last one rounded up. */
  lemma CurveOfCorpus(log: seq<Observation>)
    ensures |Curve(log, Cadence(|log|), |log|)| == CeilDiv(|log|, Cadence(|log|)) <= SAMPLE_BUDGET
  {
    var n, c := |log|, Cadence(|log|);
    var q, r := n / c, n % c;
    CurveLength(log, c, n, q, r);
    CeilDivParts(n, c, q, r);
    CadenceCovers(n);
    WithinBudget(n, c, q, r);
  }

  /** The cadence is the smallest that keeps a whole corpus within the budget. */
  lemma CadenceIsLeast(total: nat, c: nat)
    requires c >= 1
    ensures total <= SAMPLE_BUDGET * Cadence(total)
    ensures total <= SAMPLE_BUDGET * c ==> Cadence(total) <= c
  {
    CadenceCovers(total);
  }

  /** Each sample holds the count as of its own line. */
  lemma {:induction false} CurveCounts(log: seq<Observation>, cadence: nat, total: nat, k: nat)
    requires cadence >= 1 && k < |Curve(log, cadence, total)|
    ensures var s := Curve(log, cadence, total)[k];
            s.lines <= |log| && s.templateCount == CreatedCount(log[..s.lines])
    decreases |log|
  {
    var init := log[..|log| - 1];
    if k < |Curve(init, cadence, total)| {
      CurveCounts(init, cadence, total, k);
      var s := Curve(init, cadence, total)[k];
      assert log[..s.lines] == init[..s.lines];
    } else {
      Whole(log);
    }
  }

  // ----- by service

  datatype PerService = PerService(lines: nat, created: nat, createdAt1M: Option<nat>)

  type Services = map<string, PerService>

  const NO_LINES := PerService(0, 0, None)

  /** A new service, and no room for it. */
  predicate Folds(services: Services, service: string) {
    service !in services && |services| >= MAX_SERVICES
  }

  /** A service keeps its name while there is room; later ones share a bucket. */
  function BucketFor(services: Services, service: string): string {
    if Folds(services, service) then OTHER_SERVICES else service
  }

  function Tallied(p: PerService, created: bool): PerService {
    var lines, n := p.lines + 1, p.created + if created then 1 else 0;
    PerService(lines, n, if lines == ONE_MILLION then Some(n) else p.createdAt1M)
  }

  function TallyOf(services: Services, key: string): PerService {
    if key in services then services[key] else NO_LINES
  }

  function Attributed(services: Services, service: string, created: bool): Services {
    var key := BucketFor(services, service);
    services[key := Tallied(TallyOf(services, key), created)]
  }

  /** The decomposition of a whole log. */
  function ByService(log: seq<Observation>): Services {
    if log == [] then map[] else
      var init, last := log[..|log| - 1], log[|log| - 1];
      Attributed(ByService(init), last.service, Creates(init, last.templateId))
  }

  predicate Truncated(log: seq<Observation>) {
    log != [] && (Truncated(log[..|log| - 1]) || Folds(ByService(log[..|log| - 1]), log[|log| - 1].service))
  }

  function ServicesIn(log: seq<Observation>): set<string> {
    set i | 0 <= i < |log| :: log[i].service
  }

  lemma ServicesInNext(init: seq<Observation>, last: Observation)
    ensures ServicesIn(init + [last]) == ServicesIn(init) + {last.service}
  {
    var log := init + [last];
    assert log[|init|] == last;
    forall s | s in ServicesIn(init)
      ensures s in ServicesIn(log)
    {
      var i :| 0 <= i < |init| && init[i].service == s;
      assert log[i] == init[i];
    }
  }

  /** The flag is up exactly when there are more services than room for them; until then
      every service has its own bucket. */
  lemma {:induction false} TruncatedIff(log: seq<Observation>)
    ensures Truncated(log) <==> |ServicesIn(log)| > MAX_SERVICES
    ensures !Truncated(log) ==> ByService(log).Keys == ServicesIn(log)
    decreases |log|
  {
    if log != [] {
      var n := |log| - 1;
      var init, last := log[..n], log[n];
      assert log == init + [last];
      TruncatedIff(init);
      ServicesInNext(init, last);
      OneMoreMember(ServicesIn(init), last.service);
      if !Truncated(init) {
        SameSize(ByService(init), ServicesIn(init));
      }
    }
  }

  lemma OneMoreMember<T>(s: set<T>, x: T)
    ensures |s + {x}| == |s| + if x in s then 0 else 1
  {
    if x in s {
      assert s + {x} == s;
    }
  }

  lemma SameSize(services: Services, names: set<string>)
    ensures services.Keys == names ==> |services| == |names|
  {
  }

  function LinesFrom(log: seq<Observation>, service: string): nat {
    if log == [] then 0 else
      LinesFrom(log[..|log| - 1], service) + if log[|log| - 1].service == service then 1 else 0
  }

  /** A named bucket holds exactly its service's lines; a service without one came when
      there was no room. */
  ghost predicate ExactFor(services: Services, log: seq<Observation>, service: string) {
    if service in services then services[service].lines == LinesFrom(log, service)
    else LinesFrom(log, service) > 0 ==> |services| >= MAX_SERVICES
  }

  lemma {:induction false} BucketsExact(log: seq<Observation>, service: string)
    requires service != OTHER_SERVICES
    ensures ExactFor(ByService(log), log, service)
    decreases |log|
  {
    if log != [] {
      var init, last := log[..|log| - 1], log[|log| - 1];
      BucketsExact(init, service);
      var services := ByService(init);
      var key := BucketFor(services, last.service);
      KeyAdded(services, key, Tallied(TallyOf(services, key), Creates(init, last.templateId)));
      NoneYet(init, service);
    }
  }

  lemma {:induction false} NoneYet(log: seq<Observation>, service: string)
    ensures LinesFrom(log, service) == 0 ==> forall i :: 0 <= i < |log| ==> log[i].service != service
    decreases |log|
  {
    if log != [] {
      NoneYet(log[..|log| - 1], service);
    }
  }

  /** The snapshot is there from the millionth line on, and holds what was created by
      then. */
  predicate Snapshotted(p: PerService) {
    && (p.createdAt1M.Some? <==> p.lines >= ONE_MILLION)
    && (p.createdAt1M.Some? ==> p.createdAt1M.value <= p.created)
    && p.created <= p.lines
  }

  lemma {:induction false} ServicesSnapshotted(log: seq<Observation>)
    ensures forall key :: key in ByService(log) ==> Snapshotted(ByService(log)[key])
    decreases |log|
  {
    if log != [] {
      ServicesSnapshotted(log[..|log| - 1]);
    }
  }

  /** At most one bucket beyond the cap, and that one is the shared one. */
  lemma {:induction false} ServicesBounded(log: seq<Observation>)
    ensures |ByService(log)| <= MAX_SERVICES + 1
    ensures |ByService(log)| == MAX_SERVICES + 1 ==> OTHER_SERVICES in ByService(log)
    decreases |log|
  {
    if log != [] {
      var init, last := log[..|log| - 1], log[|log| - 1];
      ServicesBounded(init);
      var services := ByService(init);
      var key := BucketFor(services, last.service);
      KeyAdded(services, key, Tallied(TallyOf(services, key), Creates(init, last.templateId)));
    }
  }

  lemma KeyAdded<K, V>(m: map<K, V>, k: K, v: V)
    ensures |m[k := v]| == |m| + if k in m then 0 else 1
  {
    if k in m {
      assert m[k := v].Keys == m.Keys;
    } else {
      assert m[k := v].Keys == m.Keys + {k};
    }
  }

  // ----- totals

  function LinesOf(p: PerService): nat {
    p.lines
  }

  function CreatedOf(p: PerService): nat {
    p.created
  }

  ghost function Total(services: Services, f: PerService -> nat): nat
    decreases |services|
  {
    if services == map[] then 0 else
      var k :| k in services;
      KeyRemoved(services, k);
      f(services[k]) + Total(services - {k}, f)
  }

  lemma KeyRemoved<K, V>(m: map<K, V>, k: K)
    requires k in m
    ensures |m - {k}| == |m| - 1 && (m - {k}).Keys == m.Keys - {k}
  {
    assert (m - {k}).Keys == m.Keys - {k};
  }

  /** The order of the sum does not matter. */
  lemma {:induction false} TotalAt(services: Services, k: string, f: PerService -> nat)
    requires k in services
    ensures Total(services, f) == f(services[k]) + Total(services - {k}, f)
    decreases |services|
  {
    var j :| j in services && Total(services, f) == f(services[j]) + Total(services - {j}, f);
    if j != k {
      KeyRemoved(services, j);
      KeyRemoved(services, k);
      TotalAt(services - {j}, k, f);
      TotalAt(services - {k}, j, f);
      assert services - {j} - {k} == services - {k} - {j};
    }
  }

  lemma TotalNext(services: Services, key: string, p: PerService, f: PerService -> nat)
    ensures Total(services[key := p], f) + (if key in services then f(services[key]) else 0) ==
            Total(services, f) + f(p)
  {
    var next := services[key := p];
    TotalAt(next, key, f);
    if key in services {
      TotalAt(services, key, f);
      assert next - {key} == services - {key};
    } else {
      assert next - {key} == services;
    }
  }

  /** Nothing is lost to the folding: lines add up to the log, creations to the count. */
  lemma {:induction false} ServicesAddUp(log: seq<Observation>)
    ensures Total(ByService(log), LinesOf) == |log| && Total(ByService(log), CreatedOf) == CreatedCount(log)
    decreases |log|
  {
    if log != [] {
      var init, last := log[..|log| - 1], log[|log| - 1];
      ServicesAddUp(init);
      var services := ByService(init);
      var key := BucketFor(services, last.service);
      var p := Tallied(TallyOf(services, key), Creates(init, last.templateId));
      TotalNext(services, key, p, LinesOf);
      TotalNext(services, key, p, CreatedOf);
    }
  }

  // ----- the accumulator

  class C2Accumulator {
    const totalLines: nat
    const cadence: nat
    var templateCount: nat
    var maxTemplateId: nat
    var curve: seq<Sample>
    var processed: nat
    var byService: Services
    var servicesTruncated: bool

    /** Everything observed so far. */
    ghost var log: seq<Observation>

    ghost predicate Valid()
      reads this
    {
      && cadence == Cadence(totalLines)
      && processed == |log| && templateCount == CreatedCount(log) && maxTemplateId == LargestId(log)
      && curve == Curve(log, cadence, totalLines)
      && byService == ByService(log) && servicesTruncated == Truncated(log)
    }

    constructor (totalLines: nat)
      ensures Valid() && log == [] && this.totalLines == totalLines
    {
      this.totalLines, cadence := totalLines, Cadence(totalLines);
      templateCount, maxTemplateId, curve, processed, byService, servicesTruncated := 0, 0, [], 0, map[], false;
      log := [];
    }

    /** Fold an id into the count and the curve; the rest of the record is still to be
        attributed. */
    method Observe(templateId: nat, ghost next: seq<Observation>) returns (created: bool)
      requires Valid() && next != [] && next[..|next| - 1] == log && next[|next| - 1].templateId == templateId
      modifies this`templateCount, this`maxTemplateId, this`processed, this`curve
      ensures created <==> Creates(log, templateId)
      ensures processed == |next| && templateCount == CreatedCount(next) && maxTemplateId == LargestId(next)
      ensures curve == Curve(next, cadence, totalLines)
    {
      created := templateId != NO_TEMPLATE && templateId > maxTemplateId;
      if created {
        maxTemplateId, templateCount := templateId, templateCount + 1;
      }
      processed := processed + 1;
      CurveAscends(log, cadence, totalLines);
      if IsSampled(processed, cadence, totalLines) && (curve == [] || curve[|curve| - 1].lines != processed) {
        curve := curve + [Sample(processed, templateCount)];
      }
    }

    method Attribute(service: string, created: bool)
      modifies this`byService, this`servicesTruncated
      ensures byService == Attributed(old(byService), service, created)
      ensures servicesTruncated == (old(servicesTruncated) || Folds(old(byService), service))
    {
      var present := service in byService;
      var key := service;
      if !present && |byService| >= MAX_SERVICES {
        servicesTruncated := true;
        key := OTHER_SERVICES;
      }
      if key !in byService {
        byService := byService[key := NO_LINES];
      }
      byService := byService[key := Tallied(byService[key], created)];
    }

    method Record(o: Observation)
      requires Valid()
      modifies this
      ensures Valid() && log == old(log) + [o]
    {
      ghost var next := log + [o];
      var created := Observe(o.templateId, next);
      Attribute(o.service, created);
      log := next;
    }
  }

  // ----- verdicts

  datatype ServiceResult = ServiceResult(name: string, lines: nat, created: nat, at1M: Option<nat>, ratio: Option<real>,
                                         pass: Option<bool>)

  function Judged(name: string, p: PerService): ServiceResult {
    if p.lines < ONE_MILLION then ServiceResult(name, p.lines, p.created, None, None, None)
    else if p.created == 0 then ServiceResult(name, p.lines, p.created, Some(0), None, Some(true))
    else
      var c := if p.createdAt1M.Some? then p.createdAt1M.value else p.created;
      var ratio := c as real / p.created as real;
      ServiceResult(name, p.lines, p.created, Some(c), Some(ratio), Some(ratio >= 0.5))
  }

  /** The verdict of a service that kept its snapshot: at least half of its templates by
      its millionth line.  It abstains below a million lines.  The numbers reported are the
      bucket's own. */
  lemma JudgedIs(name: string, p: PerService)
    requires Snapshotted(p)
    ensures var r := Judged(name, p);
            && (r.pass.None? <==> p.lines < ONE_MILLION)
            && (r.pass.Some? ==> (r.pass.value <==> 2 * p.createdAt1M.value >= p.created))
            && r.name == name && r.lines == p.lines && r.created == p.created && r.at1M == p.createdAt1M
            && (r.ratio.Some? <==> p.lines >= ONE_MILLION && p.created > 0)
            && (r.ratio.Some? ==> 0.0 <= r.ratio.value <= 1.0 &&
                                  r.ratio.value * p.created as real == p.createdAt1M.value as real)
  {
    if p.lines >= ONE_MILLION && p.created > 0 {
      RatioIs(p.createdAt1M.value, p.created);
    }
  }

  lemma QuotientAtLeast(c: real, n: real, y: real)
    requires n > 0.0
    ensures c / n >= y <==> c >= y * n
  {
    var x := c / n;
    assert x * n == c;
    if x >= y {
      assert (x - y) * n >= 0.0;
    } else {
      assert (y - x) * n > 0.0;
    }
  }

  lemma QuotientAtMost(c: real, n: real)
    requires n > 0.0 && c <= n
    ensures c / n <= 1.0
  {
    var x := c / n;
    assert x * n == c;
  }

  lemma RatioIs(c: nat, n: nat)
    requires n > 0 && c <= n
    ensures 0.0 <= c as real / n as real <= 1.0
    ensures c as real / n as real >= 0.5 <==> 2 * c >= n
  {
    var x, y := c as real, n as real;
    QuotientAtLeast(x, y, 0.0);
    QuotientAtLeast(x, y, 0.5);
    QuotientAtMost(x, y);
    assert (2 * c) as real == 2.0 * x;
    assert 2 * c >= n <==> (2 * c) as real >= y;
  }

  /** Any failure fails; otherwise one pass is enough. */
  method GatePass(results: seq<ServiceResult>) returns (verdict: Option<bool>)
    ensures verdict == Some(false) <==> Fails(results)
    ensures verdict == None <==> Abstains(results)
  {
    verdict := None;
    for i := 0 to |results|
      invariant verdict != Some(false)
      invariant forall k :: 0 <= k < i ==> results[k].pass != Some(false)
      invariant verdict.None? <==> forall k :: 0 <= k < i ==> results[k].pass.None?
    {
      match results[i].pass {
        case Some(p) =>
          if !p {
            return Some(false);
          }
          verdict := Some(true);
        case None =>
      }
    }
  }

  /** Larger services first, then by name. */
  predicate Before(a: ServiceResult, b: ServiceResult) {
    a.lines > b.lines || (a.lines == b.lines && Text.Less(a.name, b.name))
  }

  predicate InOrder(results: seq<ServiceResult>) {
    forall i, j :: 0 <= i < j < |results| ==> Before(results[i], results[j])
  }

  lemma BeforeTotal(a: ServiceResult, b: ServiceResult)
    requires a.name != b.name
    ensures Before(a, b) || Before(b, a)
  {
    Text.LessTotal(a.name, b.name);
  }

  lemma BeforeTransitive(a: ServiceResult, b: ServiceResult, c: ServiceResult)
    requires Before(a, b) && Before(b, c)
    ensures Before(a, c)
  {
    if a.lines == b.lines == c.lines {
      Text.LessTransitive(a.name, b.name, c.name);
    }
  }

  method InsertResult(results: seq<ServiceResult>, r: ServiceResult) returns (out: seq<ServiceResult>)
    requires InOrder(results) && forall i :: 0 <= i < |results| ==> results[i].name != r.name
    ensures InOrder(out) && |out| == |results| + 1 && forall x :: x in out <==> x in results || x == r
  {
    var i := 0;
    while i < |results| && Before(results[i], r)
      invariant 0 <= i <= |results| && forall k :: 0 <= k < i ==> Before(results[k], r)
    {
      i := i + 1;
    }
    out := results[..i] + [r] + results[i..];
    Inserted(results, i, r);
  }

  lemma Inserted(results: seq<ServiceResult>, i: nat, r: ServiceResult)
    requires i <= |results| && InOrder(results) && forall k :: 0 <= k < |results| ==> results[k].name != r.name
    requires forall k :: 0 <= k < i ==> Before(results[k], r)
    requires i < |results| ==> !Before(results[i], r)
    ensures InOrder(results[..i] + [r] + results[i..])
    ensures forall x :: x in results[..i] + [r] + results[i..] <==> x in results || x == r
  {
    InsertedMembers(results, i, r);
    forall k | i <= k < |results|
      ensures Before(r, results[k])
    {
      BeforeTotal(r, results[i]);
      if k > i {
        BeforeTransitive(r, results[i], results[k]);
      }
    }
  }

  /** Every bucket judged once, in order. */
  ghost predicate AllJudged(services: Services, results: seq<ServiceResult>) {
    && InOrder(results) && |results| == |services|
    && (forall i :: 0 <= i < |results| ==>
          results[i].name in services && results[i] == Judged(results[i].name, services[results[i].name]))
    && (forall name :: name in services ==> Judged(name, services[name]) in results)
  }

  lemma OneMoreJudged(done: Services, results: seq<ServiceResult>, k: string, p: PerService, next: seq<ServiceResult>)
    requires AllJudged(done, results) && k !in done
    requires InOrder(next) && |next| == |results| + 1 && forall x :: x in next <==> x in results || x == Judged(k, p)
    ensures AllJudged(done[k := p], next)
  {
    var more := done[k := p];
    KeyAdded(done, k, p);
    forall i | 0 <= i < |next|
      ensures next[i].name in more && next[i] == Judged(next[i].name, more[next[i].name])
    {
      assert next[i] in next;
    }
  }

  lemma NamesApart(done: Services, results: seq<ServiceResult>, k: string)
    requires AllJudged(done, results) && k !in done
    ensures forall i :: 0 <= i < |results| ==> results[i].name != k
  {
  }

  method InsertJudged(services: Services, rest: set<string>, results: seq<ServiceResult>, k: string)
    returns (next: seq<ServiceResult>)
    requires AllJudged(services - rest, results) && k in rest && rest <= services.Keys
    ensures AllJudged(services - (rest - {k}), next)
  {
    NamesApart(services - rest, results, k);
    next := InsertResult(results, Judged(k, services[k]));
    RestJudged(services, rest, results, k, next);
  }

  method JudgeAll(services: Services) returns (results: seq<ServiceResult>)
    ensures AllJudged(services, results)
  {
    results := [];
    var rest := services.Keys;
    NoneJudged(services);
    while rest != {}
      invariant rest <= services.Keys && AllJudged(services - rest, results)
      decreases rest
    {
      var k :| k in rest;
      results := InsertJudged(services, rest, results, k);
      rest := rest - {k};
    }
    NoneLeft(services);
  }

  lemma NoneLeft(services: Services)
    ensures services - {} == services
  {
  }

  lemma NoneJudged(services: Services)
    ensures AllJudged(services - services.Keys, [])
  {
    assert services - services.Keys == map[];
  }

  lemma RestJudged(services: Services, rest: set<string>, results: seq<ServiceResult>, k: string,
                   next: seq<ServiceResult>)
    requires AllJudged(services - rest, results) && k in rest && rest <= services.Keys
    requires InOrder(next) && |next| == |results| + 1
    requires forall x :: x in next <==> x in results || x == Judged(k, services[k])
    ensures AllJudged(services - (rest - {k}), next)
  {
    OneMoreJudged(services - rest, results, k, services[k], next);
    assert services - (rest - {k}) == (services - rest)[k := services[k]];
  }

  // ----- the result

  function Distance(s: Sample): nat {
    if s.lines < ONE_MILLION then ONE_MILLION - s.lines else s.lines - ONE_MILLION
  }

  /** Closer to a million lines, the earlier one on a tie. */
  predicate Closer(a: Sample, b: Sample) {
    Distance(a) < Distance(b) || (Distance(a) == Distance(b) && a.lines < b.lines)
  }

  ghost predicate IsNearest(curve: seq<Sample>, s: Sample) {
    s in curve && forall i :: 0 <= i < |curve| ==> !Closer(curve[i], s)
  }

  method NearestSample(curve: seq<Sample>) returns (s: Sample)
    requires curve != []
    ensures IsNearest(curve, s)
  {
    s := curve[0];
    for i := 1 to |curve|
      invariant s in curve && forall k :: 0 <= k < i ==> !Closer(curve[k], s)
    {
      if Closer(curve[i], s) {
        s := curve[i];
      }
    }
  }

  datatype C2Result = C2Result(cadence: nat, totalLines: nat, countAt1M: Option<nat>, countAtEnd: nat,
                               ratio: Option<real>, curve: seq<Sample>, pass: Option<bool>, atLeast1M: bool,
                               byService: seq<ServiceResult>, servicesTruncated: bool)

  function LastCount(curve: seq<Sample>): nat {
    if curve == [] then 0 else curve[|curve| - 1].templateCount
  }

  /** Both given or neither; when given, the count of the sample nearest a million lines and
      its share of the final count. */
  ghost predicate SpeaksAt1M(curve: seq<Sample>, total: nat, count: Option<nat>, ratio: Option<real>) {
    var end := LastCount(curve);
    && (count.Some? <==> total >= ONE_MILLION && end > 0)
    && (count.Some? ==> exists s :: IsNearest(curve, s) && count.value == s.templateCount <= end)
    && ratio == (if count.Some? then Some(count.value as real / end as real) else None)
    && (ratio.Some? ==> 0.0 <= ratio.value <= 1.0)
  }

  /** What the result says of a log: the curve of the log, the count nearest a million lines,
      never the combination the report refuses, and a verdict that speaks for exactly the
      services with a million lines. */
  ghost predicate Reports(r: C2Result, log: seq<Observation>, total: nat) {
    && r.cadence == Cadence(total) && r.totalLines == total && r.curve == Curve(log, Cadence(total), total)
    && r.countAtEnd == LastCount(r.curve) && SpeaksAt1M(r.curve, total, r.countAt1M, r.ratio)
    && ResultsRows.C2Consistent(r.countAt1M.Some?, r.ratio.Some?, r.atLeast1M, r.countAtEnd)
    && (r.atLeast1M <==> total >= ONE_MILLION)
    && AllJudged(ByService(log), r.byService) && r.servicesTruncated == Truncated(log)
    && Speaks(ByService(log), r.pass)
  }

  /** A million lines, and fewer than half the templates by the millionth. */
  predicate Misses(p: PerService) {
    p.lines >= ONE_MILLION && p.createdAt1M.Some? && 2 * p.createdAt1M.value < p.created
  }

  lemma LastIsLargest(curve: seq<Sample>, lines: nat, count: nat)
    requires Ascends(curve, lines, count)
    ensures forall s :: s in curve ==> s.templateCount <= LastCount(curve)
  {
    forall s | s in curve
      ensures s.templateCount <= curve[|curve| - 1].templateCount
    {
      var i :| 0 <= i < |curve| && curve[i] == s;
    }
  }

  /** At the last announced line the curve ends with the template count. */
  lemma CurveEnds(log: seq<Observation>, cadence: nat, total: nat)
    requires cadence >= 1 && log != [] && |log| == total
    ensures var curve := Curve(log, cadence, total);
            curve != [] && LastCount(curve) == CreatedCount(log)
  {
  }

  predicate AllSnapshotted(services: Services) {
    forall s :: s in services ==> Snapshotted(services[s])
  }

  predicate Abstains(results: seq<ServiceResult>) {
    forall i :: 0 <= i < |results| ==> results[i].pass.None?
  }

  predicate Fails(results: seq<ServiceResult>) {
    exists i :: 0 <= i < |results| && results[i].pass == Some(false)
  }

  lemma ResultFor(services: Services, results: seq<ServiceResult>, s: string) returns (i: nat)
    requires AllJudged(services, results) && s in services
    ensures i < |results| && results[i] == Judged(s, services[s])
  {
    assert Judged(s, services[s]) in results;
    i :| 0 <= i < |results| && results[i] == Judged(s, services[s]);
  }

  lemma JudgedAt(services: Services, results: seq<ServiceResult>, i: nat)
    requires AllJudged(services, results) && AllSnapshotted(services) && i < |results|
    ensures results[i].name in services
    ensures results[i].pass.None? <==> services[results[i].name].lines < ONE_MILLION
    ensures results[i].pass == Some(false) <==> Misses(services[results[i].name])
  {
    JudgedIs(results[i].name, services[results[i].name]);
  }

  /** No verdict exactly when no service has a million lines. */
  lemma AbstainsIff(services: Services, results: seq<ServiceResult>)
    requires AllJudged(services, results) && AllSnapshotted(services)
    ensures Abstains(results) <==> forall s :: s in services ==> services[s].lines < ONE_MILLION
  {
    if Abstains(results) {
      forall s | s in services
        ensures services[s].lines < ONE_MILLION
      {
        var i := ResultFor(services, results, s);
        JudgedIs(s, services[s]);
      }
    } else {
      var i :| 0 <= i < |results| && results[i].pass.Some?;
      JudgedAt(services, results, i);
    }
  }

  /** A failure exactly when some service misses. */
  lemma FailsIff(services: Services, results: seq<ServiceResult>)
    requires AllJudged(services, results) && AllSnapshotted(services)
    ensures Fails(results) <==> exists s :: s in services && Misses(services[s])
  {
    if s :| s in services && Misses(services[s]) {
      var i := ResultFor(services, results, s);
      JudgedIs(s, services[s]);
    }
    if i :| 0 <= i < |results| && results[i].pass == Some(false) {
      JudgedAt(services, results, i);
    }
  }

  /** The count and the ratio at a million lines, as a pair. */
  method AtOneMillion(curve: seq<Sample>, total: nat) returns (count: Option<nat>, ratio: Option<real>)
    requires forall s :: s in curve ==> s.templateCount <= LastCount(curve)
    ensures SpeaksAt1M(curve, total, count, ratio)
  {
    var end := LastCount(curve);
    if total < ONE_MILLION || end == 0 {
      return None, None;
    }
    var s := NearestSample(curve);
    RatioIs(s.templateCount, end);
    count, ratio := Some(s.templateCount), Some(s.templateCount as real / end as real);
  }

  /** The verdict speaks for exactly the services with a million lines. */
  ghost predicate Speaks(services: Services, pass: Option<bool>) {
    && (pass.None? <==> forall s :: s in services ==> services[s].lines < ONE_MILLION)
    && (pass == Some(false) <==> exists s :: s in services && Misses(services[s]))
  }

  method Decompose(services: Services) returns (results: seq<ServiceResult>, pass: Option<bool>)
    requires AllSnapshotted(services)
    ensures AllJudged(services, results) && Speaks(services, pass)
  {
    results := JudgeAll(services);
    pass := GatePass(results);
    AbstainsIff(services, results);
    FailsIff(services, results);
  }

  method Finalize(acc: C2Accumulator) returns (r: C2Result)
    requires acc.Valid()
    ensures Reports(r, acc.log, acc.totalLines)
    ensures acc.log != [] && |acc.log| == acc.totalLines ==> r.countAtEnd == CreatedCount(acc.log)
  {
    CurveAscends(acc.log, acc.cadence, acc.totalLines);
    LastIsLargest(acc.curve, |acc.log|, acc.templateCount);
    if acc.log != [] && |acc.log| == acc.totalLines {
      CurveEnds(acc.log, acc.cadence, acc.totalLines);
    }
    var count, ratio := AtOneMillion(acc.curve, acc.totalLines);
    ServicesSnapshotted(acc.log);
    var results, pass := Decompose(acc.byService);
    r := C2Result(acc.cadence, acc.totalLines, count, LastCount(acc.curve), ratio, acc.curve, pass,
                  acc.totalLines >= ONE_MILLION, results, acc.servicesTruncated);
  }
}
