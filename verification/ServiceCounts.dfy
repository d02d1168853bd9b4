/** The decomposition by service, counted over the lines of the log themselves. */
module ServiceCounts {
  import opened Arithmetic
  import opened Collections
  import opened Wrappers
  import opened Convergence

  /** The bucket line `i` goes to. */
  function BucketAt(log: seq<Observation>, i: nat): string
    requires i < |log|
  {
    BucketFor(ByService(log[..i]), log[i].service)
  }

  predicate CreatesAt(log: seq<Observation>, i: nat)
    requires i < |log|
  {
    Creates(log[..i], log[i].templateId)
  }

  predicate IsLine(log: seq<Observation>, key: string, i: nat) {
    i < |log| && BucketAt(log, i) == key
  }

  predicate IsCreator(log: seq<Observation>, key: string, i: nat) {
    IsLine(log, key, i) && CreatesAt(log, i)
  }

  /** A creator within the bucket's first `n` lines. */
  ghost predicate IsEarly(log: seq<Observation>, key: string, n: nat, i: nat) {
    IsCreator(log, key, i) && |LinesIn(log[..i + 1], key)| <= n
  }

  /** The lines of a bucket. */
  ghost function LinesIn(log: seq<Observation>, key: string): set<nat> {
    set i: nat | i < |log| && IsLine(log, key, i)
  }

  /** The lines of a bucket that created a template. */
  ghost function CreatorsIn(log: seq<Observation>, key: string): set<nat> {
    set i: nat | i < |log| && IsCreator(log, key, i)
  }

  /** Those among them that are within the bucket's first `n` lines. */
  ghost function EarlyCreators(log: seq<Observation>, key: string, n: nat): set<nat> {
    set i: nat | i < |log| && IsEarly(log, key, n, i)
  }

  // ----- one more line

  lemma SameBefore(log: seq<Observation>, key: string, cap: nat, i: nat)
    requires log != [] && i < |log| - 1
    ensures var init := log[..|log| - 1];
            && (IsLine(log, key, i) <==> IsLine(init, key, i))
            && (IsCreator(log, key, i) <==> IsCreator(init, key, i))
            && (IsEarly(log, key, cap, i) <==> IsEarly(init, key, cap, i))
  {
    var init := log[..|log| - 1];
    assert log[..i] == init[..i];
    assert log[..i + 1] == init[..i + 1];
  }

  function If(b: bool, i: nat): set<nat> {
    if b then {i} else {}
  }

  lemma LinesNext(log: seq<Observation>, key: string)
    requires log != []
    ensures var n := |log| - 1; LinesIn(log, key) == LinesIn(log[..n], key) + If(IsLine(log, key, n), n)
  {
    var n := |log| - 1;
    forall i: nat | i < n
      ensures i in LinesIn(log, key) <==> i in LinesIn(log[..n], key)
    {
      SameBefore(log, key, 0, i);
    }
    Extended(LinesIn(log, key), LinesIn(log[..n], key), n, IsLine(log, key, n));
  }

  lemma CreatorBefore(log: seq<Observation>, key: string, i: nat)
    requires log != [] && i < |log| - 1
    ensures i in CreatorsIn(log, key) <==> i in CreatorsIn(log[..|log| - 1], key)
  {
    SameBefore(log, key, 0, i);
  }

  lemma CreatorsNext(log: seq<Observation>, key: string)
    requires log != []
    ensures var n := |log| - 1; CreatorsIn(log, key) == CreatorsIn(log[..n], key) + If(IsCreator(log, key, n), n)
  {
    var n := |log| - 1;
    forall i: nat | i < n
      ensures i in CreatorsIn(log, key) <==> i in CreatorsIn(log[..n], key)
    {
      CreatorBefore(log, key, i);
    }
    Extended(CreatorsIn(log, key), CreatorsIn(log[..n], key), n, IsCreator(log, key, n));
  }

  lemma EarlyNext(log: seq<Observation>, key: string, cap: nat)
    requires log != []
    ensures var n := |log| - 1;
            EarlyCreators(log, key, cap) ==
            EarlyCreators(log[..n], key, cap) + If(IsCreator(log, key, n) && |LinesIn(log, key)| <= cap, n)
  {
    var n := |log| - 1;
    EarlyLast(log, key, cap);
    forall i: nat | i < n
      ensures i in EarlyCreators(log, key, cap) <==> i in EarlyCreators(log[..n], key, cap)
    {
      EarlyBefore(log, key, cap, i);
    }
    Extended(EarlyCreators(log, key, cap), EarlyCreators(log[..n], key, cap), n,
             IsCreator(log, key, n) && |LinesIn(log, key)| <= cap);
  }

  lemma EarlyLast(log: seq<Observation>, key: string, cap: nat)
    requires log != []
    ensures var n := |log| - 1;
            n in EarlyCreators(log, key, cap) <==> IsCreator(log, key, n) && |LinesIn(log, key)| <= cap
  {
    Whole(log);
  }

  lemma EarlyBefore(log: seq<Observation>, key: string, cap: nat, i: nat)
    requires log != [] && i < |log| - 1
    ensures i in EarlyCreators(log, key, cap) <==> i in EarlyCreators(log[..|log| - 1], key, cap)
  {
    SameBefore(log, key, cap, i);
  }

  lemma Extended(all: set<nat>, init: set<nat>, n: nat, here: bool)
    requires (forall i :: i in all ==> i <= n) && (forall i :: i in init ==> i < n) && (n in all <==> here)
    requires forall i: nat :: i < n ==> (i in all <==> i in init)
    ensures all == init + If(here, n)
  {
  }

  lemma AddNew(s: set<nat>, b: bool, n: nat)
    requires n !in s
    ensures |s + If(b, n)| == |s| + if b then 1 else 0
  {
    if !b {
      assert s + If(b, n) == s;
    }
  }

  /** Beyond the first `cap` lines nothing is early. */
  lemma {:induction false} AllEarly(log: seq<Observation>, key: string, cap: nat)
    ensures |LinesIn(log, key)| <= cap ==> EarlyCreators(log, key, cap) == CreatorsIn(log, key)
    decreases |log|
  {
    if log != [] {
      var n := |log| - 1;
      AllEarly(log[..n], key, cap);
      LinesNext(log, key);
      CreatorsNext(log, key);
      EarlyNext(log, key, cap);
      AddNew(LinesIn(log[..n], key), IsLine(log, key, n), n);
    }
  }

  // ----- the counts

  /** What a bucket has counted. */
  ghost predicate Counts(p: PerService, log: seq<Observation>, key: string) {
    && p.lines == |LinesIn(log, key)|
    && p.created == |CreatorsIn(log, key)|
    && p.createdAt1M == if |LinesIn(log, key)| >= ONE_MILLION
                        then Some(|EarlyCreators(log, key, ONE_MILLION)|) else None
  }

  lemma CountsNext(log: seq<Observation>, key: string, p: PerService)
    requires log != [] && Counts(p, log[..|log| - 1], key)
    ensures var n := |log| - 1;
            Counts(if BucketAt(log, n) == key then Tallied(p, CreatesAt(log, n)) else p, log, key)
  {
    var n := |log| - 1;
    var init := log[..n];
    LinesNext(log, key);
    CreatorsNext(log, key);
    EarlyNext(log, key, ONE_MILLION);
    AddNew(LinesIn(init, key), IsLine(log, key, n), n);
    AddNew(CreatorsIn(init, key), IsCreator(log, key, n), n);
    AddNew(EarlyCreators(init, key, ONE_MILLION), IsCreator(log, key, n) && |LinesIn(log, key)| <= ONE_MILLION, n);
    AllEarly(log, key, ONE_MILLION);
  }

  /** Every bucket holds the number of its lines, of the templates they created, and from its
      millionth line on of those created by then. */
  lemma {:induction false} BucketCounts(log: seq<Observation>, key: string)
    ensures Counts(TallyOf(ByService(log), key), log, key)
    decreases |log|
  {
    if log != [] {
      var n := |log| - 1;
      BucketCounts(log[..n], key);
      CountsNext(log, key, TallyOf(ByService(log[..n]), key));
      TallyNext(log, key);
    } else {
      assert LinesIn(log, key) == {} && CreatorsIn(log, key) == {};
    }
  }

  lemma TallyNext(log: seq<Observation>, key: string)
    requires log != []
    ensures var n := |log| - 1;
            var p := TallyOf(ByService(log[..n]), key);
            TallyOf(ByService(log), key) == if BucketAt(log, n) == key then Tallied(p, CreatesAt(log, n)) else p
  {
  }

  // ----- which lines a bucket has

  /** Once a service found no room, it never gets a bucket of its own. */
  lemma {:induction false} FoldedForever(log: seq<Observation>, i: nat, service: string)
    requires i <= |log| && service != OTHER_SERVICES && Folds(ByService(log[..i]), service)
    ensures Folds(ByService(log), service)
    decreases |log|
  {
    if i == |log| {
      Whole(log);
    } else {
      var n := |log| - 1;
      assert log[..n][..i] == log[..i];
      FoldedForever(log[..n], i, service);
      var services := ByService(log[..n]);
      var key := BucketFor(services, log[n].service);
      KeyAdded(services, key, Tallied(TallyOf(services, key), CreatesAt(log, n)));
    }
  }

  /** The bucket of a service has exactly its lines. */
  lemma ServiceLines(log: seq<Observation>, service: string)
    requires service in ByService(log) && service != OTHER_SERVICES
    ensures LinesIn(log, service) == set i: nat | i < |log| && log[i].service == service
  {
    forall i: nat | i < |log|
      ensures BucketAt(log, i) == service <==> log[i].service == service
    {
      if Folds(ByService(log[..i]), service) {
        FoldedForever(log, i, service);
      }
    }
  }

  /** In terms of the log alone, for a service with a bucket of its own. */
  lemma ServiceCounted(log: seq<Observation>, service: string)
    requires service in ByService(log) && service != OTHER_SERVICES
    ensures Counts(ByService(log)[service], log, service)
    ensures LinesIn(log, service) == set i: nat | i < |log| && log[i].service == service
    ensures CreatorsIn(log, service) == set i: nat | i < |log| && log[i].service == service && CreatesAt(log, i)
  {
    BucketCounts(log, service);
    ServiceLines(log, service);
    forall i: nat | i < |log|
      ensures IsLine(log, service, i) <==> log[i].service == service
    {
      assert i in LinesIn(log, service) <==> log[i].service == service;
    }
  }

  // ----- the gate

  /** A million lines, and fewer than half the templates among the first million. */
  ghost predicate Slow(log: seq<Observation>, key: string) {
    && |LinesIn(log, key)| >= ONE_MILLION
    && 2 * |EarlyCreators(log, key, ONE_MILLION)| < |CreatorsIn(log, key)|
  }

  /** The gate's verdict, from the log: a failure exactly when some bucket is slow, none exactly
      when no bucket has a million lines. */
  lemma GateJudgesLog(log: seq<Observation>, pass: Option<bool>)
    requires Speaks(ByService(log), pass)
    ensures pass == Some(false) <==> exists key :: key in ByService(log) && Slow(log, key)
    ensures pass == None <==> forall key :: key in ByService(log) ==> |LinesIn(log, key)| < ONE_MILLION
  {
    forall key | key in ByService(log)
      ensures Misses(ByService(log)[key]) <==> Slow(log, key)
      ensures ByService(log)[key].lines == |LinesIn(log, key)|
    {
      BucketCounts(log, key);
    }
  }

  // ----- the sample nearest a million lines

  lemma SampleBelow(log: seq<Observation>, c: nat, q: nat)
    requires c >= 1 && q >= 1 && q * c <= ONE_MILLION <= |log|
    ensures q - 1 < |Curve(log, c, |log|)| && Curve(log, c, |log|)[q - 1].lines == q * c
  {
    var a, r := |log| / c, |log| % c;
    CurveLength(log, c, |log|, a, r);
    AtLeastMultiple(|log|, c, q);
    CurvePosition(log, c, |log|, q - 1);
  }

  lemma AtLeastMultiple(n: nat, c: nat, q: nat)
    requires c >= 1 && q * c <= n
    ensures n / c >= q
  {
    var a := n / c;
    assert n < a * c + c && (a + 1) * c == a * c + c;
    if a + 1 <= q {
      MulMonotone(a + 1, q, c);
    }
  }

  lemma SampleAbove(log: seq<Observation>, c: nat, q: nat)
    requires c >= 1 && q * c <= ONE_MILLION <= (q + 1) * c && ONE_MILLION <= |log| && q * c < |log|
    ensures q < |Curve(log, c, |log|)| && ONE_MILLION <= Curve(log, c, |log|)[q].lines <= (q + 1) * c
  {
    var a, r := |log| / c, |log| % c;
    assert |log| == a * c + r;
    CurveLength(log, c, |log|, a, r);
    AtLeastMultiple(|log|, c, q);
    if a == q {
      assert r > 0;
    }
    CurvePosition(log, c, |log|, q);
  }

  /** Over a whole corpus of a million lines, the sample that stands for the millionth line is
      at most half a cadence away from it. */
  lemma NearestIsClose(log: seq<Observation>, c: nat, s: Sample)
    requires 1 <= c <= ONE_MILLION <= |log| && IsNearest(Curve(log, c, |log|), s)
    ensures -(c as int) <= 2 * (s.lines - ONE_MILLION) <= c
  {
    var q := ONE_MILLION / c;
    assert q * c <= ONE_MILLION < q * c + c && (q + 1) * c == q * c + c;
    AtLeastMultiple(ONE_MILLION, c, 1);
    SampleBelow(log, c, q);
    var curve := Curve(log, c, |log|);
    assert !Closer(curve[q - 1], s);
    if q * c < |log| {
      SampleAbove(log, c, q);
      assert !Closer(curve[q], s);
      HalfWay(curve[q - 1], s, curve[q], c);
    } else {
      HalfWay(curve[q - 1], s, curve[q - 1], c);
    }
  }

  lemma HalfWay(a: Sample, s: Sample, b: Sample, c: nat)
    requires !Closer(a, s) && !Closer(b, s) && a.lines <= ONE_MILLION <= b.lines <= a.lines + c
    ensures -(c as int) <= 2 * (s.lines - ONE_MILLION) <= c
  {
  }

  /** Of two samples equally far from the millionth line, the earlier stands for it. */
  lemma NearestIsEarlier(curve: seq<Sample>, s: Sample, t: Sample)
    requires IsNearest(curve, s) && t in curve && t.lines - ONE_MILLION == ONE_MILLION - s.lines
    ensures s.lines <= t.lines
  {
    var i :| 0 <= i < |curve| && curve[i] == t;
    assert !Closer(curve[i], s);
  }
}
