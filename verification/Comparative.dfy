/** Whether two systems answered one query alike: line results as multisets, and
    aggregations cell by cell or within a completeness margin. */
module Comparative {
  import opened Collections
  import Text

  /** The identity of a returned line (timestamp, body with a character per byte) or of an
      aggregation cell (bucket start, group key). */
  datatype Key = Key(stamp: nat, text: string)

  type Counts = map<Key, nat>

  function Get(counts: Counts, k: Key): nat {
    if k in counts then counts[k] else 0
  }

  // ----- order

  predicate KeyLess(a: Key, b: Key) {
    a.stamp < b.stamp || (a.stamp == b.stamp && Text.Less(a.text, b.text))
  }

  lemma KeyTotal(a: Key, b: Key)
    ensures KeyLess(a, b) || a == b || KeyLess(b, a)
    ensures !(KeyLess(a, b) && KeyLess(b, a)) && !KeyLess(a, a)
  {
    Text.LessTotal(a.text, b.text);
    Text.LessTotal(a.text, a.text);
  }

  lemma KeyTransitive(a: Key, b: Key, c: Key)
    requires KeyLess(a, b) && KeyLess(b, c)
    ensures KeyLess(a, c)
  {
    if a.stamp == b.stamp == c.stamp {
      Text.LessTransitive(a.text, b.text, c.text);
    }
  }

  /** Sorted, repeats allowed. */
  predicate Sorted(keys: seq<Key>) {
    forall i, j :: 0 <= i < j < |keys| ==> !KeyLess(keys[j], keys[i])
  }

  /** Sorted, each key once. */
  predicate Ascending(keys: seq<Key>) {
    forall i, j :: 0 <= i < j < |keys| ==> KeyLess(keys[i], keys[j])
  }

  method InsertKey(keys: seq<Key>, k: Key) returns (out: seq<Key>)
    requires Sorted(keys)
    ensures Sorted(out) && forall x :: x in out <==> x in keys || x == k
  {
    var i := 0;
    while i < |keys| && KeyLess(keys[i], k)
      invariant 0 <= i <= |keys| && forall n :: 0 <= n < i ==> KeyLess(keys[n], k)
    {
      i := i + 1;
    }
    out := keys[..i] + [k] + keys[i..];
    Inserted(keys, i, k);
  }

  lemma Inserted(keys: seq<Key>, i: nat, k: Key)
    requires Sorted(keys) && i <= |keys|
    requires forall n :: 0 <= n < i ==> KeyLess(keys[n], k)
    requires i < |keys| ==> !KeyLess(keys[i], k)
    ensures Sorted(keys[..i] + [k] + keys[i..])
    ensures forall x :: x in keys[..i] + [k] + keys[i..] <==> x in keys || x == k
  {
    InsertedMembers(keys, i, k);
    forall n | 0 <= n < |keys|
      ensures n < i ==> !KeyLess(k, keys[n])
      ensures n >= i ==> !KeyLess(keys[n], k)
    {
      KeyTotal(k, keys[n]);
      if n > i {
        NotLessTransitive(k, keys[i], keys[n]);
      }
    }
  }

  lemma NotLessTransitive(a: Key, b: Key, c: Key)
    requires !KeyLess(b, a) && !KeyLess(c, b)
    ensures !KeyLess(c, a)
  {
    KeyTotal(a, b);
    KeyTotal(b, c);
    KeyTotal(a, c);
    if KeyLess(a, b) && KeyLess(b, c) {
      KeyTransitive(a, b, c);
    }
  }

  method SortKeys(keys: seq<Key>) returns (out: seq<Key>)
    ensures Sorted(out) && forall x :: x in out <==> x in keys
  {
    out := [];
    for i := 0 to |keys|
      invariant Sorted(out) && forall x :: x in out <==> x in keys[..i]
    {
      assert keys[..i + 1] == keys[..i] + [keys[i]];
      out := InsertKey(out, keys[i]);
    }
    assert keys[..|keys|] == keys;
  }

  /** Drop neighbours that repeat. */
  method Dedup(keys: seq<Key>) returns (out: seq<Key>)
    requires Sorted(keys)
    ensures Ascending(out) && forall x :: x in out <==> x in keys
  {
    out := [];
    for i := 0 to |keys|
      invariant Ascending(out) && forall x :: x in out <==> x in keys[..i]
      invariant i > 0 ==> out != [] && out[|out| - 1] == keys[i - 1]
    {
      assert keys[..i + 1] == keys[..i] + [keys[i]];
      if out == [] || out[|out| - 1] != keys[i] {
        LaterKey(keys, i, out);
        out := out + [keys[i]];
      }
    }
    assert keys[..|keys|] == keys;
  }

  lemma LaterKey(keys: seq<Key>, i: nat, out: seq<Key>)
    requires Sorted(keys) && i < |keys| && Ascending(out) && forall x :: x in out <==> x in keys[..i]
    requires i > 0 ==> out != [] && out[|out| - 1] == keys[i - 1] && keys[i - 1] != keys[i]
    ensures forall n :: 0 <= n < |out| ==> KeyLess(out[n], keys[i])
  {
    if i > 0 {
      KeyTotal(keys[i - 1], keys[i]);
      forall n | 0 <= n < |out|
        ensures KeyLess(out[n], keys[i])
      {
        if n < |out| - 1 {
          KeyTransitive(out[n], keys[i - 1], keys[i]);
        }
      }
    } else {
      assert forall n :: 0 <= n < |out| ==> out[n] in keys[..0];
    }
  }

  // ----- the keys that differ

  predicate Differs(ourios: Counts, loki: Counts, k: Key) {
    Get(ourios, k) != Get(loki, k)
  }

  /** Exactly the keys with different counts, each once, in order. */
  ghost predicate AreDiffering(ourios: Counts, loki: Counts, keys: seq<Key>) {
    Ascending(keys) && forall k :: k in keys <==> Differs(ourios, loki, k)
  }

  method FilterDiffering(ourios: Counts, loki: Counts, candidates: set<Key>) returns (keys: seq<Key>)
    ensures forall k :: k in keys <==> k in candidates && Differs(ourios, loki, k)
  {
    keys := [];
    var rest := candidates;
    while rest != {}
      invariant rest <= candidates
      invariant forall k :: k in keys <==> k in candidates - rest && Differs(ourios, loki, k)
      decreases rest
    {
      var k :| k in rest;
      if Differs(ourios, loki, k) {
        keys := keys + [k];
      }
      rest := rest - {k};
    }
  }

  /** The keys of both sides are walked one after the other, so a shared key that differs
      comes up twice until the repeats are dropped. */
  method DifferingKeys(ourios: Counts, loki: Counts) returns (keys: seq<Key>)
    ensures AreDiffering(ourios, loki, keys)
  {
    var left := FilterDiffering(ourios, loki, ourios.Keys);
    var right := FilterDiffering(ourios, loki, loki.Keys);
    var sorted := SortKeys(left + right);
    keys := Dedup(sorted);
  }

  function Example<T>(all: seq<T>, cap: nat): (examples: seq<T>)
    ensures |examples| <= cap && examples <= all
  {
    if |all| <= cap then all else all[..cap]
  }

  // ----- lines

  method Tally(lines: seq<Key>) returns (counts: Counts)
    ensures forall k :: Get(counts, k) == multiset(lines)[k]
    ensures forall k :: k in counts <==> k in lines
  {
    counts := map[];
    for i := 0 to |lines|
      invariant forall k :: Get(counts, k) == multiset(lines[..i])[k]
      invariant forall k :: k in counts <==> k in lines[..i]
    {
      assert lines[..i + 1] == lines[..i] + [lines[i]];
      counts := counts[lines[i] := Get(counts, lines[i]) + 1];
    }
    assert lines[..|lines|] == lines;
  }

  datatype LineOutcome =
    | Equal
    | Mismatch(differing: nat, onlyOurios: nat, onlyLoki: nat, unequal: nat, examples: seq<Key>)

  /** How many of the keys are there on one side alone, and on both. */
  function OnlyIn(here: Counts, there: Counts, keys: seq<Key>): nat {
    if keys == [] then 0 else
      var k := keys[|keys| - 1];
      OnlyIn(here, there, keys[..|keys| - 1]) + if IsOnly(here, there, k) then 1 else 0
  }

  function InBoth(ourios: Counts, loki: Counts, keys: seq<Key>): nat {
    if keys == [] then 0 else
      var k := keys[|keys| - 1];
      InBoth(ourios, loki, keys[..|keys| - 1]) + if Get(ourios, k) > 0 && Get(loki, k) > 0 then 1 else 0
  }

  /** The three tallies split the differing keys: the subtraction cannot underflow. */
  lemma {:induction false} TalliesPartition(ourios: Counts, loki: Counts, keys: seq<Key>)
    requires forall i :: 0 <= i < |keys| ==> Differs(ourios, loki, keys[i])
    ensures OnlyIn(ourios, loki, keys) + OnlyIn(loki, ourios, keys) + InBoth(ourios, loki, keys) == |keys|
    decreases |keys|
  {
    if keys != [] {
      TalliesPartition(ourios, loki, keys[..|keys| - 1]);
    }
  }

  method CountOnly(ourios: Counts, loki: Counts, keys: seq<Key>) returns (onlyOurios: nat, onlyLoki: nat)
    requires forall i :: 0 <= i < |keys| ==> Differs(ourios, loki, keys[i])
    ensures onlyOurios == OnlyIn(ourios, loki, keys) && onlyLoki == OnlyIn(loki, ourios, keys)
  {
    onlyOurios, onlyLoki := 0, 0;
    for i := 0 to |keys|
      invariant onlyOurios == OnlyIn(ourios, loki, keys[..i]) && onlyLoki == OnlyIn(loki, ourios, keys[..i])
    {
      assert keys[..i + 1][..i] == keys[..i];
      if Get(loki, keys[i]) == 0 && Get(ourios, keys[i]) > 0 {
        onlyOurios := onlyOurios + 1;
      }
      if Get(ourios, keys[i]) == 0 {
        onlyLoki := onlyLoki + 1;
      }
    }
    assert keys[..|keys|] == keys;
  }

  /** Every line whose numbers differ, once and in order. */
  ghost predicate ListsUneven(ourios: seq<Key>, loki: seq<Key>, all: seq<Key>) {
    Ascending(all) && forall k :: k in all <==> multiset(ourios)[k] != multiset(loki)[k]
  }

  /** Equal exactly when the two results are the same multiset; otherwise the report is
      about exactly the lines whose numbers differ. */
  method CompareLines(ourios: seq<Key>, loki: seq<Key>, cap: nat) returns (r: LineOutcome)
    ensures r.Equal? <==> multiset(ourios) == multiset(loki)
    ensures r.Mismatch? ==>
              && r.differing == |set k | k in ourios + loki && multiset(ourios)[k] != multiset(loki)[k]|
              && r.onlyOurios == |set k | k in ourios && k !in loki|
              && r.onlyLoki == |set k | k in loki && k !in ourios|
              && r.unequal == r.differing - r.onlyOurios - r.onlyLoki
              && exists all :: ListsUneven(ourios, loki, all) && r.examples == Example(all, cap)
  {
    var a := Tally(ourios);
    var b := Tally(loki);
    var keys := DifferingKeys(a, b);
    SameCounts(ourios, a, loki, b, keys);
    if keys == [] {
      return Equal;
    }
    var onlyOurios, onlyLoki := CountOnly(a, b, keys);
    TalliesPartition(a, b, keys);
    TalliesCount(ourios, a, loki, b, keys);
    assert ListsUneven(ourios, loki, keys);
    r := Mismatch(|keys|, onlyOurios, onlyLoki, |keys| - onlyOurios - onlyLoki, Example(keys, cap));
  }

  predicate IsOnly(here: Counts, there: Counts, k: Key) {
    Get(there, k) == 0 && Get(here, k) > 0
  }

  function OnlyKeys(here: Counts, there: Counts, keys: seq<Key>): set<Key> {
    set k | k in keys && IsOnly(here, there, k)
  }

  lemma OnlyKeysNext(here: Counts, there: Counts, init: seq<Key>, last: Key)
    requires last !in init
    ensures OnlyKeys(here, there, init + [last]) ==
            OnlyKeys(here, there, init) + if IsOnly(here, there, last) then {last} else {}
    ensures last !in OnlyKeys(here, there, init)
  {
  }

  lemma {:induction false} OnlyInSize(here: Counts, there: Counts, keys: seq<Key>)
    requires Ascending(keys)
    ensures OnlyIn(here, there, keys) == |OnlyKeys(here, there, keys)|
    decreases |keys|
  {
    if keys == [] {
      assert OnlyKeys(here, there, keys) == {};
    } else {
      var init, last := keys[..|keys| - 1], keys[|keys| - 1];
      OnlyInSize(here, there, init);
      LastIsNew(keys);
      OnlyKeysNext(here, there, init, last);
      assert keys == init + [last];
    }
  }

  lemma LastIsNew(keys: seq<Key>)
    requires Ascending(keys) && keys != []
    ensures keys[|keys| - 1] !in keys[..|keys| - 1]
  {
    forall i | 0 <= i < |keys| - 1
      ensures keys[i] != keys[|keys| - 1]
    {
      KeyTotal(keys[i], keys[|keys| - 1]);
    }
  }

  lemma OnlySides(here: seq<Key>, a: Counts, there: seq<Key>, b: Counts, keys: seq<Key>)
    requires forall k :: Get(a, k) == multiset(here)[k]
    requires forall k :: Get(b, k) == multiset(there)[k]
    requires forall k :: k in keys <==> Get(a, k) != Get(b, k)
    ensures OnlyKeys(a, b, keys) == set k | k in here && k !in there
  {
    forall k
      ensures k in OnlyKeys(a, b, keys) <==> k in here && k !in there
    {
      assert k in here <==> multiset(here)[k] > 0;
      assert k in there <==> multiset(there)[k] > 0;
    }
  }

  lemma TalliesCount(ourios: seq<Key>, a: Counts, loki: seq<Key>, b: Counts, keys: seq<Key>)
    requires forall k :: Get(a, k) == multiset(ourios)[k]
    requires forall k :: Get(b, k) == multiset(loki)[k]
    requires AreDiffering(a, b, keys)
    ensures |keys| == |set k | k in ourios + loki && multiset(ourios)[k] != multiset(loki)[k]|
    ensures OnlyIn(a, b, keys) == |set k | k in ourios && k !in loki|
    ensures OnlyIn(b, a, keys) == |set k | k in loki && k !in ourios|
  {
    SameCounts(ourios, a, loki, b, keys);
    AscendingSize(keys);
    OnlyInSize(a, b, keys);
    OnlyInSize(b, a, keys);
    OnlySides(ourios, a, loki, b, keys);
    OnlySides(loki, b, ourios, a, keys);
    assert (set k | k in keys) == set k | k in ourios + loki && multiset(ourios)[k] != multiset(loki)[k];
  }

  lemma SameCounts(ourios: seq<Key>, a: Counts, loki: seq<Key>, b: Counts, keys: seq<Key>)
    requires forall k :: Get(a, k) == multiset(ourios)[k]
    requires forall k :: Get(b, k) == multiset(loki)[k]
    requires AreDiffering(a, b, keys)
    ensures keys == [] <==> multiset(ourios) == multiset(loki)
    ensures forall k :: k in keys <==> multiset(ourios)[k] != multiset(loki)[k]
    ensures forall k :: k in keys ==> k in ourios + loki
  {
    if keys == [] {
      forall k
        ensures multiset(ourios)[k] == multiset(loki)[k]
      {
        assert k !in keys;
      }
    } else {
      assert keys[0] in keys;
    }
  }

  lemma {:induction false} AscendingSize(keys: seq<Key>)
    requires Ascending(keys)
    ensures |set k | k in keys| == |keys|
    decreases |keys|
  {
    if keys != [] {
      var init, last := keys[..|keys| - 1], keys[|keys| - 1];
      AscendingSize(init);
      LastIsNew(keys);
      assert (set k | k in keys) == (set k | k in init) + {last};
    }
  }

  // ----- aggregations, cell by cell

  /** Every cell has the same count, an absent one counting as none. */
  ghost predicate Same(ourios: Counts, loki: Counts) {
    forall k :: Get(ourios, k) == Get(loki, k)
  }

  method CompareAggregations(ourios: Counts, loki: Counts, cap: nat)
    returns (equal: bool, differing: nat, examples: seq<Key>)
    ensures equal <==> Same(ourios, loki)
    ensures differing == |set k | k in ourios.Keys + loki.Keys && Differs(ourios, loki, k)|
    ensures exists all :: AreDiffering(ourios, loki, all) && differing == |all| && examples == Example(all, cap)
  {
    var keys := DifferingKeys(ourios, loki);
    AscendingSize(keys);
    assert (set k | k in keys) == set k | k in ourios.Keys + loki.Keys && Differs(ourios, loki, k);
    NoneDiffer(ourios, loki, keys);
    equal, differing, examples := keys == [], |keys|, Example(keys, cap);
  }

  lemma NoneDiffer(ourios: Counts, loki: Counts, keys: seq<Key>)
    requires AreDiffering(ourios, loki, keys)
    ensures keys == [] <==> Same(ourios, loki)
  {
    if keys == [] {
      forall k
        ensures Get(ourios, k) == Get(loki, k)
      {
        assert k !in keys;
        assert !Differs(ourios, loki, k);
      }
    } else {
      assert keys[0] in keys;
      assert Differs(ourios, loki, keys[0]);
    }
  }

  // ----- totals per group key

  /** The counts of one group over some cells. */
  ghost function Sum(keys: set<Key>, counts: Counts, group: string): nat
    decreases keys
  {
    if keys == {} then 0 else
      var k :| k in keys;
      (if k.text == group then Get(counts, k) else 0) + Sum(keys - {k}, counts, group)
  }

  ghost function GroupTotal(counts: Counts, group: string): nat {
    Sum(counts.Keys, counts, group)
  }

  lemma {:induction false} SumAt(keys: set<Key>, counts: Counts, group: string, k: Key)
    requires k in keys
    ensures Sum(keys, counts, group) == (if k.text == group then Get(counts, k) else 0) + Sum(keys - {k}, counts, group)
    decreases keys
  {
    var j :| j in keys && Sum(keys, counts, group) ==
                          (if j.text == group then Get(counts, j) else 0) + Sum(keys - {j}, counts, group);
    if j != k {
      SumAt(keys - {j}, counts, group, k);
      SumAt(keys - {k}, counts, group, j);
      assert keys - {j} - {k} == keys - {k} - {j};
    }
  }

  lemma {:induction false} SumAgrees(keys: set<Key>, a: Counts, b: Counts, group: string)
    requires forall k :: k in keys ==> Get(a, k) == Get(b, k)
    ensures Sum(keys, a, group) == Sum(keys, b, group)
    decreases keys
  {
    if keys != {} {
      var k :| k in keys;
      SumAt(keys, a, group, k);
      SumAt(keys, b, group, k);
      SumAgrees(keys - {k}, a, b, group);
    }
  }

  /** Cells that count nothing add nothing. */
  lemma {:induction false} SumExtends(keys: set<Key>, more: set<Key>, counts: Counts, group: string)
    requires keys <= more && forall k :: k in more - keys ==> Get(counts, k) == 0
    ensures Sum(more, counts, group) == Sum(keys, counts, group)
    decreases more
  {
    if more - keys == {} {
      forall k | k in more
        ensures k in keys
      {
        assert k !in more - keys;
      }
      assert keys == more;
    } else {
      var k :| k in more - keys;
      SumAt(more, counts, group, k);
      SumExtends(keys, more - {k}, counts, group);
    }
  }

  /** No cell above means no total above, and equal totals leave no cell below. */
  lemma {:induction false} SumBelow(keys: set<Key>, low: Counts, high: Counts, group: string)
    requires forall k :: k in keys ==> Get(low, k) <= Get(high, k)
    ensures Sum(keys, low, group) <= Sum(keys, high, group)
    ensures Sum(keys, low, group) == Sum(keys, high, group) ==>
              forall k :: k in keys && k.text == group ==> Get(low, k) == Get(high, k)
    decreases keys
  {
    if keys != {} {
      var k :| k in keys;
      SumAt(keys, low, group, k);
      SumAt(keys, high, group, k);
      SumBelow(keys - {k}, low, high, group);
    }
  }

  function Texts(keys: set<Key>): set<string> {
    set k | k in keys :: k.text
  }

  function Groups(counts: Counts): set<string> {
    Texts(counts.Keys)
  }

  /** One pass over the cells. */
  method AggregateByGroupKey(counts: Counts) returns (totals: map<string, nat>)
    ensures totals.Keys == Groups(counts)
    ensures forall g :: g in totals ==> totals[g] == GroupTotal(counts, g)
  {
    totals := map[];
    var rest := counts.Keys;
    while rest != {}
      invariant rest <= counts.Keys
      invariant totals.Keys == Texts(counts.Keys - rest)
      invariant forall g :: g in Groups(counts) ==>
                  (if g in totals then totals[g] else 0) + Sum(rest, counts, g) == GroupTotal(counts, g)
      decreases rest
    {
      var k :| k in rest;
      forall g
        ensures Sum(rest, counts, g) == (if k.text == g then counts[k] else 0) + Sum(rest - {k}, counts, g)
      {
        SumAt(rest, counts, g, k);
      }
      GroupAdded(counts.Keys - rest, k);
      totals := totals[k.text := (if k.text in totals then totals[k.text] else 0) + counts[k]];
      assert counts.Keys - (rest - {k}) == counts.Keys - rest + {k};
      rest := rest - {k};
    }
    assert counts.Keys - {} == counts.Keys;
  }

  lemma GroupAdded(keys: set<Key>, k: Key)
    ensures Texts(keys + {k}) == Texts(keys) + {k.text}
  {
    assert k in keys + {k};
    forall t | t in Texts(keys)
      ensures t in Texts(keys + {k})
    {
      var x :| x in keys && x.text == t;
      assert x in keys + {k};
    }
  }

  // ----- aggregations within a margin

  const MARGIN_EPSILON: real := 0.000000001

  /** A total of at most one is not held to a fractional margin. */
  predicate Exempt(total: nat, margin: real) {
    total <= 1 && margin < 1.0
  }

  predicate Below(ourios: nat, loki: nat, margin: real) {
    !Exempt(ourios, margin) && loki as real + MARGIN_EPSILON < ourios as real * margin
  }

  /** No cell Ourios does not have, no group over, none short of the margin. */
  ghost predicate WithinMargin(ourios: Counts, loki: Counts, margin: real) {
    && loki.Keys <= ourios.Keys
    && forall g :: g in Groups(ourios) ==>
         GroupTotal(loki, g) <= GroupTotal(ourios, g) && !Below(GroupTotal(ourios, g), GroupTotal(loki, g), margin)
  }

  ghost function OverGroups(ourios: Counts, loki: Counts): set<string> {
    set g | g in Groups(ourios) && GroupTotal(loki, g) > GroupTotal(ourios, g)
  }

  ghost function ShortGroups(ourios: Counts, loki: Counts, margin: real): set<string> {
    set g | g in Groups(ourios) && Below(GroupTotal(ourios, g), GroupTotal(loki, g), margin)
  }

  lemma NothingAtFault(ourios: Counts, loki: Counts, margin: real)
    ensures WithinMargin(ourios, loki, margin) <==>
            loki.Keys <= ourios.Keys && OverGroups(ourios, loki) == {} && ShortGroups(ourios, loki, margin) == {}
  {
    if OverGroups(ourios, loki) == {} && ShortGroups(ourios, loki, margin) == {} {
      forall g | g in Groups(ourios)
        ensures GroupTotal(loki, g) <= GroupTotal(ourios, g)
        ensures !Below(GroupTotal(ourios, g), GroupTotal(loki, g), margin)
      {
        assert g !in OverGroups(ourios, loki) && g !in ShortGroups(ourios, loki, margin);
      }
    } else {
      var g :| g in OverGroups(ourios, loki) + ShortGroups(ourios, loki, margin);
    }
  }

  /** How many are at fault, and the first few of them. */
  datatype MarginOutcome =
    | Complete
    | Phantom(found: nat, cells: seq<Key>)
    | Over(found: nat, groups: seq<string>)
    | Short(found: nat, groups: seq<string>)

  // ----- groups at fault, in order

  /** A strict order, in which some may be level. */
  ghost predicate Orders(below: (string, string) -> bool) {
    && (forall a, b :: below(a, b) ==> !below(b, a))
    && (forall a, b, c :: !below(b, a) && !below(c, b) ==> !below(c, a))
  }

  ghost predicate InOrder(groups: seq<string>, below: (string, string) -> bool) {
    forall i, j :: 0 <= i < j < |groups| ==> !below(groups[j], groups[i])
  }

  /** Each of the groups once. */
  ghost predicate ListsOnce(groups: seq<string>, all: set<string>) {
    && (forall g :: g in groups <==> g in all)
    && (forall i, j :: 0 <= i < j < |groups| ==> groups[i] != groups[j])
  }

  method InsertGroup(groups: seq<string>, g: string, below: (string, string) -> bool, ghost all: set<string>)
    returns (out: seq<string>)
    requires Orders(below) && InOrder(groups, below) && ListsOnce(groups, all) && g !in all
    ensures InOrder(out, below) && ListsOnce(out, all + {g})
  {
    var i := 0;
    while i < |groups| && !below(g, groups[i])
      invariant 0 <= i <= |groups| && forall k :: 0 <= k < i ==> !below(g, groups[k])
    {
      i := i + 1;
    }
    out := groups[..i] + [g] + groups[i..];
    GroupInserted(groups, i, g, below);
    ListedInserted(groups, i, g, all);
  }

  lemma GroupInserted(groups: seq<string>, i: nat, g: string, below: (string, string) -> bool)
    requires Orders(below) && InOrder(groups, below) && i <= |groups|
    requires forall k :: 0 <= k < i ==> !below(g, groups[k])
    requires i < |groups| ==> below(g, groups[i])
    ensures InOrder(groups[..i] + [g] + groups[i..], below)
  {
    forall k | i <= k < |groups|
      ensures !below(groups[k], g)
    {
      assert !below(groups[i], g);
    }
  }

  lemma ListedInserted(groups: seq<string>, i: nat, g: string, all: set<string>)
    requires ListsOnce(groups, all) && g !in all && i <= |groups|
    ensures ListsOnce(groups[..i] + [g] + groups[i..], all + {g})
  {
    InsertedMembers(groups, i, g);
    forall k | 0 <= k < |groups|
      ensures groups[k] != g
    {
      assert groups[k] in groups;
    }
  }

  method SortGroups(all: set<string>, below: (string, string) -> bool) returns (groups: seq<string>)
    requires Orders(below)
    ensures InOrder(groups, below) && ListsOnce(groups, all)
  {
    groups := [];
    var rest := all;
    while rest != {}
      invariant rest <= all && InOrder(groups, below) && ListsOnce(groups, all - rest)
      decreases rest
    {
      var g :| g in rest;
      groups := InsertGroup(groups, g, below, all - rest);
      assert all - rest + {g} == all - (rest - {g});
      rest := rest - {g};
    }
    assert all - {} == all;
  }

  lemma NamesOrder()
    ensures Orders((a, b) => Text.Less(a, b))
  {
    forall a, b | Text.Less(a, b)
      ensures !Text.Less(b, a)
    {
      Text.LessTotal(a, b);
    }
    forall a, b, c | !Text.Less(b, a) && !Text.Less(c, b)
      ensures !Text.Less(c, a)
    {
      Text.LessTotal(a, b);
      Text.LessTotal(b, c);
      Text.LessTotal(a, c);
      if Text.Less(a, b) && Text.Less(b, c) {
        Text.LessTransitive(a, b, c);
      }
    }
  }

  /** The share of Ourios's rows that Loki has. */
  function Share(ourios: nat, loki: nat): real {
    if ourios == 0 then 1.0 else loki as real / ourios as real
  }

  /** The groups over, by name: how many, and the first of them. */
  ghost predicate ShowsOver(ourios: Counts, loki: Counts, cap: nat, found: nat, groups: seq<string>) {
    exists all ::
      && ListsOnce(all, OverGroups(ourios, loki)) && found == |all| && groups == Example(all, cap)
      && forall i, j :: 0 <= i < j < |all| ==> Text.Less(all[i], all[j])
  }

  /** The groups short, the smallest share of Ourios's rows first. */
  ghost predicate ShowsShort(ourios: Counts, loki: Counts, margin: real, cap: nat, found: nat, groups: seq<string>) {
    exists all ::
      && ListsOnce(all, ShortGroups(ourios, loki, margin)) && found == |all| && groups == Example(all, cap)
      && forall i, j :: 0 <= i < j < |all| ==>
           GroupTotal(loki, all[i]) * GroupTotal(ourios, all[j]) <=
           GroupTotal(loki, all[j]) * GroupTotal(ourios, all[i])
  }

  /** A group without rows is not short. */
  lemma ShortCounts(ourios: nat, loki: nat, margin: real)
    requires Below(ourios, loki, margin) && 0.0 <= margin <= 1.0
    ensures ourios > 0
  {
  }

  /** Shares compare as cross products. */
  lemma ShareOrder(a: nat, x: nat, b: nat, y: nat)
    requires a > 0 && b > 0 && Share(a, x) <= Share(b, y)
    ensures x * b <= y * a
  {
    var p, q := x as real / a as real, y as real / b as real;
    assert p * a as real == x as real && q * b as real == y as real;
    RealScale(p, q, a as real * b as real);
    assert p * (a as real * b as real) == x as real * b as real;
    assert q * (a as real * b as real) == y as real * a as real;
    assert (x * b) as real == x as real * b as real && (y * a) as real == y as real * a as real;
  }

  lemma RealScale(p: real, q: real, n: real)
    requires p <= q && n >= 0.0
    ensures p * n <= q * n
  {
    assert (q - p) * n >= 0.0;
  }

  method ReportOver(over: set<string>, cap: nat, ghost ourios: Counts, ghost loki: Counts)
    returns (found: nat, groups: seq<string>)
    requires over == OverGroups(ourios, loki)
    ensures ShowsOver(ourios, loki, cap, found, groups)
  {
    NamesOrder();
    var all := SortGroups(over, (a, b) => Text.Less(a, b));
    forall i, j | 0 <= i < j < |all|
      ensures Text.Less(all[i], all[j])
    {
      Text.LessTotal(all[i], all[j]);
    }
    found, groups := |all|, Example(all, cap);
  }

  method ReportShort(short: set<string>, a: map<string, nat>, b: map<string, nat>, cap: nat,
                     ghost ourios: Counts, ghost loki: Counts, ghost margin: real)
    returns (found: nat, groups: seq<string>)
    requires short == ShortGroups(ourios, loki, margin) && 0.0 <= margin <= 1.0
    requires forall g :: TotalIn(a, g) == GroupTotal(ourios, g) && TotalIn(b, g) == GroupTotal(loki, g)
    ensures ShowsShort(ourios, loki, margin, cap, found, groups)
  {
    var below := (g: string, h: string) => Share(TotalIn(a, g), TotalIn(b, g)) < Share(TotalIn(a, h), TotalIn(b, h));
    var all := SortGroups(short, below);
    forall i, j | 0 <= i < j < |all|
      ensures GroupTotal(loki, all[i]) * GroupTotal(ourios, all[j]) <=
              GroupTotal(loki, all[j]) * GroupTotal(ourios, all[i])
    {
      assert !below(all[j], all[i]);
      assert all[i] in short && all[j] in short;
      ShortCounts(GroupTotal(ourios, all[i]), GroupTotal(loki, all[i]), margin);
      ShortCounts(GroupTotal(ourios, all[j]), GroupTotal(loki, all[j]), margin);
      ShareOrder(GroupTotal(ourios, all[i]), GroupTotal(loki, all[i]), GroupTotal(ourios, all[j]),
                 GroupTotal(loki, all[j]));
    }
    found, groups := |all|, Example(all, cap);
  }

  function TotalIn(totals: map<string, nat>, group: string): nat {
    if group in totals then totals[group] else 0
  }

  lemma NoCells(keys: set<Key>, counts: Counts, group: string)
    requires forall k :: k in keys ==> k.text != group
    ensures Sum(keys, counts, group) == 0
    decreases keys
  {
    if keys != {} {
      var k :| k in keys;
      SumAt(keys, counts, group, k);
      NoCells(keys - {k}, counts, group);
    }
  }

  method PhantomCells(ourios: Counts, loki: Counts) returns (cells: seq<Key>)
    ensures Ascending(cells) && forall k :: k in cells <==> k in loki && k !in ourios
  {
    var rest := loki.Keys - ourios.Keys;
    var found: seq<Key> := [];
    while rest != {}
      invariant rest <= loki.Keys - ourios.Keys
      invariant forall k :: k in found <==> k in loki.Keys - ourios.Keys - rest
      decreases rest
    {
      var k :| k in rest;
      found, rest := found + [k], rest - {k};
    }
    var sorted := SortKeys(found);
    cells := Dedup(sorted);
  }

  /** One pass gives every group its total, and a group with no cell nothing. */
  method Totals(counts: Counts) returns (totals: map<string, nat>)
    ensures totals.Keys == Groups(counts) && forall g :: TotalIn(totals, g) == GroupTotal(counts, g)
  {
    totals := AggregateByGroupKey(counts);
    forall g
      ensures TotalIn(totals, g) == GroupTotal(counts, g)
    {
      if g !in totals {
        NoCells(counts.Keys, counts, g);
      }
    }
  }

  /** The first kind of fault, with everything at fault in its order: foreign cells, then
      groups over, then groups short. */
  method CompareWithinMargin(ourios: Counts, loki: Counts, margin: real, cap: nat) returns (r: MarginOutcome)
    requires 0.0 <= margin <= 1.0
    ensures r.Complete? <==> WithinMargin(ourios, loki, margin)
    ensures r.Phantom? <==> !(loki.Keys <= ourios.Keys)
    ensures r.Phantom? ==> ShowsPhantom(ourios, loki, cap, r.found, r.cells)
    ensures r.Over? <==> loki.Keys <= ourios.Keys && OverGroups(ourios, loki) != {}
    ensures r.Over? ==> ShowsOver(ourios, loki, cap, r.found, r.groups)
    ensures r.Short? ==> ShowsShort(ourios, loki, margin, cap, r.found, r.groups)
  {
    NothingAtFault(ourios, loki, margin);
    var cells := PhantomCells(ourios, loki);
    PhantomsAre(ourios, loki, cells);
    if cells != [] {
      return Phantom(|cells|, Example(cells, cap));
    }
    var a := Totals(ourios);
    var b := Totals(loki);
    var over := set g | g in a && TotalIn(b, g) > TotalIn(a, g);
    assert over == OverGroups(ourios, loki);
    if over != {} {
      var found, groups := ReportOver(over, cap, ourios, loki);
      return Over(found, groups);
    }
    var short := set g | g in a && Below(TotalIn(a, g), TotalIn(b, g), margin);
    assert short == ShortGroups(ourios, loki, margin);
    if short != {} {
      var found, groups := ReportShort(short, a, b, cap, ourios, loki, margin);
      return Short(found, groups);
    }
    r := Complete;
  }

  /** The foreign cells, in order. */
  ghost predicate ShowsPhantom(ourios: Counts, loki: Counts, cap: nat, found: nat, cells: seq<Key>) {
    exists all: seq<Key> ::
      && Ascending(all) && (forall k :: k in all <==> k in loki && k !in ourios)
      && found == |all| && cells == Example(all, cap)
  }

  lemma PhantomsAre(ourios: Counts, loki: Counts, cells: seq<Key>)
    requires Ascending(cells) && forall k :: k in cells <==> k in loki && k !in ourios
    ensures cells == [] <==> loki.Keys <= ourios.Keys
  {
    if cells != [] {
      assert cells[0] in cells;
    }
  }

  /** Up to the margin, for a total of two or more and, at margin one, for every total. */
  predicate Captured(ourios: nat, loki: nat, margin: real) {
    ourios >= 2 || margin == 1.0 ==> loki as real + 0.000000001 >= ourios as real * margin
  }

  lemma CapturedIff(ourios: nat, loki: nat, margin: real)
    requires 0.0 <= margin <= 1.0
    ensures Captured(ourios, loki, margin) <==> !Below(ourios, loki, margin)
  {
  }

  /** What the margin asks, in numbers: no cell of Loki's alone, no total above Ourios's, and
      each total captured. */
  lemma WithinMarginIff(ourios: Counts, loki: Counts, margin: real)
    requires 0.0 <= margin <= 1.0
    ensures WithinMargin(ourios, loki, margin) <==>
            && loki.Keys <= ourios.Keys
            && forall g :: g in Groups(ourios) ==>
                 && GroupTotal(loki, g) <= GroupTotal(ourios, g)
                 && Captured(GroupTotal(ourios, g), GroupTotal(loki, g), margin)
  {
    forall g | g in Groups(ourios)
      ensures Captured(GroupTotal(ourios, g), GroupTotal(loki, g), margin) <==>
              !Below(GroupTotal(ourios, g), GroupTotal(loki, g), margin)
    {
      CapturedIff(GroupTotal(ourios, g), GroupTotal(loki, g), margin);
    }
  }

  /** Lowering the margin never turns an acceptance into a refusal. */
  lemma LowerMarginAccepts(ourios: Counts, loki: Counts, margin: real, lower: real)
    requires 0.0 <= lower <= margin <= 1.0 && WithinMargin(ourios, loki, margin)
    ensures WithinMargin(ourios, loki, lower)
  {
    forall g | g in Groups(ourios)
      ensures !Below(GroupTotal(ourios, g), GroupTotal(loki, g), lower)
    {
      LowerBelow(GroupTotal(ourios, g), GroupTotal(loki, g), margin, lower);
    }
  }

  lemma LowerBelow(ourios: nat, loki: nat, margin: real, lower: real)
    requires lower <= margin <= 1.0
    ensures Below(ourios, loki, lower) ==> Below(ourios, loki, margin)
  {
    Scaled(ourios as real, lower, margin);
  }

  lemma Scaled(n: real, low: real, high: real)
    requires low <= high && n >= 0.0
    ensures n * low <= n * high
  {
    assert n * (high - low) >= 0.0;
  }

  /** Counts moved between two cells of one group. */
  function Moved(counts: Counts, from: Key, to: Key, n: nat): Counts
    requires from in counts && to in counts && from != to && n <= counts[from]
  {
    counts[from := counts[from] - n][to := counts[to] + n]
  }

  lemma MoveKeepsTotals(counts: Counts, from: Key, to: Key, n: nat, group: string)
    requires from in counts && to in counts && from != to && n <= counts[from] && from.text == to.text
    ensures GroupTotal(Moved(counts, from, to, n), group) == GroupTotal(counts, group)
    ensures Moved(counts, from, to, n).Keys == counts.Keys
  {
    var moved := Moved(counts, from, to, n);
    assert moved.Keys == counts.Keys;
    var keys := counts.Keys;
    SumAt(keys, counts, group, from);
    SumAt(keys, moved, group, from);
    SumAt(keys - {from}, counts, group, to);
    SumAt(keys - {from}, moved, group, to);
    SumAgrees(keys - {from} - {to}, counts, moved, group);
  }

  /** The verdict does not see which bucket of a group a count is in. */
  lemma MovesUnseen(ourios: Counts, loki: Counts, margin: real, from: Key, to: Key, n: nat)
    requires from in loki && to in loki && from != to && n <= loki[from] && from.text == to.text
    ensures WithinMargin(ourios, Moved(loki, from, to, n), margin) <==> WithinMargin(ourios, loki, margin)
  {
    var moved := Moved(loki, from, to, n);
    forall g
      ensures GroupTotal(moved, g) == GroupTotal(loki, g) && moved.Keys == loki.Keys
    {
      MoveKeepsTotals(loki, from, to, n, g);
    }
  }

  lemma MovesUnseenInOurios(ourios: Counts, loki: Counts, margin: real, from: Key, to: Key, n: nat)
    requires from in ourios && to in ourios && from != to && n <= ourios[from] && from.text == to.text
    ensures WithinMargin(Moved(ourios, from, to, n), loki, margin) <==> WithinMargin(ourios, loki, margin)
  {
    var moved := Moved(ourios, from, to, n);
    forall g
      ensures GroupTotal(moved, g) == GroupTotal(ourios, g) && moved.Keys == ourios.Keys
    {
      MoveKeepsTotals(ourios, from, to, n, g);
    }
  }

  /** At margin one, on answers that are nowhere above Ourios's, the margin comparison
      asks for the cell-by-cell one and for no cell of Loki's alone. */
  lemma FullMarginIsExact(ourios: Counts, loki: Counts)
    requires forall k :: Get(loki, k) <= Get(ourios, k)
    ensures WithinMargin(ourios, loki, 1.0) <==> loki.Keys <= ourios.Keys && Same(ourios, loki)
  {
    if loki.Keys <= ourios.Keys {
      forall g
        ensures GroupTotal(loki, g) == Sum(ourios.Keys, loki, g) <= GroupTotal(ourios, g)
        ensures GroupTotal(loki, g) == GroupTotal(ourios, g) ==>
                  forall k :: k in ourios && k.text == g ==> Get(loki, k) == Get(ourios, k)
      {
        SumExtends(loki.Keys, ourios.Keys, loki, g);
        SumBelow(ourios.Keys, loki, ourios, g);
      }
      if Same(ourios, loki) {
        forall g
          ensures GroupTotal(loki, g) == GroupTotal(ourios, g)
        {
          SumAgrees(ourios.Keys, loki, ourios, g);
        }
      } else if WithinMargin(ourios, loki, 1.0) {
        forall k
          ensures Get(ourios, k) == Get(loki, k)
        {
          if k in ourios {
            assert k.text in Groups(ourios);
            WholeNumbers(GroupTotal(ourios, k.text), GroupTotal(loki, k.text));
          }
        }
      }
    }
  }

  /** So on such answers the two comparisons give the same verdict unless the counts are equal
      and Loki has a cell of its own, necessarily an empty one. */
  lemma FullMarginAgreesIff(ourios: Counts, loki: Counts)
    requires forall k :: Get(loki, k) <= Get(ourios, k)
    ensures (WithinMargin(ourios, loki, 1.0) <==> Same(ourios, loki)) <==>
            (loki.Keys <= ourios.Keys || !Same(ourios, loki))
    ensures forall k :: k in loki && k !in ourios ==> loki[k] == 0
  {
    FullMarginIsExact(ourios, loki);
    forall k | k in loki && k !in ourios
      ensures loki[k] == 0
    {
      assert Get(loki, k) <= Get(ourios, k);
    }
  }

  lemma WholeNumbers(ourios: nat, loki: nat)
    ensures !Below(ourios, loki, 1.0) <==> loki >= ourios
  {
  }

  /** Where the two disagree: a cell of Loki's alone that counts nothing. */
  lemma EmptyPhantomDisagrees()
    ensures exists ourios: Counts, loki: Counts ::
      && (forall k :: Get(loki, k) <= Get(ourios, k))
      && Same(ourios, loki) && !WithinMargin(ourios, loki, 1.0)
  {
    var ourios: Counts, loki: Counts := map[], map[Key(0, "g") := 0];
    assert Key(0, "g") in loki.Keys && Key(0, "g") !in ourios.Keys;
    assert forall k :: Get(loki, k) <= Get(ourios, k);
    assert Same(ourios, loki) && !WithinMargin(ourios, loki, 1.0);
  }
}
