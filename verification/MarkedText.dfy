/** Markers in text: where they occur, and what cutting or joining text does to them. */
module MarkedText {
  import opened Wrappers

  /** What both region markers share: they open with `<!`, hold no other `<`, and stay
      within one table cell of one line. */
  predicate IsMarker(m: string) {
    && |m| >= 2 && m[0] == '<' && m[1] == '!' && m[|m| - 1] == '>'
    && (forall i :: 0 < i < |m| ==> m[i] != '<')
    && '\n' !in m && '|' !in m
  }

  /** Neither opens with the other. */
  predicate Apart(m: string, n: string) {
    !(m <= n) && !(n <= m)
  }

  predicate OccursAt(s: string, i: nat, m: string) {
    i + |m| <= |s| && s[i..i + |m|] == m
  }

  ghost predicate Occurs(s: string, m: string) {
    exists i: nat :: OccursAt(s, i, m)
  }

  // ----- the first occurrence

  function FindFrom(s: string, i: nat, m: string): (r: Option<nat>)
    requires i <= |s|
    ensures r.None? ==> forall k: nat :: i <= k ==> !OccursAt(s, k, m)
    ensures r.Some? ==> i <= r.value && OccursAt(s, r.value, m)
    ensures r.Some? ==> forall k :: i <= k < r.value ==> !OccursAt(s, k, m)
    decreases |s| - i
  {
    if OccursAt(s, i, m) then Some(i)
    else if i == |s| then None
    else FindFrom(s, i + 1, m)
  }

  function Find(s: string, m: string): (r: Option<nat>)
    ensures r.None? <==> !Occurs(s, m)
    ensures r.Some? ==> OccursAt(s, r.value, m) && forall k :: 0 <= k < r.value ==> !OccursAt(s, k, m)
  {
    FindFrom(s, 0, m)
  }

  /** The text before and after the first occurrence. */
  function SplitOnce(s: string, m: string): (r: Option<(string, string)>)
    ensures r.None? <==> !Occurs(s, m)
    ensures r.Some? ==> s == r.value.0 + m + r.value.1
    ensures r.Some? && m != "" ==> !Occurs(r.value.0, m)
  {
    match Find(s, m)
    case None => None
    case Some(i) =>
      Cut(s, i, m);
      FrontAbsent(s, i, m);
      Some((s[..i], s[i + |m|..]))
  }

  lemma Cut(s: string, i: nat, m: string)
    requires OccursAt(s, i, m)
    ensures s == s[..i] + m + s[i + |m|..]
  {
  }

  lemma FrontAbsent(s: string, i: nat, m: string)
    requires OccursAt(s, i, m) && forall k :: 0 <= k < i ==> !OccursAt(s, k, m)
    ensures m != "" ==> !Occurs(s[..i], m)
  {
    if k: nat :| OccursAt(s[..i], k, m) {
      assert s[..i] == s[0..i];
      SliceOccurs(s, 0, i, k, m);
    }
  }

  /** At least two occurrences that do not overlap. */
  predicate Repeats(s: string, m: string) {
    match SplitOnce(s, m)
    case None => false
    case Some((_, rest)) => Find(rest, m).Some?
  }

  // ----- cutting and joining

  lemma SliceOccurs(s: string, i: nat, j: nat, k: nat, m: string)
    requires i <= j <= |s| && OccursAt(s[i..j], k, m)
    ensures OccursAt(s, i + k, m)
  {
    SliceOfSlice(s, i, j, k, k + |m|);
  }

  lemma SliceOfSlice<T>(s: seq<T>, i: nat, j: nat, k: nat, n: nat)
    requires i <= j <= |s| && k <= n <= j - i
    ensures s[i..j][k..n] == s[i + k..i + n]
  {
    var a, b := s[i..j][k..n], s[i + k..i + n];
    assert |a| == |b| && forall x :: 0 <= x < |a| ==> a[x] == b[x];
  }

  lemma AbsentFromSlice(s: string, i: nat, j: nat, m: string)
    requires i <= j <= |s| && !Occurs(s, m)
    ensures !Occurs(s[i..j], m)
  {
    if k: nat :| OccursAt(s[i..j], k, m) {
      SliceOccurs(s, i, j, k, m);
    }
  }

  lemma OccursInLeft(a: string, b: string, k: nat, m: string)
    requires k + |m| <= |a|
    ensures OccursAt(a + b, k, m) <==> OccursAt(a, k, m)
  {
    assert (a + b)[k..k + |m|] == a[k..k + |m|];
  }

  lemma OccursInRight(a: string, b: string, k: nat, m: string)
    ensures OccursAt(a + b, |a| + k, m) <==> OccursAt(b, k, m)
  {
    if k + |m| <= |b| {
      assert (a + b)[|a| + k..|a| + k + |m|] == b[k..k + |m|];
    }
  }

  lemma CharAt(s: string, i: nat, m: string, k: nat)
    requires OccursAt(s, i, m) && k < |m|
    ensures s[i + k] == m[k]
  {
    assert s[i..i + |m|][k] == m[k];
  }

  /** Text joined by a character the marker does not have holds the marker just when one
      of the parts does. */
  lemma AbsentAcross(a: string, c: char, b: string, m: string)
    requires c !in m && m != ""
    ensures Occurs(a + [c] + b, m) <==> Occurs(a, m) || Occurs(b, m)
  {
    var s := a + [c] + b;
    assert s == a + ([c] + b) && s == (a + [c]) + b;
    if i: nat :| OccursAt(s, i, m) {
      assert s[|a|] == c;
      if i <= |a| < i + |m| {
        CharAt(s, i, m, |a| - i);
        assert false;
      } else if i + |m| <= |a| {
        OccursInLeft(a, [c] + b, i, m);
      } else {
        OccursInRight(a + [c], b, i - |a| - 1, m);
      }
    }
    if i: nat :| OccursAt(a, i, m) {
      OccursInLeft(a, [c] + b, i, m);
    }
    if i: nat :| OccursAt(b, i, m) {
      OccursInRight(a + [c], b, i, m);
      assert OccursAt(s, |a| + 1 + i, m);
    }
  }

  /** Around a marker, another marker (or the same one) sits wholly before it, wholly
      after it, or is it. */
  lemma OccursAround(a: string, n: string, b: string, i: nat, m: string)
    requires IsMarker(m) && IsMarker(n) && (m == n || Apart(m, n))
    requires OccursAt(a + n + b, i, m)
    ensures (i == |a| && m == n) || OccursAt(a, i, m) || (i >= |a| + |n| && OccursAt(b, i - |a| - |n|, m))
  {
    var s := a + n + b;
    assert s == a + (n + b);
    NoStraddle(a, n, b, i, m);
    if i + |m| <= |a| {
      OccursInLeft(a, n + b, i, m);
    } else if i == |a| {
      AtMarker(a, n, b, m);
    } else {
      OccursInRight(a + n, b, i - |a| - |n|, m);
    }
  }

  lemma NoStraddle(a: string, n: string, b: string, i: nat, m: string)
    requires IsMarker(m) && IsMarker(n) && OccursAt(a + n + b, i, m)
    ensures i + |m| <= |a| || i == |a| || i >= |a| + |n|
  {
    var s := a + n + b;
    assert s[|a|] == '<';
    CharAt(s, i, m, 0);
    assert |a| <= i < |a| + |n| ==> s[i] == n[i - |a|];
    if i < |a| < i + |m| {
      CharAt(s, i, m, |a| - i);
    }
  }

  lemma AtMarker(a: string, n: string, b: string, m: string)
    requires OccursAt(a + n + b, |a|, m) && (m == n || Apart(m, n))
    ensures m == n
  {
    var s := a + n + b;
    assert s[|a|..|a| + |n|] == n;
    assert s[|a|..|a| + |m|] == m;
    assert |m| <= |n| ==> n[..|m|] == m;
    assert |n| <= |m| ==> m[..|n|] == n;
  }

  lemma HereOccurs(a: string, m: string, b: string)
    ensures OccursAt(a + m + b, |a|, m)
  {
    assert (a + m + b)[|a|..|a| + |m|] == m;
  }

  /** The first occurrence of a marker is found after text that has none. */
  lemma SplitOnceAt(a: string, m: string, b: string)
    requires IsMarker(m) && !Occurs(a, m)
    ensures SplitOnce(a + m + b, m) == Some((a, b))
  {
    var s := a + m + b;
    HereOccurs(a, m, b);
    var i := Find(s, m).value;
    if i != |a| {
      OccursAround(a, m, b, i, m);
    }
    assert s[..|a|] == a && s[|a| + |m|..] == b;
  }

  lemma AbsentAround(a: string, n: string, b: string, m: string)
    requires IsMarker(m) && IsMarker(n) && Apart(m, n)
    requires !Occurs(a, m) && !Occurs(b, m)
    ensures !Occurs(a + n + b, m)
  {
    if i: nat :| OccursAt(a + n + b, i, m) {
      OccursAround(a, n, b, i, m);
    }
  }

  lemma LaterOccurs(front: string, rest: string, m: string, q: nat)
    requires IsMarker(m) && !Occurs(front, m)
    requires OccursAt(front + m + rest, q, m) && q != |front|
    ensures Occurs(rest, m)
  {
    OccursAround(front, m, rest, q, m);
  }

  lemma TwoRepeat(s: string, p: nat, q: nat, m: string)
    requires IsMarker(m) && OccursAt(s, p, m) && OccursAt(s, q, m) && p < q
    ensures Repeats(s, m)
  {
    var (front, rest) := SplitOnce(s, m).value;
    LaterOccurs(front, rest, m, if |front| == q then p else q);
  }

  /** A second occurrence anywhere, before or after, makes a repeat. */
  lemma RepeatsWhen(a: string, m: string, b: string)
    requires IsMarker(m) && (Occurs(a, m) || Occurs(b, m))
    ensures Repeats(a + m + b, m)
  {
    var s := a + m + b;
    HereOccurs(a, m, b);
    if p: nat :| OccursAt(a, p, m) {
      assert a + (m + b) == s;
      OccursInLeft(a, m + b, p, m);
      TwoRepeat(s, p, |a|, m);
    } else {
      var q: nat :| OccursAt(b, q, m);
      OccursInRight(a + m, b, q, m);
      TwoRepeat(s, |a|, |a| + |m| + q, m);
    }
  }

  lemma AbsentWithoutBang(s: string, m: string)
    requires IsMarker(m) && '!' !in s
    ensures !Occurs(s, m)
  {
    if i: nat :| OccursAt(s, i, m) {
      CharAt(s, i, m, 1);
    }
  }

  /** Spaces around text cannot complete a marker. */
  lemma AbsentPadded(s: string, m: string)
    requires IsMarker(m) && !Occurs(s, m)
    ensures !Occurs([' '] + s + [' '], m)
  {
    var padded := [' '] + s + [' '];
    if i: nat :| OccursAt(padded, i, m) {
      CharAt(padded, i, m, 0);
      CharAt(padded, i, m, |m| - 1);
      assert padded == [' '] + (s + [' ']);
      OccursInRight([' '], s + [' '], i - 1, m);
      OccursInLeft(s, [' '], i - 1, m);
    }
  }
}
