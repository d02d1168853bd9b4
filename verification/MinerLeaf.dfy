/** The attach as the miner performs it: one leaf updated in place by single forward
    walks over the template. */
module MinerLeaf {
  import opened Collections
  import opened Wrappers
  import opened AuditEvents
  import opened SlotTypeSets
  import opened Templates
  import opened TemplateOracle
  import opened Lines
  import opened MinerAttach

  method FindWideningPositions(m: Masked, template: seq<Token>) returns (ps: seq<nat>)
    requires |m.strs| == |template|
    requires forall i, j :: 0 <= i < j < |m.wildcards| ==> m.wildcards[i] < m.wildcards[j]
    ensures ps == WideningPositions(m, template, |template|)
  {
    ps := [];
    for p := 0 to |template|
      invariant ps == WideningPositions(m, template, p)
    {
      if template[p].Fixed? {
        var masked := FindPosition(m.wildcards, p);
        if masked.Some? || template[p].text != m.strs[p] {
          ps := ps + [p];
        }
      }
    }
  }

  method ApplyWidening(template: seq<Token>, ps: seq<U16>) returns (widened: seq<Token>)
    requires forall i :: 0 <= i < |ps| ==> ps[i] < |template|
    ensures widened == Marked(template, ps)
  {
    widened := template;
    for i := 0 to |ps|
      invariant widened == Marked(template, ps[..i])
    {
      assert ps[..i + 1] == ps[..i] + [ps[i]];
      widened := widened[ps[i] := Wildcard];
    }
    assert ps[..|ps|] == ps;
  }

  /** A walk at position `p` that has consumed the first `k` of the positions `ps`. */
  ghost predicate Passed(ps: seq<U16>, p: nat, k: nat) {
    && k <= |ps|
    && (forall i :: 0 <= i < k ==> ps[i] < p)
    && (forall i :: k <= i < |ps| ==> p <= ps[i])
  }

  predicate AtNext(ps: seq<U16>, p: nat, k: nat) {
    k < |ps| && ps[k] == p
  }

  lemma PassedNext(ps: seq<U16>, p: nat, k: nat)
    requires Increasing(ps) && Passed(ps, p, k)
    ensures AtNext(ps, p, k) <==> p in ps
    ensures Passed(ps, p + 1, if AtNext(ps, p, k) then k + 1 else k)
    ensures p !in ps[..k]
  {
  }

  lemma PassedAll(ps: seq<U16>, n: nat, k: nat)
    requires Passed(ps, n, k) && forall i :: 0 <= i < |ps| ==> ps[i] < n
    ensures k == |ps|
  {
    if ps != [] {
      assert ps[|ps| - 1] < n;
    }
  }

  lemma OrdinalNext(cells: seq<Cell>, p: nat)
    requires p < |cells|
    ensures Ordinal(cells, p + 1) == Ordinal(cells, p) + if cells[p].Slot? then 1 else 0
  {
    assert cells[..p + 1] == cells[..p] + [cells[p]];
    Snoc(cells[..p], cells[p]);
  }

  function InsertAt<T>(s: seq<T>, i: nat, x: T): seq<T>
    requires i <= |s|
  {
    s[..i] + [x] + s[i..]
  }

  /** The walk over the widened template: the positions consumed, the wildcards
      passed, the slots so far. */
  datatype Walk = Walk(k: nat, ordinal: nat, slots: seq<SlotTypes>)

  /** One position of the walk: a slot inserted `here`, a wildcard passed. */
  ghost function Advance(w: Walk, here: bool, wildcard: bool, seed: SlotTypes): Walk
    requires w.ordinal <= |w.slots|
  {
    Walk(if here then w.k + 1 else w.k, if wildcard then w.ordinal + 1 else w.ordinal,
         if here then InsertAt(w.slots, w.ordinal, seed) else w.slots)
  }

  /** The walk's state at position `p` leads to its state at the next. */
  ghost predicate Follows(walks: seq<Walk>, template: seq<Token>, types: seq<ParamType>, ps: seq<U16>, p: nat)
    requires p < |template| == |types| && |walks| == |template| + 1
  {
    var w := walks[p];
    w.ordinal <= |w.slots| && walks[p + 1] == Advance(w, AtNext(ps, p, w.k), template[p].Wildcard?, Seed(types[p]))
  }

  /** Seed a slot for each newly widened position, inserting at the running wildcard
      ordinal of the widened template. */
  method SeedSlotsAlong(before: seq<SlotTypes>, template: seq<Token>, types: seq<ParamType>, ps: seq<U16>,
                        ghost walks: seq<Walk>)
    returns (slots: seq<SlotTypes>)
    requires |template| == |types| && |walks| == |template| + 1 && walks[0] == Walk(0, 0, before)
    requires forall p :: 0 <= p < |template| ==> Follows(walks, template, types, ps, p)
    ensures slots == walks[|template|].slots
  {
    slots := before;
    var ordinal, k := 0, 0;
    for p := 0 to |template|
      invariant walks[p] == Walk(k, ordinal, slots)
    {
      assert Follows(walks, template, types, ps, p);
      if AtNext(ps, p, k) {
        slots, k := InsertAt(slots, ordinal, Seed(types[p])), k + 1;
      }
      if template[p].Wildcard? {
        ordinal := ordinal + 1;
      }
    }
  }

  method UpdateSlotTypesOnWidening(before: seq<SlotTypes>, template: seq<Token>, types: seq<ParamType>, ps: seq<U16>,
                                   ghost cells: seq<Cell>)
    returns (slots: seq<SlotTypes>)
    requires |cells| == |types| && Widenable(TokensOf(cells), ps, types)
    requires before == SlotsOf(cells) && template == Marked(TokensOf(cells), ps)
    ensures slots == SlotsOf(Opened(cells, ps, types))
  {
    ghost var walks := Walks(cells, ps, types);
    SeedingStarts(cells, ps, types);
    forall p | 0 <= p < |template|
      ensures Follows(walks, template, types, ps, p)
    {
      SeedWalk(cells, ps, types, p, walks[p]);
    }
    slots := SeedSlotsAlong(before, template, types, ps, walks);
    SeedingEnds(cells, ps, types);
  }

  ghost function Below(ps: seq<U16>, p: nat): (k: nat)
    ensures k <= |ps|
  {
    if p == 0 then 0 else var k := Below(ps, p - 1); if AtNext(ps, p - 1, k) then k + 1 else k
  }

  lemma {:induction false} BelowPassed(ps: seq<U16>, p: nat)
    requires Increasing(ps)
    ensures Passed(ps, p, Below(ps, p))
  {
    if p != 0 {
      BelowPassed(ps, p - 1);
      PassedNext(ps, p - 1, Below(ps, p - 1));
    }
  }

  /** Midway: the positions below `p` are seeded, and the ordinal counts the
      wildcards before `p`. */
  ghost function WalkAt(cells: seq<Cell>, ps: seq<U16>, types: seq<ParamType>, p: nat): Walk
    requires Widenable(TokensOf(cells), ps, types) && p <= |cells|
  {
    var mid := Opened(cells, ps[..Below(ps, p)], types);
    Walk(Below(ps, p), Ordinal(mid, p), SlotsOf(mid))
  }

  ghost function Walks(cells: seq<Cell>, ps: seq<U16>, types: seq<ParamType>): (walks: seq<Walk>)
    requires Widenable(TokensOf(cells), ps, types)
    ensures |walks| == |cells| + 1
    ensures forall p :: 0 <= p <= |cells| ==> walks[p] == WalkAt(cells, ps, types, p)
  {
    seq(|cells| + 1, p requires 0 <= p <= |cells| => WalkAt(cells, ps, types, p))
  }

  lemma SeedingStarts(cells: seq<Cell>, ps: seq<U16>, types: seq<ParamType>)
    requires Widenable(TokensOf(cells), ps, types)
    ensures WalkAt(cells, ps, types, 0) == Walk(0, 0, SlotsOf(cells))
  {
    assert Opened(cells, ps[..0], types) == cells;
  }

  lemma SeedingEnds(cells: seq<Cell>, ps: seq<U16>, types: seq<ParamType>)
    requires Widenable(TokensOf(cells), ps, types)
    ensures WalkAt(cells, ps, types, |cells|).slots == SlotsOf(Opened(cells, ps, types))
  {
    BelowPassed(ps, |cells|);
    PassedAll(ps, |cells|, Below(ps, |cells|));
    Whole(ps);
  }

  lemma SeedWalk(cells: seq<Cell>, ps: seq<U16>, types: seq<ParamType>, p: nat, w: Walk)
    requires Widenable(TokensOf(cells), ps, types) && p < |cells| == |types| && w == WalkAt(cells, ps, types, p)
    ensures w.ordinal <= |w.slots|
    ensures WalkAt(cells, ps, types, p + 1) ==
            Advance(w, AtNext(ps, p, w.k), Marked(TokensOf(cells), ps)[p].Wildcard?, Seed(types[p]))
  {
    var k := Below(ps, p);
    var mid := Opened(cells, ps[..k], types);
    BelowPassed(ps, p);
    PassedNext(ps, p, k);
    OrdinalInRange(mid, p);
    if AtNext(ps, p, k) {
      SeedHere(cells, ps, k, types);
      OrdinalNext(Opened(cells, ps[..k + 1], types), p);
    } else {
      OrdinalNext(mid, p);
      assert mid[p] == cells[p];
    }
  }

  lemma OrdinalInRange(cells: seq<Cell>, p: nat)
    requires p <= |cells|
    ensures Ordinal(cells, p) <= |SlotsOf(cells)|
  {
    assert cells == cells[..p] + cells[p..];
    SlotsOfAppend(cells[..p], cells[p..]);
  }

  lemma SeedHere(cells: seq<Cell>, ps: seq<U16>, k: nat, types: seq<ParamType>)
    requires Widenable(TokensOf(cells), ps, types) && k < |ps| && Passed(ps, ps[k], k)
    ensures var mid, next := Opened(cells, ps[..k], types), Opened(cells, ps[..k + 1], types);
            && Ordinal(mid, ps[k]) <= |SlotsOf(mid)|
            && SlotsOf(next) == InsertAt(SlotsOf(mid), Ordinal(mid, ps[k]), Seed(types[ps[k]]))
            && Ordinal(next, ps[k]) == Ordinal(mid, ps[k])
  {
    var p := ps[k];
    var mid, next := Opened(cells, ps[..k], types), Opened(cells, ps[..k + 1], types);
    assert ps[..k + 1] == ps[..k] + [p];
    assert mid[p] == cells[p];
    OpenSlot(mid, p, Seed(types[p]));
    assert next == mid[p := Slot(Seed(types[p]))];
    assert next[..p] == mid[..p];
  }

  /** Collect the types the line brings to slots that were there before. */
  method CollectTypeExpansions(template: seq<Token>, types: seq<ParamType>, slots: seq<SlotTypes>, skip: seq<U16>,
                               ghost cells: seq<Cell>)
    returns (es: seq<SlotExpansion>)
    requires |cells| == |types| < 0x1_0000
    requires template == TokensOf(cells) && slots == SlotsOf(cells) && Increasing(skip)
    requires forall i :: 0 <= i < |skip| ==> skip[i] < |cells| && cells[skip[i]].Slot?
    ensures es == Collect(cells, skip, types, |cells|)
  {
    es := [];
    var ordinal, k := 0, 0;
    for p := 0 to |template|
      invariant Collecting(cells, skip, types, p, k, ordinal, es)
    {
      CollectWalk(cells, skip, types, p, k, ordinal, es);
      assert template[p].Wildcard? <==> cells[p].Slot?;
      if template[p].Wildcard? {
        if AtNext(skip, p, k) {
          k := k + 1;
        } else if !Contains(slots[ordinal], types[p]) {
          es := es + [SlotExpansion(ordinal, [types[p]])];
        }
        ordinal := ordinal + 1;
      }
    }
  }

  /** Midway: the positions before `p` are looked at, and the ordinal counts their
      wildcards. */
  ghost predicate Collecting(cells: seq<Cell>, skip: seq<U16>, types: seq<ParamType>, p: nat, k: nat, ordinal: nat,
                             es: seq<SlotExpansion>)
    requires p <= |cells| == |types| && |cells| < 0x1_0000
  {
    Passed(skip, p, k) && ordinal == Ordinal(cells, p) && es == Collect(cells, skip, types, p)
  }

  lemma CollectWalk(cells: seq<Cell>, skip: seq<U16>, types: seq<ParamType>, p: nat, k: nat, ordinal: nat,
                    es: seq<SlotExpansion>)
    requires p < |cells| == |types| && |cells| < 0x1_0000 && Increasing(skip)
    requires forall i :: 0 <= i < |skip| ==> skip[i] < |cells| && cells[skip[i]].Slot?
    requires Collecting(cells, skip, types, p, k, ordinal, es)
    ensures cells[p].Slot? ==> ordinal < |SlotsOf(cells)| && ordinal < 0x1_0000
    ensures Collecting(cells, skip, types, p + 1,
                       if cells[p].Slot? && AtNext(skip, p, k) then k + 1 else k,
                       if cells[p].Slot? then ordinal + 1 else ordinal,
                       if cells[p].Slot? && !AtNext(skip, p, k) && !Contains(SlotsOf(cells)[ordinal], types[p])
                       then es + [SlotExpansion(ordinal, [types[p]])] else es)
  {
    PassedNext(skip, p, k);
    OrdinalNext(cells, p);
    if cells[p].Slot? {
      UpdateSlot(cells, p, cells[p].types);
    } else {
      assert p !in skip;
    }
  }

  method ApplyTypeExpansions(before: seq<SlotTypes>, es: seq<SlotExpansion>) returns (slots: seq<SlotTypes>)
    requires ExpandEach(before, es).Some?
    ensures slots == ExpandEach(before, es).value
  {
    slots := before;
    for i := 0 to |es|
      invariant ExpandEach(before, es[..i]) == Some(slots)
    {
      ExpandPrefix(before, es, i);
      var s := slots[es[i].slotIndex];
      for j := 0 to |es[i].addedTypes|
        invariant AddEach(slots[es[i].slotIndex], es[i].addedTypes[..j]) == Some(s)
      {
        AddPrefix(slots[es[i].slotIndex], es[i].addedTypes, j);
        s := Insert(s, es[i].addedTypes[j]);
      }
      assert es[i].addedTypes[..|es[i].addedTypes|] == es[i].addedTypes;
      slots := slots[es[i].slotIndex := s];
    }
    assert es[..|es|] == es;
  }

  lemma {:induction false} ExpandPrefix(before: seq<SlotTypes>, es: seq<SlotExpansion>, i: nat)
    requires ExpandEach(before, es).Some? && i < |es|
    ensures ExpandEach(before, es[..i]).Some?
    ensures ExpandEach(before, es[..i + 1]) == ExpandSlot(ExpandEach(before, es[..i]).value, es[i])
    ensures ExpandSlot(ExpandEach(before, es[..i]).value, es[i]).Some?
    decreases |es|
  {
    assert es[..i + 1][..i] == es[..i];
    var n := |es| - 1;
    if i < n {
      ExpandPrefix(before, es[..n], i);
      assert es[..n][..i] == es[..i] && es[..n][..i + 1] == es[..i + 1];
    } else {
      assert es[..n + 1] == es;
    }
  }

  lemma {:induction false} AddPrefix(s: SlotTypes, added: seq<ParamType>, j: nat)
    requires AddEach(s, added).Some? && j < |added|
    ensures AddEach(s, added[..j]).Some?
    ensures AddEach(s, added[..j + 1]) == Some(Insert(AddEach(s, added[..j]).value, added[j]))
    decreases |added|
  {
    assert added[..j + 1][..j] == added[..j];
    var n := |added| - 1;
    if j < n {
      AddPrefix(s, added[..n], j);
      assert added[..n][..j] == added[..j] && added[..n][..j + 1] == added[..j + 1];
    } else {
      assert added[..n + 1] == added;
    }
  }

  /** Collect the expansions and, when there are any, apply them. */
  method GrowSlots(template: seq<Token>, types: seq<ParamType>, slots: seq<SlotTypes>, skip: seq<U16>,
                   ghost cells: seq<Cell>)
    returns (es: seq<SlotExpansion>, grown: seq<SlotTypes>)
    requires |cells| == |types| < 0x1_0000
    requires template == TokensOf(cells) && slots == SlotsOf(cells) && Increasing(skip)
    requires forall i :: 0 <= i < |skip| ==> skip[i] < |cells| && cells[skip[i]].Slot?
    ensures es == Collect(cells, skip, types, |cells|)
    ensures grown == SlotsOf(Grown(cells, skip, types, |cells|))
  {
    es := CollectTypeExpansions(template, types, slots, skip, cells);
    CollectedReplay(cells, skip, types, |cells|);
    grown := ApplyTypeExpansions(slots, es);
  }

  /** No literal mismatches: a clean reuse, or known slots seeing a new type. */
  method ExpandOnly(leaf: LeafState, types: seq<ParamType>, ghost cells: seq<Cell>)
    returns (after: LeafState, plan: AttachPlan)
    requires |types| == |leaf.tokens| < 0x1_0000 && leaf.version + 1 < 0x1_0000_0000
    requires leaf.tokens == TokensOf(cells) && leaf.slotTypes == SlotsOf(cells)
    ensures (after, plan) == ExpandPlan(leaf, cells, types)
  {
    var es, grown := GrowSlots(leaf.tokens, types, leaf.slotTypes, [], cells);
    var r := ExpandedTo(leaf, grown, es);
    after, plan := r.0, r.1;
  }

  /** The widening path, with the type expansions the same line brings. */
  method Widen(leaf: LeafState, types: seq<ParamType>, ps: seq<U16>, ghost cells: seq<Cell>)
    returns (after: LeafState, plan: AttachPlan)
    requires |types| == |leaf.tokens| < 0x1_0000 && leaf.version + 2 < 0x1_0000_0000
    requires leaf.tokens == TokensOf(cells) && leaf.slotTypes == SlotsOf(cells)
    requires Widenable(leaf.tokens, ps, types)
    ensures (after, plan) == WidenPlan(leaf, cells, ps, types)
  {
    ghost var wide := Opened(cells, ps, types);
    OpenedTokens(cells, ps, types);
    OpenedAreSlots(cells, ps, types);
    var template := ApplyWidening(leaf.tokens, ps);
    var slots := UpdateSlotTypesOnWidening(leaf.slotTypes, template, types, ps, cells);
    var es, grown := GrowSlots(template, types, slots, ps, wide);
    var r := WidenedTo(leaf, ps, template, slots, es, grown);
    after, plan := r.0, r.1;
  }

  /** The type of every position, each looked up in the masked line. */
  method TypesOfLine(m: Masked, ghost tokens: seq<string>, ghost classify: Classifier) returns (types: seq<ParamType>)
    requires IsMasked(tokens, classify, m)
    ensures types == LineTypes(tokens, classify)
  {
    types := [];
    for p := 0 to |m.strs|
      invariant |types| == p && forall i :: 0 <= i < p ==> types[i] == LineTypes(tokens, classify)[i]
    {
      var t := ParamTypeForLinePosition(p, m, tokens, classify);
      types := types + [t];
    }
  }

  class Leaf {
    var version: U32
    var template: seq<Token>
    var slotTypes: seq<SlotTypes>

    function State(): LeafState
      reads this
    {
      LeafState(version, template, slotTypes)
    }

    constructor (state: LeafState)
      ensures State() == state
    {
      version, template, slotTypes := state.version, state.tokens, state.slotTypes;
    }

    /** Attach a line: reuse, reject, or widen and grow this leaf in place. */
    method Attach(m: Masked, types: seq<ParamType>) returns (plan: AttachPlan)
      requires |m.strs| == |types| == |template| < 0x1_0000
      requires forall i, j :: 0 <= i < j < |m.wildcards| ==> m.wildcards[i] < m.wildcards[j]
      requires Aligned(template, slotTypes) && version + 2 < 0x1_0000_0000
      modifies this
      ensures (State(), plan) == PlanAttach(old(State()), m, types)
    {
      var before := State();
      ghost var cells := CellsOf(template, slotTypes);
      CellsRoundTrip(template, slotTypes);
      var ps := FindWideningPositions(m, template);
      if ps == [] {
        var after, expanded := ExpandOnly(before, types, cells);
        version, slotTypes := after.version, after.slotTypes;
        return expanded;
      }
      PositionsAscend(m, template);
      var degenerate := WouldBeDegenerate(template, ps);
      if degenerate {
        var wouldBe := ApplyWidening(template, ps);
        return Rejected(RejectedDegenerate(version, FormatTemplate(template), FormatTemplate(wouldBe), ps));
      }
      var after, widened := Widen(before, types, ps, cells);
      version, template, slotTypes := after.version, after.tokens, after.slotTypes;
      plan := widened;
    }
  }

  lemma OpenedAreSlots(cells: seq<Cell>, ps: seq<U16>, types: seq<ParamType>)
    requires Widenable(TokensOf(cells), ps, types)
    ensures forall i :: 0 <= i < |ps| ==> ps[i] < |cells| && Opened(cells, ps, types)[ps[i]].Slot?
  {
    forall i | 0 <= i < |ps|
      ensures ps[i] < |cells| && Opened(cells, ps, types)[ps[i]].Slot?
    {
      assert ps[i] in ps;
    }
  }

  lemma PositionsAscend(m: Masked, template: seq<Token>)
    requires |m.strs| == |template| < 0x1_0000
    ensures var ps := WideningPositions(m, template, |template|);
            && (forall i, j :: 0 <= i < j < |ps| ==> ps[i] < ps[j])
            && (forall i :: 0 <= i < |ps| ==> ps[i] < |template| && template[ps[i]].Fixed?)
            && forall types: seq<ParamType> :: |types| == |template| ==> Widenable(template, ps, types)
  {
    var ps: seq<U16> := WideningPositions(m, template, |template|);
    WideningPositionsAre(m, template);
    forall i | 0 <= i < |ps|
      ensures template[ps[i]].Fixed?
    {
      assert ps[i] in ps;
    }
  }
}
