/** What every accepted audit chain keeps. */
module TemplateLaws {
  import opened Collections
  import opened Wrappers
  import opened AuditEvents
  import opened SlotTypeSets
  import opened Templates
  import opened TemplateOracle

  function View(t: Typed): (cells: seq<Cell>)
    requires Aligned(t.tokens, t.slots)
    ensures |cells| == |t.tokens|
  {
    CellsOf(t.tokens, t.slots)
  }

  function PositionsOf(change: TemplateChange): seq<U16> {
    if change.Widened? then change.positionsWidened else []
  }

  /** One accepted step on the cells: a widening opens its declared literals and
      nothing else, an expansion grows its declared slots and nothing else. */
  ghost predicate Moves(before: seq<Cell>, change: TemplateChange, lineTypes: seq<ParamType>, after: seq<Cell>) {
    match change
    case Widened(_, _, _, _, ps) =>
      ps != [] && Widenable(TokensOf(before), ps, lineTypes) && after == Opened(before, ps, lineTypes)
    case TypeExpanded(_, _, _, _, es) =>
      NamesSlotsOnce(es) && Expanded(before, es, after)
    case _ => false
  }

  lemma WidenedStep(c: Chain, change: TemplateChange, lineTypes: seq<ParamType>, cells: seq<Cell>)
    requires change.Widened? && ReplayStep(c, change, lineTypes).Some?
    requires c.typed == Typed(TokensOf(cells), SlotsOf(cells))
    ensures change.positionsWidened != [] && Widenable(TokensOf(cells), change.positionsWidened, lineTypes)
    ensures var wide := Opened(cells, change.positionsWidened, lineTypes);
            ReplayStep(c, change, lineTypes).value.typed == Typed(TokensOf(wide), SlotsOf(wide))
  {
    WideningOpensCells(cells, change.positionsWidened, lineTypes);
  }

  lemma ExpandedStep(c: Chain, change: TemplateChange, lineTypes: seq<ParamType>, cells: seq<Cell>)
    requires change.TypeExpanded? && ReplayStep(c, change, lineTypes).Some?
    requires c.typed == Typed(TokensOf(cells), SlotsOf(cells))
    ensures NamesSlotsOnce(change.slotsExpanded) && ExpandEach(SlotsOf(cells), change.slotsExpanded).Some?
    ensures ReplayStep(c, change, lineTypes).value.typed ==
            Typed(TokensOf(cells), ExpandEach(SlotsOf(cells), change.slotsExpanded).value)
  {
  }

  lemma StepSettles(c: Chain, change: TemplateChange, lineTypes: seq<ParamType>)
    requires ReplayStep(c, change, lineTypes).Some?
    ensures change.Widened? || change.TypeExpanded?
    ensures var d := ReplayStep(c, change, lineTypes).value;
            d.version == c.version + 1 && d.template == FormatTemplate(d.typed.tokens)
  {
  }

  lemma StepMoves(c: Chain, change: TemplateChange, lineTypes: seq<ParamType>)
    requires Aligned(c.typed.tokens, c.typed.slots) && ReplayStep(c, change, lineTypes).Some?
    ensures var d := ReplayStep(c, change, lineTypes).value;
            && Aligned(d.typed.tokens, d.typed.slots)
            && d.version == c.version + 1 && d.template == FormatTemplate(d.typed.tokens)
            && Moves(View(c.typed), change, lineTypes, View(d.typed))
  {
    var cells := View(c.typed);
    CellsRoundTrip(c.typed.tokens, c.typed.slots);
    StepSettles(c, change, lineTypes);
    if change.Widened? {
      WidenedStep(c, change, lineTypes, cells);
      CellsUnique(Opened(cells, change.positionsWidened, lineTypes));
    } else {
      ExpandedStep(c, change, lineTypes, cells);
      ExpansionGrowsCells(cells, change.slotsExpanded, ExpandEach(SlotsOf(cells), change.slotsExpanded).value);
    }
  }

  // ----- slot alignment and the widening order

  /** A literal stays itself or becomes a slot that holds `Str` and the line's type;
      a slot only gains types. */
  ghost predicate WidensAt(a: Cell, b: Cell, lineTypes: seq<ParamType>, p: nat) {
    match (a, b)
    case (Lit(s), Lit(t)) => s == t
    case (Lit(_), Slot(types)) => p < |lineTypes| && {Str} + Known(lineTypes[p]) <= Members(types)
    case (Slot(old_), Slot(new_)) => Members(old_) <= Members(new_)
    case (Slot(_), Lit(_)) => false
  }

  ghost predicate Widens(before: seq<Cell>, after: seq<Cell>, lineTypes: seq<ParamType>) {
    |before| == |after| && forall p :: 0 <= p < |before| ==> WidensAt(before[p], after[p], lineTypes, p)
  }

  lemma SeedMembers(t: ParamType)
    ensures Members(Seed(t)) == {Str} + Known(t)
  {
    InsertMembers(SlotTypes(0), Str);
    assert Insert(SlotTypes(0), Str) == Singleton(Str);
    assert Members(SlotTypes(0)) == {};
    InsertMembers(Singleton(Str), t);
  }

  lemma MoveWidens(before: seq<Cell>, change: TemplateChange, lineTypes: seq<ParamType>, after: seq<Cell>)
    requires Moves(before, change, lineTypes, after)
    ensures Widens(before, after, lineTypes)
  {
    forall p | 0 <= p < |before|
      ensures WidensAt(before[p], after[p], lineTypes, p)
    {
      match change
      case Widened(_, _, _, _, ps) =>
        if p in ps {
          var i :| 0 <= i < |ps| && ps[i] == p;
          assert TokensOf(before)[p].Fixed?;
          SeedMembers(lineTypes[p]);
        }
      case TypeExpanded(_, _, _, _, es) =>
        assert Grows(before[p], Declared(es, Ordinal(before, p)), after[p]);
    }
  }

  lemma WidensTransitive(a: seq<Cell>, b: seq<Cell>, c: seq<Cell>, lineTypes: seq<ParamType>)
    requires Widens(a, b, lineTypes) && Widens(b, c, lineTypes)
    ensures Widens(a, c, lineTypes)
  {
    forall p | 0 <= p < |a|
      ensures WidensAt(a[p], c[p], lineTypes, p)
    {
      assert WidensAt(a[p], b[p], lineTypes, p) && WidensAt(b[p], c[p], lineTypes, p);
    }
  }

  /** Slot alignment over a whole chain: if slot `k` belongs to the `k`-th wildcard
      before, it does after, with every cell only widened, and each step raised the
      version by one. */
  lemma {:induction false} ChainWidens(c: Chain, changes: seq<TemplateChange>, lineTypes: seq<ParamType>)
    requires Aligned(c.typed.tokens, c.typed.slots) && Replay(c, changes, lineTypes).Some?
    ensures var d := Replay(c, changes, lineTypes).value;
            && Aligned(d.typed.tokens, d.typed.slots)
            && d.version == c.version + |changes|
            && Widens(View(c.typed), View(d.typed), lineTypes)
    decreases |changes|
  {
    if changes != [] {
      var d := ReplayStep(c, changes[0], lineTypes).value;
      StepMoves(c, changes[0], lineTypes);
      MoveWidens(View(c.typed), changes[0], lineTypes, View(d.typed));
      ChainWidens(d, changes[1..], lineTypes);
      var end := Replay(d, changes[1..], lineTypes).value;
      WidensTransitive(View(c.typed), View(d.typed), View(end.typed), lineTypes);
    }
  }

  // ----- declared positions

  predicate DeclaredBy(changes: seq<TemplateChange>, p: nat) {
    exists i :: 0 <= i < |changes| && p in PositionsOf(changes[i])
  }

  /** No position is declared by two of the changes. */
  ghost predicate DeclaredOnce(changes: seq<TemplateChange>) {
    forall i, j, p :: 0 <= i < j < |changes| && p in PositionsOf(changes[i]) ==> p !in PositionsOf(changes[j])
  }

  /** The changes account for the tokens: every declared position was a literal and is
      a wildcard now, every other token is as it was, and no position is declared
      twice. */
  ghost predicate Accounted(before: seq<Token>, changes: seq<TemplateChange>, after: seq<Token>) {
    && |after| == |before|
    && (forall p: nat :: DeclaredBy(changes, p) ==> p < |before| && before[p].Fixed?)
    && (forall p :: 0 <= p < |before| ==> after[p] == if DeclaredBy(changes, p) then Wildcard else before[p])
    && DeclaredOnce(changes)
  }

  lemma DeclaredByAppend(xs: seq<TemplateChange>, ys: seq<TemplateChange>, p: nat)
    ensures DeclaredBy(xs + ys, p) <==> DeclaredBy(xs, p) || DeclaredBy(ys, p)
  {
    var all := xs + ys;
    if i :| 0 <= i < |xs| && p in PositionsOf(xs[i]) {
      assert all[i] == xs[i];
    }
    if i :| 0 <= i < |ys| && p in PositionsOf(ys[i]) {
      assert all[|xs| + i] == ys[i];
    }
    if i :| 0 <= i < |all| && p in PositionsOf(all[i]) {
      assert all[i] == if i < |xs| then xs[i] else ys[i - |xs|];
    }
  }

  lemma AccountedNothing(tokens: seq<Token>)
    ensures Accounted(tokens, [], tokens)
  {
  }

  lemma StepTokens(c: Chain, change: TemplateChange, lineTypes: seq<ParamType>)
    requires ReplayStep(c, change, lineTypes).Some?
    ensures LiteralsAt(c.typed.tokens, PositionsOf(change))
    ensures ReplayStep(c, change, lineTypes).value.typed.tokens == Marked(c.typed.tokens, PositionsOf(change))
  {
    if change.Widened? {
      WidenEachResult(c.typed.tokens, change.positionsWidened);
    } else {
      assert Marked(c.typed.tokens, []) == c.typed.tokens;
    }
  }

  lemma StepAccounted(tokens: seq<Token>, change: TemplateChange)
    requires LiteralsAt(tokens, PositionsOf(change))
    ensures Accounted(tokens, [change], Marked(tokens, PositionsOf(change)))
  {
    assert forall p: nat :: DeclaredBy([change], p) <==> p in PositionsOf(change) by {
      assert [change][0] == change;
    }
  }

  lemma AccountedOnce(a: seq<Token>, xs: seq<TemplateChange>, b: seq<Token>, ys: seq<TemplateChange>, c: seq<Token>)
    requires Accounted(a, xs, b) && Accounted(b, ys, c)
    ensures DeclaredOnce(xs + ys)
  {
    var all := xs + ys;
    forall i, j, p | 0 <= i < j < |all| && p in PositionsOf(all[i])
      ensures p !in PositionsOf(all[j])
    {
      if i < |xs| <= j {
        assert DeclaredBy(xs, p) by { assert xs[i] == all[i]; }
        assert !DeclaredBy(ys, p);
        assert all[j] == ys[j - |xs|];
      } else if j < |xs| {
        assert xs[i] == all[i] && xs[j] == all[j];
      } else {
        assert ys[i - |xs|] == all[i] && ys[j - |xs|] == all[j];
      }
    }
  }

  lemma AccountedTransitive(a: seq<Token>, xs: seq<TemplateChange>, b: seq<Token>, ys: seq<TemplateChange>,
                            c: seq<Token>)
    requires Accounted(a, xs, b) && Accounted(b, ys, c)
    ensures Accounted(a, xs + ys, c)
  {
    AccountedOnce(a, xs, b, ys, c);
    forall p: nat
      ensures DeclaredBy(xs + ys, p) <==> DeclaredBy(xs, p) || DeclaredBy(ys, p)
    {
      DeclaredByAppend(xs, ys, p);
    }
  }

  /** Every accepted chain accounts for the tokens, whatever the slots hold. */
  lemma {:induction false} ChainAccounted(c: Chain, changes: seq<TemplateChange>, lineTypes: seq<ParamType>)
    requires Replay(c, changes, lineTypes).Some?
    ensures Accounted(c.typed.tokens, changes, Replay(c, changes, lineTypes).value.typed.tokens)
    ensures Replay(c, changes, lineTypes).value.version == c.version + |changes|
    decreases |changes|
  {
    if changes == [] {
      AccountedNothing(c.typed.tokens);
    } else {
      var d := ReplayStep(c, changes[0], lineTypes).value;
      StepSettles(c, changes[0], lineTypes);
      StepTokens(c, changes[0], lineTypes);
      StepAccounted(c.typed.tokens, changes[0]);
      ChainAccounted(d, changes[1..], lineTypes);
      AccountedTransitive(c.typed.tokens, [changes[0]], d.typed.tokens, changes[1..],
                          Replay(c, changes, lineTypes).value.typed.tokens);
      assert changes == [changes[0]] + changes[1..];
    }
  }

  lemma AcceptedAccounted(before: LeafState, changes: seq<TemplateChange>, lineTypes: seq<ParamType>, after: LeafState)
    requires Accepts(before, changes, lineTypes, after)
    ensures after.version == before.version + |changes| && Accounted(before.tokens, changes, after.tokens)
  {
    ChainAccounted(Start(before), changes, lineTypes);
  }

  // ----- the version bound

  function Room(c: Cell): nat {
    MembersBound(if c.Slot? then c.types else SlotTypes(0));
    if c.Lit? then 8 else 8 - |Members(c.types)|
  }

  /** How many more steps a template can take: eight for each literal, and for each
      slot the types it has not seen. */
  function Measure(cells: seq<Cell>): nat {
    if cells == [] then 0 else Measure(cells[..|cells| - 1]) + Room(cells[|cells| - 1])
  }

  lemma {:induction false} MeasureBound(cells: seq<Cell>)
    ensures Measure(cells) <= 8 * |cells|
    decreases |cells|
  {
    if cells != [] {
      MeasureBound(cells[..|cells| - 1]);
    }
  }

  lemma {:induction false} MeasureMonotone(a: seq<Cell>, b: seq<Cell>)
    requires |a| == |b| && forall p :: 0 <= p < |a| ==> Room(b[p]) <= Room(a[p])
    ensures Measure(b) <= Measure(a)
    ensures Measure(b) < Measure(a) <==> exists p :: 0 <= p < |a| && Room(b[p]) < Room(a[p])
    decreases |a|
  {
    if a != [] {
      var n := |a| - 1;
      MeasureMonotone(a[..n], b[..n]);
      assert forall p :: 0 <= p < n ==> a[..n][p] == a[p] && b[..n][p] == b[p];
      if p :| 0 <= p < |a| && Room(b[p]) < Room(a[p]) {
        if p < n {
          assert Room(b[..n][p]) < Room(a[..n][p]);
        }
      }
    }
  }

  /** An expansion that names only `Unknown` types: it has no bit to set. */
  predicate Vacuous(change: TemplateChange) {
    change.TypeExpanded? &&
    forall i :: 0 <= i < |change.slotsExpanded| ==> KnownTypes(change.slotsExpanded[i].addedTypes) == {}
  }

  lemma RoomOfGrown(a: Cell, added: set<ParamType>, b: Cell)
    requires Grows(a, added, b)
    ensures Room(b) <= Room(a)
    ensures Room(b) < Room(a) <==> a.Slot? && added != {}
  {
    if a.Slot? {
      MembersBound(b.types);
      if added != {} {
        var t :| t in added;
        assert t !in Members(a.types);
        SubsetCardinality(Members(a.types) + {t}, Members(b.types));
      } else {
        assert Members(b.types) == Members(a.types);
      }
      SubsetCardinality(Members(a.types), Members(b.types));
    }
  }

  lemma ExpansionMeasure(before: seq<Cell>, change: TemplateChange, after: seq<Cell>)
    requires change.TypeExpanded? && Expanded(before, change.slotsExpanded, after)
    requires forall i :: 0 <= i < |change.slotsExpanded| ==> change.slotsExpanded[i].slotIndex < |SlotsOf(before)|
    ensures Measure(after) <= Measure(before)
    ensures Measure(after) < Measure(before) <==> !Vacuous(change)
  {
    var es := change.slotsExpanded;
    forall p | 0 <= p < |before|
      ensures Room(after[p]) <= Room(before[p])
      ensures Room(after[p]) < Room(before[p]) <==> before[p].Slot? && Declared(es, Ordinal(before, p)) != {}
    {
      RoomOfGrown(before[p], Declared(es, Ordinal(before, p)), after[p]);
    }
    MeasureMonotone(before, after);
    if i :| 0 <= i < |es| && KnownTypes(es[i].addedTypes) != {} {
      var p := OrdinalOnto(before, es[i].slotIndex);
      var t :| t in KnownTypes(es[i].addedTypes);
      assert t in Declared(es, Ordinal(before, p));
      assert Room(after[p]) < Room(before[p]);
    }
  }

  lemma WideningMeasure(before: seq<Cell>, ps: seq<U16>, lineTypes: seq<ParamType>)
    requires ps != [] && Widenable(TokensOf(before), ps, lineTypes)
    ensures Measure(Opened(before, ps, lineTypes)) < Measure(before)
  {
    var after := Opened(before, ps, lineTypes);
    forall p | 0 <= p < |before|
      ensures Room(after[p]) <= Room(before[p])
      ensures p in ps ==> Room(after[p]) < Room(before[p])
    {
      if p in ps {
        var i :| 0 <= i < |ps| && ps[i] == p;
        assert TokensOf(before)[p].Fixed?;
        SeedMembers(lineTypes[p]);
        SubsetCardinality({Str}, Members(Seed(lineTypes[p])));
      }
    }
    assert ps[0] < |before| && ps[0] in ps;
    MeasureMonotone(before, after);
  }

  lemma {:induction false} ExpandEachInRange(slots: seq<SlotTypes>, es: seq<SlotExpansion>)
    requires ExpandEach(slots, es).Some?
    ensures forall i :: 0 <= i < |es| ==> es[i].slotIndex < |slots|
    decreases |es|
  {
    if es != [] {
      ExpandEachInRange(slots, es[..|es| - 1]);
      ExpandEachLength(slots, es[..|es| - 1]);
    }
  }

  /** Every accepted step lowers the measure, except exactly the vacuous ones. */
  lemma StepMeasure(c: Chain, change: TemplateChange, lineTypes: seq<ParamType>)
    requires Aligned(c.typed.tokens, c.typed.slots) && ReplayStep(c, change, lineTypes).Some?
    ensures var d := ReplayStep(c, change, lineTypes).value;
            && Aligned(d.typed.tokens, d.typed.slots)
            && Measure(View(d.typed)) <= Measure(View(c.typed))
            && (Measure(View(d.typed)) < Measure(View(c.typed)) <==> !Vacuous(change))
  {
    StepMoves(c, change, lineTypes);
    var d := ReplayStep(c, change, lineTypes).value;
    var cells := View(c.typed);
    match change
    case Widened(_, _, _, _, ps) => WideningMeasure(cells, ps, lineTypes);
    case TypeExpanded(_, _, _, _, es) =>
      CellsRoundTrip(c.typed.tokens, c.typed.slots);
      ExpandEachInRange(c.typed.slots, es);
      ExpansionMeasure(cells, change, View(d.typed));
  }

  function VacuousSteps(changes: seq<TemplateChange>): nat {
    if changes == [] then 0
    else (if Vacuous(changes[0]) then 1 else 0) + VacuousSteps(changes[1..])
  }

  lemma {:induction false} ChainMeasure(c: Chain, changes: seq<TemplateChange>, lineTypes: seq<ParamType>)
    requires Aligned(c.typed.tokens, c.typed.slots) && Replay(c, changes, lineTypes).Some?
    ensures var d := Replay(c, changes, lineTypes).value;
            && Aligned(d.typed.tokens, d.typed.slots)
            && |changes| + Measure(View(d.typed)) <= Measure(View(c.typed)) + VacuousSteps(changes)
    decreases |changes|
  {
    if changes != [] {
      StepMeasure(c, changes[0], lineTypes);
      ChainMeasure(ReplayStep(c, changes[0], lineTypes).value, changes[1..], lineTypes);
    }
  }

  /** The measure of a leaf. */
  function RoomLeft(leaf: LeafState): nat
    requires Aligned(leaf.tokens, leaf.slotTypes)
  {
    Measure(CellsOf(leaf.tokens, leaf.slotTypes))
  }

  lemma AcceptedMeasure(before: LeafState, changes: seq<TemplateChange>, lineTypes: seq<ParamType>, after: LeafState)
    requires Aligned(before.tokens, before.slotTypes) && Accepts(before, changes, lineTypes, after)
    ensures Aligned(after.tokens, after.slotTypes)
    ensures |changes| + RoomLeft(after) <= RoomLeft(before) + VacuousSteps(changes)
    ensures RoomLeft(before) <= 8 * |before.tokens|
  {
    ChainMeasure(Start(before), changes, lineTypes);
    MeasureBound(View(Start(before).typed));
  }

  /** An n-token template takes at most 8 n steps over any accepted chain, not
      counting steps that declare nothing but `Unknown` types. */
  lemma VersionBound(before: LeafState, changes: seq<TemplateChange>, lineTypes: seq<ParamType>, after: LeafState)
    requires Aligned(before.tokens, before.slotTypes) && Accepts(before, changes, lineTypes, after)
    ensures after.version - before.version == |changes| <= 8 * |before.tokens| + VacuousSteps(changes)
  {
    AcceptedMeasure(before, changes, lineTypes, after);
    ChainAccounted(Start(before), changes, lineTypes);
  }

  // ----- the exclusion of `Unknown` is needed

  function EndlessStep(v: U32): TemplateChange
    requires v + 1 < 0x1_0000_0000
  {
    TypeExpanded(v, v + 1, WILDCARD_TEXT, WILDCARD_TEXT, [SlotExpansion(0, [Unknown(9)])])
  }

  function EndlessChain(v: nat, k: nat): (chain: seq<TemplateChange>)
    requires v + k < 0x1_0000_0000
    ensures |chain| == k
    decreases k
  {
    if k == 0 then [] else [EndlessStep(v)] + EndlessChain(v + 1, k - 1)
  }

  /** One wildcard can take any number of accepted steps, all vacuous. */
  lemma UnknownExpandsForever(v: nat, k: nat, types: SlotTypes)
    requires v + k < 0x1_0000_0000
    ensures |EndlessChain(v, k)| == k
    ensures Accepts(LeafState(v, [Wildcard], [types]), EndlessChain(v, k), [], LeafState(v + k, [Wildcard], [types]))
  {
    assert Printed([Wildcard]) == [WILDCARD_TEXT];
    EndlessReplay(v, k, types);
  }

  lemma {:induction false} EndlessReplay(v: nat, k: nat, types: SlotTypes)
    requires v + k < 0x1_0000_0000
    ensures Replay(Chain(v, WILDCARD_TEXT, Typed([Wildcard], [types])), EndlessChain(v, k), []) ==
            Some(Chain(v + k, WILDCARD_TEXT, Typed([Wildcard], [types])))
    decreases k
  {
    if k > 0 {
      EndlessStepReplays(v, types);
      assert EndlessChain(v, k)[1..] == EndlessChain(v + 1, k - 1);
      EndlessReplay(v + 1, k - 1, types);
    }
  }

  lemma EndlessStepReplays(v: nat, types: SlotTypes)
    requires v + 1 < 0x1_0000_0000
    ensures ReplayStep(Chain(v, WILDCARD_TEXT, Typed([Wildcard], [types])), EndlessStep(v), []) ==
            Some(Chain(v + 1, WILDCARD_TEXT, Typed([Wildcard], [types])))
  {
    assert Printed([Wildcard]) == [WILDCARD_TEXT];
    UnknownAddsNothing(types, 9);
    assert ExpandEach([types], [SlotExpansion(0, [Unknown(9)])]) == Some([types]) by {
      assert [SlotExpansion(0, [Unknown(9)])][..0] == [];
      assert [types][0 := types] == [types];
    }
  }

  lemma UnknownAddsNothing(s: SlotTypes, ordinal: int)
    ensures AddEach(s, [Unknown(ordinal)]) == Some(s)
  {
    OrZero(s.bits);
    assert [Unknown(ordinal)][..0] == [];
    assert AddEach(s, []) == Some(s);
  }
}
