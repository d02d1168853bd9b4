/** Attaching a line to a template: which positions widen, which slots gain a type,
    the events emitted for both, and the parameters stored for the row. */
module MinerAttach {
  import opened Wrappers
  import opened AuditEvents
  import opened SlotTypeSets
  import opened Templates
  import opened TemplateOracle
  import opened Lines
  import Text

  // ----- which positions widen

  /** A literal the line does not share, or shares only through a mask's tag text. */
  predicate Mismatch(m: Masked, template: seq<Token>, p: nat)
    requires p < |template| && |m.strs| == |template|
  {
    template[p].Fixed? && (p in m.wildcards || template[p].text != m.strs[p])
  }

  function WideningPositions(m: Masked, template: seq<Token>, n: nat): (ps: seq<nat>)
    requires n <= |template| && |m.strs| == |template|
    ensures forall i :: 0 <= i < |ps| ==> ps[i] < n
    ensures forall i, j :: 0 <= i < j < |ps| ==> ps[i] < ps[j]
  {
    if n == 0 then [] else
      var init := WideningPositions(m, template, n - 1);
      if Mismatch(m, template, n - 1) then init + [n - 1] else init
  }

  lemma {:induction false} WideningPositionsHold(m: Masked, template: seq<Token>, n: nat, p: nat)
    requires n <= |template| && |m.strs| == |template|
    ensures p in WideningPositions(m, template, n) <==> p < n && Mismatch(m, template, p)
    decreases n
  {
    if n > 0 {
      WideningPositionsHold(m, template, n - 1, p);
    }
  }

  lemma WideningPositionsAre(m: Masked, template: seq<Token>)
    requires |m.strs| == |template|
    ensures forall p :: p in WideningPositions(m, template, |template|) <==>
                        0 <= p < |template| && Mismatch(m, template, p)
  {
    var ps := WideningPositions(m, template, |template|);
    forall p: nat
      ensures p in ps <==> p < |template| && Mismatch(m, template, p)
    {
      WideningPositionsHold(m, template, |template|, p);
    }
  }

  /** Widening `ps` would leave no literal. */
  predicate Degenerate(template: seq<Token>, ps: seq<nat>) {
    forall p :: 0 <= p < |template| && template[p].Fixed? ==> p in ps
  }

  /** The lockstep walk of the guard. */
  method WouldBeDegenerate(template: seq<Token>, ps: seq<nat>) returns (r: bool)
    requires forall i, j :: 0 <= i < j < |ps| ==> ps[i] < ps[j]
    requires forall i :: 0 <= i < |ps| ==> ps[i] < |template| && template[ps[i]].Fixed?
    ensures r <==> Degenerate(template, ps)
  {
    var next := 0;
    for i := 0 to |template|
      invariant 0 <= next <= |ps|
      invariant forall k :: 0 <= k < next ==> ps[k] < i
      invariant forall k :: next <= k < |ps| ==> i <= ps[k]
      invariant forall p :: 0 <= p < i && template[p].Fixed? ==> p in ps
    {
      if template[i].Fixed? {
        if next < |ps| && ps[next] == i {
          next := next + 1;
        } else {
          assert i !in ps;
          return false;
        }
      }
    }
    r := true;
  }

  // ----- which slots gain a type

  /** Every wildcard outside `skip` also holds the line's type there. */
  function Grown(cells: seq<Cell>, skip: seq<U16>, types: seq<ParamType>, n: nat): (grown: seq<Cell>)
    requires n <= |cells| == |types|
    ensures |grown| == |cells|
    ensures forall p :: 0 <= p < |cells| ==>
              grown[p] == if p < n && cells[p].Slot? && p !in skip
                          then Slot(Insert(cells[p].types, types[p])) else cells[p]
  {
    seq(|cells|, p requires 0 <= p < |cells| =>
      if p < n && cells[p].Slot? && p !in skip then Slot(Insert(cells[p].types, types[p])) else cells[p])
  }

  predicate GainsType(cells: seq<Cell>, skip: seq<U16>, types: seq<ParamType>, p: nat)
    requires p < |cells| == |types|
  {
    cells[p].Slot? && p !in skip && !Contains(cells[p].types, types[p])
  }

  /** One expansion per slot that gains a type, by ordinal, left to right. */
  function Collect(cells: seq<Cell>, skip: seq<U16>, types: seq<ParamType>, n: nat): (es: seq<SlotExpansion>)
    requires n <= |cells| == |types| && |cells| < 0x1_0000
    ensures forall i :: 0 <= i < |es| ==> es[i].slotIndex < Ordinal(cells, n)
    ensures forall i, j :: 0 <= i < j < |es| ==> es[i].slotIndex < es[j].slotIndex
  {
    if n == 0 then [] else
      var es := Collect(cells, skip, types, n - 1);
      assert cells[..n][..n - 1] == cells[..n - 1];
      if GainsType(cells, skip, types, n - 1)
      then es + [SlotExpansion(Ordinal(cells, n - 1), [types[n - 1]])] else es
  }

  lemma InsertContained(s: SlotTypes, t: ParamType)
    requires Contains(s, t)
    ensures Insert(s, t) == s
  {
    match t
    case Ip => OneBit(s.bits, 1);
    case Uuid => OneBit(s.bits, 2);
    case Num => OneBit(s.bits, 4);
    case Hex => OneBit(s.bits, 8);
    case Ts => OneBit(s.bits, 16);
    case Path => OneBit(s.bits, 32);
    case Str => OneBit(s.bits, 64);
    case Overflow => OneBit(s.bits, 128);
    case Unknown(_) => OrZero(s.bits);
  }

  lemma OneBit(s: bv8, b: bv8)
    requires b == 1 || b == 2 || b == 4 || b == 8 || b == 16 || b == 32 || b == 64 || b == 128
    requires s & b != 0
    ensures s | b == s
  {
  }

  lemma AddOne(s: SlotTypes, t: ParamType)
    requires !Contains(s, t)
    ensures AddEach(s, [t]) == Some(Insert(s, t))
  {
    assert [t][..0] == [];
    assert AddEach(s, []) == Some(s);
  }

  lemma GrownNext(cells: seq<Cell>, skip: seq<U16>, types: seq<ParamType>, p: nat)
    requires p < |cells| == |types|
    ensures Grown(cells, skip, types, p + 1) ==
            if GainsType(cells, skip, types, p)
            then Grown(cells, skip, types, p)[p := Slot(Insert(cells[p].types, types[p]))]
            else Grown(cells, skip, types, p)
  {
    if cells[p].Slot? && Contains(cells[p].types, types[p]) {
      InsertContained(cells[p].types, types[p]);
    }
  }

  lemma GrownTokens(cells: seq<Cell>, skip: seq<U16>, types: seq<ParamType>, n: nat)
    requires n <= |cells| == |types|
    ensures TokensOf(Grown(cells, skip, types, n)) == TokensOf(cells)
  {
  }

  /** The collected expansions replay to exactly the grown slots. */
  lemma {:induction false} CollectedReplay(cells: seq<Cell>, skip: seq<U16>, types: seq<ParamType>, n: nat)
    requires n <= |cells| == |types| && |cells| < 0x1_0000
    ensures ExpandEach(SlotsOf(cells), Collect(cells, skip, types, n)) ==
            Some(SlotsOf(Grown(cells, skip, types, n)))
    decreases n
  {
    if n == 0 {
      assert Grown(cells, skip, types, 0) == cells;
    } else {
      var p := n - 1;
      CollectedReplay(cells, skip, types, p);
      GrownNext(cells, skip, types, p);
      if GainsType(cells, skip, types, p) {
        ReplayGain(cells, skip, types, p);
      }
    }
  }

  lemma ReplayGain(cells: seq<Cell>, skip: seq<U16>, types: seq<ParamType>, p: nat)
    requires p < |cells| == |types| && |cells| < 0x1_0000 && GainsType(cells, skip, types, p)
    ensures ExpandSlot(SlotsOf(Grown(cells, skip, types, p)), SlotExpansion(Ordinal(cells, p), [types[p]])) ==
            Some(SlotsOf(Grown(cells, skip, types, p)[p := Slot(Insert(cells[p].types, types[p]))]))
  {
    var mid := Grown(cells, skip, types, p);
    GrownTokens(cells, skip, types, p);
    SameOrdinal(cells, mid, p);
    assert mid[p] == cells[p];
    UpdateSlot(mid, p, Insert(cells[p].types, types[p]));
    AddOne(cells[p].types, types[p]);
  }

  // ----- the attach

  datatype AttachPlan =
    | CleanReuse
    | Rejected(change: TemplateChange)
    | Mutated(events: seq<TemplateChange>)

  function ExpandedTo(leaf: LeafState, slots: seq<SlotTypes>, es: seq<SlotExpansion>): (LeafState, AttachPlan)
    requires leaf.version + 1 < 0x1_0000_0000
  {
    var v, text := leaf.version, FormatTemplate(leaf.tokens);
    if es == [] then (leaf, CleanReuse)
    else (LeafState(v + 1, leaf.tokens, slots), Mutated([TypeExpanded(v, v + 1, text, text, es)]))
  }

  function WidenedTo(leaf: LeafState, ps: seq<U16>, template: seq<Token>, slots: seq<SlotTypes>,
                     es: seq<SlotExpansion>, grown: seq<SlotTypes>): (LeafState, AttachPlan)
    requires leaf.version + 2 < 0x1_0000_0000
  {
    var v, text := leaf.version, FormatTemplate(template);
    var widened := Widened(v, v + 1, FormatTemplate(leaf.tokens), text, ps);
    if es == [] then (LeafState(v + 1, template, slots), Mutated([widened]))
    else (LeafState(v + 2, template, grown), Mutated([widened, TypeExpanded(v + 1, v + 2, text, text, es)]))
  }

  /** No literal mismatches: known slots may still see a new type. */
  function ExpandPlan(leaf: LeafState, cells: seq<Cell>, types: seq<ParamType>): (LeafState, AttachPlan)
    requires |cells| == |types| && |cells| < 0x1_0000 && leaf.version + 1 < 0x1_0000_0000
  {
    ExpandedTo(leaf, SlotsOf(Grown(cells, [], types, |cells|)), Collect(cells, [], types, |cells|))
  }

  /** Literals widen at `ps`; slots that were there before may see a new type. */
  function WidenPlan(leaf: LeafState, cells: seq<Cell>, ps: seq<U16>, types: seq<ParamType>): (LeafState, AttachPlan)
    requires |cells| == |types| && |cells| < 0x1_0000 && leaf.version + 2 < 0x1_0000_0000
    requires forall i :: 0 <= i < |ps| ==> ps[i] < |types|
  {
    var wide := Opened(cells, ps, types);
    WidenedTo(leaf, ps, TokensOf(wide), SlotsOf(wide),
              Collect(wide, ps, types, |wide|), SlotsOf(Grown(wide, ps, types, |wide|)))
  }

  /** What attaching does to a leaf, given the masked line and its types. */
  function PlanAttach(leaf: LeafState, m: Masked, types: seq<ParamType>): (LeafState, AttachPlan)
    requires |m.strs| == |types| == |leaf.tokens| < 0x1_0000
    requires Aligned(leaf.tokens, leaf.slotTypes) && leaf.version + 2 < 0x1_0000_0000
  {
    var cells := CellsOf(leaf.tokens, leaf.slotTypes);
    var ps: seq<U16> := WideningPositions(m, leaf.tokens, |leaf.tokens|);
    if ps == [] then ExpandPlan(leaf, cells, types)
    else if Degenerate(leaf.tokens, ps) then
      (leaf, Rejected(RejectedDegenerate(leaf.version, FormatTemplate(leaf.tokens),
                                         FormatTemplate(Marked(leaf.tokens, ps)), ps)))
    else WidenPlan(leaf, cells, ps, types)
  }

  // ----- the events account for the change

  /** Printed tokens can be told apart again: no literal holds a space. */
  predicate SpaceFree(tokens: seq<Token>) {
    forall p :: 0 <= p < |tokens| && tokens[p].Fixed? ==> ' ' !in tokens[p].text
  }

  lemma FormatSplits(tokens: seq<Token>)
    requires tokens != [] && SpaceFree(tokens)
    ensures Text.Split(FormatTemplate(tokens), ' ') == Printed(tokens)
  {
    Text.SplitJoin(Printed(tokens), ' ');
  }

  lemma WidenedShapeHolds(cells: seq<Cell>, ps: seq<U16>, types: seq<ParamType>)
    requires ps != [] && Widenable(TokensOf(cells), ps, types) && SpaceFree(TokensOf(cells))
    ensures WidenedShape(FormatTemplate(TokensOf(cells)), FormatTemplate(TokensOf(Opened(cells, ps, types))), ps)
  {
    var old_, new_ := TokensOf(cells), TokensOf(Opened(cells, ps, types));
    assert ps[0] < |cells|;
    FormatSplits(old_);
    FormatSplits(new_);
    forall i | 0 <= i < |ps|
      ensures ps[i] < |new_| && Printed(new_)[ps[i]] == WILDCARD_TEXT
    {
      assert ps[i] in ps;
    }
  }

  lemma ReplayOne(c: Chain, change: TemplateChange, types: seq<ParamType>)
    ensures Replay(c, [change], types) == ReplayStep(c, change, types)
  {
    assert [change][1..] == [];
    assert forall d :: Replay(d, [], types) == Some(d);
  }

  lemma ReplayTwo(c: Chain, first: TemplateChange, second: TemplateChange, types: seq<ParamType>)
    requires ReplayStep(c, first, types).Some?
    ensures Replay(c, [first, second], types) == ReplayStep(ReplayStep(c, first, types).value, second, types)
  {
    ReplayOne(ReplayStep(c, first, types).value, second, types);
    assert [first, second][1..] == [second];
  }

  lemma ExpansionStepHolds(c: Chain, cells: seq<Cell>, skip: seq<U16>, types: seq<ParamType>)
    requires |cells| == |types| && |cells| < 0x1_0000 && 0 <= c.version && c.version + 1 < 0x1_0000_0000
    requires c.typed == Typed(TokensOf(cells), SlotsOf(cells)) && c.template == FormatTemplate(TokensOf(cells))
    requires Collect(cells, skip, types, |cells|) != []
    ensures ReplayStep(c, TypeExpanded(c.version, c.version + 1, c.template, c.template,
                                       Collect(cells, skip, types, |cells|)), types)
         == Some(Chain(c.version + 1, c.template, Typed(TokensOf(cells), SlotsOf(Grown(cells, skip, types, |cells|)))))
  {
    CollectedReplay(cells, skip, types, |cells|);
    var es, grown := Collect(cells, skip, types, |cells|), Grown(cells, skip, types, |cells|);
    assert ReplayExpansion(c.typed, es) == Some(Typed(TokensOf(cells), SlotsOf(grown)));
    ExpansionSettles(c, es, types, Typed(TokensOf(cells), SlotsOf(grown)));
  }

  lemma ExpansionSettles(c: Chain, es: seq<SlotExpansion>, types: seq<ParamType>, t: Typed)
    requires 0 <= c.version && c.version + 1 < 0x1_0000_0000
    requires ReplayExpansion(c.typed, es) == Some(t) && FormatTemplate(t.tokens) == c.template
    ensures ReplayStep(c, TypeExpanded(c.version, c.version + 1, c.template, c.template, es), types) ==
            Some(Chain(c.version + 1, c.template, t))
  {
  }

  lemma WideningStepHolds(c: Chain, cells: seq<Cell>, ps: seq<U16>, types: seq<ParamType>)
    requires |cells| == |types| && 0 <= c.version && c.version + 1 < 0x1_0000_0000
    requires c.typed == Typed(TokensOf(cells), SlotsOf(cells)) && c.template == FormatTemplate(TokensOf(cells))
    requires ps != [] && Widenable(TokensOf(cells), ps, types) && SpaceFree(TokensOf(cells))
    ensures var wide := Opened(cells, ps, types);
            ReplayStep(c, Widened(c.version, c.version + 1, c.template, FormatTemplate(TokensOf(wide)), ps), types) ==
            Some(Chain(c.version + 1, FormatTemplate(TokensOf(wide)), Typed(TokensOf(wide), SlotsOf(wide))))
  {
    var wide := Opened(cells, ps, types);
    var after := FormatTemplate(TokensOf(wide));
    assert ReplayWidening(c.typed, ps, types) == Some(Typed(TokensOf(wide), SlotsOf(wide))) by {
      WideningOpensCells(cells, ps, types);
    }
    WidenedShapeHolds(cells, ps, types);
    WideningSettles(c, after, ps, types, Typed(TokensOf(wide), SlotsOf(wide)));
  }

  lemma WideningSettles(c: Chain, after: string, ps: seq<U16>, types: seq<ParamType>, t: Typed)
    requires 0 <= c.version && c.version + 1 < 0x1_0000_0000
    requires WidenedShape(c.template, after, ps)
    requires ReplayWidening(c.typed, ps, types) == Some(t) && FormatTemplate(t.tokens) == after
    ensures ReplayStep(c, Widened(c.version, c.version + 1, c.template, after, ps), types) ==
            Some(Chain(c.version + 1, after, t))
  {
  }

  /** The events an attach declares, none for a clean reuse or a rejection. */
  function EventsOf(plan: AttachPlan): seq<TemplateChange> {
    if plan.Mutated? then plan.events else []
  }

  lemma PlannedPositions(leaf: LeafState, m: Masked, types: seq<ParamType>) returns (ps: seq<U16>)
    requires |m.strs| == |types| == |leaf.tokens| < 0x1_0000
    ensures ps == WideningPositions(m, leaf.tokens, |leaf.tokens|)
    ensures Widenable(leaf.tokens, ps, types)
    ensures forall p :: p in ps <==> 0 <= p < |leaf.tokens| && Mismatch(m, leaf.tokens, p)
  {
    WideningPositionsAre(m, leaf.tokens);
    ps := WideningPositions(m, leaf.tokens, |leaf.tokens|);
    forall i | 0 <= i < |ps|
      ensures ps[i] < |leaf.tokens| && leaf.tokens[ps[i]].Fixed?
    {
      assert ps[i] in ps;
    }
  }

  /** Whatever the line, the events an attach emits are exactly the chain the oracle
      replays from the leaf before to the leaf after. */
  lemma AttachIsAccepted(leaf: LeafState, m: Masked, types: seq<ParamType>)
    requires |m.strs| == |types| == |leaf.tokens| < 0x1_0000
    requires Aligned(leaf.tokens, leaf.slotTypes) && leaf.version + 2 < 0x1_0000_0000
    requires SpaceFree(leaf.tokens)
    ensures var (after, plan) := PlanAttach(leaf, m, types);
            Accepts(leaf, EventsOf(plan), types, after)
  {
    var cells := CellsOf(leaf.tokens, leaf.slotTypes);
    CellsRoundTrip(leaf.tokens, leaf.slotTypes);
    var ps := PlannedPositions(leaf, m, types);
    var start := Start(leaf);
    if ps == [] {
      var es := Collect(cells, [], types, |cells|);
      if es != [] {
        ExpansionStepHolds(start, cells, [], types);
        ReplayOne(start, PlanAttach(leaf, m, types).1.events[0], types);
      }
    } else if !Degenerate(leaf.tokens, ps) {
      WideningAttachIsAccepted(leaf, cells, m, types, ps);
    }
  }

  lemma WideningAttachIsAccepted(leaf: LeafState, cells: seq<Cell>, m: Masked, types: seq<ParamType>, ps: seq<U16>)
    requires |m.strs| == |types| == |leaf.tokens| < 0x1_0000
    requires Aligned(leaf.tokens, leaf.slotTypes) && leaf.version + 2 < 0x1_0000_0000
    requires SpaceFree(leaf.tokens)
    requires cells == CellsOf(leaf.tokens, leaf.slotTypes)
    requires TokensOf(cells) == leaf.tokens && SlotsOf(cells) == leaf.slotTypes
    requires ps == WideningPositions(m, leaf.tokens, |leaf.tokens|)
    requires ps != [] && Widenable(leaf.tokens, ps, types) && !Degenerate(leaf.tokens, ps)
    ensures var (after, plan) := PlanAttach(leaf, m, types);
            Accepts(leaf, EventsOf(plan), types, after)
  {
    var start, wide := Start(leaf), Opened(cells, ps, types);
    var text := FormatTemplate(TokensOf(wide));
    var (after, plan) := PlanAttach(leaf, m, types);
    WideningStepHolds(start, cells, ps, types);
    var mid := Chain(leaf.version + 1, text, Typed(TokensOf(wide), SlotsOf(wide)));
    var first := plan.events[0];
    assert ReplayStep(start, first, types) == Some(mid);
    if Collect(wide, ps, types, |wide|) == [] {
      ReplayOne(start, first, types);
    } else {
      ExpansionStepHolds(mid, wide, ps, types);
      ReplayTwo(start, first, plan.events[1], types);
    }
  }

  /** An attach that is not rejected leaves the mismatched literals as wildcards and
      every other token as it was. */
  lemma AttachedTokens(leaf: LeafState, m: Masked, types: seq<ParamType>)
    requires |m.strs| == |types| == |leaf.tokens| < 0x1_0000
    requires Aligned(leaf.tokens, leaf.slotTypes) && leaf.version + 2 < 0x1_0000_0000
    ensures var (after, plan) := PlanAttach(leaf, m, types);
            !plan.Rejected? ==> after.tokens == Marked(leaf.tokens, WideningPositions(m, leaf.tokens, |leaf.tokens|))
  {
    var ps := PlannedPositions(leaf, m, types);
    var cells := CellsOf(leaf.tokens, leaf.slotTypes);
    assert TokensOf(cells) == leaf.tokens by {
      CellsRoundTrip(leaf.tokens, leaf.slotTypes);
    }
    if ps == [] {
      assert Marked(leaf.tokens, ps) == leaf.tokens;
    } else {
      OpenedTokens(cells, ps, types);
    }
  }

  lemma OpenedTokens(cells: seq<Cell>, ps: seq<U16>, types: seq<ParamType>)
    requires forall i :: 0 <= i < |ps| ==> ps[i] < |types|
    ensures TokensOf(Opened(cells, ps, types)) == Marked(TokensOf(cells), ps)
  {
  }
}
