/** The audit-chain oracle: which chains of template events account for what an
    ingest did to a leaf.  `None` stands for a failed assertion. */
module TemplateOracle {
  import opened Wrappers
  import opened AuditEvents
  import opened SlotTypeSets
  import opened Templates
  import Text

  /** The typed template carried through a chain. */
  datatype Typed = Typed(tokens: seq<Token>, slots: seq<SlotTypes>)

  /** Where a replay stands: the last declared version and template, and the typed
      template they must describe. */
  datatype Chain = Chain(version: int, template: string, typed: Typed)

  predicate Increasing(ps: seq<U16>) {
    forall i, j :: 0 <= i < j < |ps| ==> ps[i] < ps[j]
  }

  /** A widened slot starts as `Str` and the line's type there. */
  function Seed(t: ParamType): SlotTypes {
    Insert(Singleton(Str), t)
  }

  function WidenTyped(tokens: seq<Token>, p: nat): Option<seq<Token>> {
    if p < |tokens| && tokens[p].Fixed? then Some(tokens[p := Wildcard]) else None
  }

  function WidenEach(tokens: seq<Token>, ps: seq<U16>): Option<seq<Token>> {
    if ps == [] then Some(tokens) else
      match WidenEach(tokens, ps[..|ps| - 1])
      case None => None
      case Some(ts) => WidenTyped(ts, ps[|ps| - 1])
  }

  /** The new slot's ordinal counts the wildcards before it on the fully widened
      template. */
  function SeedSlot(tokens: seq<Token>, slots: seq<SlotTypes>, p: nat, lineTypes: seq<ParamType>)
    : Option<seq<SlotTypes>>
  {
    if p > |tokens| || p >= |lineTypes| then None else
      var ordinal := WildcardCount(tokens[..p]);
      if ordinal > |slots| then None
      else Some(slots[..ordinal] + [Seed(lineTypes[p])] + slots[ordinal..])
  }

  function SeedEach(tokens: seq<Token>, slots: seq<SlotTypes>, ps: seq<U16>, lineTypes: seq<ParamType>)
    : Option<seq<SlotTypes>>
  {
    if ps == [] then Some(slots) else
      match SeedEach(tokens, slots, ps[..|ps| - 1], lineTypes)
      case None => None
      case Some(ss) => SeedSlot(tokens, ss, ps[|ps| - 1], lineTypes)
  }

  function ReplayWidening(t: Typed, ps: seq<U16>, lineTypes: seq<ParamType>): Option<Typed> {
    if !Increasing(ps) then None else
      match WidenEach(t.tokens, ps)
      case None => None
      case Some(tokens) =>
        match SeedEach(tokens, t.slots, ps, lineTypes)
        case None => None
        case Some(slots) => Some(Typed(tokens, slots))
  }

  function AddEach(s: SlotTypes, added: seq<ParamType>): Option<SlotTypes> {
    if added == [] then Some(s) else
      match AddEach(s, added[..|added| - 1])
      case None => None
      case Some(r) =>
        var t := added[|added| - 1];
        if Contains(r, t) then None else Some(Insert(r, t))
  }

  function ExpandSlot(slots: seq<SlotTypes>, e: SlotExpansion): Option<seq<SlotTypes>> {
    if e.slotIndex >= |slots| || e.addedTypes == [] then None else
      match AddEach(slots[e.slotIndex], e.addedTypes)
      case None => None
      case Some(s) => Some(slots[e.slotIndex := s])
  }

  function ExpandEach(slots: seq<SlotTypes>, es: seq<SlotExpansion>): Option<seq<SlotTypes>> {
    if es == [] then Some(slots) else
      match ExpandEach(slots, es[..|es| - 1])
      case None => None
      case Some(ss) => ExpandSlot(ss, es[|es| - 1])
  }

  /** At least one slot, each at most once. */
  predicate NamesSlotsOnce(es: seq<SlotExpansion>) {
    es != [] && forall i, j :: 0 <= i < j < |es| ==> es[i].slotIndex != es[j].slotIndex
  }

  function ReplayExpansion(t: Typed, es: seq<SlotExpansion>): Option<Typed> {
    if !NamesSlotsOnce(es) then None else
      match ExpandEach(t.slots, es)
      case None => None
      case Some(slots) => Some(Typed(t.tokens, slots))
  }

  /** On the printed templates: exactly declared positions change, into wildcards. */
  predicate WidenedShape(old_: string, new_: string, ps: seq<U16>) {
    var olds, news := Text.Split(old_, ' '), Text.Split(new_, ' ');
    && |olds| == |news|
    && ps != []
    && (forall i :: 0 <= i < |ps| ==> ps[i] < |news| && news[ps[i]] == WILDCARD_TEXT)
    && (forall p :: 0 <= p < |olds| && olds[p] != news[p] ==> p in ps)
  }

  /** The step continues the chain from where it stands. */
  predicate Continues(c: Chain, oldVersion: U32, newVersion: U32, oldTemplate: string) {
    oldVersion == c.version && newVersion == c.version + 1 && oldTemplate == c.template
  }

  /** The replayed tokens must print as the event says. */
  function Settle(t: Option<Typed>, version: U32, template: string): Option<Chain> {
    if t.None? || FormatTemplate(t.value.tokens) != template then None
    else Some(Chain(version, template, t.value))
  }

  function ReplayStep(c: Chain, change: TemplateChange, lineTypes: seq<ParamType>): Option<Chain> {
    match change
    case Widened(oldVersion, newVersion, oldTemplate, newTemplate, ps) =>
      if !Continues(c, oldVersion, newVersion, oldTemplate) || !WidenedShape(oldTemplate, newTemplate, ps)
      then None
      else Settle(ReplayWidening(c.typed, ps, lineTypes), newVersion, newTemplate)
    case TypeExpanded(oldVersion, newVersion, oldTemplate, newTemplate, es) =>
      if !Continues(c, oldVersion, newVersion, oldTemplate) || oldTemplate != newTemplate
      then None
      else Settle(ReplayExpansion(c.typed, es), newVersion, newTemplate)
    case _ => None
  }

  function Replay(c: Chain, changes: seq<TemplateChange>, lineTypes: seq<ParamType>): Option<Chain>
    decreases |changes|
  {
    if changes == [] then Some(c) else
      match ReplayStep(c, changes[0], lineTypes)
      case None => None
      case Some(d) => Replay(d, changes[1..], lineTypes)
  }

  function Start(leaf: LeafState): Chain {
    Chain(leaf.version, FormatTemplate(leaf.tokens), Typed(leaf.tokens, leaf.slotTypes))
  }

  /** An existing leaf moved from `before` to `after` exactly as `changes` declare. */
  predicate Accepts(before: LeafState, changes: seq<TemplateChange>, lineTypes: seq<ParamType>, after: LeafState) {
    match Replay(Start(before), changes, lineTypes)
    case None => false
    case Some(end) =>
      && end.typed == Typed(after.tokens, after.slotTypes)
      && end.version == after.version
      && end.template == FormatTemplate(after.tokens)
  }

  /** A new leaf is born at version 1 with one event carrying its tokens. */
  predicate AcceptsCreated(changes: seq<TemplateChange>, after: LeafState) {
    && after.version == 1
    && changes == [Created(FormatTemplate(after.tokens))]
  }

  // ----- widening on the position-by-position view

  predicate LiteralsAt(tokens: seq<Token>, ps: seq<U16>) {
    forall i :: 0 <= i < |ps| ==> ps[i] < |tokens| && tokens[ps[i]].Fixed?
  }

  /** What a widening needs: literals, in order, at positions the line has. */
  predicate Widenable(tokens: seq<Token>, ps: seq<U16>, lineTypes: seq<ParamType>) {
    && Increasing(ps)
    && LiteralsAt(tokens, ps)
    && (forall i :: 0 <= i < |ps| ==> ps[i] < |lineTypes|)
  }

  function Marked(tokens: seq<Token>, ps: seq<U16>): (marked: seq<Token>)
    ensures |marked| == |tokens|
    ensures forall i :: 0 <= i < |tokens| ==> marked[i] == if i in ps then Wildcard else tokens[i]
  {
    seq(|tokens|, i requires 0 <= i < |tokens| => if i in ps then Wildcard else tokens[i])
  }

  function Opened(cells: seq<Cell>, ps: seq<U16>, lineTypes: seq<ParamType>): (wide: seq<Cell>)
    requires forall i :: 0 <= i < |ps| ==> ps[i] < |lineTypes|
    ensures |wide| == |cells|
    ensures forall i :: 0 <= i < |cells| ==>
              wide[i] == if i in ps then Slot(Seed(lineTypes[i])) else cells[i]
  {
    seq(|cells|, i requires 0 <= i < |cells| => if i in ps then Slot(Seed(lineTypes[i])) else cells[i])
  }

  lemma LastIsNew(ps: seq<U16>)
    requires Increasing(ps) && ps != []
    ensures ps[|ps| - 1] !in ps[..|ps| - 1]
  {
  }

  lemma MarkNext(tokens: seq<Token>, init: seq<U16>, p: U16)
    requires p !in init && LiteralsAt(tokens, init)
    ensures LiteralsAt(tokens, init + [p]) <==> p < |tokens| && tokens[p].Fixed?
    ensures WidenTyped(Marked(tokens, init), p) ==
            if LiteralsAt(tokens, init + [p]) then Some(Marked(tokens, init + [p])) else None
  {
    var ps := init + [p];
    assert ps[|init|] == p;
    if p < |tokens| {
      assert Marked(tokens, init)[p := Wildcard] == Marked(tokens, ps);
    }
  }

  lemma {:induction false} WidenEachResult(tokens: seq<Token>, ps: seq<U16>)
    requires Increasing(ps)
    ensures WidenEach(tokens, ps) == if LiteralsAt(tokens, ps) then Some(Marked(tokens, ps)) else None
    decreases |ps|
  {
    if ps == [] {
      assert Marked(tokens, ps) == tokens;
    } else {
      var n := |ps| - 1;
      WidenEachResult(tokens, ps[..n]);
      LastIsNew(ps);
      assert ps == ps[..n] + [ps[n]];
      if LiteralsAt(tokens, ps[..n]) {
        MarkNext(tokens, ps[..n], ps[n]);
      }
    }
  }

  /** The ordinal of the next seeded slot never runs past the slots in hand. */
  lemma SeedNext(cells: seq<Cell>, ps: seq<U16>, k: nat, lineTypes: seq<ParamType>)
    requires Widenable(TokensOf(cells), ps, lineTypes) && k < |ps|
    ensures SeedSlot(Marked(TokensOf(cells), ps), SlotsOf(Opened(cells, ps[..k], lineTypes)), ps[k], lineTypes)
         == Some(SlotsOf(Opened(cells, ps[..k + 1], lineTypes)))
  {
    var full := Marked(TokensOf(cells), ps);
    var mid := Opened(cells, ps[..k], lineTypes);
    var p := ps[k];
    assert full[..p] == TokensOf(mid[..p]);
    SlotCount(mid[..p]);
    OpenSlot(mid, p, Seed(lineTypes[p]));
    assert ps[..k + 1] == ps[..k] + [p];
    assert mid[p := Slot(Seed(lineTypes[p]))] == Opened(cells, ps[..k + 1], lineTypes);
  }

  lemma {:induction false} SeedEachResult(cells: seq<Cell>, ps: seq<U16>, k: nat, lineTypes: seq<ParamType>)
    requires Widenable(TokensOf(cells), ps, lineTypes) && k <= |ps|
    ensures SeedEach(Marked(TokensOf(cells), ps), SlotsOf(cells), ps[..k], lineTypes)
         == Some(SlotsOf(Opened(cells, ps[..k], lineTypes)))
    decreases k
  {
    if k == 0 {
      assert Opened(cells, ps[..0], lineTypes) == cells;
    } else {
      SeedEachResult(cells, ps, k - 1, lineTypes);
      assert ps[..k][..k - 1] == ps[..k - 1];
      SeedNext(cells, ps, k - 1, lineTypes);
    }
  }

  lemma {:induction false} SeedEachNeedsLine(tokens: seq<Token>, slots: seq<SlotTypes>, ps: seq<U16>,
                                             lineTypes: seq<ParamType>)
    requires SeedEach(tokens, slots, ps, lineTypes).Some?
    ensures forall i :: 0 <= i < |ps| ==> ps[i] < |lineTypes|
    decreases |ps|
  {
    if ps != [] {
      SeedEachNeedsLine(tokens, slots, ps[..|ps| - 1], lineTypes);
    }
  }

  /** Replaying a widening by ordinals is opening the declared cells, and it fails
      only for positions that are out of order, absent, or already wildcards: the
      ordinal check itself never fails on an aligned leaf. */
  lemma WideningOpensCells(cells: seq<Cell>, ps: seq<U16>, lineTypes: seq<ParamType>)
    ensures ReplayWidening(Typed(TokensOf(cells), SlotsOf(cells)), ps, lineTypes) ==
            if Widenable(TokensOf(cells), ps, lineTypes)
            then Some(Typed(TokensOf(Opened(cells, ps, lineTypes)), SlotsOf(Opened(cells, ps, lineTypes))))
            else None
  {
    var tokens := TokensOf(cells);
    if Increasing(ps) {
      WidenEachResult(tokens, ps);
      if Widenable(tokens, ps, lineTypes) {
        SeedEachResult(cells, ps, |ps|, lineTypes);
        assert ps[..|ps|] == ps;
        assert Marked(tokens, ps) == TokensOf(Opened(cells, ps, lineTypes));
      } else if WidenEach(tokens, ps).Some? {
        if SeedEach(Marked(tokens, ps), SlotsOf(cells), ps, lineTypes).Some? {
          SeedEachNeedsLine(Marked(tokens, ps), SlotsOf(cells), ps, lineTypes);
        }
      }
    }
  }

  // ----- expansion on the position-by-position view

  function KnownTypes(added: seq<ParamType>): set<ParamType> {
    set t | t in added && !t.Unknown?
  }

  lemma {:induction false} AddEachEffect(s: SlotTypes, added: seq<ParamType>)
    requires AddEach(s, added).Some?
    ensures Members(AddEach(s, added).value) == Members(s) + KnownTypes(added)
    ensures Members(s) !! KnownTypes(added)
    decreases |added|
  {
    if added != [] {
      var n := |added| - 1;
      AddEachEffect(s, added[..n]);
      InsertMembers(AddEach(s, added[..n]).value, added[n]);
      ContainsMembers(AddEach(s, added[..n]).value, added[n]);
      assert added == added[..n] + [added[n]];
      assert KnownTypes(added) == KnownTypes(added[..n]) + Known(added[n]);
    }
  }

  /** The known types `es` declares for slot `k`. */
  function Declared(es: seq<SlotExpansion>, k: nat): set<ParamType> {
    set i, t | 0 <= i < |es| && es[i].slotIndex == k && t in KnownTypes(es[i].addedTypes) :: t
  }

  lemma DeclaredSnoc(es: seq<SlotExpansion>, e: SlotExpansion, k: nat)
    ensures Declared(es + [e], k) ==
            Declared(es, k) + if e.slotIndex == k then KnownTypes(e.addedTypes) else {}
  {
    var all := es + [e];
    forall t | t in Declared(es, k)
      ensures t in Declared(all, k)
    {
      var i :| 0 <= i < |es| && es[i].slotIndex == k && t in KnownTypes(es[i].addedTypes);
      assert all[i] == es[i];
    }
    if e.slotIndex == k {
      assert all[|es|] == e;
    }
  }

  /** Every slot gains exactly its declared types, all of them new to it. */
  lemma {:induction false} ExpandEachEffect(slots: seq<SlotTypes>, es: seq<SlotExpansion>, k: nat)
    requires ExpandEach(slots, es).Some? && k < |slots|
    ensures |ExpandEach(slots, es).value| == |slots|
    ensures Members(ExpandEach(slots, es).value[k]) == Members(slots[k]) + Declared(es, k)
    ensures Members(slots[k]) !! Declared(es, k)
    decreases |es|
  {
    if es != [] {
      var n := |es| - 1;
      var e := es[n];
      ExpandEachEffect(slots, es[..n], k);
      assert es == es[..n] + [e];
      DeclaredSnoc(es[..n], e, k);
      if e.slotIndex == k {
        AddEachEffect(ExpandEach(slots, es[..n]).value[k], e.addedTypes);
      }
    }
  }

  /** `b` is `a`, or, at a wildcard, `a` with exactly the new types `added`. */
  ghost predicate Grows(a: Cell, added: set<ParamType>, b: Cell) {
    if a.Lit? then b == a
    else b.Slot? && Members(b.types) == Members(a.types) + added && Members(a.types) !! added
  }

  /** What a type expansion does to the cells: literals stay, the wildcard with
      ordinal `k` gains the types declared for slot `k`. */
  ghost predicate Expanded(before: seq<Cell>, es: seq<SlotExpansion>, after: seq<Cell>) {
    && |after| == |before|
    && (forall p :: 0 <= p < |before| ==> Grows(before[p], Declared(es, Ordinal(before, p)), after[p]))
  }

  lemma ExpansionGrowsCells(cells: seq<Cell>, es: seq<SlotExpansion>, slots: seq<SlotTypes>)
    requires ExpandEach(SlotsOf(cells), es) == Some(slots)
    ensures Aligned(TokensOf(cells), slots)
    ensures Expanded(cells, es, CellsOf(TokensOf(cells), slots))
  {
    SlotCount(cells);
    ExpandEachLength(SlotsOf(cells), es);
    var after := CellsOf(TokensOf(cells), slots);
    CellsRoundTrip(TokensOf(cells), slots);
    forall p | 0 <= p < |cells|
      ensures Grows(cells[p], Declared(es, Ordinal(cells, p)), after[p])
    {
      assert TokensOf(after)[p] == TokensOf(cells)[p];
      if cells[p].Slot? {
        SameOrdinal(cells, after, p);
        UpdateSlot(cells, p, cells[p].types);
        UpdateSlot(after, p, after[p].types);
        ExpandEachEffect(SlotsOf(cells), es, Ordinal(cells, p));
      }
    }
  }

  lemma {:induction false} ExpandEachLength(slots: seq<SlotTypes>, es: seq<SlotExpansion>)
    requires ExpandEach(slots, es).Some?
    ensures |ExpandEach(slots, es).value| == |slots|
    decreases |es|
  {
    if es != [] {
      ExpandEachLength(slots, es[..|es| - 1]);
    }
  }

  /** Ordinals depend on the tokens alone. */
  lemma SameOrdinal(a: seq<Cell>, b: seq<Cell>, p: nat)
    requires TokensOf(a) == TokensOf(b) && p <= |a|
    ensures Ordinal(a, p) == Ordinal(b, p)
  {
    SlotCount(a[..p]);
    SlotCount(b[..p]);
    assert TokensOf(a[..p]) == TokensOf(a)[..p] == TokensOf(b)[..p] == TokensOf(b[..p]);
  }
}
