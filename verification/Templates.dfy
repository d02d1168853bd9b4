/** A mined template: typed tokens, the type set of each wildcard slot by ordinal,
    and the position-by-position view those two lists stand for. */
module Templates {
  import opened AuditEvents
  import opened SlotTypeSets
  import Text

  datatype Token = Fixed(text: string) | Wildcard

  datatype LeafState = LeafState(version: U32, tokens: seq<Token>, slotTypes: seq<SlotTypes>)

  const WILDCARD_TEXT := "<*>"

  function PrintToken(t: Token): string {
    match t
    case Fixed(s) => s
    case Wildcard => WILDCARD_TEXT
  }

  function Printed(tokens: seq<Token>): (words: seq<string>)
    ensures |words| == |tokens|
    ensures forall i :: 0 <= i < |tokens| ==> words[i] == PrintToken(tokens[i])
  {
    seq(|tokens|, i requires 0 <= i < |tokens| => PrintToken(tokens[i]))
  }

  /** The canonical form: printed tokens joined by single spaces. */
  function FormatTemplate(tokens: seq<Token>): string {
    Text.Join(Printed(tokens), ' ')
  }

  function WildcardCount(tokens: seq<Token>): (n: nat)
    ensures n <= |tokens|
  {
    if tokens == [] then 0
    else WildcardCount(tokens[..|tokens| - 1]) + if tokens[|tokens| - 1].Wildcard? then 1 else 0
  }

  /** One type set per wildcard. */
  predicate Aligned(tokens: seq<Token>, slots: seq<SlotTypes>) {
    |slots| == WildcardCount(tokens)
  }

  /** The line shares every literal of the template. */
  predicate Agrees(template: seq<Token>, tokens: seq<string>) {
    |template| == |tokens| && forall p :: 0 <= p < |tokens| && template[p].Fixed? ==> template[p].text == tokens[p]
  }

  /** A literal stays or becomes a wildcard; a wildcard stays. */
  predicate VersionStep(older: seq<Token>, newer: seq<Token>) {
    |older| == |newer| && forall p :: 0 <= p < |older| ==> newer[p] == older[p] || newer[p].Wildcard?
  }

  lemma VersionStepTransitive(a: seq<Token>, b: seq<Token>, c: seq<Token>)
    requires VersionStep(a, b) && VersionStep(b, c)
    ensures VersionStep(a, c)
  {
    forall p | 0 <= p < |a|
      ensures c[p] == a[p] || c[p].Wildcard?
    {
      assert b[p] == a[p] || b[p].Wildcard?;
    }
  }

  // ----- the position-by-position view

  datatype Cell = Lit(text: string) | Slot(types: SlotTypes)

  function TokenOf(c: Cell): Token {
    match c
    case Lit(s) => Fixed(s)
    case Slot(_) => Wildcard
  }

  function TokensOf(cells: seq<Cell>): (tokens: seq<Token>)
    ensures |tokens| == |cells|
    ensures forall i :: 0 <= i < |cells| ==> tokens[i] == TokenOf(cells[i])
  {
    seq(|cells|, i requires 0 <= i < |cells| => TokenOf(cells[i]))
  }

  /** The type sets of the wildcard cells, left to right. */
  function SlotsOf(cells: seq<Cell>): (slots: seq<SlotTypes>)
    ensures |slots| <= |cells|
  {
    if cells == [] then [] else
      var init, last := SlotsOf(cells[..|cells| - 1]), cells[|cells| - 1];
      if last.Slot? then init + [last.types] else init
  }

  /** Slot `k` is the type set of the `k`-th wildcard. */
  function CellsOf(tokens: seq<Token>, slots: seq<SlotTypes>): (cells: seq<Cell>)
    requires Aligned(tokens, slots)
    ensures |cells| == |tokens|
  {
    if tokens == [] then [] else
      var n := |tokens| - 1;
      match tokens[n]
      case Fixed(s) => CellsOf(tokens[..n], slots) + [Lit(s)]
      case Wildcard => CellsOf(tokens[..n], slots[..|slots| - 1]) + [Slot(slots[|slots| - 1])]
  }

  lemma Snoc(cells: seq<Cell>, c: Cell)
    ensures TokensOf(cells + [c]) == TokensOf(cells) + [TokenOf(c)]
    ensures SlotsOf(cells + [c]) == SlotsOf(cells) + if c.Slot? then [c.types] else []
  {
    assert (cells + [c])[..|cells|] == cells;
  }

  /** The two lists and the view determine each other. */
  lemma {:induction false} CellsRoundTrip(tokens: seq<Token>, slots: seq<SlotTypes>)
    requires Aligned(tokens, slots)
    ensures TokensOf(CellsOf(tokens, slots)) == tokens
    ensures SlotsOf(CellsOf(tokens, slots)) == slots
    decreases |tokens|
  {
    if tokens == [] {
      assert TokensOf([]) == tokens;
    } else {
      var n := |tokens| - 1;
      Last(tokens);
      if tokens[n].Fixed? {
        CellsRoundTrip(tokens[..n], slots);
        Snoc(CellsOf(tokens[..n], slots), Lit(tokens[n].text));
      } else {
        var m := |slots| - 1;
        Last(slots);
        CellsRoundTrip(tokens[..n], slots[..m]);
        Snoc(CellsOf(tokens[..n], slots[..m]), Slot(slots[m]));
      }
    }
  }

  lemma Last<T>(s: seq<T>)
    requires s != []
    ensures s == s[..|s| - 1] + [s[|s| - 1]]
  {
  }

  lemma CellsOfSnoc(tokens: seq<Token>, slots: seq<SlotTypes>, c: Cell)
    requires Aligned(tokens, slots)
    ensures var ts, ss := tokens + [TokenOf(c)], slots + if c.Slot? then [c.types] else [];
            Aligned(ts, ss) && CellsOf(ts, ss) == CellsOf(tokens, slots) + [c]
  {
    assert (tokens + [TokenOf(c)])[..|tokens|] == tokens;
    if c.Slot? {
      assert (slots + [c.types])[..|slots|] == slots;
    } else {
      assert slots + [] == slots;
    }
  }

  lemma {:induction false} CellsUnique(cells: seq<Cell>)
    ensures Aligned(TokensOf(cells), SlotsOf(cells))
    ensures CellsOf(TokensOf(cells), SlotsOf(cells)) == cells
    decreases |cells|
  {
    if cells != [] {
      var init, c := cells[..|cells| - 1], cells[|cells| - 1];
      CellsUnique(init);
      Last(cells);
      Snoc(init, c);
      CellsOfSnoc(TokensOf(init), SlotsOf(init), c);
    }
  }

  lemma SlotCount(cells: seq<Cell>)
    ensures |SlotsOf(cells)| == WildcardCount(TokensOf(cells))
  {
    CellsUnique(cells);
  }

  lemma AppendLast<T>(a: seq<T>, b: seq<T>)
    requires b != []
    ensures (a + b)[..|a + b| - 1] == a + b[..|b| - 1] && (a + b)[|a + b| - 1] == b[|b| - 1]
  {
  }

  lemma {:induction false} SlotsOfAppend(a: seq<Cell>, b: seq<Cell>)
    ensures SlotsOf(a + b) == SlotsOf(a) + SlotsOf(b)
    decreases |b|
  {
    if b == [] {
      assert a + b == a;
    } else {
      SlotsOfAppend(a, b[..|b| - 1]);
      AppendLast(a, b);
    }
  }

  /** The ordinal of a wildcard: how many wildcards come before it. */
  function Ordinal(cells: seq<Cell>, p: nat): nat
    requires p <= |cells|
  {
    |SlotsOf(cells[..p])|
  }

  lemma Around<T>(s: seq<T>, p: nat, x: T)
    requires p < |s|
    ensures s == s[..p] + [s[p]] + s[p + 1..]
    ensures s[p := x] == s[..p] + [x] + s[p + 1..]
  {
  }

  lemma InsertBetween<T>(a: seq<T>, x: T, b: seq<T>)
    ensures (a + [] + b)[..|a|] + [x] + (a + [] + b)[|a|..] == a + [x] + b
  {
    assert a + [] + b == a + b;
    assert (a + b)[..|a|] == a && (a + b)[|a|..] == b;
  }

  lemma ReplaceBetween<T>(a: seq<T>, x: T, y: T, b: seq<T>)
    ensures (a + [x] + b)[|a| := y] == a + [y] + b
    ensures (a + [x] + b)[|a|] == x
  {
  }

  lemma SlotsAround(a: seq<Cell>, c: Cell, b: seq<Cell>)
    ensures SlotsOf(a + [c] + b) == SlotsOf(a) + (if c.Slot? then [c.types] else []) + SlotsOf(b)
  {
    Snoc(a, c);
    SlotsOfAppend(a + [c], b);
  }

  /** Opening a slot at `p` inserts its set at the ordinal of `p`. */
  lemma OpenSlot(cells: seq<Cell>, p: nat, types: SlotTypes)
    requires p < |cells| && cells[p].Lit?
    ensures Ordinal(cells, p) <= |SlotsOf(cells)|
    ensures SlotsOf(cells[p := Slot(types)]) ==
            SlotsOf(cells)[..Ordinal(cells, p)] + [types] + SlotsOf(cells)[Ordinal(cells, p)..]
  {
    var a, b := cells[..p], cells[p + 1..];
    Around(cells, p, Slot(types));
    SlotsAround(a, cells[p], b);
    SlotsAround(a, Slot(types), b);
    InsertBetween(SlotsOf(a), types, SlotsOf(b));
  }

  /** The set of a wildcard is found, and replaced, at its ordinal. */
  lemma UpdateSlot(cells: seq<Cell>, p: nat, types: SlotTypes)
    requires p < |cells| && cells[p].Slot?
    ensures Ordinal(cells, p) < |SlotsOf(cells)|
    ensures SlotsOf(cells)[Ordinal(cells, p)] == cells[p].types
    ensures SlotsOf(cells[p := Slot(types)]) == SlotsOf(cells)[Ordinal(cells, p) := types]
  {
    var a, b := cells[..p], cells[p + 1..];
    Around(cells, p, Slot(types));
    SlotsAround(a, cells[p], b);
    SlotsAround(a, Slot(types), b);
    ReplaceBetween(SlotsOf(a), cells[p].types, types, SlotsOf(b));
  }

  /** Every ordinal in range is the ordinal of exactly one wildcard. */
  lemma {:induction false} OrdinalOnto(cells: seq<Cell>, k: nat) returns (p: nat)
    requires k < |SlotsOf(cells)|
    ensures p < |cells| && cells[p].Slot? && Ordinal(cells, p) == k
    decreases |cells|
  {
    var n := |cells| - 1;
    assert cells[..n][..n] == cells[..n];
    if k == |SlotsOf(cells[..n])| {
      p := n;
    } else {
      p := OrdinalOnto(cells[..n], k);
      assert cells[..n][..p] == cells[..p];
    }
  }
}
