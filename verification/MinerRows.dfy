/** The stored row: parameters aligned with the template's wildcards, and the line
    rebuilt from them. */
module MinerRows {
  import opened Collections
  import opened Wrappers
  import opened AuditEvents
  import opened SlotTypeSets
  import opened Templates
  import opened TemplateOracle
  import opened Lines
  import opened MinerAttach
  import Text

  datatype Param = Param(typeTag: ParamType, value: string)

  datatype Row = Row(templateId: Id, templateVersion: U32, params: seq<Param>, separators: seq<string>,
                     body: Option<string>, lossy: bool)

  /** The tenant's limits, and the text that stands in for an over-long value. */
  datatype Limits = Limits(maxLineTokens: U16, paramBytes: nat, marker: string -> string)

  function CapParam(t: ParamType, value: string, limits: Limits): Param {
    if Text.ByteLength(value) <= limits.paramBytes then Param(t, value)
    else Param(Overflow, limits.marker(value))
  }

  predicate AnyOverflow(params: seq<Param>) {
    exists i :: 0 <= i < |params| && params[i].typeTag == Overflow
  }

  // ----- parameters

  /** One parameter per wildcard, left to right: the line's token there. */
  function RowParams(template: seq<Token>, tokens: seq<string>, types: seq<ParamType>, limits: Limits, n: nat)
    : (params: seq<Param>)
    requires n <= |template| && |template| == |tokens| == |types|
    ensures |params| == WildcardCount(template[..n])
  {
    if n == 0 then [] else
      var init := RowParams(template, tokens, types, limits, n - 1);
      assert template[..n][..n - 1] == template[..n - 1];
      if template[n - 1].Wildcard? then init + [CapParam(types[n - 1], tokens[n - 1], limits)] else init
  }

  /** The source's walk: masked positions are consumed in step with the template. */
  method BuildRecordParams(template: seq<Token>, m: Masked, limits: Limits,
                           ghost tokens: seq<string>, ghost classify: Classifier)
    returns (params: seq<Param>)
    requires IsMasked(tokens, classify, m) && |template| == |tokens|
    requires forall p :: p in m.wildcards ==> template[p].Wildcard?
    ensures params == RowParams(template, tokens, LineTypes(tokens, classify), limits, |template|)
  {
    params := [];
    var k := 0;
    for p := 0 to |template|
      invariant Cursor(m, p, k)
      invariant params == RowParams(template, tokens, LineTypes(tokens, classify), limits, p)
    {
      CursorNext(tokens, classify, m, p, k);
      if template[p].Wildcard? {
        if AtMasked(m, p, k) {
          params := params + [CapParam(m.params[k].typeTag, m.params[k].value, limits)];
          k := k + 1;
        } else {
          params := params + [CapParam(Str, m.strs[p], limits)];
        }
      } else {
        assert !AtMasked(m, p, k) by {
          assert p !in m.wildcards;
        }
      }
    }
  }

  // ----- agreement

  /** A line that was attached shares every literal left, and every masked token of
      it sits at a wildcard: no line is merged across a literal it does not have. */
  lemma AttachAgrees(leaf: LeafState, tokens: seq<string>, classify: Classifier, m: Masked)
    requires IsMasked(tokens, classify, m) && |tokens| == |leaf.tokens| < 0x1_0000
    requires Aligned(leaf.tokens, leaf.slotTypes) && leaf.version + 2 < 0x1_0000_0000
    ensures var (after, plan) := PlanAttach(leaf, m, LineTypes(tokens, classify));
            !plan.Rejected? ==>
              && Agrees(after.tokens, tokens)
              && (forall p :: p in m.wildcards ==> p < |after.tokens| && after.tokens[p].Wildcard?)
  {
    var types := LineTypes(tokens, classify);
    var ps := PlannedPositions(leaf, m, types);
    AttachedTokens(leaf, m, types);
    var marked := Marked(leaf.tokens, ps);
    forall p | 0 <= p < |tokens|
      ensures marked[p].Fixed? ==> marked[p].text == tokens[p]
      ensures p in m.wildcards ==> marked[p].Wildcard?
    {
      assert !Mismatch(m, leaf.tokens, p) ==> p !in ps;
    }
  }

  // ----- rebuilding the line

  /** The words a template and its parameters stand for. */
  function Words(template: seq<Token>, params: seq<Param>): (words: seq<string>)
    requires |params| == WildcardCount(template)
    ensures |words| == |template|
  {
    if template == [] then [] else
      var n := |template| - 1;
      match template[n]
      case Fixed(s) => Words(template[..n], params) + [s]
      case Wildcard => Words(template[..n], params[..|params| - 1]) + [params[|params| - 1].value]
  }

  lemma {:induction false} WordsRecover(template: seq<Token>, tokens: seq<string>, types: seq<ParamType>,
                                        limits: Limits, n: nat)
    requires Agrees(template, tokens) && |types| == |tokens| && n <= |template|
    requires !AnyOverflow(RowParams(template, tokens, types, limits, n))
    ensures Words(template[..n], RowParams(template, tokens, types, limits, n)) == tokens[..n]
    decreases n
  {
    if n > 0 {
      if template[n - 1].Wildcard? {
        LastParam(template, tokens, types, limits, n);
        WordsRecover(template, tokens, types, limits, n - 1);
        RecoverWildcard(template, tokens, types[n - 1], n, RowParams(template, tokens, types, limits, n - 1));
      } else {
        WordsRecover(template, tokens, types, limits, n - 1);
        RecoverFixed(template, tokens, n, RowParams(template, tokens, types, limits, n - 1));
      }
    }
  }

  lemma RecoverWildcard(template: seq<Token>, tokens: seq<string>, t: ParamType, n: nat, params: seq<Param>)
    requires 0 < n <= |template| == |tokens| && template[n - 1].Wildcard?
    requires |params| == WildcardCount(template[..n - 1]) && Words(template[..n - 1], params) == tokens[..n - 1]
    ensures |params| + 1 == WildcardCount(template[..n])
    ensures Words(template[..n], params + [Param(t, tokens[n - 1])]) == tokens[..n]
  {
    TakeNext(template, n - 1);
    TakeNext(tokens, n - 1);
    WordsSnoc(template[..n - 1], params, tokens[n - 1], t);
  }

  lemma RecoverFixed(template: seq<Token>, tokens: seq<string>, n: nat, params: seq<Param>)
    requires 0 < n <= |template| == |tokens| && template[n - 1] == Fixed(tokens[n - 1])
    requires |params| == WildcardCount(template[..n - 1]) && Words(template[..n - 1], params) == tokens[..n - 1]
    ensures |params| == WildcardCount(template[..n]) && Words(template[..n], params) == tokens[..n]
  {
    TakeNext(template, n - 1);
    TakeNext(tokens, n - 1);
    WordsFixed(template[..n - 1], params, tokens[n - 1]);
  }

  /** A parameter that did not overflow is the token itself, and so are those before it. */
  lemma LastParam(template: seq<Token>, tokens: seq<string>, types: seq<ParamType>, limits: Limits, n: nat)
    requires 0 < n <= |template| == |tokens| == |types| && template[n - 1].Wildcard?
    requires !AnyOverflow(RowParams(template, tokens, types, limits, n))
    ensures !AnyOverflow(RowParams(template, tokens, types, limits, n - 1))
    ensures RowParams(template, tokens, types, limits, n) ==
            RowParams(template, tokens, types, limits, n - 1) + [Param(types[n - 1], tokens[n - 1])]
  {
    var init, params := RowParams(template, tokens, types, limits, n - 1),
      RowParams(template, tokens, types, limits, n);
    assert forall i :: 0 <= i < |init| ==> init[i] == params[i];
    assert params[|init|].typeTag != Overflow;
  }

  lemma WordsSnoc(template: seq<Token>, params: seq<Param>, token: string, t: ParamType)
    requires |params| == WildcardCount(template)
    ensures WildcardCount(template + [Wildcard]) == |params| + 1
    ensures Words(template + [Wildcard], params + [Param(t, token)]) == Words(template, params) + [token]
  {
    assert (template + [Wildcard])[..|template|] == template;
    assert (params + [Param(t, token)])[..|params|] == params;
  }

  lemma WordsFixed(template: seq<Token>, params: seq<Param>, token: string)
    requires |params| == WildcardCount(template)
    ensures WildcardCount(template + [Fixed(token)]) == |params|
    ensures Words(template + [Fixed(token)], params) == Words(template, params) + [token]
  {
    assert (template + [Fixed(token)])[..|template|] == template;
  }

  predicate ShapeMatches(row: Row, template: seq<Token>) {
    |row.separators| == |template| + 1 && |row.params| == WildcardCount(template)
  }

  /** The source's walk over the template. */
  method ReconstructFromTemplate(row: Row, template: seq<Token>) returns (out: string)
    requires ShapeMatches(row, template)
    ensures out == Interleave(row.separators, Words(template, row.params))
  {
    out := row.separators[0];
    var k := 0;
    assert row.separators[..1] == [row.separators[0]];
    for i := 0 to |template|
      invariant k == WildcardCount(template[..i]) <= |row.params|
      invariant out == Interleave(row.separators[..i + 1], Words(template[..i], row.params[..k]))
    {
      CountPrefix(template, i);
      RebuildNext(row, template, i, k);
      if template[i].Fixed? {
        out := out + template[i].text;
      } else {
        out := out + row.params[k].value;
        k := k + 1;
      }
      out := out + row.separators[i + 1];
    }
    assert template[..|template|] == template && row.params[..k] == row.params;
    assert row.separators[..|template| + 1] == row.separators;
  }

  lemma RebuildNext(row: Row, template: seq<Token>, i: nat, k: nat)
    requires ShapeMatches(row, template) && i < |template| && k == WildcardCount(template[..i])
    requires WildcardCount(template[..i + 1]) == k + (if template[i].Wildcard? then 1 else 0) <= |row.params|
    ensures template[i].Fixed? ==>
              Interleave(row.separators[..i + 2], Words(template[..i + 1], row.params[..k])) ==
              Interleave(row.separators[..i + 1], Words(template[..i], row.params[..k])) + template[i].text +
                row.separators[i + 1]
    ensures template[i].Wildcard? ==>
              Interleave(row.separators[..i + 2], Words(template[..i + 1], row.params[..k + 1])) ==
              Interleave(row.separators[..i + 1], Words(template[..i], row.params[..k])) + row.params[k].value +
                row.separators[i + 1]
  {
    WordsNext(template, row.params, i, k);
    InterleaveNext(row.separators, Words(template[..i], row.params[..k]), i,
                   if template[i].Fixed? then template[i].text else row.params[k].value);
  }

  lemma {:induction false} CountPrefix(template: seq<Token>, i: nat)
    requires i < |template|
    ensures WildcardCount(template[..i + 1]) == WildcardCount(template[..i]) + if template[i].Wildcard? then 1 else 0
    ensures WildcardCount(template[..i + 1]) <= WildcardCount(template)
    decreases |template|
  {
    assert template[..i + 1][..i] == template[..i];
    var n := |template| - 1;
    if i < n {
      CountPrefix(template[..n], i);
      assert template[..n][..i + 1] == template[..i + 1];
    } else {
      assert template[..i + 1] == template;
    }
  }

  lemma WordsNext(template: seq<Token>, params: seq<Param>, i: nat, k: nat)
    requires i < |template| && k == WildcardCount(template[..i])
    requires template[i].Wildcard? ==> k < |params|
    requires k <= |params| && WildcardCount(template[..i + 1]) == k + if template[i].Wildcard? then 1 else 0
    ensures template[i].Fixed? ==>
              Words(template[..i + 1], params[..k]) == Words(template[..i], params[..k]) + [template[i].text]
    ensures template[i].Wildcard? ==>
              Words(template[..i + 1], params[..k + 1]) == Words(template[..i], params[..k]) + [params[k].value]
  {
    assert template[..i + 1][..i] == template[..i];
    if template[i].Wildcard? {
      assert params[..k + 1][..k] == params[..k];
    }
  }

  lemma InterleaveNext(separators: seq<string>, words: seq<string>, i: nat, word: string)
    requires |words| == i && i + 1 < |separators|
    ensures Interleave(separators[..i + 2], words + [word]) ==
            Interleave(separators[..i + 1], words) + word + separators[i + 1]
  {
    assert separators[..i + 2] == separators[..i + 1] + [separators[i + 1]];
    InterleaveSnoc(separators[..i + 1], words, word, separators[i + 1]);
  }

  datatype Rendered = Faithful(text: string) | RetainedVerbatim(text: string)

  function BodyOrEmpty(row: Row): string {
    if row.body.Some? then row.body.value else ""
  }

  /** What a reader shows for a row, given the template the row names. */
  function Render(row: Row, template: seq<Token>): Rendered {
    if row.lossy || AnyOverflow(row.params) || !ShapeMatches(row, template)
    then RetainedVerbatim(BodyOrEmpty(row))
    else Faithful(Interleave(row.separators, Words(template, row.params)))
  }

  method RenderRow(row: Row, template: seq<Token>) returns (r: Rendered)
    ensures r == Render(row, template)
  {
    if row.lossy || AnyOverflow(row.params) || !ShapeMatches(row, template) {
      return RetainedVerbatim(BodyOrEmpty(row));
    }
    var text := ReconstructFromTemplate(row, template);
    r := Faithful(text);
  }

  /** The row for a line under a template, with the body kept when a value overflowed. */
  function RowFor(id: Id, leaf: LeafState, line: string, tokens: seq<string>, types: seq<ParamType>,
                  limits: Limits, keepBody: bool): Row
    requires |leaf.tokens| == |tokens| == |types|
  {
    var params := RowParams(leaf.tokens, tokens, types, limits, |tokens|);
    Row(id, leaf.version, params, Tokens(line).separators,
        if keepBody || AnyOverflow(params) then Some(line) else None, false)
  }

  /** The line comes back byte for byte from the row and the template it agrees with,
      rebuilt from the template unless a value overflowed. */
  lemma RowRebuildsLine(id: Id, leaf: LeafState, line: string, types: seq<ParamType>, limits: Limits, keepBody: bool)
    requires |types| == |Tokens(line).tokens| && Agrees(leaf.tokens, Tokens(line).tokens)
    ensures var row := RowFor(id, leaf, line, Tokens(line).tokens, types, limits, keepBody);
            Render(row, leaf.tokens) == if AnyOverflow(row.params) then RetainedVerbatim(line) else Faithful(line)
  {
    var tokens := Tokens(line).tokens;
    TokensAreTokenization(line);
    var row := RowFor(id, leaf, line, tokens, types, limits, keepBody);
    assert leaf.tokens[..|tokens|] == leaf.tokens && tokens[..|tokens|] == tokens;
    if !AnyOverflow(row.params) {
      WordsRecover(leaf.tokens, tokens, types, limits, |tokens|);
    }
  }

  // ----- fresh leaves

  /** A wildcard at every masked position, the token itself at every other. */
  function FreshCells(tokens: seq<string>, classify: Classifier): (cells: seq<Cell>)
    ensures |cells| == |tokens|
    ensures forall p :: 0 <= p < |tokens| ==>
              cells[p] == match classify(tokens[p])
                          case None => Lit(tokens[p])
                          case Some(tag) => Slot(Singleton(TagType(tag)))
  {
    seq(|tokens|, p requires 0 <= p < |tokens| =>
      match classify(tokens[p])
      case None => Lit(tokens[p])
      case Some(tag) => Slot(Singleton(TagType(tag))))
  }

  function FreshLeaf(tokens: seq<string>, classify: Classifier): LeafState {
    var cells := FreshCells(tokens, classify);
    LeafState(1, TokensOf(cells), SlotsOf(cells))
  }

  /** The template is read off the masked line with the positions in lockstep, and
      the slots off its parameters in order. */
  method BuildFreshLeaf(m: Masked, ghost tokens: seq<string>, ghost classify: Classifier) returns (leaf: LeafState)
    requires IsMasked(tokens, classify, m)
    ensures leaf == FreshLeaf(tokens, classify)
  {
    var template: seq<Token>, slots: seq<SlotTypes> := [], [];
    var k := 0;
    ghost var cells := FreshCells(tokens, classify);
    for p := 0 to |m.strs|
      invariant Cursor(m, p, k)
      invariant template == TokensOf(cells[..p]) && slots == SlotsOf(cells[..p])
    {
      CursorNext(tokens, classify, m, p, k);
      FreshNext(tokens, classify, p);
      if AtMasked(m, p, k) {
        template, slots := template + [Wildcard], slots + [Singleton(m.params[k].typeTag)];
        k := k + 1;
      } else {
        template := template + [Fixed(m.strs[p])];
      }
    }
    assert cells[..|m.strs|] == cells;
    leaf := LeafState(1, template, slots);
  }

  lemma FreshNext(tokens: seq<string>, classify: Classifier, p: nat)
    requires p < |tokens|
    ensures var cells := FreshCells(tokens, classify);
            && TokensOf(cells[..p + 1]) == TokensOf(cells[..p]) +
                 [if classify(tokens[p]).Some? then Wildcard else Fixed(tokens[p])]
            && SlotsOf(cells[..p + 1]) == SlotsOf(cells[..p]) +
                 (if classify(tokens[p]).Some? then [Singleton(TypeOfToken(tokens[p], classify))] else [])
  {
    var cells := FreshCells(tokens, classify);
    Snoc(cells[..p], cells[p]);
    assert cells[..p + 1] == cells[..p] + [cells[p]];
  }

  lemma FreshLeafAgrees(tokens: seq<string>, classify: Classifier)
    ensures var leaf := FreshLeaf(tokens, classify);
            Agrees(leaf.tokens, tokens) && Aligned(leaf.tokens, leaf.slotTypes)
  {
    SlotCount(FreshCells(tokens, classify));
  }

  function CapEach(params: seq<TypedParam>, limits: Limits): seq<Param> {
    if params == [] then [] else
      var n := |params| - 1;
      CapEach(params[..n], limits) + [CapParam(params[n].typeTag, params[n].value, limits)]
  }

  lemma CapEachSnoc(params: seq<TypedParam>, p: TypedParam, limits: Limits)
    ensures CapEach(params + [p], limits) == CapEach(params, limits) + [CapParam(p.typeTag, p.value, limits)]
  {
    assert (params + [p])[..|params|] == params;
  }

  lemma MaskNext(tokens: seq<string>, classify: Classifier, k: nat)
    requires k < |tokens|
    ensures Mask(tokens[..k + 1], classify).params == Mask(tokens[..k], classify).params +
            match classify(tokens[k]) case None => [] case Some(tag) => [TypedParam(TagType(tag), tokens[k])]
  {
    assert tokens[..k + 1][..k] == tokens[..k];
  }

  /** A template whose wildcards are exactly the masked positions takes the masked
      parameters in line order. */
  lemma {:induction false} MaskedParams(template: seq<Token>, tokens: seq<string>, types: seq<ParamType>,
                                        classify: Classifier, limits: Limits, k: nat)
    requires k <= |tokens| == |template| && types == LineTypes(tokens, classify)
    requires forall p :: 0 <= p < |tokens| ==> (template[p].Wildcard? <==> classify(tokens[p]).Some?)
    ensures RowParams(template, tokens, types, limits, k) == CapEach(Mask(tokens[..k], classify).params, limits)
    decreases k
  {
    if k > 0 {
      MaskedParams(template, tokens, types, classify, limits, k - 1);
      MaskNext(tokens, classify, k - 1);
      var init := Mask(tokens[..k - 1], classify).params;
      match classify(tokens[k - 1])
      case None =>
        assert init + [] == init;
      case Some(tag) =>
        CapEachSnoc(init, TypedParam(TagType(tag), tokens[k - 1]), limits);
    }
  }

  lemma FreshParams(tokens: seq<string>, classify: Classifier, limits: Limits)
    ensures RowParams(FreshLeaf(tokens, classify).tokens, tokens, LineTypes(tokens, classify), limits, |tokens|) ==
            CapEach(Mask(tokens, classify).params, limits)
  {
    MaskedParams(FreshLeaf(tokens, classify).tokens, tokens, LineTypes(tokens, classify), classify, limits, |tokens|);
    assert tokens[..|tokens|] == tokens;
  }
}
