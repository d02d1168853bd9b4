/** A log line as the miner sees it: tokens and separators, and the masked tokens. */
module Lines {
  import opened Wrappers
  import opened AuditEvents
  import Text

  datatype Tokenized = Tokenized(tokens: seq<string>, separators: seq<string>)

  // ----- tokens and separators

  predicate AllWhitespace(s: string) {
    forall i :: 0 <= i < |s| ==> Text.IsWhitespace(s[i])
  }

  predicate IsWord(s: string) {
    s != "" && forall i :: 0 <= i < |s| ==> !Text.IsWhitespace(s[i])
  }

  /** Separators and tokens in turn, a separator at each end. */
  function Interleave(separators: seq<string>, tokens: seq<string>): string
    requires |separators| == |tokens| + 1
  {
    if tokens == [] then separators[0] else
      var n := |tokens| - 1;
      Interleave(separators[..n + 1], tokens[..n]) + tokens[n] + separators[n + 1]
  }

  /** The line is its separators and tokens, nothing lost, and only whitespace
      separates. */
  ghost predicate IsTokenization(line: string, t: Tokenized) {
    && |t.separators| == |t.tokens| + 1
    && Interleave(t.separators, t.tokens) == line
    && (forall i :: 0 <= i < |t.tokens| ==> IsWord(t.tokens[i]))
    && (forall i :: 0 <= i < |t.separators| ==> AllWhitespace(t.separators[i]))
    && (forall i :: 0 < i < |t.tokens| ==> t.separators[i] != "")
  }

  /** The scan after some characters: what is complete, and the run in hand. */
  datatype Scan = Scan(tokens: seq<string>, separators: seq<string>, inToken: bool, run: string)

  function ScanChar(s: Scan, c: char): Scan {
    match (s.inToken, Text.IsWhitespace(c))
    case (false, false) => Scan(s.tokens, s.separators + [s.run], true, [c])
    case (true, true) => Scan(s.tokens + [s.run], s.separators, false, [c])
    case _ => s.(run := s.run + [c])
  }

  function ScanLine(line: string): Scan {
    if line == "" then Scan([], [], false, "")
    else ScanChar(ScanLine(line[..|line| - 1]), line[|line| - 1])
  }

  function Finish(s: Scan): Tokenized {
    if s.inToken then Tokenized(s.tokens + [s.run], s.separators + [""])
    else Tokenized(s.tokens, s.separators + [s.run])
  }

  function Tokens(line: string): Tokenized {
    Finish(ScanLine(line))
  }

  /** What a scan has seen so far is a tokenization in the making. */
  ghost predicate Scanned(line: string, s: Scan) {
    && IsTokenization(line, Finish(s))
    && (s.inToken ==> |s.separators| == |s.tokens| + 1 && IsWord(s.run))
    && (!s.inToken ==> |s.separators| == |s.tokens| && AllWhitespace(s.run) && (s.tokens != [] ==> s.run != ""))
  }

  lemma InterleaveSnoc(separators: seq<string>, tokens: seq<string>, token: string, separator: string)
    requires |separators| == |tokens| + 1
    ensures Interleave(separators + [separator], tokens + [token]) ==
            Interleave(separators, tokens) + token + separator
  {
    assert (separators + [separator])[..|tokens| + 1] == separators;
    assert (tokens + [token])[..|tokens|] == tokens;
  }

  /** Growing the last separator grows the line at its end. */
  lemma InterleaveGrow(separators: seq<string>, tokens: seq<string>, last: string, c: char)
    requires |separators| == |tokens|
    ensures Interleave(separators + [last + [c]], tokens) == Interleave(separators + [last], tokens) + [c]
  {
    if tokens != [] {
      var n := |tokens| - 1;
      assert (separators + [last])[..n + 1] == separators == (separators + [last + [c]])[..n + 1];
      var init := Interleave(separators, tokens[..n]) + tokens[n];
      assert init + (last + [c]) == (init + last) + [c];
    }
  }

  lemma StartToken(line: string, s: Scan, c: char)
    requires Scanned(line, s) && !s.inToken && !Text.IsWhitespace(c)
    ensures Scanned(line + [c], ScanChar(s, c))
  {
    var t := ScanChar(s, c);
    var done := s.separators + [s.run];
    InterleaveSnoc(done, s.tokens, [c], "");
    assert Interleave(done, s.tokens) + [c] + "" == line + [c];
  }

  lemma EndToken(line: string, s: Scan, c: char)
    requires Scanned(line, s) && s.inToken && Text.IsWhitespace(c)
    ensures Scanned(line + [c], ScanChar(s, c))
  {
    InterleaveGrow(s.separators, s.tokens + [s.run], "", c);
    assert "" + [c] == [c];
    var t := Finish(ScanChar(s, c));
    assert forall i :: 0 <= i < |s.separators| ==> t.separators[i] == Finish(s).separators[i];
  }

  lemma GrowToken(line: string, s: Scan, c: char)
    requires Scanned(line, s) && s.inToken && !Text.IsWhitespace(c)
    ensures Scanned(line + [c], ScanChar(s, c))
  {
    InterleaveSnoc(s.separators, s.tokens, s.run, "");
    InterleaveSnoc(s.separators, s.tokens, s.run + [c], "");
    var init := Interleave(s.separators, s.tokens);
    assert init + (s.run + [c]) + "" == (init + s.run + "") + [c];
  }

  lemma GrowSeparator(line: string, s: Scan, c: char)
    requires Scanned(line, s) && !s.inToken && Text.IsWhitespace(c)
    ensures Scanned(line + [c], ScanChar(s, c))
  {
    InterleaveGrow(s.separators, s.tokens, s.run, c);
    var t := Finish(ScanChar(s, c));
    assert forall i :: 0 <= i < |s.separators| ==> t.separators[i] == Finish(s).separators[i];
  }

  lemma {:induction false} ScanIsTokenization(line: string)
    ensures Scanned(line, ScanLine(line))
    decreases |line|
  {
    if line != "" {
      var n := |line| - 1;
      ScanIsTokenization(line[..n]);
      var s, c := ScanLine(line[..n]), line[n];
      assert line == line[..n] + [c];
      if s.inToken {
        if Text.IsWhitespace(c) { EndToken(line[..n], s, c); } else { GrowToken(line[..n], s, c); }
      } else {
        if Text.IsWhitespace(c) { GrowSeparator(line[..n], s, c); } else { StartToken(line[..n], s, c); }
      }
    }
  }

  /** Tokenizing loses nothing. */
  lemma TokensAreTokenization(line: string)
    ensures IsTokenization(line, Tokens(line))
  {
    ScanIsTokenization(line);
  }

  /** The first zero byte. */
  ghost predicate FirstZero(bytes: seq<Text.Byte>, at: nat) {
    at < |bytes| && bytes[at] == 0 && 0 !in bytes[..at]
  }

  method FindZero(bytes: seq<Text.Byte>) returns (at: Option<nat>)
    ensures at.None? <==> 0 !in bytes
    ensures at.Some? ==> FirstZero(bytes, at.value)
  {
    for i := 0 to |bytes|
      invariant 0 !in bytes[..i]
    {
      if bytes[i] == 0 {
        return Some(i);
      }
    }
    assert bytes[..|bytes|] == bytes;
    at := None;
  }

  /** The first zero byte is where the first NUL is encoded: no other character has one. */
  lemma ZeroIsNul(line: string, i: nat)
    requires i < |line| && '\0' !in line[..i]
    ensures FirstZero(Text.Utf8(line), |Text.Utf8(line[..i])|) <==> line[i] == '\0'
  {
    var before, here, after := Text.Utf8(line[..i]), Text.EncodeChar(line[i]), Text.Utf8(line[i + 1..]);
    assert line == line[..i] + ([line[i]] + line[i + 1..]);
    Text.Utf8Append(line[..i], [line[i]] + line[i + 1..]);
    Text.Utf8Append([line[i]], line[i + 1..]);
    assert Text.Utf8([line[i]]) == here;
    assert Text.Utf8(line) == before + (here + after);
    Text.ZeroEncodesNul(line[..i]);
    assert Text.Utf8(line)[..|before|] == before;
    assert Text.Utf8(line)[|before|] == here[0];
  }

  /** One more character: a cut where a token begins or ends, otherwise a longer run. */
  lemma ScanNext(line: string, i: nat, s: Scan, start: nat)
    requires start <= i < |line| && s == ScanLine(line[..i]) && s.run == line[start..i]
    ensures var blank := Text.IsWhitespace(line[i]);
            ScanLine(line[..i + 1]) ==
            if !s.inToken && !blank then Scan(s.tokens, s.separators + [s.run], true, line[i..i + 1])
            else if s.inToken && blank then Scan(s.tokens + [s.run], s.separators, false, line[i..i + 1])
            else s.(run := line[start..i + 1])
  {
    ScanSnoc(line, i);
    SliceNext(line, start, i);
    SliceNext(line, i, i);
  }

  lemma ScanSnoc(line: string, i: nat)
    requires i < |line|
    ensures ScanLine(line[..i + 1]) == ScanChar(ScanLine(line[..i]), line[i])
  {
    assert line[..i + 1][..i] == line[..i];
  }

  lemma SliceNext(line: string, start: nat, i: nat)
    requires start <= i < |line|
    ensures line[start..i + 1] == line[start..i] + [line[i]]
    ensures start == i ==> line[start..i + 1] == [line[i]]
  {
  }

  /** One pass over the positions, cutting at each change between token and
      separator. */
  method SplitLine(line: string) returns (t: Tokenized)
    ensures t == Tokens(line)
  {
    var tokens: seq<string>, separators: seq<string> := [], [];
    var start, inToken := 0, false;
    for i := 0 to |line|
      invariant 0 <= start <= i
      invariant ScanLine(line[..i]) == Scan(tokens, separators, inToken, line[start..i])
    {
      ScanNext(line, i, Scan(tokens, separators, inToken, line[start..i]), start);
      if !inToken && !Text.IsWhitespace(line[i]) {
        separators := separators + [line[start..i]];
        start, inToken := i, true;
      } else if inToken && Text.IsWhitespace(line[i]) {
        tokens := tokens + [line[start..i]];
        start, inToken := i, false;
      }
    }
    assert line[..|line|] == line;
    if inToken {
      tokens, separators := tokens + [line[start..|line|]], separators + [""];
    } else {
      separators := separators + [line[start..|line|]];
    }
    t := Tokenized(tokens, separators);
  }

  /** The error is the byte offset of the first NUL. */
  method Tokenize(line: string) returns (r: Result<Tokenized, nat>)
    ensures r.Err? <==> '\0' in line
    ensures r.Err? ==> forall i :: 0 <= i < |line| && line[i] == '\0' && '\0' !in line[..i] ==>
                                     r.error == Text.ByteLength(line[..i])
    ensures r.Ok? ==> r.value == Tokens(line) && IsTokenization(line, r.value)
  {
    var nul := FindZero(Text.Utf8(line));
    Text.ZeroEncodesNul(line);
    if nul.Some? {
      OffsetOfNul(line, nul.value);
      return Err(nul.value);
    }
    var t := SplitLine(line);
    TokensAreTokenization(line);
    r := Ok(t);
  }

  lemma OffsetOfNul(line: string, at: nat)
    requires FirstZero(Text.Utf8(line), at)
    ensures forall i :: 0 <= i < |line| && line[i] == '\0' && '\0' !in line[..i] ==> at == Text.ByteLength(line[..i])
  {
    forall i | 0 <= i < |line| && line[i] == '\0' && '\0' !in line[..i]
      ensures at == Text.ByteLength(line[..i])
    {
      ZeroIsNul(line, i);
      OneFirst(Text.Utf8(line), at, Text.ByteLength(line[..i]));
    }
  }

  lemma OneFirst(bytes: seq<Text.Byte>, a: nat, b: nat)
    requires FirstZero(bytes, a) && FirstZero(bytes, b)
    ensures a == b
  {
    assert forall i :: 0 <= i < a ==> bytes[..a][i] == bytes[i] && bytes[i] != 0;
    assert forall i :: 0 <= i < b ==> bytes[..b][i] == bytes[i] && bytes[i] != 0;
  }

  // ----- masked tokens

  /** The tags masking can emit. */
  datatype MaskTag = TagUuid | TagIp | TagTs | TagNum

  /** The masking rules: which tag, if any, a whole token matches. */
  type Classifier = string -> Option<MaskTag>

  datatype TypedParam = TypedParam(typeTag: ParamType, value: string)

  datatype Masked = Masked(strs: seq<string>, wildcards: seq<nat>, params: seq<TypedParam>)

  function TagText(tag: MaskTag): string {
    match tag
    case TagUuid => "<UUID>"
    case TagIp => "<IP>"
    case TagTs => "<TS>"
    case TagNum => "<NUM>"
  }

  function TagType(tag: MaskTag): ParamType {
    match tag
    case TagUuid => Uuid
    case TagIp => Ip
    case TagTs => Ts
    case TagNum => Num
  }

  function Mask(tokens: seq<string>, classify: Classifier): Masked {
    if tokens == [] then Masked([], [], []) else
      var n := |tokens| - 1;
      var m, token := Mask(tokens[..n], classify), tokens[n];
      match classify(token)
      case None => m.(strs := m.strs + [token])
      case Some(tag) =>
        Masked(m.strs + [TagText(tag)], m.wildcards + [n], m.params + [TypedParam(TagType(tag), token)])
  }

  /** The type the line carries at a position: its mask's, or `Str`. */
  function TypeOfToken(token: string, classify: Classifier): ParamType {
    match classify(token)
    case None => Str
    case Some(tag) => TagType(tag)
  }

  function LineTypes(tokens: seq<string>, classify: Classifier): (types: seq<ParamType>)
    ensures |types| == |tokens|
    ensures forall p :: 0 <= p < |tokens| ==> types[p] == TypeOfToken(tokens[p], classify)
  {
    seq(|tokens|, p requires 0 <= p < |tokens| => TypeOfToken(tokens[p], classify))
  }

  /** Masking keeps positions, and lists exactly the classified ones, in order, each
      with its type and its original token. */
  ghost predicate IsMasked(tokens: seq<string>, classify: Classifier, m: Masked) {
    && |m.strs| == |tokens|
    && |m.params| == |m.wildcards|
    && (forall p :: 0 <= p < |tokens| && classify(tokens[p]).None? ==> m.strs[p] == tokens[p])
    && (forall i, j :: 0 <= i < j < |m.wildcards| ==> m.wildcards[i] < m.wildcards[j])
    && (forall p :: p in m.wildcards <==> 0 <= p < |tokens| && classify(tokens[p]).Some?)
    && (forall k :: 0 <= k < |m.wildcards| ==>
          && m.wildcards[k] < |tokens|
          && m.params[k] == TypedParam(TypeOfToken(tokens[m.wildcards[k]], classify), tokens[m.wildcards[k]]))
  }

  lemma MaskPlain(tokens: seq<string>, classify: Classifier, m: Masked, token: string)
    requires IsMasked(tokens, classify, m) && classify(token).None?
    ensures IsMasked(tokens + [token], classify, m.(strs := m.strs + [token]))
  {
    var all := tokens + [token];
    assert forall p :: 0 <= p < |tokens| ==> all[p] == tokens[p];
  }

  lemma MaskTagged(tokens: seq<string>, classify: Classifier, m: Masked, token: string, tag: MaskTag)
    requires IsMasked(tokens, classify, m) && classify(token) == Some(tag)
    ensures IsMasked(tokens + [token], classify,
                     Masked(m.strs + [TagText(tag)], m.wildcards + [|tokens|],
                            m.params + [TypedParam(TagType(tag), token)]))
  {
    var n, all := |tokens|, tokens + [token];
    var wildcards, params := m.wildcards + [n], m.params + [TypedParam(TagType(tag), token)];
    forall k | 0 <= k < |wildcards|
      ensures wildcards[k] < |all|
      ensures k < |m.wildcards| ==> wildcards[k] < n
      ensures params[k] == TypedParam(TypeOfToken(all[wildcards[k]], classify), all[wildcards[k]])
    {
      if k < |m.wildcards| {
        assert wildcards[k] == m.wildcards[k];
        assert all[m.wildcards[k]] == tokens[m.wildcards[k]];
      }
    }
    forall p
      ensures p in wildcards <==> 0 <= p < |all| && classify(all[p]).Some?
    {
      assert p in wildcards <==> p in m.wildcards || p == n;
      if 0 <= p < n { assert all[p] == tokens[p]; }
    }
    assert forall p :: 0 <= p < n ==> all[p] == tokens[p];
  }

  lemma {:induction false} MaskIsMasked(tokens: seq<string>, classify: Classifier)
    ensures IsMasked(tokens, classify, Mask(tokens, classify))
    decreases |tokens|
  {
    if tokens != [] {
      var n := |tokens| - 1;
      MaskIsMasked(tokens[..n], classify);
      assert tokens == tokens[..n] + [tokens[n]];
      match classify(tokens[n])
      case None => MaskPlain(tokens[..n], classify, Mask(tokens[..n], classify), tokens[n]);
      case Some(tag) => MaskTagged(tokens[..n], classify, Mask(tokens[..n], classify), tokens[n], tag);
    }
  }

  method MaskTokens(tokens: seq<string>, classify: Classifier) returns (m: Masked)
    ensures m == Mask(tokens, classify) && IsMasked(tokens, classify, m)
  {
    m := Masked([], [], []);
    for i := 0 to |tokens|
      invariant m == Mask(tokens[..i], classify)
    {
      assert tokens[..i + 1][..i] == tokens[..i];
      match classify(tokens[i]) {
        case Some(tag) =>
          m := Masked(m.strs + [TagText(tag)], m.wildcards + [i],
                      m.params + [TypedParam(TagType(tag), tokens[i])]);
        case None =>
          m := m.(strs := m.strs + [tokens[i]]);
      }
    }
    assert tokens[..|tokens|] == tokens;
    MaskIsMasked(tokens, classify);
  }

  /** Halve the stretch of ascending positions that can still hold `p`, down to one. */
  method FindPosition(ps: seq<nat>, p: nat) returns (at: Option<nat>)
    requires forall i, j :: 0 <= i < j < |ps| ==> ps[i] < ps[j]
    ensures at.None? <==> p !in ps
    ensures at.Some? ==> at.value < |ps| && ps[at.value] == p
  {
    if ps == [] {
      return None;
    }
    var base: nat, size := 0, |ps|;
    while size > 1
      invariant 1 <= size && base + size <= |ps|
      invariant base == 0 || ps[base] <= p
      invariant base + size == |ps| || p < ps[base + size]
      decreases size
    {
      var half := size / 2;
      if ps[base + half] <= p {
        base := base + half;
      }
      size := size - half;
    }
    at := if ps[base] == p then Some(base) else None;
  }

  method ParamTypeForLinePosition(p: nat, m: Masked, ghost tokens: seq<string>, ghost classify: Classifier)
    returns (t: ParamType)
    requires IsMasked(tokens, classify, m) && p < |tokens|
    ensures t == LineTypes(tokens, classify)[p]
  {
    var at := FindPosition(m.wildcards, p);
    t := if at.Some? then m.params[at.value].typeTag else Str;
  }

  /** A walk at position `p` that has consumed the first `k` masked positions. */
  ghost predicate Cursor(m: Masked, p: nat, k: nat) {
    && k <= |m.wildcards|
    && (forall i :: 0 <= i < k ==> m.wildcards[i] < p)
    && (forall i :: k <= i < |m.wildcards| ==> p <= m.wildcards[i])
  }

  predicate AtMasked(m: Masked, p: nat, k: nat) {
    k < |m.wildcards| && m.wildcards[k] == p
  }

  /** The walk meets each masked position exactly when it gets there. */
  lemma CursorNext(tokens: seq<string>, classify: Classifier, m: Masked, p: nat, k: nat)
    requires IsMasked(tokens, classify, m) && p < |tokens| && Cursor(m, p, k)
    ensures AtMasked(m, p, k) <==> classify(tokens[p]).Some?
    ensures AtMasked(m, p, k) ==> Cursor(m, p + 1, k + 1) &&
                                  m.params[k] == TypedParam(TypeOfToken(tokens[p], classify), tokens[p])
    ensures !AtMasked(m, p, k) ==> Cursor(m, p + 1, k) && m.strs[p] == tokens[p]
  {
    if AtMasked(m, p, k) {
      assert m.wildcards[k] in m.wildcards;
    } else {
      assert p !in m.wildcards;
    }
  }
}
