/** One run's results, and the rows they become. */
module ResultsRows {
  import opened Wrappers
  import opened ResultsBlocks
  import opened ResultsClean
  import Text

  predicate IsNumeralChar(c: char) {
    Text.IsDigit(c) || c == '.' || c == '-' || 'A' <= c <= 'Z' || 'a' <= c <= 'z'
  }

  /** What a number is formatted as: digits, a point, a sign, or a name such as `NaN`. */
  predicate IsNumeral(s: string) {
    s != "" && forall i :: 0 <= i < |s| ==> IsNumeralChar(s[i])
  }

  type Numeral = s: string | IsNumeral(s) witness "0"

  datatype A1Result = A1Result(delta: Numeral, ourios: Numeral, zstd: Numeral, target: Numeral, pass: bool)

  datatype C1Result = C1Result(rate: Numeral, good: Numeral, total: Numeral, lossy: Numeral, pass: bool)

  datatype C2Result = C2Result(countAt1M: Option<Numeral>, ratio: Option<Numeral>, countAtEnd: nat, atLeast1M: bool,
                               pass: Option<bool>)

  datatype Results = Results(timestamp: string, key: Key, a1: Option<A1Result>, c1: Option<C1Result>,
                             c2: Option<C2Result>)

  // ----- rows

  /** Words in a row, single spaces between. */
  function Spaced(words: seq<string>): string {
    Text.Join(words, ' ')
  }

  function Verdict(pass: bool): string {
    if pass then "PASS" else "FAIL"
  }

  const TIMES := "\U{D7}"
  const AT_LEAST := "\U{2265}"
  const DASH := "\U{2014}"

  function A1Words(r: A1Result): seq<string> {
    ["delta", r.delta + TIMES, "(ourios", r.ourios + TIMES, "/", "zstd-19", r.zstd + TIMES + ")"]
  }

  function A1Row(r: A1Result): GateRow {
    GateRow(Spaced(A1Words(r)), Spaced([AT_LEAST, r.target + TIMES]), Verdict(r.pass))
  }

  function C1Words(r: C1Result): seq<string> {
    [r.rate, "(" + r.good + "/" + r.total, "non-lossy;", "lossy", r.lossy + ")"]
  }

  function C1Row(r: C1Result): GateRow {
    GateRow(Spaced(C1Words(r)), "1.000000", Verdict(r.pass))
  }

  /** The ratio and the count at one million lines come together, and exactly when the
      corpus is that long and mined something. */
  predicate C2Consistent(hasCount: bool, hasRatio: bool, atLeast1M: bool, countAtEnd: nat) {
    || (hasCount && hasRatio)
    || (!hasCount && !hasRatio && atLeast1M && countAtEnd == 0)
    || (!hasCount && !hasRatio && !atLeast1M)
  }

  predicate Consistent(r: C2Result) {
    C2Consistent(r.countAt1M.Some?, r.ratio.Some?, r.atLeast1M, r.countAtEnd)
  }

  function C2Words(r: C2Result): seq<string>
    requires Consistent(r)
  {
    if r.countAt1M.Some? then
      ["whole-corpus", "ratio", r.ratio.value, "(count@1M", r.countAt1M.value, "/", "SS",
       Text.Decimal(r.countAtEnd) + ")", DASH, "diagnostic;", "verdict", "is", "per-service"]
    else if r.atLeast1M then ["n/a", "(SS", "0", DASH, "no", "templates", "mined)"]
    else ["n/a", "(SS", Text.Decimal(r.countAtEnd) + ",", "corpus", "<", "1", "M", "lines)"]
  }

  function C2Verdict(pass: Option<bool>): string {
    match pass
    case Some(p) => Verdict(p)
    case None => "ABSTAIN"
  }

  function C2Row(r: C2Result): GateRow
    requires Consistent(r)
  {
    GateRow(Spaced(C2Words(r)), Spaced([AT_LEAST, "0.5"]), C2Verdict(r.pass))
  }

  // ----- rows are clean

  predicate PlainChar(c: char) {
    c != '|' && c != '\n' && c != '!'
  }

  predicate Plain(s: string) {
    forall i :: 0 <= i < |s| ==> PlainChar(s[i])
  }

  /** Nonempty, plain, and no whitespace in it. */
  predicate IsWord(s: string) {
    s != "" && Plain(s) && forall i :: 0 <= i < |s| ==> !Text.IsWhitespace(s[i])
  }

  predicate AllWords(words: seq<string>) {
    forall k :: 0 <= k < |words| ==> IsWord(words[k])
  }

  lemma WordAppend(a: string, b: string)
    requires IsWord(a) && IsWord(b)
    ensures IsWord(a + b)
  {
  }

  lemma JoinedCell(word: string, rest: string)
    requires IsWord(word) && rest != "" && Plain(rest) && Text.Trimmed(rest)
    ensures var s := word + [' '] + rest; s != "" && Plain(s) && Text.Trimmed(s)
  {
    var s := word + [' '] + rest;
    assert s[0] == word[0] && s[|s| - 1] == rest[|rest| - 1];
  }

  lemma {:induction false} SpacedPlain(words: seq<string>)
    requires words != [] && AllWords(words)
    ensures Spaced(words) != "" && Plain(Spaced(words)) && Text.Trimmed(Spaced(words))
    decreases |words|
  {
    if |words| > 1 {
      SpacedPlain(words[1..]);
      JoinedCell(words[0], Spaced(words[1..]));
    }
  }

  lemma PlainCell(s: string)
    requires Plain(s) && Text.Trimmed(s)
    ensures IsCell(s) && Free(s)
  {
    FreeWithoutBang(s);
  }

  lemma SpacedCell(words: seq<string>)
    requires words != [] && AllWords(words)
    ensures IsCell(Spaced(words)) && Free(Spaced(words))
  {
    SpacedPlain(words);
    PlainCell(Spaced(words));
  }

  /** Reading the words back. */
  lemma SpacedReads(words: seq<string>)
    requires words != [] && AllWords(words)
    ensures Text.Split(Spaced(words), ' ') == words
  {
    forall i | 0 <= i < |words|
      ensures ' ' !in words[i]
    {
      assert IsWord(words[i]);
    }
    Text.SplitJoin(words, ' ');
  }

  lemma NumeralIsWord(s: Numeral)
    ensures IsWord(s) && '/' !in s
  {
  }

  lemma DecimalNumeral(n: nat)
    ensures IsNumeral(Text.Decimal(n))
  {
    Text.DecimalDigits(n);
  }

  lemma VerdictClean(pass: Option<bool>)
    ensures IsCell(C2Verdict(pass)) && Free(C2Verdict(pass))
  {
    PlainCell(C2Verdict(pass));
  }

  lemma Signs()
    ensures IsWord(TIMES) && IsWord(AT_LEAST) && IsWord(DASH)
    ensures IsWord("(") && IsWord(")") && IsWord("/") && IsWord(",")
  {
  }

  lemma A1AreWords(r: A1Result)
    ensures AllWords(A1Words(r)) && AllWords([AT_LEAST, r.target + TIMES])
  {
    Signs();
    NumeralIsWord(r.delta);
    NumeralIsWord(r.ourios);
    NumeralIsWord(r.zstd);
    NumeralIsWord(r.target);
    WordAppend(r.delta, TIMES);
    WordAppend(r.ourios, TIMES);
    WordAppend(r.zstd, TIMES);
    WordAppend(r.zstd + TIMES, ")");
    WordAppend(r.target, TIMES);
    assert IsWord("delta") && IsWord("(ourios") && IsWord("zstd-19");
  }

  lemma A1Clean(r: A1Result)
    ensures CleanRow(A1Row(r))
  {
    A1AreWords(r);
    SpacedCell(A1Words(r));
    SpacedCell([AT_LEAST, r.target + TIMES]);
    VerdictClean(Some(r.pass));
  }

  lemma C1AreWords(r: C1Result)
    ensures AllWords(C1Words(r))
  {
    Signs();
    NumeralIsWord(r.rate);
    NumeralIsWord(r.good);
    NumeralIsWord(r.total);
    NumeralIsWord(r.lossy);
    WordAppend("(", r.good);
    WordAppend("(" + r.good, "/");
    WordAppend("(" + r.good + "/", r.total);
    WordAppend(r.lossy, ")");
    assert IsWord("non-lossy;") && IsWord("lossy");
  }

  lemma C1Clean(r: C1Result)
    ensures CleanRow(C1Row(r))
  {
    C1AreWords(r);
    SpacedCell(C1Words(r));
    PlainCell("1.000000");
    VerdictClean(Some(r.pass));
  }

  lemma RatioWords()
    ensures IsWord("whole-corpus") && IsWord("ratio") && IsWord("(count@1M") && IsWord("SS")
  {
  }

  lemma ServiceWords()
    ensures IsWord("diagnostic;") && IsWord("verdict") && IsWord("is") && IsWord("per-service")
  {
  }

  lemma EmptyWords()
    ensures IsWord("n/a") && IsWord("(SS") && IsWord("0") && IsWord("no") && IsWord("templates") && IsWord("mined)")
  {
  }

  lemma ShortWords()
    ensures IsWord("corpus") && IsWord("<") && IsWord("1") && IsWord("M") && IsWord("lines)") && IsWord("0.5")
  {
  }

  lemma C2AreWords(r: C2Result)
    requires Consistent(r)
    ensures AllWords(C2Words(r)) && AllWords([AT_LEAST, "0.5"])
  {
    Signs();
    DecimalNumeral(r.countAtEnd);
    NumeralIsWord(Text.Decimal(r.countAtEnd));
    WordAppend(Text.Decimal(r.countAtEnd), ")");
    WordAppend(Text.Decimal(r.countAtEnd), ",");
    if r.countAt1M.Some? {
      NumeralIsWord(r.ratio.value);
      NumeralIsWord(r.countAt1M.value);
    }
    RatioWords();
    ServiceWords();
    EmptyWords();
    ShortWords();
  }

  lemma C2Clean(r: C2Result)
    requires Consistent(r)
    ensures CleanRow(C2Row(r))
  {
    C2AreWords(r);
    SpacedCell(C2Words(r));
    SpacedCell([AT_LEAST, "0.5"]);
    VerdictClean(r.pass);
  }

  // ----- what a reader finds in the rows

  /** The verdict column: one word, by the outcome alone. */
  ghost predicate SaysOf(verdict: string, pass: Option<bool>) {
    && (verdict == "PASS" <==> pass == Some(true))
    && (verdict == "FAIL" <==> pass == Some(false))
    && (verdict == "ABSTAIN" <==> pass == None)
  }

  /** Word by word: our ratio over the baseline's, then each of them, each marked as a factor. */
  ghost predicate ReadsAsA1(row: GateRow, r: A1Result) {
    var words := Text.Split(row.measurement, ' ');
    && |words| == 7 && words[0] == "delta" && words[1] == r.delta + "\U{D7}"
    && words[2] == "(ourios" && words[3] == r.ourios + "\U{D7}"
    && words[5] == "zstd-19" && words[6] == r.zstd + "\U{D7})"
    && Text.Split(row.target, ' ') == ["\U{2265}", r.target + "\U{D7}"]
    && SaysOf(row.verdict, Some(r.pass))
  }

  lemma A1Says(r: A1Result)
    ensures ReadsAsA1(A1Row(r), r)
  {
    A1AreWords(r);
    SpacedReads(A1Words(r));
    SpacedReads([AT_LEAST, r.target + TIMES]);
    assert TIMES + ")" == "\U{D7})" && r.zstd + TIMES + ")" == r.zstd + (TIMES + ")");
  }

  /** Word by word: the rate, the good lines over all of them, and the lossy share. */
  ghost predicate ReadsAsC1(row: GateRow, r: C1Result) {
    var words := Text.Split(row.measurement, ' ');
    && |words| == 5 && words[0] == r.rate && Text.Split(words[1], '/') == ["(" + r.good, r.total]
    && words[2] == "non-lossy;" && words[3] == "lossy" && words[4] == r.lossy + ")"
    && SaysOf(row.verdict, Some(r.pass))
  }

  lemma C1Says(r: C1Result)
    ensures ReadsAsC1(C1Row(r), r)
  {
    C1AreWords(r);
    SpacedReads(C1Words(r));
    NumeralIsWord(r.good);
    NumeralIsWord(r.total);
    Text.SplitFirst("(" + r.good, '/', r.total);
    Text.SplitWhole(r.total, '/');
    assert "(" + r.good + "/" + r.total == "(" + r.good + ['/'] + r.total;
  }

  /** Word by word: the ratio, the count at a million lines and the final count, or why there
      are none.  The final count reads back as the number it is. */
  ghost predicate ReadsAsC2(row: GateRow, r: C2Result) {
    SaysC2(Text.Split(row.measurement, ' '), r) && SaysOf(row.verdict, r.pass)
  }

  ghost predicate SaysC2(words: seq<string>, r: C2Result) {
    if r.countAt1M.Some? && r.ratio.Some? then
      && |words| == 13 && words[1] == "ratio" && words[2] == r.ratio.value
      && words[3] == "(count@1M" && words[4] == r.countAt1M.value && words[6] == "SS"
      && EndsNumber(words[7], r.countAtEnd)
    else if r.atLeast1M then
      |words| == 7 && words[1] == "(SS" && words[2] == "0" && r.countAtEnd == 0
    else
      |words| == 8 && words[1] == "(SS" && EndsNumber(words[2], r.countAtEnd) && words[3] == "corpus"
  }

  lemma CountReads(n: nat)
    ensures EndsNumber(Text.Decimal(n) + ")", n) && EndsNumber(Text.Decimal(n) + ",", n)
  {
    Text.DecimalReads(n);
    EndsWith(Text.Decimal(n), ")");
    EndsWith(Text.Decimal(n), ",");
  }

  lemma C2WordsSay(r: C2Result)
    requires Consistent(r)
    ensures SaysC2(C2Words(r), r)
  {
    CountReads(r.countAtEnd);
  }

  lemma C2Says(r: C2Result)
    requires Consistent(r)
    ensures ReadsAsC2(C2Row(r), r)
  {
    C2AreWords(r);
    SpacedReads(C2Words(r));
    C2WordsSay(r);
  }

  lemma EndsWith(n: string, c: string)
    requires |c| == 1
    ensures (n + c)[..|n + c| - 1] == n
  {
  }

  /** A number with one character of punctuation after it. */
  ghost predicate EndsNumber(word: string, n: nat) {
    word != "" && Text.AllDigits(word[..|word| - 1]) && Text.Value(word[..|word| - 1]) == n
  }
}
