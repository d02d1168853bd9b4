/** Which blocks can be printed into the managed region without disturbing its markers,
    and that everything read from a region is of that kind. */
module ResultsClean {
  import opened Wrappers
  import opened MarkedText
  import opened ResultsBlocks
  import Text

  const BEGIN_HEAD := "BEGIN (managed by "
  const BEGIN_TOOL := "ourios-bench --update-benchmarks-md"
  const BEGIN_REST := "; do not edit by hand) -->"

  /** The comment that opens the managed region. */
  const REGION_BEGIN := MARK + (BEGIN_HEAD + (['`'] + (BEGIN_TOOL + (['`'] + BEGIN_REST))))

  /** The comment that closes it. */
  const REGION_END := MARK + "END -->"

  const MARK := "<!-- BENCH-RESULTS:"

  /** Where the begin marker has its first backtick. */
  const TICK := 37

  predicate Inside(s: string) {
    forall i :: 0 <= i < |s| ==> s[i] != '<' && s[i] != '\n' && s[i] != '|'
  }

  lemma InsideAppend(a: string, b: string)
    requires Inside(a) && Inside(b)
    ensures Inside(a + b)
  {
  }

  lemma MarkInside()
    ensures |MARK| == 19 && MARK[0] == '<' && MARK[1] == '!' && Inside(MARK[1..])
  {
  }

  lemma HeadInside()
    ensures Inside(BEGIN_HEAD) && |BEGIN_HEAD| == 18 && BEGIN_HEAD[0] == 'B' && BEGIN_HEAD[16] == 'y'
  {
  }

  lemma ToolInside()
    ensures Inside(BEGIN_TOOL) && BEGIN_TOOL != "" && BEGIN_TOOL[0] == 'o'
  {
  }

  lemma RestInside()
    ensures Inside(BEGIN_REST) && BEGIN_REST != "" && BEGIN_REST[|BEGIN_REST| - 1] == '>'
  {
  }

  lemma EndInside()
    ensures Inside("END -->") && |"END -->"| == 7 && "END -->"[0] == 'E' && "END -->"[6] == '>' && '`' !in "END -->"
  {
  }

  lemma MarkedIsMarker(rest: string)
    requires Inside(rest) && rest != "" && rest[|rest| - 1] == '>'
    ensures IsMarker(MARK + rest)
  {
    MarkInside();
    var m := MARK + rest;
    forall i | 0 < i < |m|
      ensures m[i] != '<' && m[i] != '\n' && m[i] != '|'
    {
      assert m[i] == if i < 19 then MARK[1..][i - 1] else rest[i - 19];
    }
  }

  lemma BeginIsMarker()
    ensures IsMarker(REGION_BEGIN)
  {
    HeadInside();
    ToolInside();
    RestInside();
    InsideAppend(['`'], BEGIN_REST);
    InsideAppend(BEGIN_TOOL, ['`'] + BEGIN_REST);
    InsideAppend(['`'], BEGIN_TOOL + (['`'] + BEGIN_REST));
    InsideAppend(BEGIN_HEAD, ['`'] + (BEGIN_TOOL + (['`'] + BEGIN_REST)));
    MarkedIsMarker(BEGIN_HEAD + (['`'] + (BEGIN_TOOL + (['`'] + BEGIN_REST))));
  }

  lemma MarkUnticked()
    ensures '`' !in MARK
  {
  }

  lemma EndIsMarker()
    ensures IsMarker(REGION_END) && '`' !in REGION_END
  {
    EndInside();
    MarkUnticked();
    MarkedIsMarker("END -->");
  }

  lemma TickAt(mark: string, head: string, tool: string, rest: string)
    requires |mark| == 19 && |head| == 18 && head[16] == 'y' && tool != "" && tool[0] == 'o'
    ensures var m := mark + (head + (['`'] + (tool + rest)));
            |m| > TICK + 1 && m[TICK - 2] == 'y' && m[TICK] == '`' && m[TICK + 1] == 'o'
  {
  }

  lemma BeginTick()
    ensures |REGION_BEGIN| > TICK + 1
    ensures REGION_BEGIN[TICK - 2] == 'y' && REGION_BEGIN[TICK] == '`' && REGION_BEGIN[TICK + 1] == 'o'
  {
    MarkInside();
    HeadInside();
    ToolInside();
    TickAt(MARK, BEGIN_HEAD, BEGIN_TOOL, ['`'] + BEGIN_REST);
  }

  lemma ApartAfter(mark: string, a: string, b: string)
    requires a != "" && b != "" && a[0] != b[0]
    ensures Apart(mark + a, mark + b)
  {
    var m, n := mark + a, mark + b;
    assert m[|mark|] != n[|mark|];
  }

  lemma MarkersApart()
    ensures Apart(REGION_BEGIN, REGION_END)
  {
    HeadInside();
    EndInside();
    ApartAfter(MARK, BEGIN_HEAD + (['`'] + (BEGIN_TOOL + (['`'] + BEGIN_REST))), "END -->");
  }

  // ----- text without markers

  ghost predicate Free(s: string) {
    !Occurs(s, REGION_BEGIN) && !Occurs(s, REGION_END)
  }

  lemma FreeSlice(s: string, i: nat, j: nat)
    requires i <= j <= |s| && Free(s)
    ensures Free(s[i..j])
  {
    AbsentFromSlice(s, i, j, REGION_BEGIN);
    AbsentFromSlice(s, i, j, REGION_END);
  }

  lemma FreeWithoutBang(s: string)
    requires '!' !in s
    ensures Free(s)
  {
    BeginIsMarker();
    EndIsMarker();
    AbsentWithoutBang(s, REGION_BEGIN);
    AbsentWithoutBang(s, REGION_END);
  }

  /** A newline or a bar is in no marker. */
  lemma FreeAcross(a: string, c: char, b: string)
    requires c == '\n' || c == '|'
    ensures Free(a + [c] + b) <==> Free(a) && Free(b)
  {
    BeginIsMarker();
    EndIsMarker();
    AbsentAcross(a, c, b, REGION_BEGIN);
    AbsentAcross(a, c, b, REGION_END);
  }

  lemma FreePadded(s: string)
    requires Free(s)
    ensures Free(Padded(s))
  {
    BeginIsMarker();
    EndIsMarker();
    AbsentPadded(s, REGION_BEGIN);
    AbsentPadded(s, REGION_END);
  }

  lemma {:induction false} FreeUnlines(lines: seq<string>)
    requires forall i :: 0 <= i < |lines| ==> Free(lines[i])
    ensures Free(Text.Unlines(lines))
    decreases |lines|
  {
    if lines == [] {
      FreeWithoutBang("");
    } else {
      FreeUnlines(lines[1..]);
      FreeAcross(lines[0], '\n', Text.Unlines(lines[1..]));
    }
  }

  // ----- headers

  /** The characters of a delimited header, piece by piece. */
  lemma DelimitedChar(a: string, b: string, c: string, d: string, q: nat)
    requires q < |Delimited(a, b, c, d)|
    ensures var s, i, j, k := Delimited(a, b, c, d), |a| + 1, |a| + |b| + 2, |a| + |b| + |c| + 3;
            && |s| == k + 1 + |d|
            && (0 < q < i ==> s[q] == a[q - 1])
            && (i < q < j ==> s[q] == b[q - i - 1])
            && (j < q < k ==> s[q] == c[q - j - 1])
            && (k < q ==> s[q] == d[q - k - 1])
  {
  }

  /** A marker with a backtick between `y.` and `o` fits none of a header's four. */
  lemma TickedAbsent(key: Key, tail: string, m: string, k: nat)
    requires IsKey(key) && '`' !in tail && tail != "" && tail[0] == ' '
    requires 2 <= k && k + 1 < |m| && m[k - 2] == 'y' && m[k] == '`' && m[k + 1] == 'o'
    ensures !Occurs(HEADER_MARK + Delimited(key.sha, HEADER_MID, key.hardware, tail), m)
  {
    var body := Delimited(key.sha, HEADER_MID, key.hardware, tail);
    var line := HEADER_MARK + body;
    if i: nat :| OccursAt(line, i, m) {
      CharAt(line, i, m, k - 2);
      CharAt(line, i, m, k);
      CharAt(line, i, m, k + 1);
      TickFits(key, tail, i + k);
    }
  }

  lemma TickFits(key: Key, tail: string, q: nat)
    requires IsKey(key) && '`' !in tail && tail != "" && tail[0] == ' '
    requires 2 <= q && q + 1 < |HEADER_MARK + Delimited(key.sha, HEADER_MID, key.hardware, tail)|
    requires (HEADER_MARK + Delimited(key.sha, HEADER_MID, key.hardware, tail))[q] == '`'
    ensures var line := HEADER_MARK + Delimited(key.sha, HEADER_MID, key.hardware, tail);
            line[q - 2] != 'y' || line[q + 1] != 'o'
  {
    var body := Delimited(key.sha, HEADER_MID, key.hardware, tail);
    var line := HEADER_MARK + body;
    var n := |key.sha|;
    assert line[3] == '#';
    assert |HEADER_MARK| == 5 && |HEADER_MID| == 4 && '`' !in HEADER_MARK && '`' !in HEADER_MID;
    if q >= 5 {
      DelimitedChar(key.sha, HEADER_MID, key.hardware, tail, q - 5);
      DelimitedChar(key.sha, HEADER_MID, key.hardware, tail, q - 4);
      if q >= 7 {
        DelimitedChar(key.sha, HEADER_MID, key.hardware, tail, q - 7);
      }
    }
  }

  /** The end marker is in a header just when it is in one of its two fields. */
  lemma EndInHeader(key: Key, tail: string)
    requires '!' !in tail
    ensures Occurs(HEADER_MARK + Delimited(key.sha, HEADER_MID, key.hardware, tail), REGION_END) <==>
            Occurs(key.sha, REGION_END) || Occurs(key.hardware, REGION_END)
  {
    EndIsMarker();
    var rest2 := key.hardware + ['`'] + tail;
    var rest1 := HEADER_MID + ['`'] + rest2;
    var rest0 := key.sha + ['`'] + rest1;
    assert HEADER_MARK + Delimited(key.sha, HEADER_MID, key.hardware, tail) == HEADER_MARK + ['`'] + rest0;
    AbsentAcross(HEADER_MARK, '`', rest0, REGION_END);
    AbsentAcross(key.sha, '`', rest1, REGION_END);
    AbsentAcross(HEADER_MID, '`', rest2, REGION_END);
    AbsentAcross(key.hardware, '`', tail, REGION_END);
    AbsentWithoutBang(HEADER_MARK, REGION_END);
    AbsentWithoutBang(HEADER_MID, REGION_END);
    AbsentWithoutBang(tail, REGION_END);
  }

  lemma TailPlain(date: string)
    requires DateShaped(date)
    ensures var tail := HEADER_TAIL + date;
            '!' !in tail && '`' !in tail && '\n' !in tail && tail != "" && tail[0] == ' '
  {
  }

  // ----- what can be stored

  ghost predicate CleanKey(key: Key) {
    IsKey(key) && !Occurs(key.sha, REGION_END) && !Occurs(key.hardware, REGION_END)
  }

  ghost predicate CleanRow(row: GateRow) {
    IsRow(row) && Free(row.measurement) && Free(row.target) && Free(row.verdict)
  }

  ghost predicate CleanGate(row: Option<GateRow>) {
    row.Some? ==> CleanRow(row.value)
  }

  ghost predicate CleanBlock(block: Block) {
    DateShaped(block.date) && CleanGate(block.a1) && CleanGate(block.c1) && CleanGate(block.c2)
  }

  ghost predicate CleanBlocks(blocks: Blocks) {
    forall key :: key in blocks ==> CleanKey(key) && CleanBlock(blocks[key])
  }

  /** One line without markers. */
  ghost predicate Sound(line: string) {
    '\n' !in line && Free(line)
  }

  ghost predicate AllSound(lines: seq<string>) {
    forall i :: 0 <= i < |lines| ==> Sound(lines[i])
  }

  // ----- printed lines are sound

  lemma HeaderSound(key: Key, date: string)
    requires CleanKey(key) && DateShaped(date)
    ensures Sound(HeaderLine(key, date))
  {
    TailPlain(date);
    BeginTick();
    TickedAbsent(key, HEADER_TAIL + date, REGION_BEGIN, TICK);
    EndInHeader(key, HEADER_TAIL + date);
  }

  lemma CellsFree(a: string, b: string, c: string, d: string)
    requires Free(a) && Free(b) && Free(c) && Free(d)
    ensures Free(['|'] + PrintCells(a, b, c, d) + ['|'])
  {
    FreePadded(a);
    FreePadded(b);
    FreePadded(c);
    FreePadded(d);
    var cd := Padded(c) + ['|'] + Padded(d);
    var bcd := Padded(b) + ['|'] + cd;
    FreeAcross(Padded(c), '|', Padded(d));
    FreeAcross(Padded(b), '|', cd);
    FreeAcross(Padded(a), '|', bcd);
    var all := PrintCells(a, b, c, d);
    FreeWithoutBang("");
    assert ['|'] + all == "" + ['|'] + all;
    FreeAcross("", '|', all);
    assert ['|'] + all + ['|'] == (['|'] + all) + ['|'] + "";
    FreeAcross(['|'] + all, '|', "");
  }

  lemma RowSound(name: string, row: GateRow)
    requires '!' !in name && '\n' !in name && CleanRow(row)
    ensures Sound(PrintRow(name, row))
  {
    FreeWithoutBang(name);
    CellsFree(name, row.measurement, row.target, row.verdict);
  }

  lemma GateSound(g: Gate, row: Option<GateRow>)
    requires CleanGate(row)
    ensures AllSound(RowLines(g, row))
  {
    if row.Some? {
      RowSound(GateName(g), row.value);
    }
  }

  lemma PlainRow(name: string, a: string, b: string, c: string)
    requires '!' !in name && '!' !in a && '!' !in b && '!' !in c
    requires '\n' !in name && IsCell(a) && IsCell(b) && IsCell(c)
    ensures Sound(PrintRow(name, GateRow(a, b, c)))
  {
    FreeWithoutBang(a);
    FreeWithoutBang(b);
    FreeWithoutBang(c);
    RowSound(name, GateRow(a, b, c));
  }

  lemma NoBangs()
    ensures '!' !in "Gate" && '!' !in "Measurement" && '!' !in "Target" && '!' !in "Verdict" && '!' !in "---"
  {
  }

  lemma TopSound()
    ensures AllSound(TableTop())
  {
    NoBangs();
    HeadCells();
    RuleCells();
    FreeWithoutBang("");
    PlainRow("Gate", "Measurement", "Target", "Verdict");
    PlainRow("---", "---", "---", "---");
  }

  lemma SoundAppend(a: seq<string>, b: seq<string>)
    requires AllSound(a) && AllSound(b)
    ensures AllSound(a + b)
  {
  }

  lemma TableSound(top: seq<string>, block: Block)
    requires AllSound(top) && CleanBlock(block)
    ensures AllSound(TableLines(top, block))
  {
    var x, y, z := RowLines(A1, block.a1), RowLines(C1, block.c1), RowLines(C2, block.c2);
    GateSound(A1, block.a1);
    GateSound(C1, block.c1);
    GateSound(C2, block.c2);
    FreeWithoutBang("");
    SoundAppend(top, x);
    SoundAppend(top + x, y);
    SoundAppend(top + x + y, z);
    SoundAppend(top + x + y + z, [""]);
  }

  lemma BlockSound(key: Key, block: Block)
    requires CleanKey(key) && CleanBlock(block)
    ensures AllSound(BlockLines(key, block))
  {
    HeaderSound(key, block.date);
    TopSound();
    TableSound(TableTop(), block);
    SoundAppend([HeaderLine(key, block.date)], TableLines(TableTop(), block));
  }

  // ----- what is read is clean

  lemma SoundSlice(s: string, i: nat, j: nat)
    requires i <= j <= |s| && Sound(s)
    ensures Sound(s[i..j])
  {
    FreeSlice(s, i, j);
  }

  lemma SoundTrim(s: string, drop: char -> bool)
    requires Sound(s)
    ensures Sound(Text.TrimBy(s, drop))
  {
    var i, j := Text.TrimIs(s, drop);
    SoundSlice(s, i, j);
  }

  lemma SoundPrefix(s: string, p: string)
    requires Sound(s) && p <= s
    ensures Sound(p)
  {
    assert p == s[0..|p|];
    SoundSlice(s, 0, |p|);
  }

  lemma {:induction false} SoundSplit(s: string, c: char)
    requires Sound(s)
    ensures AllSound(Text.Split(s, c))
    decreases |s|
  {
    var parts := Text.Split(s, c);
    Text.SplitPieces(s, c);
    SoundPrefix(s, parts[0]);
    if s != "" {
      assert s[1..] == s[1..|s|];
      SoundSlice(s, 1, |s|);
      SoundSplit(s[1..], c);
      assert forall k :: 1 <= k < |parts| ==> parts[k] == Text.Split(s[1..], c)[if s[0] == c then k - 1 else k];
    } else {
      assert parts == [""];
    }
  }

  lemma CellClean(col: string)
    requires Sound(col) && '|' !in col
    ensures IsCell(Text.Trim(col)) && Free(Text.Trim(col))
  {
    var i, j := Text.TrimIs(col, Text.IsWhitespace);
    SoundSlice(col, i, j);
  }

  lemma RowClean(line: string)
    requires Sound(line) && ParseRow(line).Some?
    ensures CleanRow(ParseRow(line).value.1)
  {
    var bare := Text.TrimBy(line, IsBar);
    var cols := Text.Split(bare, '|');
    SoundTrim(line, IsBar);
    SoundSplit(bare, '|');
    Text.SplitPieces(bare, '|');
    CellClean(cols[1]);
    CellClean(cols[2]);
    CellClean(cols[3]);
  }

  lemma HeaderClean(header: string)
    requires Sound(header) && ParseHeader(header).Some?
    ensures CleanKey(ParseHeader(header).value.0) && DateShaped(ParseHeader(header).value.1)
  {
    SoundSplit(header, '`');
    Text.SplitPieces(header, '`');
  }

  ghost predicate CleanReading(r: Reading) {
    CleanBlocks(r.blocks) && (r.current.Some? ==> CleanKey(r.current.value.0) && CleanBlock(r.current.value.1))
  }

  lemma ReadHeaderClean(r: Reading, header: string)
    requires CleanReading(r) && Sound(header) && ReadHeader(r, header).Ok?
    ensures CleanReading(ReadHeader(r, header).value)
  {
    HeaderClean(header);
  }

  lemma ReadRowClean(r: Reading, line: string)
    requires CleanReading(r) && Sound(line)
    ensures CleanReading(ReadRow(r, line))
  {
    if ParseRow(line).Some? {
      RowClean(line);
    }
  }

  lemma LineClean(r: Reading, raw: string)
    requires CleanReading(r) && Sound(raw) && ReadLine(r, raw).Ok?
    ensures CleanReading(ReadLine(r, raw).value)
  {
    var line := Text.Trim(raw);
    SoundTrim(raw, Text.IsWhitespace);
    if HEADER_MARK <= line {
      assert line[|HEADER_MARK|..] == line[|HEADER_MARK|..|line|];
      SoundSlice(line, |HEADER_MARK|, |line|);
      ReadHeaderClean(r, line[|HEADER_MARK|..]);
    } else {
      ReadRowClean(r, line);
    }
  }

  /** Whatever can be read can be printed again. */
  lemma {:induction false} LinesClean(r: Reading, lines: seq<string>)
    requires CleanReading(r) && AllSound(lines) && ReadLines(r, lines).Ok?
    ensures CleanReading(ReadLines(r, lines).value) && CleanBlocks(Flush(ReadLines(r, lines).value))
    decreases |lines|
  {
    if lines != [] {
      LineClean(r, lines[0]);
      LinesClean(ReadLine(r, lines[0]).value, lines[1..]);
    }
  }
}
