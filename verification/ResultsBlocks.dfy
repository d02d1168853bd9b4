/** The results blocks as text: one header and one small table per measured commit and
    machine, printed line by line and read back line by line. */
module ResultsBlocks {
  import opened Collections
  import opened Wrappers
  import Text

  datatype GateRow = GateRow(measurement: string, target: string, verdict: string)

  datatype Gate = A1 | C1 | C2

  datatype Block = Block(date: string, a1: Option<GateRow>, c1: Option<GateRow>, c2: Option<GateRow>)

  /** The commit and the hardware a block is about. */
  datatype Key = Key(sha: string, hardware: string)

  type Blocks = map<Key, Block>

  function EmptyBlock(date: string): Block {
    Block(date, None, None, None)
  }

  function SetGate(b: Block, g: Gate, row: GateRow): Block {
    match g
    case A1 => b.(a1 := Some(row))
    case C1 => b.(c1 := Some(row))
    case C2 => b.(c2 := Some(row))
  }

  function GateName(g: Gate): string {
    match g
    case A1 => "A1"
    case C1 => "C1"
    case C2 => "C2"
  }

  function GateNamed(name: string): Option<Gate> {
    if name == "A1" then Some(A1) else if name == "C1" then Some(C1) else if name == "C2" then Some(C2) else None
  }

  // ----- dates

  /** Exactly four, two and two digits, dashes between. */
  predicate DateShaped(s: string) {
    |s| == 10 && s[4] == '-' && s[7] == '-' &&
    forall i :: 0 <= i < 10 && i != 4 && i != 7 ==> Text.IsDigit(s[i])
  }

  // ----- headers

  const HEADER_MARK := "#### "
  const HEADER_MID := " on "
  const HEADER_TAIL := " \U{2014} updated "

  function Delimited(sha: string, mid: string, hardware: string, tail: string): string {
    "" + ['`'] + (sha + ['`'] + (mid + ['`'] + (hardware + ['`'] + tail)))
  }

  function PrintHeader(key: Key, date: string): string {
    Delimited(key.sha, HEADER_MID, key.hardware, HEADER_TAIL + date)
  }

  function ParseHeader(header: string): Option<(Key, string)> {
    var parts := Text.Split(header, '`');
    if |parts| != 5 || parts[0] != "" || parts[2] != HEADER_MID || !(HEADER_TAIL <= parts[4]) then None
    else
      var date := parts[4][|HEADER_TAIL|..];
      if DateShaped(date) then Some((Key(parts[1], parts[3]), date)) else None
  }

  lemma SplitDelimited(sha: string, mid: string, hardware: string, tail: string)
    requires '`' !in sha && '`' !in mid && '`' !in hardware && '`' !in tail
    ensures Text.Split(Delimited(sha, mid, hardware, tail), '`') == ["", sha, mid, hardware, tail]
  {
    Text.SplitFirst("", '`', sha + ['`'] + (mid + ['`'] + (hardware + ['`'] + tail)));
    Text.SplitFirst(sha, '`', mid + ['`'] + (hardware + ['`'] + tail));
    Text.SplitFirst(mid, '`', hardware + ['`'] + tail);
    Text.SplitFirst(hardware, '`', tail);
    Text.SplitWhole(tail, '`');
  }

  lemma TailHasDate(date: string)
    requires DateShaped(date)
    ensures HEADER_TAIL <= HEADER_TAIL + date && (HEADER_TAIL + date)[|HEADER_TAIL|..] == date
    ensures '`' !in HEADER_MID && '`' !in HEADER_TAIL + date
  {
  }

  lemma HeaderRoundTrip(key: Key, date: string)
    requires '`' !in key.sha && '`' !in key.hardware && DateShaped(date)
    ensures ParseHeader(PrintHeader(key, date)) == Some((key, date))
  {
    TailHasDate(date);
    SplitDelimited(key.sha, HEADER_MID, key.hardware, HEADER_TAIL + date);
  }

  lemma DelimitedIsJoin(sha: string, mid: string, hardware: string, tail: string)
    ensures Delimited(sha, mid, hardware, tail) == Text.Join(["", sha, mid, hardware, tail], '`')
  {
    Text.JoinFirst(hardware, [tail], '`');
    Text.JoinFirst(mid, [hardware, tail], '`');
    Text.JoinFirst(sha, [mid, hardware, tail], '`');
    Text.JoinFirst("", [sha, mid, hardware, tail], '`');
    assert [hardware] + [tail] == [hardware, tail] && [mid] + [hardware, tail] == [mid, hardware, tail];
    assert [sha] + [mid, hardware, tail] == [sha, mid, hardware, tail];
    assert [""] + [sha, mid, hardware, tail] == ["", sha, mid, hardware, tail];
  }

  lemma PrefixThenRest(prefix: string, s: string)
    requires prefix <= s
    ensures s == prefix + s[|prefix|..]
  {
  }

  /** The only headers that are read are those that print. */
  lemma HeaderIff(header: string, key: Key, date: string)
    ensures ParseHeader(header) == Some((key, date)) <==>
            header == PrintHeader(key, date) && '`' !in key.sha && '`' !in key.hardware && DateShaped(date)
  {
    if ParseHeader(header) == Some((key, date)) {
      var parts := Text.Split(header, '`');
      Text.JoinSplit(header, '`');
      Text.SplitPieces(header, '`');
      PrefixThenRest(HEADER_TAIL, parts[4]);
      assert parts == ["", key.sha, HEADER_MID, key.hardware, HEADER_TAIL + date];
      DelimitedIsJoin(key.sha, HEADER_MID, key.hardware, HEADER_TAIL + date);
    } else if '`' !in key.sha && '`' !in key.hardware && DateShaped(date) {
      HeaderRoundTrip(key, date);
    }
  }

  // ----- rows

  predicate IsBar(c: char) {
    c == '|'
  }

  function Padded(s: string): string {
    [' '] + s + [' ']
  }

  function PrintCells(a: string, b: string, c: string, d: string): string {
    Padded(a) + ['|'] + (Padded(b) + ['|'] + (Padded(c) + ['|'] + Padded(d)))
  }

  function PrintRow(name: string, row: GateRow): string {
    ['|'] + PrintCells(name, row.measurement, row.target, row.verdict) + ['|']
  }

  function ReadCells(cols: seq<string>): Option<(Gate, GateRow)> {
    if |cols| != 4 || GateNamed(Text.Trim(cols[0])).None? then None
    else Some((GateNamed(Text.Trim(cols[0])).value,
               GateRow(Text.Trim(cols[1]), Text.Trim(cols[2]), Text.Trim(cols[3]))))
  }

  function ParseRow(line: string): Option<(Gate, GateRow)> {
    if line == "" || line[0] != '|' then None
    else ReadCells(Text.Split(Text.TrimBy(line, IsBar), '|'))
  }

  /** A cell survives the table: no bar, no line break, no whitespace at its ends. */
  predicate IsCell(s: string) {
    '|' !in s && '\n' !in s && Text.Trimmed(s)
  }

  predicate IsRow(row: GateRow) {
    IsCell(row.measurement) && IsCell(row.target) && IsCell(row.verdict)
  }

  lemma CellsSplit(a: string, b: string, c: string, d: string)
    requires '|' !in a && '|' !in b && '|' !in c && '|' !in d
    ensures Text.Split(PrintCells(a, b, c, d), '|') == [Padded(a), Padded(b), Padded(c), Padded(d)]
    ensures Text.TrimBy(['|'] + PrintCells(a, b, c, d) + ['|'], IsBar) == PrintCells(a, b, c, d)
  {
    var cd := Padded(c) + ['|'] + Padded(d);
    var bcd := Padded(b) + ['|'] + cd;
    Text.SplitFirst(Padded(a), '|', bcd);
    Text.SplitFirst(Padded(b), '|', cd);
    Text.SplitFirst(Padded(c), '|', Padded(d));
    Text.SplitWhole(Padded(d), '|');
    var all := PrintCells(a, b, c, d);
    assert all[0] == ' ' && all[|all| - 1] == ' ';
    Text.TrimPadded('|', all, IsBar);
  }

  lemma TrimCell(s: string)
    requires Text.Trimmed(s)
    ensures Text.Trim(Padded(s)) == s
  {
    Text.TrimPadded(' ', s, Text.IsWhitespace);
  }

  lemma NameRoundTrip(g: Gate)
    ensures GateNamed(GateName(g)) == Some(g) && IsCell(GateName(g))
  {
  }

  lemma RowRoundTrip(g: Gate, row: GateRow)
    requires IsRow(row)
    ensures ParseRow(PrintRow(GateName(g), row)) == Some((g, row))
  {
    NameRoundTrip(g);
    CellsSplit(GateName(g), row.measurement, row.target, row.verdict);
    TrimCell(GateName(g));
    TrimCell(row.measurement);
    TrimCell(row.target);
    TrimCell(row.verdict);
  }

  // ----- reading lines

  /** Blocks read so far, and the one whose table is being read. */
  datatype Reading = Reading(blocks: Blocks, current: Option<(Key, Block)>)

  function Flush(r: Reading): Blocks {
    match r.current
    case None => r.blocks
    case Some((key, block)) => r.blocks[key := block]
  }

  function ReadHeader(r: Reading, header: string): Result<Reading, string> {
    match ParseHeader(header)
    case None => Err(header)
    case Some((key, date)) => Ok(Reading(Flush(r), Some((key, EmptyBlock(date)))))
  }

  function ReadRow(r: Reading, line: string): Reading {
    if r.current.None? || ParseRow(line).None? then r else
      var (key, block), (gate, row) := r.current.value, ParseRow(line).value;
      Reading(r.blocks, Some((key, SetGate(block, gate, row))))
  }

  /** A line, its line end already gone; a carriage return goes with the trim. */
  function ReadLine(r: Reading, raw: string): Result<Reading, string> {
    var line := Text.Trim(raw);
    if HEADER_MARK <= line then ReadHeader(r, line[|HEADER_MARK|..]) else Ok(ReadRow(r, line))
  }

  function ReadLines(r: Reading, lines: seq<string>): Result<Reading, string>
    decreases |lines|
  {
    if lines == [] then Ok(r) else
      match ReadLine(r, lines[0])
      case Err(e) => Err(e)
      case Ok(next) => ReadLines(next, lines[1..])
  }

  lemma {:induction false} ReadAppend(r: Reading, a: seq<string>, b: seq<string>)
    requires ReadLines(r, a).Ok?
    ensures ReadLines(r, a + b) == ReadLines(ReadLines(r, a).value, b)
    decreases |a|
  {
    if a == [] {
      assert a + b == b;
    } else {
      ReadAppend(ReadLine(r, a[0]).value, a[1..], b);
      ConsAppend(a, b);
    }
  }

  function RowOf(b: Block, g: Gate): Option<GateRow> {
    match g
    case A1 => b.a1
    case C1 => b.c1
    case C2 => b.c2
  }

  /** A header puts the block before it away, over any earlier one of its key, and opens one
      without rows. */
  lemma HeaderOpens(r: Reading, line: string, key: Key, date: string)
    requires HEADER_MARK <= Text.Trim(line) && ParseHeader(Text.Trim(line)[|HEADER_MARK|..]) == Some((key, date))
    ensures var next := ReadLine(r, line);
            && next.Ok? && next.value.current.Some? && next.value.current.value.0 == key
            && next.value.current.value.1.date == date
            && (forall g: Gate :: RowOf(next.value.current.value.1, g) == None)
            && (r.current.None? ==> next.value.blocks == r.blocks)
            && (r.current.Some? ==> next.value.blocks.Keys == r.blocks.Keys + {r.current.value.0} &&
                                    next.value.blocks[r.current.value.0] == r.current.value.1 &&
                                    forall k :: k in r.blocks && k != r.current.value.0 ==>
                                      next.value.blocks[k] == r.blocks[k])
  {
  }

  /** A row of a gate replaces that gate's row in the open block, and touches nothing else. */
  lemma RowSets(r: Reading, line: string, gate: Gate, row: GateRow)
    requires r.current.Some? && !(HEADER_MARK <= Text.Trim(line)) && ParseRow(Text.Trim(line)) == Some((gate, row))
    ensures var next := ReadLine(r, line);
            && next.Ok? && next.value.blocks == r.blocks && next.value.current.Some?
            && next.value.current.value.0 == r.current.value.0
            && next.value.current.value.1.date == r.current.value.1.date
            && forall g: Gate :: RowOf(next.value.current.value.1, g) ==
                                 if g == gate then Some(row) else RowOf(r.current.value.1, g)
  {
  }

  /** It opens like a header and is none. */
  predicate BadLine(line: string) {
    HEADER_MARK <= Text.Trim(line) && ParseHeader(Text.Trim(line)[|HEADER_MARK|..]).None?
  }

  lemma BadLineFails(r: Reading, line: string)
    ensures ReadLine(r, line).Err? <==> BadLine(line)
    ensures BadLine(line) ==> ReadLine(r, line) == Err(Text.Trim(line)[|HEADER_MARK|..])
  {
  }

  /** A malformed header fails the reading, the first one by name. */
  lemma {:induction false} FirstBadLine(r: Reading, lines: seq<string>, i: nat)
    requires i < |lines| && BadLine(lines[i]) && forall j :: 0 <= j < i ==> !BadLine(lines[j])
    ensures ReadLines(r, lines) == Err(Text.Trim(lines[i])[|HEADER_MARK|..])
    decreases i
  {
    BadLineFails(r, lines[0]);
    if i > 0 {
      FirstBadLine(ReadLine(r, lines[0]).value, lines[1..], i - 1);
    }
  }

  /** And nothing else does. */
  lemma {:induction false} NoBadLine(r: Reading, lines: seq<string>)
    requires forall j :: 0 <= j < |lines| ==> !BadLine(lines[j])
    ensures ReadLines(r, lines).Ok?
    decreases |lines|
  {
    if lines != [] {
      BadLineFails(r, lines[0]);
      NoBadLine(ReadLine(r, lines[0]).value, lines[1..]);
    }
  }

  /** Neither a header nor a row of a gate. */
  predicate IsProse(line: string) {
    !(HEADER_MARK <= Text.Trim(line)) && ParseRow(Text.Trim(line)).None?
  }

  /** Prose between the blocks is not read. */
  lemma {:induction false} ProseIgnored(r: Reading, a: seq<string>, line: string, b: seq<string>)
    requires IsProse(line)
    ensures ReadLines(r, a + [line] + b) == ReadLines(r, a + b)
    decreases |a|
  {
    if a == [] {
      assert a + [line] + b == [line] + b && ([line] + b)[1..] == b && a + b == b;
    } else {
      assert (a + [line] + b)[1..] == a[1..] + [line] + b && (a + b)[1..] == a[1..] + b;
      if ReadLine(r, a[0]).Ok? {
        ProseIgnored(ReadLine(r, a[0]).value, a[1..], line, b);
      }
    }
  }

  ghost predicate Reads(r: Reading, lines: seq<string>, end: Reading) {
    ReadLines(r, lines) == Ok(end)
  }

  lemma ReadOne(r: Reading, line: string, end: Reading)
    requires ReadLine(r, line) == Ok(end)
    ensures Reads(r, [line], end)
  {
  }

  lemma ReadThen(r: Reading, a: seq<string>, mid: Reading, b: seq<string>, end: Reading)
    requires Reads(r, a, mid) && Reads(mid, b, end)
    ensures Reads(r, a + b, end)
  {
    ReadAppend(r, a, b);
  }

  // ----- printing a block

  function TableHead(): string {
    PrintRow("Gate", GateRow("Measurement", "Target", "Verdict"))
  }

  function TableRule(): string {
    PrintRow("---", GateRow("---", "---", "---"))
  }

  function RowLines(g: Gate, row: Option<GateRow>): seq<string> {
    match row
    case None => []
    case Some(row) => [PrintRow(GateName(g), row)]
  }

  function HeaderLine(key: Key, date: string): string {
    HEADER_MARK + PrintHeader(key, date)
  }

  function TableTop(): seq<string> {
    ["", TableHead(), TableRule()]
  }

  function TableLines(top: seq<string>, block: Block): seq<string> {
    top + RowLines(A1, block.a1) + RowLines(C1, block.c1) + RowLines(C2, block.c2) + [""]
  }

  function BlockLines(key: Key, block: Block): seq<string> {
    [HeaderLine(key, block.date)] + TableLines(TableTop(), block)
  }

  /** What a block must be to survive printing. */
  predicate IsKey(key: Key) {
    '`' !in key.sha && '\n' !in key.sha && '`' !in key.hardware && '\n' !in key.hardware
  }

  predicate IsBlock(block: Block) {
    && DateShaped(block.date)
    && (block.a1.Some? ==> IsRow(block.a1.value))
    && (block.c1.Some? ==> IsRow(block.c1.value))
    && (block.c2.Some? ==> IsRow(block.c2.value))
  }

  lemma HeaderReads(r: Reading, key: Key, date: string)
    requires IsKey(key) && DateShaped(date)
    ensures ReadLine(r, HeaderLine(key, date)) == Ok(Reading(Flush(r), Some((key, EmptyBlock(date)))))
  {
    var line := HeaderLine(key, date);
    assert line[0] == '#';
    assert line[|line| - 1] == date[9];
    Text.TrimKeeps(line, Text.IsWhitespace);
    assert line[|HEADER_MARK|..] == PrintHeader(key, date);
    HeaderRoundTrip(key, date);
  }

  /** A line that starts and ends with a bar is read as it stands. */
  lemma BarLineReads(r: Reading, line: string)
    requires line != "" && line[0] == '|' && line[|line| - 1] == '|'
    ensures ReadLine(r, line) == Ok(ReadRow(r, line))
  {
    Text.TrimKeeps(line, Text.IsWhitespace);
  }

  lemma RowReads(blocks: Blocks, key: Key, block: Block, g: Gate, row: GateRow)
    requires IsRow(row)
    ensures ReadLine(Reading(blocks, Some((key, block))), PrintRow(GateName(g), row)) ==
            Ok(Reading(blocks, Some((key, SetGate(block, g, row)))))
  {
    var line := PrintRow(GateName(g), row);
    assert line[0] == '|' && line[|line| - 1] == '|';
    BarLineReads(Reading(blocks, Some((key, block))), line);
    RowRoundTrip(g, row);
  }

  /** The two lines above the rows name no gate. */
  lemma HeadSkipped(r: Reading, name: string, row: GateRow)
    requires IsCell(name) && IsRow(row) && GateNamed(name).None?
    ensures ReadLine(r, PrintRow(name, row)) == Ok(r)
  {
    var line := PrintRow(name, row);
    assert line[0] == '|' && line[|line| - 1] == '|';
    BarLineReads(r, line);
    CellsSplit(name, row.measurement, row.target, row.verdict);
    TrimCell(name);
  }

  lemma BlankSkipped(r: Reading)
    ensures ReadLine(r, "") == Ok(r)
  {
  }

  lemma TopReads(r: Reading, head: string, rule: string)
    requires ReadLine(r, head) == Ok(r) && ReadLine(r, rule) == Ok(r)
    ensures Reads(r, ["", head, rule], r)
  {
    BlankSkipped(r);
    ReadOne(r, "", r);
    ReadOne(r, head, r);
    ReadOne(r, rule, r);
    ReadThen(r, [""], r, [head], r);
    ReadThen(r, [""] + [head], r, [rule], r);
    assert [""] + [head] + [rule] == ["", head, rule];
  }

  function WithGate(block: Block, g: Gate, row: Option<GateRow>): Block {
    match row
    case None => block
    case Some(row) => SetGate(block, g, row)
  }

  lemma RowLinesRead(blocks: Blocks, key: Key, block: Block, g: Gate, row: Option<GateRow>)
    requires row.Some? ==> IsRow(row.value)
    ensures Reads(Reading(blocks, Some((key, block))), RowLines(g, row),
                  Reading(blocks, Some((key, WithGate(block, g, row)))))
  {
    if row.Some? {
      RowReads(blocks, key, block, g, row.value);
      ReadOne(Reading(blocks, Some((key, block))), PrintRow(GateName(g), row.value),
              Reading(blocks, Some((key, SetGate(block, g, row.value)))));
    }
  }

  lemma RowsRead(blocks: Blocks, key: Key, block: Block, top: seq<string>)
    requires IsBlock(block)
    requires Reads(Reading(blocks, Some((key, EmptyBlock(block.date)))), top,
                   Reading(blocks, Some((key, EmptyBlock(block.date)))))
    ensures Reads(Reading(blocks, Some((key, EmptyBlock(block.date)))),
                  TableLines(top, block),
                  Reading(blocks, Some((key, block))))
  {
    var b0 := EmptyBlock(block.date);
    var b1 := WithGate(b0, A1, block.a1);
    var b2 := WithGate(b1, C1, block.c1);
    var r0, r1, r2 := Reading(blocks, Some((key, b0))), Reading(blocks, Some((key, b1))),
      Reading(blocks, Some((key, b2)));
    var end := Reading(blocks, Some((key, block)));
    var x, y, z := RowLines(A1, block.a1), RowLines(C1, block.c1), RowLines(C2, block.c2);
    RowLinesRead(blocks, key, b0, A1, block.a1);
    RowLinesRead(blocks, key, b1, C1, block.c1);
    RowLinesRead(blocks, key, b2, C2, block.c2);
    assert WithGate(b2, C2, block.c2) == block;
    ReadThen(r0, top, r0, x, r1);
    ReadThen(r0, top + x, r1, y, r2);
    ReadThen(r0, top + x + y, r2, z, end);
    BlankSkipped(end);
    ReadOne(end, "", end);
    ReadThen(r0, top + x + y + z, end, [""], end);
  }

  lemma GateCell()
    ensures IsCell("Gate") && GateNamed("Gate").None?
  {
  }

  lemma MeasurementCell()
    ensures IsCell("Measurement")
  {
  }

  lemma TargetCell()
    ensures IsCell("Target")
  {
  }

  lemma VerdictCell()
    ensures IsCell("Verdict")
  {
  }

  lemma HeadCells()
    ensures IsCell("Gate") && GateNamed("Gate").None? && IsRow(GateRow("Measurement", "Target", "Verdict"))
  {
    GateCell();
    MeasurementCell();
    TargetCell();
    VerdictCell();
  }

  lemma RuleCells()
    ensures IsCell("---") && GateNamed("---").None? && IsRow(GateRow("---", "---", "---"))
  {
  }

  lemma TopSkippedWith(r: Reading, name: string, head: GateRow, rule: string, dashes: GateRow)
    requires IsCell(name) && GateNamed(name).None? && IsRow(head)
    requires IsCell(rule) && GateNamed(rule).None? && IsRow(dashes)
    ensures Reads(r, ["", PrintRow(name, head), PrintRow(rule, dashes)], r)
  {
    HeadSkipped(r, name, head);
    HeadSkipped(r, rule, dashes);
    TopReads(r, PrintRow(name, head), PrintRow(rule, dashes));
  }

  lemma TopSkipped(r: Reading)
    ensures Reads(r, TableTop(), r)
  {
    HeadCells();
    RuleCells();
    TopSkippedWith(r, "Gate", GateRow("Measurement", "Target", "Verdict"), "---", GateRow("---", "---", "---"));
  }

  lemma HeadedReads(r: Reading, key: Key, block: Block, top: seq<string>)
    requires IsKey(key) && IsBlock(block)
    requires Reads(Reading(Flush(r), Some((key, EmptyBlock(block.date)))), top,
                   Reading(Flush(r), Some((key, EmptyBlock(block.date)))))
    ensures Reads(r, [HeaderLine(key, block.date)] + TableLines(top, block), Reading(Flush(r), Some((key, block))))
  {
    var r0 := Reading(Flush(r), Some((key, EmptyBlock(block.date))));
    HeaderReads(r, key, block.date);
    ReadOne(r, HeaderLine(key, block.date), r0);
    RowsRead(Flush(r), key, block, top);
    ReadThen(r, [HeaderLine(key, block.date)], r0, TableLines(top, block), Reading(Flush(r), Some((key, block))));
  }

  /** Reading a printed block gives the block back, whatever was read before. */
  lemma BlockReads(r: Reading, key: Key, block: Block)
    requires IsKey(key) && IsBlock(block)
    ensures Reads(r, BlockLines(key, block), Reading(Flush(r), Some((key, block))))
  {
    TopSkipped(Reading(Flush(r), Some((key, EmptyBlock(block.date)))));
    HeadedReads(r, key, block, TableTop());
  }
}
