/** The corpus loaders: the eager one that reads every file up front, and the streaming
    one that yields a record at a time.  File contents are given as lines, and parsing one
    line of wire JSON as a function. */
module Corpus {
  import opened Arithmetic
  import opened Collections
  import opened Wrappers
  import Text

  const TIME_BASELINE_NS: U64 := 1_775_127_480_000_000_000
  const TIME_INCREMENT_NS: U64 := 1_000_000

  datatype Severity = Severity(number: nat, text: string)

  const INFO := Severity(9, "INFO")

  datatype SeverityMode = Fixed | Log4j

  /** A log record as wire JSON carries it, with its own envelope. */
  datatype WireRecord = WireRecord(payload: string)

  /** A record of a text line, or one that came from wire JSON. */
  datatype Record = TextLine(body: string, time: U64, severity: Severity) | Wire(record: WireRecord)

  datatype Format = Txt | OtlpJsonl

  datatype Content = Unopenable(detail: string) | Readable(lines: seq<Result<string, string>>)

  datatype File = File(path: string, format: Format, content: Content)

  datatype Error =
    | OpenFailed(path: string, detail: string)
    | ReadFailed(path: string, detail: string)
    | ParseFailed(path: string, lineNo: nat, detail: string)
    | NoLines(totalFiles: nat)

  type Item = Result<Record, Error>

  /** One line of wire JSON to its records, or the parser's complaint. */
  type Parser = string -> Result<seq<WireRecord>, string>

  // ----- one line

  function Tick(ns: U64): U64 {
    if ns + TIME_INCREMENT_NS <= U64_MAX then ns + TIME_INCREMENT_NS else U64_MAX
  }

  function StripReturns(s: string): string {
    if s != "" && s[|s| - 1] == '\r' then StripReturns(s[..|s| - 1]) else s
  }

  function LevelOf(token: string): Option<Severity> {
    if token == "TRACE" then Some(Severity(1, "TRACE"))
    else if token == "DEBUG" then Some(Severity(5, "DEBUG"))
    else if token == "INFO" then Some(Severity(9, "INFO"))
    else if token == "WARN" then Some(Severity(13, "WARN"))
    else if token == "WARNING" then Some(Severity(13, "WARNING"))
    else if token == "ERROR" then Some(Severity(17, "ERROR"))
    else if token == "FATAL" then Some(Severity(21, "FATAL"))
    else None
  }

  /** The first level among the tokens, if any. */
  function FirstLevel(tokens: seq<string>): Option<Severity> {
    if tokens == [] then None
    else if LevelOf(tokens[0]).Some? then LevelOf(tokens[0])
    else FirstLevel(tokens[1..])
  }

  predicate IsAsciiSpace(c: char) {
    c == ' ' || c == '\t' || c == '\n' || c == '\U{C}' || c == '\r'
  }

  function AsciiTokens(s: string, word: string): seq<string> {
    if s == "" then (if word == "" then [] else [word])
    else if IsAsciiSpace(s[0]) then (if word == "" then [] else [word]) + AsciiTokens(s[1..], "")
    else AsciiTokens(s[1..], word + [s[0]])
  }

  function SeverityOf(raw: string, mode: SeverityMode): Severity {
    match mode
    case Fixed => INFO
    case Log4j =>
      match FirstLevel(AsciiTokens(raw, ""))
      case Some(s) => s
      case None => INFO
  }

  function TextItems(raw: string, ns: U64, mode: SeverityMode): seq<Item> {
    if raw == "" then [] else [Ok(TextLine(raw, ns, SeverityOf(raw, mode)))]
  }

  function OkEach(records: seq<WireRecord>): (items: seq<Item>)
    ensures |items| == |records| && forall i :: 0 <= i < |records| ==> items[i] == Ok(Wire(records[i]))
  {
    seq(|records|, i requires 0 <= i < |records| => Ok(Wire(records[i])))
  }

  function WireEach(records: seq<WireRecord>): (r: seq<Record>)
    ensures |r| == |records| && forall i :: 0 <= i < |records| ==> r[i] == Wire(records[i])
  {
    seq(|records|, i requires 0 <= i < |records| => Wire(records[i]))
  }

  function WireItems(raw: string, path: string, lineNo: nat, parse: Parser): seq<Item> {
    if Text.Trim(raw) == "" then [] else
      match parse(raw)
      case Err(e) => [Err(ParseFailed(path, lineNo, e))]
      case Ok(records) => OkEach(records)
  }

  /** What one line contributes. */
  function LineItems(line: Result<string, string>, path: string, format: Format, lineNo: nat, ns: U64,
                     mode: SeverityMode, parse: Parser): seq<Item>
  {
    match line
    case Err(e) => [Err(ReadFailed(path, e))]
    case Ok(raw) =>
      if format == Txt then TextItems(StripReturns(raw), ns, mode) else WireItems(raw, path, lineNo, parse)
  }

  /** The clock after a line: it moves once for each text record. */
  function LineClock(line: Result<string, string>, format: Format, ns: U64): U64 {
    if format == Txt && line.Ok? && StripReturns(line.value) != "" then Tick(ns) else ns
  }

  // ----- whole files

  function LinesItems(lines: seq<Result<string, string>>, path: string, format: Format, lineNo: nat, ns: U64,
                      mode: SeverityMode, parse: Parser): seq<Item>
    decreases |lines|
  {
    if lines == [] then [] else
      LineItems(lines[0], path, format, lineNo + 1, ns, mode, parse) +
      LinesItems(lines[1..], path, format, lineNo + 1, LineClock(lines[0], format, ns), mode, parse)
  }

  function LinesClock(lines: seq<Result<string, string>>, format: Format, ns: U64): U64
    decreases |lines|
  {
    if lines == [] then ns else LinesClock(lines[1..], format, LineClock(lines[0], format, ns))
  }

  function FileItems(file: File, ns: U64, mode: SeverityMode, parse: Parser): seq<Item> {
    match file.content
    case Unopenable(e) => [Err(OpenFailed(file.path, e))]
    case Readable(lines) => LinesItems(lines, file.path, file.format, 0, ns, mode, parse)
  }

  function FileClock(file: File, ns: U64): U64 {
    match file.content
    case Unopenable(_) => ns
    case Readable(lines) => LinesClock(lines, file.format, ns)
  }

  /** Everything the files hold, in order, errors in their places. */
  function CorpusItems(files: seq<File>, ns: U64, mode: SeverityMode, parse: Parser): seq<Item>
    decreases |files|
  {
    if files == [] then []
    else FileItems(files[0], ns, mode, parse) + CorpusItems(files[1..], FileClock(files[0], ns), mode, parse)
  }

  // ----- what a loader makes of the items

  function FirstError(items: seq<Item>): Option<Error> {
    if items == [] then None
    else if items[0].Err? then Some(items[0].error)
    else FirstError(items[1..])
  }

  /** The records before the first error. */
  function RecordsBefore(items: seq<Item>): seq<Record> {
    if items == [] || items[0].Err? then [] else [items[0].value] + RecordsBefore(items[1..])
  }

  lemma {:induction false} ErrorAppend(a: seq<Item>, b: seq<Item>)
    ensures FirstError(a + b) == if FirstError(a).Some? then FirstError(a) else FirstError(b)
    ensures RecordsBefore(a + b) ==
            if FirstError(a).Some? then RecordsBefore(a) else RecordsBefore(a) + RecordsBefore(b)
    decreases |a|
  {
    if a == [] {
      assert a + b == b;
    } else {
      assert (a + b)[0] == a[0] && (a + b)[1..] == a[1..] + b;
      ErrorAppend(a[1..], b);
    }
  }

  lemma {:induction false} OkEachRecords(records: seq<WireRecord>)
    ensures FirstError(OkEach(records)).None? && RecordsBefore(OkEach(records)) == WireEach(records)
    decreases |records|
  {
    if records != [] {
      assert OkEach(records)[1..] == OkEach(records[1..]);
      OkEachRecords(records[1..]);
      assert WireEach(records) == [Wire(records[0])] + WireEach(records[1..]);
    }
  }

  /** A loader with `records` in hand and `rest` to come gives what `items` give. */
  ghost predicate Ahead(items: seq<Item>, records: seq<Record>, rest: seq<Item>) {
    FirstError(items) == FirstError(rest) && RecordsBefore(items) == records + RecordsBefore(rest)
  }

  lemma AheadStep(items: seq<Item>, records: seq<Record>, a: seq<Item>, b: seq<Item>)
    requires Ahead(items, records, a + b)
    ensures FirstError(a).None? ==> Ahead(items, records + RecordsBefore(a), b)
    ensures FirstError(a).Some? ==>
              FirstError(items) == FirstError(a) && RecordsBefore(items) == records + RecordsBefore(a)
  {
    ErrorAppend(a, b);
    Associate(records, RecordsBefore(a), RecordsBefore(b));
  }

  lemma AheadDone(items: seq<Item>, records: seq<Record>)
    requires Ahead(items, records, [])
    ensures FirstError(items).None? && RecordsBefore(items) == records
  {
  }

  // ----- the eager loader

  method StripLine(line: string) returns (raw: string)
    ensures raw == StripReturns(line)
  {
    raw := line;
    while raw != "" && raw[|raw| - 1] == '\r'
      invariant StripReturns(line) == StripReturns(raw)
      decreases |raw|
    {
      raw := raw[..|raw| - 1];
    }
  }

  method ReadTextLine(line: Result<string, string>, path: string, ghost lineNo: nat, ns: U64, ghost parse: Parser)
    returns (records: seq<Record>, nextNs: U64, failed: Option<Error>)
    ensures var items := LineItems(line, path, Txt, lineNo, ns, Fixed, parse);
            failed == FirstError(items) && records == RecordsBefore(items) && nextNs == LineClock(line, Txt, ns)
    ensures failed.Some? ==> records == []
  {
    records, nextNs, failed := [], ns, None;
    if line.Err? {
      failed := Some(ReadFailed(path, line.error));
      return;
    }
    var raw := StripLine(line.value);
    if raw != "" {
      records, nextNs := [TextLine(raw, ns, INFO)], Tick(ns);
    }
  }

  /** Text lines, until the first that cannot be read. */
  method IngestTxt(path: string, lines: seq<Result<string, string>>, ns: U64, ghost parse: Parser)
    returns (records: seq<Record>, nextNs: U64, failed: Option<Error>)
    ensures var items := LinesItems(lines, path, Txt, 0, ns, Fixed, parse);
            && failed == FirstError(items) && records == RecordsBefore(items)
            && (failed.None? ==> nextNs == LinesClock(lines, Txt, ns))
  {
    records, nextNs := [], ns;
    ghost var items := LinesItems(lines, path, Txt, 0, ns, Fixed, parse);
    for i := 0 to |lines|
      invariant LinesClock(lines, Txt, ns) == LinesClock(lines[i..], Txt, nextNs)
      invariant Ahead(items, records, LinesItems(lines[i..], path, Txt, i, nextNs, Fixed, parse))
    {
      Tail(lines, i);
      AheadStep(items, records, LineItems(lines[i], path, Txt, i + 1, nextNs, Fixed, parse),
                LinesItems(lines[i + 1..], path, Txt, i + 1, LineClock(lines[i], Txt, nextNs), Fixed, parse));
      var more, after;
      more, after, failed := ReadTextLine(lines[i], path, i + 1, nextNs, parse);
      if failed.Some? {
        return;
      }
      records, nextNs := records + more, after;
    }
    failed := None;
    AheadDone(items, records);
  }

  method ReadWireLine(line: Result<string, string>, path: string, lineNo: nat, parse: Parser, ghost ns: U64)
    returns (records: seq<Record>, failed: Option<Error>)
    ensures var items := LineItems(line, path, OtlpJsonl, lineNo, ns, Fixed, parse);
            failed == FirstError(items) && records == RecordsBefore(items)
    ensures failed.Some? ==> records == []
  {
    records, failed := [], None;
    if line.Err? {
      failed := Some(ReadFailed(path, line.error));
    } else if Text.Trim(line.value) != "" {
      var parsed := parse(line.value);
      if parsed.Err? {
        failed := Some(ParseFailed(path, lineNo, parsed.error));
      } else {
        OkEachRecords(parsed.value);
        records := WireEach(parsed.value);
      }
    }
  }

  /** Lines of wire JSON, until the first that cannot be read or parsed. */
  method IngestOtlpJsonl(path: string, lines: seq<Result<string, string>>, parse: Parser, ghost ns: U64)
    returns (records: seq<Record>, failed: Option<Error>)
    ensures var items := LinesItems(lines, path, OtlpJsonl, 0, ns, Fixed, parse);
            failed == FirstError(items) && records == RecordsBefore(items)
  {
    records := [];
    ghost var items := LinesItems(lines, path, OtlpJsonl, 0, ns, Fixed, parse);
    for i := 0 to |lines|
      invariant Ahead(items, records, LinesItems(lines[i..], path, OtlpJsonl, i, ns, Fixed, parse))
    {
      Tail(lines, i);
      AheadStep(items, records, LineItems(lines[i], path, OtlpJsonl, i + 1, ns, Fixed, parse),
                LinesItems(lines[i + 1..], path, OtlpJsonl, i + 1, ns, Fixed, parse));
      var more;
      more, failed := ReadWireLine(lines[i], path, i + 1, parse, ns);
      if failed.Some? {
        return;
      }
      records := records + more;
    }
    failed := None;
    AheadDone(items, records);
  }

  lemma {:induction false} WireClock(lines: seq<Result<string, string>>, ns: U64)
    ensures LinesClock(lines, OtlpJsonl, ns) == ns
    decreases |lines|
  {
    if lines != [] {
      WireClock(lines[1..], ns);
    }
  }

  method IngestFile(file: File, ns: U64, parse: Parser)
    returns (records: seq<Record>, nextNs: U64, failed: Option<Error>)
    ensures var items := FileItems(file, ns, Fixed, parse);
            && failed == FirstError(items) && records == RecordsBefore(items)
            && (failed.None? ==> nextNs == FileClock(file, ns))
  {
    match file.content {
      case Unopenable(e) =>
        records, nextNs, failed := [], ns, Some(OpenFailed(file.path, e));
      case Readable(lines) =>
        match file.format {
          case Txt => records, nextNs, failed := IngestTxt(file.path, lines, ns, parse);
          case OtlpJsonl =>
            records, failed := IngestOtlpJsonl(file.path, lines, parse, ns);
            nextNs := ns;
            WireClock(lines, ns);
        }
    }
  }

  /** What a load should give: all the records, or the first error; none at all is an
      error of its own. */
  function Loaded(items: seq<Item>, totalFiles: nat): Result<seq<Record>, Error> {
    if FirstError(items).Some? then Err(FirstError(items).value)
    else if RecordsBefore(items) == [] then Err(NoLines(totalFiles))
    else Ok(RecordsBefore(items))
  }

  method Load(files: seq<File>, parse: Parser) returns (r: Result<seq<Record>, Error>)
    ensures r == Loaded(CorpusItems(files, TIME_BASELINE_NS, Fixed, parse), |files|)
  {
    var records: seq<Record>, ns := [], TIME_BASELINE_NS;
    ghost var items := CorpusItems(files, TIME_BASELINE_NS, Fixed, parse);
    for i := 0 to |files|
      invariant Ahead(items, records, CorpusItems(files[i..], ns, Fixed, parse))
    {
      Tail(files, i);
      AheadStep(items, records, FileItems(files[i], ns, Fixed, parse),
                CorpusItems(files[i + 1..], FileClock(files[i], ns), Fixed, parse));
      var more, nextNs, failed := IngestFile(files[i], ns, parse);
      if failed.Some? {
        return Err(failed.value);
      }
      records, ns := records + more, nextNs;
    }
    AheadDone(items, records);
    if records == [] {
      return Err(NoLines(|files|));
    }
    r := Ok(records);
  }

  // ----- the streaming loader

  /** A file part way through. */
  datatype OpenFile = OpenFile(path: string, format: Format, lines: seq<Result<string, string>>, lineNo: nat)

  function OpenItems(current: Option<OpenFile>, ns: U64, mode: SeverityMode, parse: Parser): seq<Item> {
    match current
    case None => []
    case Some(o) => LinesItems(o.lines, o.path, o.format, o.lineNo, ns, mode, parse)
  }

  function OpenClock(current: Option<OpenFile>, ns: U64): U64 {
    match current
    case None => ns
    case Some(o) => LinesClock(o.lines, o.format, ns)
  }

  function OpenLines(current: Option<OpenFile>): nat {
    match current
    case None => 0
    case Some(o) => 1 + |o.lines|
  }

  function Single(item: Option<Item>): seq<Item> {
    match item
    case None => []
    case Some(i) => [i]
  }

  /** One line, as the item it yields at once and the records it leaves pending. */
  method Interpret(line: Result<string, string>, path: string, format: Format, lineNo: nat, ns: U64,
                   mode: SeverityMode, parse: Parser)
    returns (item: Option<Item>, records: seq<WireRecord>, nextNs: U64)
    ensures LineItems(line, path, format, lineNo, ns, mode, parse) == Single(item) + OkEach(records)
    ensures nextNs == LineClock(line, format, ns)
    ensures item.Some? ==> records == []
  {
    item, records, nextNs := None, [], ns;
    if line.Err? {
      item := Some(Err(ReadFailed(path, line.error)));
      return;
    }
    match format {
      case Txt =>
        var raw := StripLine(line.value);
        if raw != "" {
          item := Some(Ok(TextLine(raw, ns, SeverityOf(raw, mode))));
          nextNs := Tick(ns);
        }
      case OtlpJsonl =>
        if Text.Trim(line.value) != "" {
          var parsed := parse(line.value);
          if parsed.Err? {
            item := Some(Err(ParseFailed(path, lineNo, parsed.error)));
          } else {
            records := parsed.value;
          }
        }
    }
  }

  lemma LineTaken(item: Option<Item>, records: seq<WireRecord>, rest: seq<Item>, after: seq<Item>)
    requires item.Some? ==> records == []
    ensures Yields(OkEach([]) + ((Single(item) + OkEach(records)) + rest) + after, item, OkEach(records) + rest + after)
  {
    match item
    case None => assert Single(item) + OkEach(records) == OkEach(records);
    case Some(i) => assert OkEach([]) + ((Single(item) + OkEach(records)) + rest) + after == [i] + (rest + after);
  }

  class CorpusStream {
    var files: seq<File>
    var current: Option<OpenFile>
    var pending: seq<WireRecord>
    var nextNs: U64
    const mode: SeverityMode
    const parse: Parser

    constructor (files: seq<File>, mode: SeverityMode, parse: Parser)
      ensures Remaining() == CorpusItems(files, TIME_BASELINE_NS, mode, parse)
    {
      this.files, current, pending, nextNs := files, None, [], TIME_BASELINE_NS;
      this.mode, this.parse := mode, parse;
    }

    /** Every item the stream has yet to yield. */
    function Remaining(): seq<Item>
      reads this
    {
      OkEach(pending) + OpenItems(current, nextNs, mode, parse) +
      CorpusItems(files, OpenClock(current, nextNs), mode, parse)
    }

    /** Open the next file, if there is one and it opens. */
    method OpenNext() returns (failed: Option<Error>)
      requires pending == [] && current.None? && files != []
      modifies this
      ensures |files| == |old(files)| - 1 && pending == []
      ensures Yields(old(Remaining()), if failed.Some? then Some(Err(failed.value)) else None, Remaining())
    {
      var file := files[0];
      OpenTaken(file, files[1..], nextNs, mode, parse);
      files := files[1..];
      match file.content {
        case Unopenable(e) => failed := Some(OpenFailed(file.path, e));
        case Readable(lines) =>
          current := Some(OpenFile(file.path, file.format, lines, 0));
          failed := None;
      }
    }

    /** Take one line of the open file. */
    method ReadLine() returns (item: Option<Item>)
      requires pending == [] && current.Some? && current.value.lines != []
      modifies this
      ensures files == old(files) && OpenLines(current) < OpenLines(old(current))
      ensures Yields(old(Remaining()), item, Remaining())
    {
      var o := current.value;
      var line, lineNo := o.lines[0], o.lineNo + 1;
      ghost var rest := LinesItems(o.lines[1..], o.path, o.format, lineNo, LineClock(line, o.format, nextNs),
                                   mode, parse);
      ghost var after := CorpusItems(files, OpenClock(current, nextNs), mode, parse);
      var records, ns;
      item, records, ns := Interpret(line, o.path, o.format, lineNo, nextNs, mode, parse);
      LineTaken(item, records, rest, after);
      current, pending, nextNs := Some(OpenFile(o.path, o.format, o.lines[1..], lineNo)), records, ns;
    }

    /** The next item, none when there are no more; a failure is yielded in its place and
        does not end the stream. */
    method Next() returns (item: Option<Item>)
      modifies this
      ensures Yields(old(Remaining()), item, Remaining())
      ensures item.None? ==> Remaining() == []
    {
      while true
        invariant Remaining() == old(Remaining())
        decreases |files|, OpenLines(current), |pending|
      {
        if pending != [] {
          item := TakePending();
          return;
        }
        if current.None? {
          if files == [] {
            return None;
          }
          var failed := OpenNext();
          if failed.Some? {
            return Some(Err(failed.value));
          }
        } else if current.value.lines == [] {
          current := None;
        } else {
          item := ReadLine();
          if item.Some? {
            return;
          }
        }
      }
    }

    method TakePending() returns (item: Option<Item>)
      requires pending != []
      modifies this
      ensures item.Some? && Yields(old(Remaining()), item, Remaining())
    {
      item := Some(Ok(Wire(pending[0])));
      PendingTaken(pending, OpenItems(current, nextNs, mode, parse),
                   CorpusItems(files, OpenClock(current, nextNs), mode, parse));
      pending := pending[1..];
    }
  }

  lemma PendingTaken(pending: seq<WireRecord>, rest: seq<Item>, after: seq<Item>)
    requires pending != []
    ensures OkEach(pending) + rest + after == [Ok(Wire(pending[0]))] + (OkEach(pending[1..]) + rest + after)
  {
    assert OkEach(pending) == [Ok(Wire(pending[0]))] + OkEach(pending[1..]);
  }

  lemma OpenTaken(file: File, files: seq<File>, ns: U64, mode: SeverityMode, parse: Parser)
    ensures OkEach([]) + [] + (FileItems(file, ns, mode, parse) +
                               CorpusItems(files, FileClock(file, ns), mode, parse)) ==
            FileItems(file, ns, mode, parse) + CorpusItems(files, FileClock(file, ns), mode, parse)
    ensures OkEach([]) + FileItems(file, ns, mode, parse) == FileItems(file, ns, mode, parse)
    ensures OkEach([]) + [] + CorpusItems(files, ns, mode, parse) == CorpusItems(files, ns, mode, parse)
  {
    assert OkEach([]) == [];
  }

  /** `item`, if there is one, comes off the front. */
  ghost predicate Yields(before: seq<Item>, item: Option<Item>, after: seq<Item>) {
    match item
    case None => after == before
    case Some(i) => before == [i] + after
  }

  /** A consumer that stops at the first error, as the store builds do. */
  method Drain(stream: CorpusStream) returns (records: seq<Record>, failed: Option<Error>)
    modifies stream
    ensures records == RecordsBefore(old(stream.Remaining())) && failed == FirstError(old(stream.Remaining()))
  {
    records := [];
    ghost var items := stream.Remaining();
    while true
      invariant Ahead(items, records, stream.Remaining())
      decreases |stream.Remaining()|
    {
      var before := stream.Remaining();
      var item := stream.Next();
      if item.None? {
        return records, None;
      }
      assert before[0] == item.value && before[1..] == stream.Remaining();
      if item.value.Err? {
        return records, Some(item.value.error);
      }
      records := records + [item.value.value];
    }
  }

  /** Streaming and stopping at the first error gives exactly what the eager load gives. */
  method StreamLoad(files: seq<File>, parse: Parser) returns (r: Result<seq<Record>, Error>)
    ensures r == Loaded(CorpusItems(files, TIME_BASELINE_NS, Fixed, parse), |files|)
  {
    var stream := new CorpusStream(files, Fixed, parse);
    var records, failed := Drain(stream);
    if failed.Some? {
      return Err(failed.value);
    }
    if records == [] {
      return Err(NoLines(|files|));
    }
    r := Ok(records);
  }

  // ----- stamps

  predicate IsText(item: Item) {
    item.Ok? && item.value.TextLine?
  }

  /** How many of the items are text records. */
  function TextCount(items: seq<Item>): nat {
    if items == [] then 0 else (if IsText(items[0]) then 1 else 0) + TextCount(items[1..])
  }

  lemma {:induction false} TextCountAppend(a: seq<Item>, b: seq<Item>)
    ensures TextCount(a + b) == TextCount(a) + TextCount(b)
    decreases |a|
  {
    if a == [] {
      assert a + b == b;
    } else {
      ConsAppend(a, b);
      TextCountAppend(a[1..], b);
    }
  }

  /** The clock after `n` text records, stuck at the top once it gets there. */
  function Stamp(ns: U64, n: nat): U64 {
    if ns + n * TIME_INCREMENT_NS <= U64_MAX then ns + n * TIME_INCREMENT_NS else U64_MAX
  }

  lemma StampAgain(ns: U64, m: nat, n: nat)
    ensures Stamp(Stamp(ns, m), n) == Stamp(ns, m + n)
  {
  }

  /** Each text record carries the clock, and moves it on. */
  predicate Stamped(items: seq<Item>, ns: U64)
    decreases |items|
  {
    items != [] ==>
      && (IsText(items[0]) ==> items[0].value.time == ns)
      && Stamped(items[1..], if IsText(items[0]) then Tick(ns) else ns)
  }

  lemma {:induction false} StampedAppend(a: seq<Item>, b: seq<Item>, ns: U64)
    requires Stamped(a, ns) && Stamped(b, Stamp(ns, TextCount(a)))
    ensures Stamped(a + b, ns)
    decreases |a|
  {
    if a == [] {
      assert a + b == b;
    } else {
      ConsAppend(a, b);
      StampAgain(ns, if IsText(a[0]) then 1 else 0, TextCount(a[1..]));
      StampedAppend(a[1..], b, if IsText(a[0]) then Tick(ns) else ns);
    }
  }

  /** The text record with n text records before it carries the n-th stamp. */
  lemma {:induction false} StampedNth(items: seq<Item>, ns: U64, i: nat)
    requires Stamped(items, ns) && i < |items| && IsText(items[i])
    ensures items[i].value.time == Stamp(ns, TextCount(items[..i]))
    decreases i
  {
    if i > 0 {
      StampedNth(items[1..], if IsText(items[0]) then Tick(ns) else ns, i - 1);
      assert items[..i][1..] == items[1..][..i - 1];
      StampAgain(ns, if IsText(items[0]) then 1 else 0, TextCount(items[1..][..i - 1]));
    }
  }

  lemma {:induction false} NoText(items: seq<Item>)
    requires forall i :: 0 <= i < |items| ==> !IsText(items[i])
    ensures TextCount(items) == 0
    decreases |items|
  {
    if items != [] {
      NoText(items[1..]);
    }
  }

  lemma {:induction false} NotStamped(items: seq<Item>, ns: U64)
    requires forall i :: 0 <= i < |items| ==> !IsText(items[i])
    ensures Stamped(items, ns)
    decreases |items|
  {
    if items != [] {
      NotStamped(items[1..], ns);
    }
  }

  lemma LineStamped(line: Result<string, string>, path: string, format: Format, lineNo: nat, ns: U64,
                    mode: SeverityMode, parse: Parser)
    ensures var items := LineItems(line, path, format, lineNo, ns, mode, parse);
            Stamped(items, ns) && LineClock(line, format, ns) == Stamp(ns, TextCount(items))
  {
    var items := LineItems(line, path, format, lineNo, ns, mode, parse);
    if format == Txt && line.Ok? && StripReturns(line.value) != "" {
      assert items[1..] == [];
    } else {
      NoText(items);
      NotStamped(items, ns);
    }
  }

  lemma {:induction false} LinesStamped(lines: seq<Result<string, string>>, path: string, format: Format, lineNo: nat,
                                        ns: U64, mode: SeverityMode, parse: Parser)
    ensures var items := LinesItems(lines, path, format, lineNo, ns, mode, parse);
            Stamped(items, ns) && LinesClock(lines, format, ns) == Stamp(ns, TextCount(items))
    decreases |lines|
  {
    if lines != [] {
      var first := LineItems(lines[0], path, format, lineNo + 1, ns, mode, parse);
      var next := LineClock(lines[0], format, ns);
      var rest := LinesItems(lines[1..], path, format, lineNo + 1, next, mode, parse);
      LineStamped(lines[0], path, format, lineNo + 1, ns, mode, parse);
      LinesStamped(lines[1..], path, format, lineNo + 1, next, mode, parse);
      StampedAppend(first, rest, ns);
      TextCountAppend(first, rest);
      StampAgain(ns, TextCount(first), TextCount(rest));
    }
  }

  lemma {:induction false} CorpusStamped(files: seq<File>, ns: U64, mode: SeverityMode, parse: Parser)
    ensures Stamped(CorpusItems(files, ns, mode, parse), ns)
    decreases |files|
  {
    if files != [] {
      var first, next := FileItems(files[0], ns, mode, parse), FileClock(files[0], ns);
      match files[0].content {
        case Unopenable(_) =>
          NoText(first);
          NotStamped(first, ns);
        case Readable(lines) => LinesStamped(lines, files[0].path, files[0].format, 0, ns, mode, parse);
      }
      CorpusStamped(files[1..], next, mode, parse);
      StampedAppend(first, CorpusItems(files[1..], next, mode, parse), ns);
    }
  }

  /** Across all the files, the n-th text record is stamped with the baseline plus n
      increments, or the largest stamp there is. */
  lemma NthStamp(files: seq<File>, mode: SeverityMode, parse: Parser, i: nat)
    requires i < |CorpusItems(files, TIME_BASELINE_NS, mode, parse)|
    requires IsText(CorpusItems(files, TIME_BASELINE_NS, mode, parse)[i])
    ensures var items := CorpusItems(files, TIME_BASELINE_NS, mode, parse);
            items[i].value.time == Stamp(TIME_BASELINE_NS, TextCount(items[..i]))
  {
    CorpusStamped(files, TIME_BASELINE_NS, mode, parse);
    StampedNth(CorpusItems(files, TIME_BASELINE_NS, mode, parse), TIME_BASELINE_NS, i);
  }

  // ----- the severity mode

  function Unlabelled(item: Item): Item {
    if IsText(item) then Ok(item.value.(severity := INFO)) else item
  }

  function UnlabelEach(items: seq<Item>): (r: seq<Item>)
    ensures |r| == |items| && forall i :: 0 <= i < |items| ==> r[i] == Unlabelled(items[i])
  {
    seq(|items|, i requires 0 <= i < |items| => Unlabelled(items[i]))
  }

  lemma UnlabelAppend(a: seq<Item>, b: seq<Item>)
    ensures UnlabelEach(a + b) == UnlabelEach(a) + UnlabelEach(b)
  {
  }

  lemma {:induction false} LinesUnlabelled(lines: seq<Result<string, string>>, path: string, format: Format,
                                           lineNo: nat,
                                           ns: U64, mode: SeverityMode, parse: Parser)
    ensures UnlabelEach(LinesItems(lines, path, format, lineNo, ns, mode, parse)) ==
            LinesItems(lines, path, format, lineNo, ns, Fixed, parse)
    decreases |lines|
  {
    if lines != [] {
      var next := LineClock(lines[0], format, ns);
      LineUnlabelled(lines[0], path, format, lineNo + 1, ns, mode, parse);
      LinesUnlabelled(lines[1..], path, format, lineNo + 1, next, mode, parse);
      UnlabelAppend(LineItems(lines[0], path, format, lineNo + 1, ns, mode, parse),
                    LinesItems(lines[1..], path, format, lineNo + 1, next, mode, parse));
    }
  }

  lemma LineUnlabelled(line: Result<string, string>, path: string, format: Format, lineNo: nat, ns: U64,
                       mode: SeverityMode, parse: Parser)
    ensures UnlabelEach(LineItems(line, path, format, lineNo, ns, mode, parse)) ==
            LineItems(line, path, format, lineNo, ns, Fixed, parse)
  {
  }

  /** Reading levels out of the lines changes severities and nothing else. */
  lemma {:induction false} ModeLabelsOnly(files: seq<File>, ns: U64, mode: SeverityMode, parse: Parser)
    ensures UnlabelEach(CorpusItems(files, ns, mode, parse)) == CorpusItems(files, ns, Fixed, parse)
    decreases |files|
  {
    if files != [] {
      var next := FileClock(files[0], ns);
      if files[0].content.Readable? {
        LinesUnlabelled(files[0].content.lines, files[0].path, files[0].format, 0, ns, mode, parse);
      }
      ModeLabelsOnly(files[1..], next, mode, parse);
      UnlabelAppend(FileItems(files[0], ns, mode, parse), CorpusItems(files[1..], next, mode, parse));
    }
  }
}
