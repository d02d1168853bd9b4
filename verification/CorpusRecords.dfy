/** What the loaded records hold, source line by source line, said without the walk that
    loads them. */
module CorpusRecords {
  import opened Arithmetic
  import opened Collections
  import opened Wrappers
  import opened Corpus
  import Text

  // ----- the body of a text line

  predicate Blank(line: string) {
    forall i :: 0 <= i < |line| ==> line[i] == '\r'
  }

  /** The line without the carriage returns it ends with. */
  predicate IsBody(line: string, body: string) {
    && body != "" && body <= line && body[|body| - 1] != '\r'
    && forall i :: |body| <= i < |line| ==> line[i] == '\r'
  }

  lemma {:induction false} StripIs(line: string)
    ensures if Blank(line) then StripReturns(line) == "" else IsBody(line, StripReturns(line))
    decreases |line|
  {
    if line != "" && line[|line| - 1] == '\r' {
      var init := line[..|line| - 1];
      StripIs(init);
      assert forall i :: 0 <= i < |init| ==> init[i] == line[i];
    }
  }

  // ----- the level of a text line

  /** A whole word of the text: no space in it, a space or an end on either side. */
  predicate WordAt(s: string, i: nat, j: nat) {
    && i < j <= |s| && (forall k :: i <= k < j ==> !IsAsciiSpace(s[k]))
    && (i == 0 || IsAsciiSpace(s[i - 1])) && (j == |s| || IsAsciiSpace(s[j]))
  }

  /** No word from `a` up to `b` is a level. */
  ghost predicate NoLevel(s: string, a: nat, b: nat) {
    forall i: nat, j: nat :: a <= i < b && WordAt(s, i, j) ==> LevelOf(s[i..j]).None?
  }

  /** The first level at or after `a`. */
  ghost predicate IsFirstLevel(s: string, a: nat, level: Option<Severity>) {
    if level.None? then NoLevel(s, a, |s|)
    else exists i: nat, j: nat :: a <= i && WordAt(s, i, j) && LevelOf(s[i..j]) == level && NoLevel(s, a, i)
  }

  /** In the middle of a word that began at `a`, or just before one. */
  predicate InWord(s: string, a: nat, k: nat) {
    && a <= k <= |s| && (a == 0 || IsAsciiSpace(s[a - 1]))
    && forall i :: a <= i < k ==> !IsAsciiSpace(s[i])
  }

  /** A word that ends at `k` is the only one to begin from its start up to there. */
  lemma OnlyWord(s: string, a: nat, k: nat, i: nat, j: nat)
    requires InWord(s, a, k) && (k == |s| || IsAsciiSpace(s[k])) && a <= i <= k && WordAt(s, i, j)
    ensures a < k && i == a && j == k
  {
  }

  lemma EndOfWord(s: string, a: nat, k: nat, rest: Option<Severity>)
    requires InWord(s, a, k) && k < |s| && IsAsciiSpace(s[k]) && IsFirstLevel(s, k + 1, rest)
    ensures IsFirstLevel(s, a, if a < k && LevelOf(s[a..k]).Some? then LevelOf(s[a..k]) else rest)
  {
    if a < k && LevelOf(s[a..k]).Some? {
      assert WordAt(s, a, k);
      assert NoLevel(s, a, a);
    } else {
      forall i: nat, j: nat | a <= i <= k && WordAt(s, i, j)
        ensures LevelOf(s[i..j]).None?
      {
        OnlyWord(s, a, k, i, j);
      }
      if rest.Some? {
        var i: nat, j: nat :| k + 1 <= i && WordAt(s, i, j) && LevelOf(s[i..j]) == rest && NoLevel(s, k + 1, i);
        assert NoLevel(s, a, i);
      }
    }
  }

  lemma LastWord(s: string, a: nat)
    requires InWord(s, a, |s|)
    ensures IsFirstLevel(s, a, if a < |s| then LevelOf(s[a..]) else None)
  {
    if a < |s| && LevelOf(s[a..]).Some? {
      assert WordAt(s, a, |s|) && s[a..|s|] == s[a..];
      assert NoLevel(s, a, a);
    } else {
      forall i: nat, j: nat | a <= i < |s| && WordAt(s, i, j)
        ensures LevelOf(s[i..j]).None?
      {
        OnlyWord(s, a, |s|, i, j);
        assert s[a..|s|] == s[a..];
      }
    }
  }

  function AsTokens(word: string): seq<string> {
    if word == "" then [] else [word]
  }

  lemma FirstOfWord(word: string, rest: seq<string>)
    ensures FirstLevel(AsTokens(word) + rest) == if LevelOf(word).Some? then LevelOf(word) else FirstLevel(rest)
  {
    if word == "" {
      assert AsTokens(word) + rest == rest;
    } else {
      assert ([word] + rest)[1..] == rest;
    }
  }

  lemma TokensAt(s: string, k: nat, word: string)
    requires k < |s|
    ensures AsciiTokens(s[k..], word) ==
            if IsAsciiSpace(s[k]) then AsTokens(word) + AsciiTokens(s[k + 1..], "")
            else AsciiTokens(s[k + 1..], word + [s[k]])
  {
    assert s[k..][0] == s[k] && s[k..][1..] == s[k + 1..];
  }

  lemma TokensAtEnd(word: string)
    ensures FirstLevel(AsciiTokens("", word)) == LevelOf(word)
  {
    FirstOfWord(word, []);
    assert AsTokens(word) + [] == AsTokens(word);
  }

  /** The first level found from position `k` on, in a word that began at `a`. */
  function LevelFrom(s: string, a: nat, k: nat): Option<Severity>
    requires a <= k <= |s|
  {
    FirstLevel(AsciiTokens(s[k..], s[a..k]))
  }

  lemma LevelAtEnd(s: string, a: nat)
    requires a <= |s|
    ensures LevelFrom(s, a, |s|) == if a < |s| then LevelOf(s[a..]) else None
  {
    assert s[|s|..] == "" && s[a..|s|] == s[a..];
    TokensAtEnd(s[a..]);
  }

  lemma LevelAtSpace(s: string, a: nat, k: nat)
    requires a <= k < |s| && IsAsciiSpace(s[k])
    ensures LevelFrom(s, a, k) ==
            if a < k && LevelOf(s[a..k]).Some? then LevelOf(s[a..k]) else LevelFrom(s, k + 1, k + 1)
  {
    TokensAt(s, k, s[a..k]);
    assert s[k + 1..k + 1] == "";
    FirstOfWord(s[a..k], AsciiTokens(s[k + 1..], ""));
    assert a == k ==> s[a..k] == "";
  }

  lemma LevelAtLetter(s: string, a: nat, k: nat)
    requires a <= k < |s| && !IsAsciiSpace(s[k])
    ensures LevelFrom(s, a, k) == LevelFrom(s, a, k + 1)
  {
    TokensAt(s, k, s[a..k]);
    assert s[a..k] + [s[k]] == s[a..k + 1];
  }

  lemma {:induction false} TokensFrom(s: string, a: nat, k: nat)
    requires InWord(s, a, k)
    ensures IsFirstLevel(s, a, LevelFrom(s, a, k))
    decreases |s| - k
  {
    if k == |s| {
      LastWord(s, a);
      LevelAtEnd(s, a);
    } else if IsAsciiSpace(s[k]) {
      TokensFrom(s, k + 1, k + 1);
      LevelAtSpace(s, a, k);
      EndOfWord(s, a, k, LevelFrom(s, k + 1, k + 1));
    } else {
      TokensFrom(s, a, k + 1);
      LevelAtLetter(s, a, k);
    }
  }

  /** The severity a body is given: always INFO, or that of its first level word, if any. */
  ghost predicate IsSeverity(body: string, mode: SeverityMode, severity: Severity) {
    match mode
    case Fixed => severity == Severity(9, "INFO")
    case Log4j =>
      || IsFirstLevel(body, 0, Some(severity))
      || (IsFirstLevel(body, 0, None) && severity == Severity(9, "INFO"))
  }

  lemma SeverityIs(body: string, mode: SeverityMode)
    ensures IsSeverity(body, mode, SeverityOf(body, mode))
  {
    assert body[0..] == body && body[0..0] == "";
    TokensFrom(body, 0, 0);
  }

  // ----- one source line

  /** Where an item comes from: a file that would not open, or a line, counted from 1. */
  datatype Source =
    | Closed(path: string, detail: string)
    | Line(path: string, format: Format, lineNo: nat, line: Result<string, string>)

  /** What a source contributes. */
  ghost predicate Yields(src: Source, mode: SeverityMode, parse: Parser, part: seq<Item>) {
    match src
    case Closed(path, detail) => part == [Err(OpenFailed(path, detail))]
    case Line(path, _, _, Err(detail)) => part == [Err(ReadFailed(path, detail))]
    case Line(_, Txt, _, Ok(raw)) =>
      if Blank(raw) then part == []
      else
        && |part| == 1 && part[0].Ok? && part[0].value.TextLine? && IsBody(raw, part[0].value.body)
        && IsSeverity(part[0].value.body, mode, part[0].value.severity)
    case Line(path, OtlpJsonl, lineNo, Ok(raw)) =>
      if forall i :: 0 <= i < |raw| ==> Text.IsWhitespace(raw[i]) then part == []
      else match parse(raw)
        case Err(detail) => part == [Err(ParseFailed(path, lineNo, detail))]
        case Ok(records) =>
          |part| == |records| && forall i :: 0 <= i < |records| ==> part[i] == Ok(Wire(records[i]))
  }

  lemma LineYields(line: Result<string, string>, path: string, format: Format, lineNo: nat, ns: U64,
                   mode: SeverityMode, parse: Parser)
    ensures Yields(Line(path, format, lineNo, line), mode, parse,
                   LineItems(line, path, format, lineNo, ns, mode, parse))
  {
    if line.Ok? {
      if format == Txt {
        StripIs(line.value);
        SeverityIs(StripReturns(line.value), mode);
      } else {
        Text.TrimEmptyIff(line.value);
      }
    }
  }

  // ----- all the sources

  /** The lines after line `before`, each with its number. */
  function LineSources(lines: seq<Result<string, string>>, path: string, format: Format, before: nat)
    : (sources: seq<Source>)
    ensures |sources| == |lines|
    ensures forall i :: 0 <= i < |lines| ==> sources[i] == Line(path, format, before + i + 1, lines[i])
  {
    seq(|lines|, i requires 0 <= i < |lines| => Line(path, format, before + i + 1, lines[i]))
  }

  function FileSources(file: File): seq<Source> {
    match file.content
    case Unopenable(detail) => [Closed(file.path, detail)]
    case Readable(lines) => LineSources(lines, file.path, file.format, 0)
  }

  function Sources(files: seq<File>): seq<Source> {
    if files == [] then [] else FileSources(files[0]) + Sources(files[1..])
  }

  /** The items are the contributions of the sources, in their order. */
  ghost predicate Partition(sources: seq<Source>, mode: SeverityMode, parse: Parser, parts: seq<seq<Item>>,
                            items: seq<Item>) {
    && |parts| == |sources| && Concat(parts) == items
    && forall i :: 0 <= i < |sources| ==> Yields(sources[i], mode, parse, parts[i])
  }

  lemma {:induction false} LinesParts(lines: seq<Result<string, string>>, path: string, format: Format, lineNo: nat,
                                      ns: U64, mode: SeverityMode, parse: Parser)
    returns (parts: seq<seq<Item>>)
    ensures Partition(LineSources(lines, path, format, lineNo), mode, parse, parts,
                      LinesItems(lines, path, format, lineNo, ns, mode, parse))
    decreases |lines|
  {
    parts := [];
    if lines != [] {
      var next := LineClock(lines[0], format, ns);
      var rest := LinesParts(lines[1..], path, format, lineNo + 1, next, mode, parse);
      LineYields(lines[0], path, format, lineNo + 1, ns, mode, parse);
      SourcesCons(lines, path, format, lineNo);
      var first := LineItems(lines[0], path, format, lineNo + 1, ns, mode, parse);
      PartitionCons(Line(path, format, lineNo + 1, lines[0]), LineSources(lines[1..], path, format, lineNo + 1),
                    mode, parse, first, rest, LinesItems(lines[1..], path, format, lineNo + 1, next, mode, parse));
      parts := [first] + rest;
    }
  }

  lemma SourcesCons(lines: seq<Result<string, string>>, path: string, format: Format, before: nat)
    requires lines != []
    ensures LineSources(lines, path, format, before) ==
            [Line(path, format, before + 1, lines[0])] + LineSources(lines[1..], path, format, before + 1)
  {
  }

  lemma PartitionCons(src: Source, sources: seq<Source>, mode: SeverityMode, parse: Parser, part: seq<Item>,
                      parts: seq<seq<Item>>, items: seq<Item>)
    requires Yields(src, mode, parse, part) && Partition(sources, mode, parse, parts, items)
    ensures Partition([src] + sources, mode, parse, [part] + parts, part + items)
  {
    assert ([part] + parts)[1..] == parts;
  }

  lemma PartitionAppend(a: seq<Source>, b: seq<Source>, mode: SeverityMode, parse: Parser,
                        p: seq<seq<Item>>, q: seq<seq<Item>>, x: seq<Item>, y: seq<Item>)
    requires Partition(a, mode, parse, p, x) && Partition(b, mode, parse, q, y)
    ensures Partition(a + b, mode, parse, p + q, x + y)
  {
    ConcatAppend(p, q);
    forall i | 0 <= i < |a + b|
      ensures Yields((a + b)[i], mode, parse, (p + q)[i])
    {
      if i < |a| {
        assert (a + b)[i] == a[i] && (p + q)[i] == p[i];
      } else {
        assert (a + b)[i] == b[i - |a|] && (p + q)[i] == q[i - |p|];
      }
    }
  }

  lemma FileParts(file: File, ns: U64, mode: SeverityMode, parse: Parser) returns (parts: seq<seq<Item>>)
    ensures Partition(FileSources(file), mode, parse, parts, FileItems(file, ns, mode, parse))
  {
    match file.content
    case Unopenable(detail) =>
      parts := [[Err(OpenFailed(file.path, detail))]];
      assert parts[1..] == [];
    case Readable(lines) =>
      parts := LinesParts(lines, file.path, file.format, 0, ns, mode, parse);
  }

  /** Everything the files hold: the contributions of every line of every file, in order, each
      what its own line says. */
  lemma {:induction false} CorpusParts(files: seq<File>, ns: U64, mode: SeverityMode, parse: Parser)
    returns (parts: seq<seq<Item>>)
    ensures Partition(Sources(files), mode, parse, parts, CorpusItems(files, ns, mode, parse))
    decreases |files|
  {
    parts := [];
    if files != [] {
      var first := FileParts(files[0], ns, mode, parse);
      var rest := CorpusParts(files[1..], FileClock(files[0], ns), mode, parse);
      PartitionAppend(FileSources(files[0]), Sources(files[1..]), mode, parse, first, rest,
                      FileItems(files[0], ns, mode, parse),
                      CorpusItems(files[1..], FileClock(files[0], ns), mode, parse));
      parts := first + rest;
    }
  }

  // ----- where a load stops

  /** A load gives the records up to the first error, and that error. */
  lemma {:induction false} StopsAt(items: seq<Item>) returns (n: nat)
    ensures n <= |items| && (forall i :: 0 <= i < n ==> items[i].Ok?) && (n < |items| ==> items[n].Err?)
    ensures |RecordsBefore(items)| == n && forall i :: 0 <= i < n ==> RecordsBefore(items)[i] == items[i].value
    ensures FirstError(items) == if n < |items| then Some(items[n].error) else None
    decreases |items|
  {
    n := 0;
    if items != [] && items[0].Ok? {
      var k := StopsAt(items[1..]);
      n := k + 1;
    }
  }

  /** So a load fails with the first error there is, or because there is nothing at all; else
      it gives every record. */
  lemma LoadedIs(items: seq<Item>, totalFiles: nat)
    ensures (forall i :: 0 <= i < |items| ==> items[i].Ok?) ==>
              if items == [] then Loaded(items, totalFiles) == Err(NoLines(totalFiles))
              else && Loaded(items, totalFiles).Ok? && |Loaded(items, totalFiles).value| == |items|
                   && forall i :: 0 <= i < |items| ==> Loaded(items, totalFiles).value[i] == items[i].value
    ensures forall n :: 0 <= n < |items| && items[n].Err? && (forall i :: 0 <= i < n ==> items[i].Ok?) ==>
                          Loaded(items, totalFiles) == Err(items[n].error)
  {
    var n := StopsAt(items);
  }

  // ----- the texts of a corpus

  /** The readable text lines, in order. */
  function TextLines(sources: seq<Source>): seq<string> {
    if sources == [] then [] else
      (match sources[0]
       case Line(_, Txt, _, Ok(raw)) => [raw]
       case _ => []) + TextLines(sources[1..])
  }

  /** The bodies of the text records, in order. */
  function TextBodies(items: seq<Item>): seq<string> {
    if items == [] then [] else (if IsText(items[0]) then [items[0].value.body] else []) + TextBodies(items[1..])
  }

  /** One body for every line that is not blank, in order. */
  predicate Bodies(lines: seq<string>, bodies: seq<string>) {
    if lines == [] then bodies == []
    else if Blank(lines[0]) then Bodies(lines[1..], bodies)
    else bodies != [] && IsBody(lines[0], bodies[0]) && Bodies(lines[1..], bodies[1..])
  }

  lemma {:induction false} TextBodiesAppend(a: seq<Item>, b: seq<Item>)
    ensures TextBodies(a + b) == TextBodies(a) + TextBodies(b)
    decreases |a|
  {
    if a == [] {
      assert a + b == b;
    } else {
      ConsAppend(a, b);
      TextBodiesAppend(a[1..], b);
      Associate(if IsText(a[0]) then [a[0].value.body] else [], TextBodies(a[1..]), TextBodies(b));
    }
  }

  lemma {:induction false} NoBodies(items: seq<Item>)
    requires forall i :: 0 <= i < |items| ==> !IsText(items[i])
    ensures TextBodies(items) == []
    decreases |items|
  {
    if items != [] {
      NoBodies(items[1..]);
    }
  }

  lemma PartBodies(src: Source, mode: SeverityMode, parse: Parser, part: seq<Item>, rest: seq<string>,
                   bodies: seq<string>)
    requires Yields(src, mode, parse, part) && Bodies(rest, bodies)
    ensures Bodies(TextLines([src]) + rest, TextBodies(part) + bodies)
  {
    assert [src][1..] == [];
    if src.Line? && src.format == Txt && src.line.Ok? {
      var raw := src.line.value;
      assert TextLines([src]) == [raw] && ([raw] + rest)[0] == raw && ([raw] + rest)[1..] == rest;
      if Blank(raw) {
        assert TextBodies(part) + bodies == bodies;
      } else {
        assert part[1..] == [];
        var body := part[0].value.body;
        assert TextBodies(part) == [body];
        assert ([body] + bodies)[0] == body && ([body] + bodies)[1..] == bodies;
      }
    } else {
      NoBodies(part);
      assert [] + rest == rest && [] + bodies == bodies;
    }
  }

  lemma {:induction false} PartsBodies(sources: seq<Source>, mode: SeverityMode, parse: Parser,
                                       parts: seq<seq<Item>>, items: seq<Item>)
    requires Partition(sources, mode, parse, parts, items)
    ensures Bodies(TextLines(sources), TextBodies(items))
    decreases |sources|
  {
    if sources != [] {
      PartsBodies(sources[1..], mode, parse, parts[1..], Concat(parts[1..]));
      TextBodiesAppend(parts[0], Concat(parts[1..]));
      PartBodies(sources[0], mode, parse, parts[0], TextLines(sources[1..]), TextBodies(Concat(parts[1..])));
      assert [sources[0]][1..] == [];
      assert TextLines(sources) == TextLines([sources[0]]) + TextLines(sources[1..]);
    }
  }

  /** The text records of a corpus are, in order, the bodies of its lines that are not blank. */
  lemma CorpusTexts(files: seq<File>, ns: U64, mode: SeverityMode, parse: Parser)
    ensures Bodies(TextLines(Sources(files)), TextBodies(CorpusItems(files, ns, mode, parse)))
  {
    var parts := CorpusParts(files, ns, mode, parse);
    PartsBodies(Sources(files), mode, parse, parts, CorpusItems(files, ns, mode, parse));
  }
}
