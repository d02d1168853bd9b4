/** The managed results region: a markdown document used as a store.  An update reads the
    region, merges one run into it and writes it back, leaving the rest of the document
    alone. */
module ResultsRegion {
  import opened Collections
  import opened Wrappers
  import opened MarkedText
  import opened ResultsBlocks
  import opened ResultsClean
  import opened ResultsRows
  import Text

  datatype Error =
    | UnsafeField(name: string)
    | BadHeader(header: string)
    | BadTimestamp
    | InconsistentC2
    | ManyRegions
    | NoAnchor
    | MismatchedMarkers

  // ----- reading

  /** The text between the first begin marker and the first end marker after it. */
  function Inner(md: string): Option<string> {
    match SplitOnce(md, REGION_BEGIN)
    case None => None
    case Some((_, rest)) => FirstOf(SplitOnce(rest, REGION_END))
  }

  function FirstOf(parts: Option<(string, string)>): Option<string> {
    match parts
    case None => None
    case Some((front, _)) => Some(front)
  }

  const NOTHING_READ := Reading(map[], None)

  function ReadInner(inner: string): Result<Blocks, Error> {
    match ReadLines(NOTHING_READ, Text.Split(inner, '\n'))
    case Err(header) => Err(BadHeader(header))
    case Ok(r) => Ok(Flush(r))
  }

  function ParseRegion(md: string): Result<Blocks, Error> {
    match Inner(md)
    case None => Ok(map[])
    case Some(inner) => ReadInner(inner)
  }

  // ----- printing

  predicate KeyLess(a: Key, b: Key) {
    Text.Less(a.sha, b.sha) || (a.sha == b.sha && Text.Less(a.hardware, b.hardware))
  }

  lemma KeyLessTotal(a: Key, b: Key)
    ensures KeyLess(a, b) || a == b || KeyLess(b, a)
    ensures !(KeyLess(a, b) && KeyLess(b, a)) && !KeyLess(a, a)
  {
    Text.LessTotal(a.sha, b.sha);
    Text.LessTotal(a.hardware, b.hardware);
    Text.LessTotal(a.sha, a.sha);
    Text.LessTotal(a.hardware, a.hardware);
  }

  lemma KeyLessTransitive(a: Key, b: Key, c: Key)
    requires KeyLess(a, b) && KeyLess(b, c)
    ensures KeyLess(a, c)
  {
    if Text.Less(a.sha, b.sha) && Text.Less(b.sha, c.sha) {
      Text.LessTransitive(a.sha, b.sha, c.sha);
    }
    Text.LessTotal(a.sha, a.sha);
    if a.sha == b.sha == c.sha {
      Text.LessTransitive(a.hardware, b.hardware, c.hardware);
    }
  }

  predicate IsLeast(k: Key, keys: set<Key>) {
    k in keys && forall j :: j in keys && j != k ==> KeyLess(k, j)
  }

  lemma {:induction false} LeastExists(keys: set<Key>)
    requires keys != {}
    ensures exists k :: IsLeast(k, keys)
    decreases keys
  {
    var x :| x in keys;
    if keys - {x} == {} {
      assert keys == {x};
      assert IsLeast(x, keys);
    } else {
      LeastExists(keys - {x});
      var y :| IsLeast(y, keys - {x});
      KeyLessTotal(x, y);
      if KeyLess(x, y) {
        forall j | j in keys && j != x
          ensures KeyLess(x, j)
        {
          if j != y {
            KeyLessTransitive(x, y, j);
          }
        }
        assert IsLeast(x, keys);
      } else {
        assert IsLeast(y, keys);
      }
    }
  }

  lemma LeastUnique(keys: set<Key>, a: Key, b: Key)
    requires IsLeast(a, keys) && IsLeast(b, keys)
    ensures a == b
  {
    KeyLessTotal(a, b);
  }

  function LeastKey(keys: set<Key>): (k: Key)
    requires keys != {}
    ensures IsLeast(k, keys)
  {
    LeastExists(keys);
    assert forall a, b :: IsLeast(a, keys) && IsLeast(b, keys) ==> a == b by {
      forall a, b | IsLeast(a, keys) && IsLeast(b, keys)
        ensures a == b
      {
        LeastUnique(keys, a, b);
      }
    }
    var k :| IsLeast(k, keys);
    k
  }

  /** The blocks of `keys`, in key order. */
  function BodyLines(keys: set<Key>, blocks: Blocks): seq<string>
    requires keys <= blocks.Keys
    decreases keys
  {
    if keys == {} then [] else
      var k := LeastKey(keys);
      BlockLines(k, blocks[k]) + BodyLines(keys - {k}, blocks)
  }

  function RegionLines(blocks: Blocks): seq<string> {
    ["", ""] + BodyLines(blocks.Keys, blocks)
  }

  function RegionText(blocks: Blocks): string {
    Text.Unlines(RegionLines(blocks))
  }

  function Region(blocks: Blocks): string {
    REGION_BEGIN + RegionText(blocks) + REGION_END
  }

  /** The keys of the blocks, each once, by commit and then by machine. */
  ghost predicate KeyOrder(keys: set<Key>, order: seq<Key>) {
    && (forall k :: k in order <==> k in keys)
    && (forall i, j :: 0 <= i < j < |order| ==>
          || Text.Less(order[i].sha, order[j].sha)
          || (order[i].sha == order[j].sha && Text.Less(order[i].hardware, order[j].hardware)))
  }

  function Printouts(order: seq<Key>, blocks: Blocks): seq<seq<string>>
    requires forall i :: 0 <= i < |order| ==> order[i] in blocks
  {
    seq(|order|, i requires 0 <= i < |order| => BlockLines(order[i], blocks[order[i]]))
  }

  /** The body is the printouts of all the blocks, one after the other, in key order. */
  lemma {:induction false} BodyInOrder(keys: set<Key>, blocks: Blocks) returns (order: seq<Key>)
    requires keys <= blocks.Keys
    ensures KeyOrder(keys, order) && BodyLines(keys, blocks) == Concat(Printouts(order, blocks))
    decreases keys
  {
    order := [];
    if keys != {} {
      var k := LeastKey(keys);
      var rest := BodyInOrder(keys - {k}, blocks);
      order := [k] + rest;
      OrderCons(keys, k, rest);
      PrintoutsCons(k, rest, blocks);
    }
  }

  lemma OrderCons(keys: set<Key>, k: Key, rest: seq<Key>)
    requires IsLeast(k, keys) && KeyOrder(keys - {k}, rest)
    ensures KeyOrder(keys, [k] + rest)
  {
    forall i | 0 <= i < |rest|
      ensures KeyLess(k, rest[i])
    {
      assert rest[i] in rest;
    }
  }

  lemma PrintoutsCons(k: Key, rest: seq<Key>, blocks: Blocks)
    requires k in blocks && forall i :: 0 <= i < |rest| ==> rest[i] in blocks
    ensures Concat(Printouts([k] + rest, blocks)) == BlockLines(k, blocks[k]) + Concat(Printouts(rest, blocks))
  {
    assert Printouts([k] + rest, blocks) == [BlockLines(k, blocks[k])] + Printouts(rest, blocks);
    assert ([BlockLines(k, blocks[k])] + Printouts(rest, blocks))[1..] == Printouts(rest, blocks);
  }

  // ----- reading what was printed

  lemma {:induction false} BodySound(keys: set<Key>, blocks: Blocks)
    requires keys <= blocks.Keys && CleanBlocks(blocks)
    ensures AllSound(BodyLines(keys, blocks))
    decreases keys
  {
    if keys != {} {
      var k := LeastKey(keys);
      BlockSound(k, blocks[k]);
      BodySound(keys - {k}, blocks);
      SoundAppend(BlockLines(k, blocks[k]), BodyLines(keys - {k}, blocks));
    }
  }

  lemma {:induction false} BodyReads(r: Reading, keys: set<Key>, blocks: Blocks) returns (end: Reading)
    requires keys <= blocks.Keys && CleanBlocks(blocks)
    ensures Reads(r, BodyLines(keys, blocks), end)
    ensures forall k :: k in Flush(end) <==> k in Flush(r) || k in keys
    ensures forall k :: k in Flush(end) ==> Flush(end)[k] == if k in keys then blocks[k] else Flush(r)[k]
    decreases keys
  {
    if keys == {} {
      end := r;
    } else {
      var k := LeastKey(keys);
      var mid := Reading(Flush(r), Some((k, blocks[k])));
      BlockReads(r, k, blocks[k]);
      end := BodyReads(mid, keys - {k}, blocks);
      ReadThen(r, BlockLines(k, blocks[k]), mid, BodyLines(keys - {k}, blocks), end);
    }
  }

  lemma RegionSound(blocks: Blocks)
    requires CleanBlocks(blocks)
    ensures AllSound(RegionLines(blocks))
  {
    FreeWithoutBang("");
    BodySound(blocks.Keys, blocks);
    SoundAppend(["", ""], BodyLines(blocks.Keys, blocks));
  }

  lemma BlanksRead(r: Reading)
    ensures Reads(r, ["", ""], r) && Reads(r, [""], r)
  {
    BlankSkipped(r);
    ReadOne(r, "", r);
    ReadThen(r, [""], r, [""], r);
    assert [""] + [""] == ["", ""];
  }

  /** Printing clean blocks and reading them back gives the blocks. */
  lemma RegionRoundTrip(blocks: Blocks)
    requires CleanBlocks(blocks)
    ensures ReadInner(RegionText(blocks)) == Ok(blocks) && Free(RegionText(blocks))
  {
    RegionSound(blocks);
    FreeUnlines(RegionLines(blocks));
    Text.SplitUnlines(RegionLines(blocks));
    var end := BodyReads(NOTHING_READ, blocks.Keys, blocks);
    BlanksRead(NOTHING_READ);
    BlanksRead(end);
    ReadThen(NOTHING_READ, ["", ""], NOTHING_READ, BodyLines(blocks.Keys, blocks), end);
    ReadThen(NOTHING_READ, RegionLines(blocks), end, [""], end);
    assert Flush(end) == blocks;
  }

  // ----- writing back

  const ANCHOR := "## 9. Status"
  const HEADING := "### Results\n\n"

  /** The newlines that separate an appended section. */
  function Gap(md: string): string {
    if |md| >= 2 && md[|md| - 2..] == "\n\n" then ""
    else if |md| >= 1 && md[|md| - 1] == '\n' then "\n"
    else "\n\n"
  }

  /** Where a document keeps its region, whether or not it has one yet: the text before
      and the text after. */
  function SpliceAt(md: string): Result<(string, string), Error> {
    if Repeats(md, REGION_BEGIN) || Repeats(md, REGION_END) then Err(ManyRegions) else
      match SplitOnce(md, REGION_BEGIN)
      case Some((before, rest)) => SpliceAround(before, SplitOnce(rest, REGION_END))
      case None =>
        if Find(md, REGION_END).Some? then Err(MismatchedMarkers)
        else if Find(md, ANCHOR).None? then Err(NoAnchor)
        else Ok((md + Gap(md) + HEADING, "\n"))
  }

  function SpliceAround(before: string, rest: Option<(string, string)>): Result<(string, string), Error> {
    match rest
    case Some((_, after)) => Ok((before, after))
    case None => Err(MismatchedMarkers)
  }

  function Splice(md: string, region: string): Result<string, Error> {
    match SpliceAt(md)
    case Err(e) => Err(e)
    case Ok((before, after)) => Ok(before + region + after)
  }

  // ----- one update

  predicate IsControl(c: char) {
    c < '\U{20}' || '\U{7F}' <= c <= '\U{9F}'
  }

  predicate HeaderSafe(s: string) {
    '`' !in s && forall i :: 0 <= i < |s| ==> !IsControl(s[i])
  }

  predicate DatePrefixed(timestamp: string) {
    |timestamp| >= 10 && DateShaped(timestamp[..10])
  }

  /** Only the gates that ran are replaced. */
  function MergeBlock(b: Block, r: Results): Block
    requires DatePrefixed(r.timestamp) && (r.c2.Some? ==> Consistent(r.c2.value))
  {
    Block(r.timestamp[..10],
          if r.a1.Some? then Some(A1Row(r.a1.value)) else b.a1,
          if r.c1.Some? then Some(C1Row(r.c1.value)) else b.c1,
          if r.c2.Some? then Some(C2Row(r.c2.value)) else b.c2)
  }

  function Merge(blocks: Blocks, r: Results): Blocks
    requires DatePrefixed(r.timestamp) && (r.c2.Some? ==> Consistent(r.c2.value))
  {
    blocks[r.key := MergeBlock(if r.key in blocks then blocks[r.key] else EmptyBlock(""), r)]
  }

  function Update(md: string, r: Results): Result<string, Error> {
    if !HeaderSafe(r.key.hardware) then Err(UnsafeField("hardware_kind"))
    else if !HeaderSafe(r.key.sha) then Err(UnsafeField("git_sha"))
    else match ParseRegion(md)
      case Err(e) => Err(e)
      case Ok(blocks) =>
        if !DatePrefixed(r.timestamp) then Err(BadTimestamp)
        else if r.c2.Some? && !Consistent(r.c2.value) then Err(InconsistentC2)
        else Splice(md, Region(Merge(blocks, r)))
  }

  // ----- documents with one region

  /** One region, and no marker anywhere else. */
  ghost predicate HasRegion(md: string, before: string, inner: string, after: string) {
    md == before + REGION_BEGIN + inner + REGION_END + after && Free(before) && Free(inner) && Free(after)
  }

  lemma Regroup(before: string, inner: string, after: string)
    ensures before + REGION_BEGIN + inner + REGION_END + after ==
            before + REGION_BEGIN + (inner + REGION_END + after)
    ensures before + REGION_BEGIN + inner + REGION_END + after ==
            (before + REGION_BEGIN + inner) + REGION_END + after
  {
  }

  lemma RegionFound(md: string, before: string, inner: string, after: string)
    requires HasRegion(md, before, inner, after)
    ensures Inner(md) == Some(inner) && SpliceAt(md) == Ok((before, after))
  {
    BeginIsMarker();
    EndIsMarker();
    MarkersApart();
    Regroup(before, inner, after);
    SplitOnceAt(before, REGION_BEGIN, inner + REGION_END + after);
    SplitOnceAt(inner, REGION_END, after);
    AbsentAround(inner, REGION_END, after, REGION_BEGIN);
    AbsentAround(before, REGION_BEGIN, inner, REGION_END);
    SplitOnceAt(before + REGION_BEGIN + inner, REGION_END, after);
  }

  lemma AbsentParts(a: string, mid: string, b: string, m: string)
    requires !Occurs(a + mid + b, m)
    ensures !Occurs(a, m) && !Occurs(b, m)
  {
    var s := a + mid + b;
    assert s[0..|a|] == a && s[|a| + |mid|..|s|] == b;
    AbsentFromSlice(s, 0, |a|, m);
    AbsentFromSlice(s, |a| + |mid|, |s|, m);
  }

  lemma OneRegion(md: string, before: string, inner: string, after: string)
    requires md == before + REGION_BEGIN + (inner + REGION_END + after)
    requires !Occurs(before, REGION_BEGIN) && !Occurs(inner + REGION_END + after, REGION_BEGIN)
    requires !Repeats(md, REGION_END)
    ensures HasRegion(md, before, inner, after)
  {
    Regroup(before, inner, after);
    AbsentParts(inner, REGION_END, after, REGION_BEGIN);
    SingleEnd(before + REGION_BEGIN + inner, after, md);
    AbsentParts(before, REGION_BEGIN, inner, REGION_END);
  }

  /** The other way: where a splice succeeds there is one region, or none and an anchor. */
  lemma SpliceShape(md: string)
    requires SpliceAt(md).Ok?
    ensures Inner(md).Some? ==> HasRegion(md, SpliceAt(md).value.0, Inner(md).value, SpliceAt(md).value.1)
    ensures Inner(md).None? ==> Free(md) && SpliceAt(md).value == (md + Gap(md) + HEADING, "\n")
  {
    BeginIsMarker();
    if Inner(md).Some? {
      var (before, rest) := SplitOnce(md, REGION_BEGIN).value;
      var (inner, after) := SplitOnce(rest, REGION_END).value;
      OneRegion(md, before, inner, after);
    }
  }

  ghost predicate HasOneRegion(md: string) {
    exists before, inner, after :: HasRegion(md, before, inner, after)
  }

  /** There is a place for the region exactly in a document with one region and no other marker,
      or with no marker and the anchor. */
  lemma SpliceOkIff(md: string)
    ensures SpliceAt(md).Ok? <==> HasOneRegion(md) || (Free(md) && Occurs(md, ANCHOR))
  {
    if SpliceAt(md).Ok? {
      SpliceShape(md);
      if Inner(md).Some? {
        assert HasRegion(md, SpliceAt(md).value.0, Inner(md).value, SpliceAt(md).value.1);
      }
    } else if before, inner, after :| HasRegion(md, before, inner, after) {
      RegionFound(md, before, inner, after);
    }
  }

  lemma SingleEnd(front: string, after: string, md: string)
    requires md == front + REGION_END + after && !Repeats(md, REGION_END)
    ensures !Occurs(front, REGION_END) && !Occurs(after, REGION_END)
  {
    EndIsMarker();
    if Occurs(front, REGION_END) || Occurs(after, REGION_END) {
      RepeatsWhen(front, REGION_END, after);
    }
  }

  // ----- the update as a store

  ghost predicate Acceptable(r: Results) {
    && HeaderSafe(r.key.hardware) && HeaderSafe(r.key.sha) && DatePrefixed(r.timestamp)
    && (r.c2.Some? ==> Consistent(r.c2.value))
  }

  ghost predicate Updatable(md: string) {
    ParseRegion(md).Ok? && SpliceAt(md).Ok?
  }

  /** When an update succeeds, and what it writes. */
  lemma UpdateIs(md: string, r: Results)
    ensures Update(md, r).Ok? <==> Acceptable(r) && Updatable(md)
    ensures Update(md, r).Ok? ==>
              Update(md, r).value ==
              SpliceAt(md).value.0 + Region(Merge(ParseRegion(md).value, r)) + SpliceAt(md).value.1
  {
  }

  /** Why an update is refused, the first reason there is: the hardware field, the commit
      field, the region's own headers, the timestamp, the C2 numbers, the markers. */
  lemma RefusedBecause(md: string, r: Results)
    ensures Update(md, r) == Err(UnsafeField("hardware_kind")) <==> !HeaderSafe(r.key.hardware)
    ensures HeaderSafe(r.key.hardware) ==>
              (Update(md, r) == Err(UnsafeField("git_sha")) <==> !HeaderSafe(r.key.sha))
    ensures HeaderSafe(r.key.hardware) && HeaderSafe(r.key.sha) ==>
              && (ParseRegion(md).Err? ==> Update(md, r) == Err(ParseRegion(md).error))
              && (ParseRegion(md).Ok? && !DatePrefixed(r.timestamp) ==> Update(md, r) == Err(BadTimestamp))
              && (ParseRegion(md).Ok? && DatePrefixed(r.timestamp) && r.c2.Some? && !Consistent(r.c2.value) ==>
                    Update(md, r) == Err(InconsistentC2))
              && (ParseRegion(md).Ok? && Acceptable(r) && SpliceAt(md).Err? ==>
                    Update(md, r) == Err(SpliceAt(md).error))
  {
    NamesDiffer();
    if ParseRegion(md).Err? {
      ParseErrors(md);
    }
  }

  lemma NamesDiffer()
    ensures "hardware_kind" != "git_sha"
  {
    assert |"hardware_kind"| == 13 && |"git_sha"| == 7;
  }

  lemma ParseErrors(md: string)
    requires ParseRegion(md).Err?
    ensures ParseRegion(md).error.BadHeader?
  {
  }

  /** A field that holds the end marker cannot be stored. */
  ghost predicate Storable(r: Results) {
    !Occurs(r.key.sha, REGION_END) && !Occurs(r.key.hardware, REGION_END)
  }

  lemma SafeKey(r: Results)
    requires Acceptable(r)
    ensures IsKey(r.key)
  {
  }

  lemma MergeBlockClean(b: Block, r: Results)
    requires CleanGate(b.a1) && CleanGate(b.c1) && CleanGate(b.c2) && Acceptable(r)
    ensures CleanBlock(MergeBlock(b, r))
  {
    if r.a1.Some? { A1Clean(r.a1.value); }
    if r.c1.Some? { C1Clean(r.c1.value); }
    if r.c2.Some? { C2Clean(r.c2.value); }
  }

  lemma PutClean(blocks: Blocks, key: Key, b: Block)
    requires CleanBlocks(blocks) && CleanKey(key) && CleanBlock(b)
    ensures CleanBlocks(blocks[key := b])
  {
  }

  lemma MergeClean(blocks: Blocks, r: Results)
    requires CleanBlocks(blocks) && Acceptable(r) && Storable(r)
    ensures CleanBlocks(Merge(blocks, r))
  {
    var b := if r.key in blocks then blocks[r.key] else EmptyBlock("");
    SafeKey(r);
    MergeBlockClean(b, r);
    PutClean(blocks, r.key, MergeBlock(b, r));
  }

  lemma LinesSound(inner: string)
    requires Free(inner)
    ensures AllSound(Text.Split(inner, '\n'))
  {
    FreeSplit(inner);
    Text.SplitPieces(inner, '\n');
  }

  lemma {:induction false} FreeSplit(s: string)
    requires Free(s)
    ensures forall k :: 0 <= k < |Text.Split(s, '\n')| ==> Free(Text.Split(s, '\n')[k])
    decreases |s|
  {
    var parts := Text.Split(s, '\n');
    Text.SplitPieces(s, '\n');
    assert parts[0] == s[0..|parts[0]|];
    FreeSlice(s, 0, |parts[0]|);
    if s != "" {
      assert s[1..] == s[1..|s|];
      FreeSlice(s, 1, |s|);
      FreeSplit(s[1..]);
      assert forall k :: 1 <= k < |parts| ==> parts[k] == Text.Split(s[1..], '\n')[if s[0] == '\n' then k - 1 else k];
    } else {
      assert parts == [""];
    }
  }

  /** Everything an updatable document stores can be stored again. */
  lemma StoredClean(md: string)
    requires Updatable(md)
    ensures CleanBlocks(ParseRegion(md).value)
  {
    SpliceShape(md);
    if Inner(md).Some? {
      LinesSound(Inner(md).value);
      LinesClean(NOTHING_READ, Text.Split(Inner(md).value, '\n'));
    }
  }

  /** Appending the heading completes no marker. */
  lemma AppendedFree(md: string)
    requires Free(md)
    ensures Free(md + Gap(md) + HEADING)
  {
    FreeWithoutBang("");
    FreeWithoutBang("### Results\n\n");
    FreeAcross(md, '\n', "");
    FreeAcross(md + ['\n'], '\n', "### Results\n\n");
    FreeAcross(md, '\n', "### Results\n\n");
    assert md + ['\n'] + "" == md + ['\n'];
    if Gap(md) == "" {
      var front := md[..|md| - 1];
      FreeSlice(md, 0, |md| - 1);
      assert md[0..|md| - 1] == front;
      assert md == front + ['\n'];
      FreeAcross(front, '\n', "### Results\n\n");
      assert md + Gap(md) + HEADING == front + ['\n'] + "### Results\n\n";
    } else if Gap(md) == "\n" {
      assert md + Gap(md) + HEADING == md + ['\n'] + "### Results\n\n";
    } else {
      assert md + Gap(md) + HEADING == md + ['\n'] + ['\n'] + "### Results\n\n";
    }
  }

  lemma OutsideFree(md: string)
    requires Updatable(md)
    ensures Free(SpliceAt(md).value.0) && Free(SpliceAt(md).value.1)
  {
    SpliceShape(md);
    if Inner(md).None? {
      AppendedFree(md);
      FreeWithoutBang("\n");
    }
  }

  /** A document around a region that holds `blocks`. */
  function Written(before: string, blocks: Blocks, after: string): string {
    before + Region(blocks) + after
  }

  /** Text that can go around a region, and blocks that can go into it. */
  ghost predicate Fit(before: string, blocks: Blocks, after: string) {
    Free(before) && Free(after) && CleanBlocks(blocks)
  }

  lemma WrittenReads(before: string, blocks: Blocks, after: string)
    requires Fit(before, blocks, after)
    ensures ParseRegion(Written(before, blocks, after)) == Ok(blocks)
    ensures SpliceAt(Written(before, blocks, after)) == Ok((before, after))
  {
    RegionRoundTrip(blocks);
    var inner := RegionText(blocks);
    var md := before + Region(blocks) + after;
    assert md == before + REGION_BEGIN + inner + REGION_END + after;
    RegionFound(md, before, inner, after);
  }

  lemma UpdatableFits(md: string)
    requires Updatable(md)
    ensures Fit(SpliceAt(md).value.0, ParseRegion(md).value, SpliceAt(md).value.1)
  {
    StoredClean(md);
    OutsideFree(md);
  }

  /** An update of any document rewrites it around the merged blocks. */
  lemma UpdateWrites(md: string, r: Results) returns (before: string, blocks: Blocks, after: string)
    requires Update(md, r).Ok?
    ensures Acceptable(r) && ParseRegion(md) == Ok(blocks) && SpliceAt(md) == Ok((before, after))
    ensures Fit(before, blocks, after) && Update(md, r) == Ok(Written(before, Merge(blocks, r), after))
  {
    UpdateIs(md, r);
    UpdatableFits(md);
    blocks := ParseRegion(md).value;
    before, after := SpliceAt(md).value.0, SpliceAt(md).value.1;
  }

  lemma UpdateWritten(before: string, blocks: Blocks, after: string, r: Results)
    requires Fit(before, blocks, after) && Acceptable(r)
    ensures Update(Written(before, blocks, after), r) == Ok(Written(before, Merge(blocks, r), after))
  {
    WrittenReads(before, blocks, after);
    UpdateIs(Written(before, blocks, after), r);
  }

  lemma MergeFits(before: string, blocks: Blocks, after: string, r: Results)
    requires Fit(before, blocks, after) && Acceptable(r) && Storable(r)
    ensures Fit(before, Merge(blocks, r), after)
  {
    MergeClean(blocks, r);
  }

  /** A successful update stores exactly the merge: the region reads back as the old
      blocks with this run merged in, and the text around it is as it was. */
  lemma UpdateStores(md: string, r: Results)
    requires Update(md, r).Ok? && Storable(r)
    ensures var md2 := Update(md, r).value;
            && ParseRegion(md).Ok? && Acceptable(r)
            && ParseRegion(md2) == Ok(Merge(ParseRegion(md).value, r))
            && SpliceAt(md2) == SpliceAt(md)
  {
    var before, blocks, after := UpdateWrites(md, r);
    MergeFits(before, blocks, after, r);
    WrittenReads(before, Merge(blocks, r), after);
  }

  // ----- what the document says after an update

  predicate Measures(r: Results, g: Gate) {
    match g
    case A1 => r.a1.Some?
    case C1 => r.c1.Some?
    case C2 => r.c2.Some?
  }

  /** The row reads as the run's result for the gate. */
  ghost predicate ReadsAs(row: Option<GateRow>, r: Results, g: Gate)
    requires Measures(r, g)
  {
    row.Some? && match g
                 case A1 => ReadsAsA1(row.value, r.a1.value)
                 case C1 => ReadsAsC1(row.value, r.c1.value)
                 case C2 => ReadsAsC2(row.value, r.c2.value)
  }

  function RowIn(blocks: Blocks, key: Key, g: Gate): Option<GateRow> {
    if key in blocks then RowOf(blocks[key], g) else None
  }

  /** Every other block is as it was; the run's block carries its date, a row for each gate it
      measured, and its other rows as they were. */
  ghost predicate Stores(a: Blocks, r: Results, b: Blocks) {
    && b.Keys == a.Keys + {r.key} && (forall k :: k in a && k != r.key ==> b[k] == a[k])
    && |r.timestamp| >= 10 && b[r.key].date == r.timestamp[..10]
    && forall g: Gate ::
         if Measures(r, g) then ReadsAs(RowOf(b[r.key], g), r, g) else RowOf(b[r.key], g) == RowIn(a, r.key, g)
  }

  lemma MergedRow(a: Blocks, r: Results, g: Gate)
    requires Acceptable(r)
    ensures var row := RowOf(Merge(a, r)[r.key], g);
            if Measures(r, g) then ReadsAs(row, r, g) else row == RowIn(a, r.key, g)
  {
    match g
    case A1 => if r.a1.Some? { A1Says(r.a1.value); }
    case C1 => if r.c1.Some? { C1Says(r.c1.value); }
    case C2 => if r.c2.Some? { C2Says(r.c2.value); }
  }

  lemma MergeStores(a: Blocks, r: Results)
    requires Acceptable(r)
    ensures Stores(a, r, Merge(a, r))
  {
    forall g: Gate
      ensures var row := RowOf(Merge(a, r)[r.key], g);
              if Measures(r, g) then ReadsAs(row, r, g) else row == RowIn(a, r.key, g)
    {
      MergedRow(a, r, g);
    }
  }

  /** What the document reads after an update, field by field. */
  lemma UpdateReads(md: string, r: Results)
    requires Update(md, r).Ok? && Storable(r)
    ensures ParseRegion(md).Ok? && ParseRegion(Update(md, r).value).Ok?
    ensures Stores(ParseRegion(md).value, r, ParseRegion(Update(md, r).value).value)
  {
    UpdateStores(md, r);
    MergeStores(ParseRegion(md).value, r);
  }

  predicate NeverMeasured(rs: seq<Results>, key: Key, g: Gate) {
    forall j :: 0 <= j < |rs| && rs[j].key == key ==> !Measures(rs[j], g)
  }

  /** The run whose row stands at the end: the last one for the key that measured the gate. */
  ghost predicate LastMeasured(rs: seq<Results>, key: Key, g: Gate, i: nat) {
    && i < |rs| && rs[i].key == key && Measures(rs[i], g)
    && forall j :: i < j < |rs| && rs[j].key == key ==> !Measures(rs[j], g)
  }

  lemma {:induction false} NoneMeasured(blocks: Blocks, rs: seq<Results>, key: Key, g: Gate)
    requires AllFine(rs) && NeverMeasured(rs, key, g)
    ensures RowIn(MergeAll(blocks, rs), key, g) == RowIn(blocks, key, g)
    decreases |rs|
  {
    if rs != [] {
      assert Acceptable(rs[0]);
      MergedRow(blocks, rs[0], g);
      NoneMeasured(Merge(blocks, rs[0]), rs[1..], key, g);
    }
  }

  lemma {:induction false} LastRowStands(blocks: Blocks, rs: seq<Results>, key: Key, g: Gate, i: nat)
    requires AllFine(rs) && LastMeasured(rs, key, g, i)
    ensures ReadsAs(RowIn(MergeAll(blocks, rs), key, g), rs[i], g)
    decreases |rs|
  {
    assert Acceptable(rs[0]);
    if i == 0 {
      MergedRow(blocks, rs[0], g);
      NoneMeasured(Merge(blocks, rs[0]), rs[1..], key, g);
    } else {
      LastRowStands(Merge(blocks, rs[0]), rs[1..], key, g, i - 1);
    }
  }

  /** Each gate of each commit and machine reads as the last run that measured it, or as it did
      before them all. */
  ghost predicate StoresAll(a: Blocks, rs: seq<Results>, b: Blocks) {
    && (forall key, g, i: nat :: LastMeasured(rs, key, g, i) ==> ReadsAs(RowIn(b, key, g), rs[i], g))
    && (forall key, g :: NeverMeasured(rs, key, g) ==> RowIn(b, key, g) == RowIn(a, key, g))
  }

  lemma MergeAllStores(blocks: Blocks, rs: seq<Results>)
    requires AllFine(rs)
    ensures StoresAll(blocks, rs, MergeAll(blocks, rs))
  {
    forall key, g, i: nat | LastMeasured(rs, key, g, i)
      ensures ReadsAs(RowIn(MergeAll(blocks, rs), key, g), rs[i], g)
    {
      LastRowStands(blocks, rs, key, g, i);
    }
    forall key, g | NeverMeasured(rs, key, g)
      ensures RowIn(MergeAll(blocks, rs), key, g) == RowIn(blocks, key, g)
    {
      NoneMeasured(blocks, rs, key, g);
    }
  }

  /** What the document reads after any sequence of updates. */
  lemma UpdatesRead(md: string, rs: seq<Results>)
    requires Updatable(md) && rs != [] && AllFine(rs)
    ensures UpdateAll(md, rs).Ok? && ParseRegion(UpdateAll(md, rs).value).Ok?
    ensures StoresAll(ParseRegion(md).value, rs, ParseRegion(UpdateAll(md, rs).value).value)
  {
    UpdatesFold(md, rs);
    MergeAllStores(ParseRegion(md).value, rs);
  }

  // ----- what an update leaves alone

  predicate EndsBlank(s: string) {
    |s| >= 2 && s[|s| - 2] == '\n' && s[|s| - 1] == '\n'
  }

  /** The separating newlines of a first region: a blank line before the heading. */
  lemma GapIs(md: string)
    ensures EndsBlank(md + Gap(md)) && forall i :: 0 <= i < |Gap(md)| ==> Gap(md)[i] == '\n'
  {
  }

  /** And no more newlines than it takes. */
  lemma GapIsLeast(md: string, gap: string)
    requires EndsBlank(md + gap)
    ensures |Gap(md)| <= |gap|
  {
    if gap == "" {
      assert md + gap == md;
    } else if |gap| == 1 {
      var s := md + gap;
      assert s[|s| - 2] == md[|md| - 1];
    }
  }

  /** What an update leaves alone, whatever it stores: the text around an existing
      region, or the whole document when there was none. */
  lemma UpdatePreserves(md: string, r: Results)
    requires Update(md, r).Ok?
    ensures var (before, after) := SpliceAt(md).value;
            && Update(md, r).value == before + Region(Merge(ParseRegion(md).value, r)) + after
            && (Inner(md).Some? ==> md == before + REGION_BEGIN + Inner(md).value + REGION_END + after)
            && (Inner(md).None? ==> md <= before)
  {
    UpdateIs(md, r);
    SpliceShape(md);
  }

  // ----- sequences of updates

  function UpdateAll(md: string, rs: seq<Results>): Result<string, Error>
    decreases |rs|
  {
    if rs == [] then Ok(md) else
      match Update(md, rs[0])
      case Err(e) => Err(e)
      case Ok(next) => UpdateAll(next, rs[1..])
  }

  ghost predicate AllFine(rs: seq<Results>) {
    forall i :: 0 <= i < |rs| ==> Acceptable(rs[i]) && Storable(rs[i])
  }

  ghost function MergeAll(blocks: Blocks, rs: seq<Results>): Blocks
    requires AllFine(rs)
    decreases |rs|
  {
    if rs == [] then blocks else
      assert Acceptable(rs[0]);
      MergeAll(Merge(blocks, rs[0]), rs[1..])
  }

  lemma {:induction false} WrittenFolds(before: string, blocks: Blocks, after: string, rs: seq<Results>)
    requires Fit(before, blocks, after) && AllFine(rs)
    ensures UpdateAll(Written(before, blocks, after), rs) == Ok(Written(before, MergeAll(blocks, rs), after))
    ensures Fit(before, MergeAll(blocks, rs), after)
    decreases |rs|
  {
    if rs != [] {
      assert Acceptable(rs[0]) && Storable(rs[0]);
      UpdateWritten(before, blocks, after, rs[0]);
      MergeFits(before, blocks, after, rs[0]);
      WrittenFolds(before, Merge(blocks, rs[0]), after, rs[1..]);
    }
  }

  /** Any sequence of fine runs goes into any updatable document: the document reads back
      as all the runs merged in order, and the text around the region is what it was at
      the start. */
  lemma UpdatesFold(md: string, rs: seq<Results>)
    requires Updatable(md) && rs != [] && AllFine(rs)
    ensures UpdateAll(md, rs).Ok?
    ensures ParseRegion(UpdateAll(md, rs).value) == Ok(MergeAll(ParseRegion(md).value, rs))
    ensures SpliceAt(UpdateAll(md, rs).value) == SpliceAt(md)
  {
    var before, blocks, after := UpdatesWrite(md, rs);
    WrittenReads(before, MergeAll(blocks, rs), after);
  }

  lemma UpdatesWrite(md: string, rs: seq<Results>) returns (before: string, blocks: Blocks, after: string)
    requires Updatable(md) && rs != [] && AllFine(rs)
    ensures ParseRegion(md) == Ok(blocks) && SpliceAt(md) == Ok((before, after))
    ensures Fit(before, MergeAll(blocks, rs), after)
    ensures UpdateAll(md, rs) == Ok(Written(before, MergeAll(blocks, rs), after))
  {
    assert Acceptable(rs[0]) && Storable(rs[0]);
    UpdateIs(md, rs[0]);
    before, blocks, after := UpdateWrites(md, rs[0]);
    MergeFits(before, blocks, after, rs[0]);
    WrittenFolds(before, Merge(blocks, rs[0]), after, rs[1..]);
  }

  lemma MergeTwice(blocks: Blocks, r: Results)
    requires Acceptable(r)
    ensures Merge(Merge(blocks, r), r) == Merge(blocks, r)
  {
  }

  lemma MergesCommute(blocks: Blocks, r: Results, q: Results)
    requires Acceptable(r) && Acceptable(q) && r.key != q.key
    ensures Merge(Merge(blocks, r), q) == Merge(Merge(blocks, q), r)
  {
  }

  /** Repeating an update changes nothing. */
  lemma UpdateIdempotent(md: string, r: Results)
    requires Update(md, r).Ok? && Storable(r)
    ensures Update(Update(md, r).value, r) == Update(md, r)
  {
    var before, blocks, after := UpdateWrites(md, r);
    MergeFits(before, blocks, after, r);
    UpdateWritten(before, Merge(blocks, r), after, r);
    MergeTwice(blocks, r);
  }

  /** Updates for different commits or machines can go in either order. */
  lemma UpdatesCommute(md: string, r: Results, q: Results)
    requires Update(md, r).Ok? && Update(md, q).Ok? && Storable(r) && Storable(q) && r.key != q.key
    ensures Update(Update(md, r).value, q) == Update(Update(md, q).value, r)
  {
    var before, blocks, after := UpdateWrites(md, r);
    var before2, blocks2, after2 := UpdateWrites(md, q);
    MergeFits(before, blocks, after, r);
    MergeFits(before, blocks, after, q);
    UpdateWritten(before, Merge(blocks, r), after, q);
    UpdateWritten(before, Merge(blocks, q), after, r);
    MergesCommute(blocks, r, q);
  }

  // ----- exactly which runs keep the store alive

  lemma {:induction false} BodyHas(keys: set<Key>, blocks: Blocks, k: Key) returns (i: nat)
    requires keys <= blocks.Keys && k in keys
    ensures i < |BodyLines(keys, blocks)| && BodyLines(keys, blocks)[i] == HeaderLine(k, blocks[k].date)
    decreases keys
  {
    var first := LeastKey(keys);
    var head := BlockLines(first, blocks[first]);
    assert head[0] == HeaderLine(first, blocks[first].date);
    if first == k {
      i := 0;
    } else {
      var j := BodyHas(keys - {first}, blocks, k);
      i := |head| + j;
    }
  }

  lemma {:induction false} UnlinesHas(lines: seq<string>, i: nat, m: string)
    requires i < |lines| && '\n' !in m && m != "" && Occurs(lines[i], m)
    ensures Occurs(Text.Unlines(lines), m)
    decreases |lines|
  {
    AbsentAcross(lines[0], '\n', Text.Unlines(lines[1..]), m);
    if i > 0 {
      UnlinesHas(lines[1..], i - 1, m);
    }
  }

  lemma RegionHasEnd(blocks: Blocks, k: Key)
    requires k in blocks && DateShaped(blocks[k].date)
    requires Occurs(k.sha, REGION_END) || Occurs(k.hardware, REGION_END)
    ensures Occurs(RegionText(blocks), REGION_END)
  {
    EndIsMarker();
    TailPlain(blocks[k].date);
    EndInHeader(k, HEADER_TAIL + blocks[k].date);
    var i := BodyHas(blocks.Keys, blocks, k);
    var lines := RegionLines(blocks);
    assert lines[i + 2] == HeaderLine(k, blocks[k].date);
    UnlinesHas(lines, i + 2, REGION_END);
  }

  lemma EndRepeats(before: string, blocks: Blocks, after: string, k: Key)
    requires k in blocks && DateShaped(blocks[k].date)
    requires Occurs(k.sha, REGION_END) || Occurs(k.hardware, REGION_END)
    ensures SpliceAt(Written(before, blocks, after)).Err?
  {
    RegionHasEnd(blocks, k);
    EndIsMarker();
    var front := before + REGION_BEGIN + RegionText(blocks);
    assert Written(before, blocks, after) == front + REGION_END + after;
    OccursLater(before + REGION_BEGIN, RegionText(blocks), REGION_END);
    RepeatsWhen(front, REGION_END, after);
  }

  /** After a successful update the document can be updated again if and only if neither
      header field held the end marker; otherwise every later update is refused. */
  lemma StoreSurvivesIff(md: string, r: Results)
    requires Update(md, r).Ok?
    ensures Updatable(Update(md, r).value) <==> Storable(r)
  {
    var before, blocks, after := UpdateWrites(md, r);
    if Storable(r) {
      MergeFits(before, blocks, after, r);
      WrittenReads(before, Merge(blocks, r), after);
    } else {
      EndRepeats(before, Merge(blocks, r), after, r.key);
    }
  }

  lemma OccursLater(a: string, b: string, m: string)
    requires Occurs(b, m)
    ensures Occurs(a + b, m)
  {
    var i: nat :| OccursAt(b, i, m);
    OccursInRight(a, b, i, m);
  }

  lemma RefusedForever(md: string, r: Results, later: Results)
    requires Update(md, r).Ok? && !Storable(r)
    ensures Update(Update(md, r).value, later).Err?
  {
    StoreSurvivesIff(md, r);
    UpdateIs(Update(md, r).value, later);
  }

  /** The guard admits such a field: the end marker has no backtick and no control
      character. */
  lemma GuardAdmitsEndMarker()
    ensures HeaderSafe(REGION_END)
  {
    EndIsMarker();
    MarkPrintable();
    forall i | 0 <= i < |REGION_END|
      ensures !IsControl(REGION_END[i])
    {
      assert REGION_END[i] == if i < |MARK| then MARK[i] else "END -->"[i - |MARK|];
    }
  }

  lemma MarkPrintable()
    ensures forall i :: 0 <= i < |MARK| ==> !IsControl(MARK[i])
    ensures forall i :: 0 <= i < |"END -->"| ==> !IsControl("END -->"[i])
  {
  }

  /** The run goes in, and nothing goes in after it. */
  ghost predicate LocksOut(md: string, r: Results) {
    Update(md, r).Ok? && forall later :: Update(Update(md, r).value, later).Err?
  }

  /** So any acceptable run, its hardware field replaced by the end marker, goes into any
      updatable document and locks it. */
  lemma MarkerLocksOut(md: string, r: Results)
    requires Updatable(md) && Acceptable(r)
    ensures LocksOut(md, r.(key := Key(r.key.sha, REGION_END)))
  {
    var bad := r.(key := Key(r.key.sha, REGION_END));
    GuardAdmitsEndMarker();
    UpdateIs(md, bad);
    assert OccursAt(REGION_END, 0, REGION_END);
    forall later
      ensures Update(Update(md, bad).value, later).Err?
    {
      RefusedForever(md, bad, later);
    }
  }

  lemma AnchorUpdatable()
    ensures Updatable(ANCHOR)
  {
    EndIsMarker();
    assert !Occurs(ANCHOR, REGION_BEGIN) && !Occurs(ANCHOR, REGION_END);
    assert OccursAt(ANCHOR, 0, ANCHOR);
  }

  lemma BareAcceptable(date: string)
    requires date == "2026-01-01"
    ensures Acceptable(Results(date, Key("", ""), None, None, None))
  {
    assert date[..10] == date;
  }

  /** There is such a document, the anchor alone, and such a run, one with no gates. */
  lemma LockedOutExists()
    ensures exists md, r :: Updatable(md) && LocksOut(md, r)
  {
    var r := Results("2026-01-01", Key("", ""), None, None, None);
    AnchorUpdatable();
    BareAcceptable("2026-01-01");
    MarkerLocksOut(ANCHOR, r);
  }

  // ----- the loops

  /** One pass over the region's lines, a block at a time. */
  method ReadRegion(md: string) returns (r: Result<Blocks, Error>)
    ensures r == ParseRegion(md)
  {
    var inner := Inner(md);
    if inner.None? {
      return Ok(map[]);
    }
    var blocks: Blocks, current: Option<(Key, Block)> := map[], None;
    var lines := Text.Split(inner.value, '\n');
    for i := 0 to |lines|
      invariant ReadLines(NOTHING_READ, lines) == ReadLines(Reading(blocks, current), lines[i..])
    {
      assert lines[i..][0] == lines[i] && lines[i..][1..] == lines[i + 1..];
      var line := Text.Trim(lines[i]);
      if HEADER_MARK <= line {
        if current.Some? {
          blocks := blocks[current.value.0 := current.value.1];
        }
        var header := ParseHeader(line[|HEADER_MARK|..]);
        if header.None? {
          return Err(BadHeader(line[|HEADER_MARK|..]));
        }
        current := Some((header.value.0, EmptyBlock(header.value.1)));
      } else if current.Some? {
        var row := ParseRow(line);
        if row.Some? {
          current := Some((current.value.0, SetGate(current.value.1, row.value.0, row.value.1)));
        }
      }
    }
    if current.Some? {
      blocks := blocks[current.value.0 := current.value.1];
    }
    r := Ok(blocks);
  }

  method AppendLines(out: string, lines: seq<string>, ghost more: seq<string>) returns (r: string)
    ensures r == out + Text.Unlines(lines)
    ensures out + Text.Unlines(lines + more) == r + Text.Unlines(more)
  {
    r := out;
    for i := 0 to |lines|
      invariant out + Text.Unlines(lines) == r + Text.Unlines(lines[i..])
    {
      UnlinesStep(r, lines, i);
      r := r + (lines[i] + ['\n']);
    }
    Text.UnlinesAppend(lines, more);
    Associate(out, Text.Unlines(lines), Text.Unlines(more));
  }

  lemma UnlinesStep(out: string, lines: seq<string>, i: nat)
    requires i < |lines|
    ensures out + Text.Unlines(lines[i..]) == out + (lines[i] + ['\n']) + Text.Unlines(lines[i + 1..])
  {
    assert lines[i..][0] == lines[i] && lines[i..][1..] == lines[i + 1..];
    Associate(out, lines[i] + ['\n'], Text.Unlines(lines[i + 1..]));
  }

  /** The blocks in key order, after what is already written. */
  method AppendBlocks(blocks: Blocks, start: string) returns (out: string)
    ensures out == start + Text.Unlines(BodyLines(blocks.Keys, blocks))
  {
    out := start;
    var rest := blocks.Keys;
    while rest != {}
      invariant rest <= blocks.Keys
      invariant start + Text.Unlines(BodyLines(blocks.Keys, blocks)) == out + Text.Unlines(BodyLines(rest, blocks))
      decreases rest
    {
      var k := LeastKey(rest);
      out := AppendLines(out, BlockLines(k, blocks[k]), BodyLines(rest - {k}, blocks));
      rest := rest - {k};
    }
  }

  method RenderRegion(blocks: Blocks) returns (out: string)
    ensures out == Region(blocks)
  {
    out := AppendLines(REGION_BEGIN, ["", ""], BodyLines(blocks.Keys, blocks));
    out := AppendBlocks(blocks, out);
    out := out + REGION_END;
  }

  method UpdateStatusSection(md: string, r: Results) returns (out: Result<string, Error>)
    ensures out == Update(md, r)
  {
    if !HeaderSafe(r.key.hardware) {
      return Err(UnsafeField("hardware_kind"));
    }
    if !HeaderSafe(r.key.sha) {
      return Err(UnsafeField("git_sha"));
    }
    var parsed := ReadRegion(md);
    if parsed.Err? {
      return Err(parsed.error);
    }
    if !DatePrefixed(r.timestamp) {
      return Err(BadTimestamp);
    }
    if r.c2.Some? && !Consistent(r.c2.value) {
      return Err(InconsistentC2);
    }
    var region := RenderRegion(Merge(parsed.value, r));
    out := Splice(md, region);
  }
}
