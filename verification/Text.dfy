/** Characters, and splitting and joining text on one of them. */
module Text {
  import opened Collections

  /** The Unicode `White_Space` property. */
  predicate IsWhitespace(c: char) {
    || '\U{9}' <= c <= '\U{D}'
    || c == ' ' || c == '\U{85}' || c == '\U{A0}' || c == '\U{1680}'
    || '\U{2000}' <= c <= '\U{200A}'
    || c == '\U{2028}' || c == '\U{2029}' || c == '\U{202F}' || c == '\U{205F}' || c == '\U{3000}'
  }

  type Byte = x: int | 0 <= x < 0x100

  /** One character in UTF-8 (section 3 of RFC 3629); only NUL has a zero byte. */
  function EncodeChar(c: char): (bytes: seq<Byte>)
    ensures bytes != [] && (bytes[0] == 0 <==> c == '\0') && (0 in bytes <==> c == '\0')
  {
    var u := c as int;
    if u < 0x80 then [u]
    else if u < 0x800 then [0xC0 + u / 0x40, 0x80 + u % 0x40]
    else if u < 0x1_0000 then [0xE0 + u / 0x1000, 0x80 + u / 0x40 % 0x40, 0x80 + u % 0x40]
    else [0xF0 + u / 0x4_0000, 0x80 + u / 0x1000 % 0x40, 0x80 + u / 0x40 % 0x40, 0x80 + u % 0x40]
  }

  function Utf8(s: string): seq<Byte> {
    if s == "" then [] else Utf8(s[..|s| - 1]) + EncodeChar(s[|s| - 1])
  }

  function ByteLength(s: string): nat {
    |Utf8(s)|
  }

  lemma {:induction false} Utf8Append(a: string, b: string)
    ensures Utf8(a + b) == Utf8(a) + Utf8(b)
    decreases |b|
  {
    if b == "" {
      assert a + b == a;
    } else {
      var n := |b| - 1;
      Utf8Append(a, b[..n]);
      assert (a + b)[..|a + b| - 1] == a + b[..n] && (a + b)[|a + b| - 1] == b[n];
      Associate(Utf8(a), Utf8(b[..n]), EncodeChar(b[n]));
    }
  }

  lemma {:induction false} ZeroEncodesNul(s: string)
    ensures 0 in Utf8(s) <==> '\0' in s
    decreases |s|
  {
    if s != "" {
      var n := |s| - 1;
      ZeroEncodesNul(s[..n]);
      assert s == s[..n] + [s[n]];
    }
  }

  /** The pieces of `s` between occurrences of `c`; always at least one. */
  function Split(s: string, c: char): (parts: seq<string>)
    ensures parts != []
  {
    if s == "" then [""]
    else
      var rest := Split(s[1..], c);
      if s[0] == c then [""] + rest else [[s[0]] + rest[0]] + rest[1..]
  }

  function Join(parts: seq<string>, c: char): string {
    if parts == [] then ""
    else if |parts| == 1 then parts[0]
    else parts[0] + [c] + Join(parts[1..], c)
  }

  lemma {:induction false} SplitWhole(p: string, c: char)
    requires c !in p
    ensures Split(p, c) == [p]
    decreases |p|
  {
    if p != "" {
      SplitWhole(p[1..], c);
      assert p == [p[0]] + p[1..];
    }
  }

  lemma {:induction false} SplitFirst(p: string, c: char, rest: string)
    requires c !in p
    ensures Split(p + [c] + rest, c) == [p] + Split(rest, c)
    decreases |p|
  {
    var s := p + [c] + rest;
    if p == "" {
      assert s[1..] == rest;
    } else {
      SplitFirst(p[1..], c, rest);
      assert s[1..] == p[1..] + [c] + rest;
      assert p == [p[0]] + p[1..];
    }
  }

  /** Splitting undoes joining when no piece holds the separator. */
  lemma {:induction false} SplitJoin(parts: seq<string>, c: char)
    requires parts != [] && forall i :: 0 <= i < |parts| ==> c !in parts[i]
    ensures Split(Join(parts, c), c) == parts
    decreases |parts|
  {
    if |parts| == 1 {
      SplitWhole(parts[0], c);
    } else {
      SplitJoin(parts[1..], c);
      SplitFirst(parts[0], c, Join(parts[1..], c));
    }
  }

  lemma {:induction false} SplitPieces(s: string, c: char)
    ensures forall k :: 0 <= k < |Split(s, c)| ==> c !in Split(s, c)[k]
    ensures Split(s, c)[0] <= s
    decreases |s|
  {
    if s != "" {
      SplitPieces(s[1..], c);
      assert s == [s[0]] + s[1..];
    }
  }

  lemma JoinFirst(first: string, rest: seq<string>, c: char)
    requires rest != []
    ensures Join([first] + rest, c) == first + [c] + Join(rest, c)
  {
    assert ([first] + rest)[1..] == rest;
  }

  /** Joining undoes splitting. */
  lemma {:induction false} JoinSplit(s: string, c: char)
    ensures Join(Split(s, c), c) == s
    decreases |s|
  {
    if s != "" {
      JoinSplit(s[1..], c);
      var rest := Split(s[1..], c);
      assert s == [s[0]] + s[1..];
      if s[0] == c {
        JoinFirst("", rest, c);
      } else {
        Grown(s[0], rest, c);
      }
    }
  }

  lemma Grown(first: char, rest: seq<string>, c: char)
    requires rest != []
    ensures Join([[first] + rest[0]] + rest[1..], c) == [first] + Join(rest, c)
  {
    if |rest| > 1 {
      JoinFirst([first] + rest[0], rest[1..], c);
      Associate([first], rest[0] + [c], Join(rest[1..], c));
      Associate([first], rest[0], [c]);
    } else {
      assert [[first] + rest[0]] + rest[1..] == [[first] + rest[0]];
    }
  }

  // ----- trimming

  function TrimStart(s: string, drop: char -> bool): string {
    if s != "" && drop(s[0]) then TrimStart(s[1..], drop) else s
  }

  function TrimEnd(s: string, drop: char -> bool): string {
    if s != "" && drop(s[|s| - 1]) then TrimEnd(s[..|s| - 1], drop) else s
  }

  function TrimBy(s: string, drop: char -> bool): string {
    TrimEnd(TrimStart(s, drop), drop)
  }

  /** Leading and trailing whitespace removed. */
  function Trim(s: string): string {
    TrimBy(s, IsWhitespace)
  }

  predicate Trimmed(s: string) {
    s != "" ==> !IsWhitespace(s[0]) && !IsWhitespace(s[|s| - 1])
  }

  lemma {:induction false} TrimStartIs(s: string, drop: char -> bool) returns (i: nat)
    ensures i <= |s| && TrimStart(s, drop) == s[i..]
    ensures i < |s| ==> !drop(s[i])
    decreases |s|
  {
    if s != "" && drop(s[0]) {
      var k := TrimStartIs(s[1..], drop);
      i := k + 1;
    } else {
      i := 0;
    }
  }

  lemma {:induction false} TrimEndIs(s: string, drop: char -> bool) returns (j: nat)
    ensures j <= |s| && TrimEnd(s, drop) == s[..j]
    ensures j > 0 ==> !drop(s[j - 1])
    decreases |s|
  {
    if s != "" && drop(s[|s| - 1]) {
      j := TrimEndIs(s[..|s| - 1], drop);
      assert s[..|s| - 1][..j] == s[..j];
    } else {
      j := |s|;
    }
  }

  /** Trimming takes a slice that neither starts nor ends with a dropped character. */
  lemma TrimIs(s: string, drop: char -> bool) returns (i: nat, j: nat)
    ensures i <= j <= |s| && TrimBy(s, drop) == s[i..j]
    ensures i < j ==> !drop(s[i]) && !drop(s[j - 1])
  {
    i := TrimStartIs(s, drop);
    var n := TrimEndIs(s[i..], drop);
    j := i + n;
    assert s[i..][..n] == s[i..j];
  }

  lemma TrimKeeps(s: string, drop: char -> bool)
    requires s != "" ==> !drop(s[0]) && !drop(s[|s| - 1])
    ensures TrimBy(s, drop) == s
  {
  }

  /** Padding with one dropped character on each side is undone. */
  lemma TrimPadded(c: char, s: string, drop: char -> bool)
    requires drop(c) && (s != "" ==> !drop(s[0]) && !drop(s[|s| - 1]))
    ensures TrimBy([c] + s + [c], drop) == s
  {
    var padded := [c] + s + [c];
    assert padded[1..] == s + [c];
    if s == "" {
      assert padded == [c, c] && padded[1..] == [c] && [c][1..] == "";
      assert TrimStart([c], drop) == "";
    } else {
      var ended := s + [c];
      assert ended[0] == s[0] && TrimStart(padded, drop) == ended;
      assert ended[..|ended| - 1] == s && TrimEnd(s, drop) == s;
    }
  }

  lemma {:induction false} TrimStartEmptyIff(s: string, drop: char -> bool)
    ensures TrimStart(s, drop) == "" <==> forall i :: 0 <= i < |s| ==> drop(s[i])
    ensures TrimStart(s, drop) != "" ==> !drop(TrimStart(s, drop)[0])
    decreases |s|
  {
    if s != "" && drop(s[0]) {
      TrimStartEmptyIff(s[1..], drop);
      assert forall i :: 0 < i < |s| ==> s[i] == s[1..][i - 1];
    }
  }

  lemma {:induction false} TrimEndKeeps(s: string, drop: char -> bool)
    requires s != "" && !drop(s[0])
    ensures TrimEnd(s, drop) != ""
    decreases |s|
  {
    if drop(s[|s| - 1]) {
      TrimEndKeeps(s[..|s| - 1], drop);
    }
  }

  /** Trimming leaves nothing exactly of what is all whitespace. */
  lemma TrimEmptyIff(s: string)
    ensures Trim(s) == "" <==> forall i :: 0 <= i < |s| ==> IsWhitespace(s[i])
  {
    TrimStartEmptyIff(s, IsWhitespace);
    if TrimStart(s, IsWhitespace) != "" {
      TrimEndKeeps(TrimStart(s, IsWhitespace), IsWhitespace);
    }
  }

  // ----- lines

  /** Each line ended by a newline. */
  function Unlines(lines: seq<string>): string {
    if lines == [] then "" else lines[0] + ['\n'] + Unlines(lines[1..])
  }

  lemma {:induction false} SplitUnlines(lines: seq<string>)
    requires forall i :: 0 <= i < |lines| ==> '\n' !in lines[i]
    ensures Split(Unlines(lines), '\n') == lines + [""]
    decreases |lines|
  {
    if lines != [] {
      SplitUnlines(lines[1..]);
      SplitFirst(lines[0], '\n', Unlines(lines[1..]));
      assert lines == [lines[0]] + lines[1..];
    }
  }

  lemma {:induction false} UnlinesAppend(a: seq<string>, b: seq<string>)
    ensures Unlines(a + b) == Unlines(a) + Unlines(b)
    decreases |a|
  {
    if a == [] {
      assert a + b == b;
    } else {
      UnlinesAppend(a[1..], b);
      assert (a + b)[1..] == a[1..] + b;
    }
  }

  // ----- order

  /** Character by character; a proper prefix comes first. */
  predicate Less(a: string, b: string)
    decreases |a|
  {
    b != "" && (a == "" || a[0] < b[0] || (a[0] == b[0] && Less(a[1..], b[1..])))
  }

  /** Where two texts first differ, the smaller has the smaller character, or has ended. */
  ghost predicate SmallerAt(a: string, b: string, k: nat) {
    k <= |a| && k < |b| && a[..k] == b[..k] && (k == |a| || a[k] < b[k])
  }

  lemma {:induction false} LessIff(a: string, b: string)
    ensures Less(a, b) <==> exists k: nat :: SmallerAt(a, b, k)
    decreases |a|
  {
    if a == "" || b == "" {
      if b != "" {
        assert SmallerAt(a, b, 0);
      }
    } else {
      LessIff(a[1..], b[1..]);
      if a[0] != b[0] {
        assert a[0] < b[0] ==> SmallerAt(a, b, 0);
        HeadsDiffer(a, b);
      } else {
        SmallerTail(a, b);
      }
    }
  }

  lemma HeadsDiffer(a: string, b: string)
    requires a != "" && b != "" && a[0] != b[0]
    ensures forall k: nat :: SmallerAt(a, b, k) ==> k == 0
  {
    assert forall k: nat :: 0 < k <= |a| && k <= |b| ==> a[..k][0] != b[..k][0];
  }

  lemma SmallerTail(a: string, b: string)
    requires a != "" && b != "" && a[0] == b[0]
    ensures (exists k: nat :: SmallerAt(a, b, k)) <==> exists k: nat :: SmallerAt(a[1..], b[1..], k)
  {
    if k: nat :| SmallerAt(a, b, k) {
      assert k > 0;
      assert a[1..][..k - 1] == a[..k][1..] && b[1..][..k - 1] == b[..k][1..];
      assert SmallerAt(a[1..], b[1..], k - 1);
    }
    if k: nat :| SmallerAt(a[1..], b[1..], k) {
      assert a[..k + 1] == [a[0]] + a[1..][..k] && b[..k + 1] == [b[0]] + b[1..][..k];
      assert SmallerAt(a, b, k + 1);
    }
  }

  lemma {:induction false} LessTotal(a: string, b: string)
    ensures Less(a, b) || a == b || Less(b, a)
    ensures !(Less(a, b) && Less(b, a)) && !Less(a, a)
    decreases |a|
  {
    if a != "" {
      if b != "" {
        LessTotal(a[1..], b[1..]);
        assert a == [a[0]] + a[1..] && b == [b[0]] + b[1..];
      }
      LessTotal(a[1..], a[1..]);
    }
  }

  lemma {:induction false} LessTransitive(a: string, b: string, c: string)
    requires Less(a, b) && Less(b, c)
    ensures Less(a, c)
    decreases |a|
  {
    if a != "" && a[0] == b[0] == c[0] {
      LessTransitive(a[1..], b[1..], c[1..]);
    }
  }

  // ----- numbers

  function Decimal(n: nat): string {
    if n < 10 then [DIGITS[n]] else Decimal(n / 10) + [DIGITS[n % 10]]
  }

  const DIGITS := "0123456789"

  predicate IsDigit(c: char) {
    '0' <= c <= '9'
  }

  predicate AllDigits(s: string) {
    forall i :: 0 <= i < |s| ==> IsDigit(s[i])
  }

  lemma {:induction false} DecimalDigits(n: nat)
    ensures AllDigits(Decimal(n)) && Decimal(n) != ""
    decreases n
  {
    assert forall k :: 0 <= k < 10 ==> IsDigit(DIGITS[k]);
    if n >= 10 {
      DecimalDigits(n / 10);
    }
  }

  /** The number digits stand for, most significant first. */
  function Value(digits: string): nat
    requires AllDigits(digits)
  {
    if digits == "" then 0 else 10 * Value(digits[..|digits| - 1]) + (digits[|digits| - 1] as int - '0' as int)
  }

  lemma DigitIs(k: nat)
    requires k < 10
    ensures DIGITS[k] as int == '0' as int + k
  {
  }

  /** Printing and reading a number. */
  lemma {:induction false} DecimalReads(n: nat)
    ensures AllDigits(Decimal(n)) && Value(Decimal(n)) == n
    decreases n
  {
    DecimalDigits(n);
    DigitIs(n % 10);
    if n < 10 {
      assert Decimal(n)[..0] == "";
    } else {
      DecimalReads(n / 10);
      assert Decimal(n)[..|Decimal(n)| - 1] == Decimal(n / 10);
    }
  }

  lemma {:induction false} ZerosRead(zeros: nat, digits: string)
    requires AllDigits(digits)
    ensures AllDigits(seq(zeros, _ => '0') + digits) && Value(seq(zeros, _ => '0') + digits) == Value(digits)
    decreases |digits|, zeros
  {
    var z := seq(zeros, _ => '0');
    if digits != "" {
      var n := |digits| - 1;
      ZerosRead(zeros, digits[..n]);
      assert (z + digits)[..|z + digits| - 1] == z + digits[..n];
    } else if zeros > 0 {
      ZerosRead(zeros - 1, "");
      assert (z + digits)[..zeros - 1] == seq(zeros - 1, _ => '0') + "";
    }
  }
}
