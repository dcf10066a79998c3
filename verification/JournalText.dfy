/** The text of the play time journal: decimal numbers, lines, and how src/devkit/util/Tokenizer.hh and
    src/devkit/services/impl/FileTextReader.hh read them. Numbers are clipped to 32 bits, as strtoul does
    it on Windows. */
module JournalText {
  import opened Basics

  // ----- Decimal numbers

  predicate IsDigit(c: char) {
    '0' <= c <= '9'
  }

  function DigitValue(c: char): nat
    requires IsDigit(c)
  {
    c as int - '0' as int
  }

  function Digit(n: nat): (c: char)
    requires n < 10
    ensures IsDigit(c) && DigitValue(c) == n
  {
    ('0' as int + n) as char
  }

  /** A number as printf writes it. */
  function Decimal(n: nat): (s: string)
    ensures s != "" && forall i :: 0 <= i < |s| ==> IsDigit(s[i])
  {
    if n < 10 then [Digit(n)] else Decimal(n / 10) + [Digit(n % 10)]
  }

  /** The number a string of digits stands for. */
  function Number(s: string): nat
    requires forall i :: 0 <= i < |s| ==> IsDigit(s[i])
  {
    if s == "" then 0 else Number(s[..|s| - 1]) * 10 + DigitValue(s[|s| - 1])
  }

  lemma {:induction false} NumberOfDecimal(n: nat)
    ensures Number(Decimal(n)) == n
  {
    if n >= 10 {
      NumberOfDecimal(n / 10);
      assert Decimal(n)[..|Decimal(n)| - 1] == Decimal(n / 10);
    }
  }

  /** A larger number never prints shorter. */
  lemma {:induction false} LargerIsNotShorter(m: nat, n: nat)
    requires m <= n
    ensures |Decimal(m)| <= |Decimal(n)|
    decreases m
  {
    if m >= 10 {
      LargerIsNotShorter(m / 10, n / 10);
    }
  }

  // ----- Reading numbers

  const MAX_NUMBER := 0xFFFF_FFFF

  /** What an unsigned 32-bit number can hold of a larger one. */
  function Clip(n: nat): (r: nat)
    ensures r <= 4_294_967_295 && (n <= 4_294_967_295 ==> r == n) && (n > 4_294_967_295 ==> r == 4_294_967_295)
  {
    if n > MAX_NUMBER then MAX_NUMBER else n
  }

  predicate IsSpace(c: char) {
    c == ' ' || ('\t' <= c <= '\r')
  }

  function SkipSpace(s: string, at: nat): (r: nat)
    requires at <= |s|
    ensures at <= r <= |s|
    decreases |s| - at
  {
    if at < |s| && IsSpace(s[at]) then SkipSpace(s, at + 1) else at
  }

  function SkipDigits(s: string, at: nat): (r: nat)
    requires at <= |s|
    ensures at <= r <= |s| && forall i :: at <= i < r ==> IsDigit(s[i])
    decreases |s| - at
  {
    if at < |s| && IsDigit(s[at]) then SkipDigits(s, at + 1) else at
  }

  /** Reads a number as strtoul does: spaces, a sign, digits; a value that is too large is clipped, any
      other negative one wraps. Without digits nothing is consumed. */
  function ReadNumber(s: string, at: nat): (r: (nat, nat))
    requires at <= |s|
    ensures at <= r.1 <= |s|
  {
    var start := SkipSpace(s, at);
    var signed := start < |s| && (s[start] == '-' || s[start] == '+');
    var digits := if signed then start + 1 else start;
    var end := SkipDigits(s, digits);
    if end == digits then (0, at)
    else
      var n := Number(s[digits..end]);
      (if signed && s[start] == '-' && n <= MAX_NUMBER then (MAX_NUMBER + 1 - n) % (MAX_NUMBER + 1) else Clip(n), end)
  }

  /** What strtoul makes of a sign, and of a number that is too large. */
  lemma ReadsLikeStrtoul()
    ensures ReadNumber("-1:", 0) == (4_294_967_295, 2) && ReadNumber(" +7:", 0) == (7, 3)
    ensures ReadNumber("x7", 0) == (0, 0)
  {
    assert "-1:"[1..2] == "1" && " +7:"[2..3] == "7";
    assert Number("1") == 1 && Number("7") == 7;
    assert SkipDigits("-1:", 1) == 2 && SkipDigits(" +7:", 2) == 3;
    assert SkipSpace(" +7:", 0) == 1;
  }

  /** The place behind a character, if it comes next. */
  function Consume(s: string, at: nat, c: char): (r: Option<nat>)
    requires at <= |s|
    ensures r.Some? ==> r.value <= |s|
  {
    if at < |s| && s[at] == c then Some(at + 1) else None
  }

  lemma {:induction false} SkipAllDigits(s: string, at: nat, end: nat)
    requires at <= end <= |s| && forall i :: at <= i < end ==> IsDigit(s[i])
    requires end < |s| ==> !IsDigit(s[end])
    ensures SkipDigits(s, at) == end
    decreases end - at
  {
    if at < end {
      SkipAllDigits(s, at + 1, end);
    }
  }

  /** Digits that something else than a digit follows are read as their number, clipped to 32 bits. */
  lemma ReadDigits(s: string, at: nat, end: nat)
    requires at < end <= |s| && forall i :: at <= i < end ==> IsDigit(s[i])
    requires end < |s| ==> !IsDigit(s[end])
    ensures ReadNumber(s, at) == (Clip(Number(s[at..end])), end)
  {
    SkipAllDigits(s, at, end);
    assert SkipSpace(s, at) == at;
  }

  lemma DigitsAt(s: string, at: nat, d: string)
    requires at + |d| <= |s| && s[at..at + |d|] == d && forall i :: 0 <= i < |d| ==> IsDigit(d[i])
    ensures forall i :: at <= i < at + |d| ==> IsDigit(s[i])
  {
    forall i | at <= i < at + |d| ensures IsDigit(s[i]) {
      assert s[i] == d[i - at];
    }
  }

  /** A printed number that something else than a digit follows is read back, clipped to 32 bits. */
  lemma ReadPrinted(s: string, at: nat, n: nat)
    requires at + |Decimal(n)| <= |s| && s[at..at + |Decimal(n)|] == Decimal(n)
    requires at + |Decimal(n)| < |s| ==> !IsDigit(s[at + |Decimal(n)|])
    ensures ReadNumber(s, at) == (Clip(n), at + |Decimal(n)|)
  {
    DigitsAt(s, at, Decimal(n));
    ReadDigits(s, at, at + |Decimal(n)|);
    NumberOfDecimal(n);
  }

  // ----- Lines

  function TrimReturn(s: string): string {
    if s != "" && s[|s| - 1] == '\r' then s[..|s| - 1] else s
  }

  function LineEnd(s: string, at: nat): (r: nat)
    requires at <= |s|
    ensures at <= r <= |s| && (r < |s| ==> s[r] == '\n') && forall i :: at <= i < r ==> s[i] != '\n'
    decreases |s| - at
  {
    if at < |s| && s[at] != '\n' then LineEnd(s, at + 1) else at
  }

  /** The lines a reader gets from a text, without their line ends. */
  function Lines(s: string): seq<string>
    decreases |s|
  {
    if s == "" then []
    else
      var end := LineEnd(s, 0);
      [TrimReturn(s[..end])] + (if end < |s| then Lines(s[end + 1..]) else [])
  }

  predicate EndsLine(s: string) {
    s == "" || s[|s| - 1] == '\n'
  }

  lemma LineEndIs(s: string, end: nat)
    requires end <= |s| && (end < |s| ==> s[end] == '\n') && forall i :: 0 <= i < end ==> s[i] != '\n'
    ensures LineEnd(s, 0) == end
  {
    var found := LineEnd(s, 0);
    assert found >= end;
  }

  /** A complete line at the front is read on its own. */
  lemma FirstLine(line: string, rest: string)
    requires '\n' !in line
    ensures Lines(line + "\n" + rest) == [TrimReturn(line)] + Lines(rest)
  {
    var s := line + "\n" + rest;
    LineEndIs(s, |line|);
    assert s[..|line|] == line && s[|line| + 1..] == rest;
  }

  lemma FirstLineThen(line: string, rest: string, b: string)
    requires '\n' !in line
    ensures Lines((line + "\n" + rest) + b) == [TrimReturn(line)] + Lines(rest + b)
  {
    assert (line + "\n" + rest) + b == line + "\n" + (rest + b);
    FirstLine(line, rest + b);
  }

  lemma JoinStep(line: string, rest: string, b: string)
    requires '\n' !in line && Lines(rest + b) == Lines(rest) + Lines(b)
    ensures Lines((line + "\n" + rest) + b) == Lines(line + "\n" + rest) + Lines(b)
  {
    FirstLine(line, rest);
    FirstLineThen(line, rest, b);
    Regroup([TrimReturn(line)], Lines(rest), Lines(b));
  }

  lemma CutLine(a: string) returns (line: string, rest: string)
    requires EndsLine(a) && a != ""
    ensures '\n' !in line && a == line + "\n" + rest && EndsLine(rest) && |rest| < |a|
  {
    var end := LineEnd(a, 0);
    line, rest := a[..end], a[end + 1..];
  }

  /** Texts that end with a line end are read one after the other. */
  lemma {:induction false} LinesJoin(a: string, b: string)
    requires EndsLine(a)
    ensures Lines(a + b) == Lines(a) + Lines(b)
    decreases |a|
  {
    if a == "" {
      assert a + b == b;
    } else {
      var line, rest := CutLine(a);
      LinesJoin(rest, b);
      JoinStep(line, rest, b);
    }
  }
}
