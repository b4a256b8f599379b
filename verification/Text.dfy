/** The parts of Python's text model the artifact tools lean on: character classes, `strip`, `lower` as
    far as a kebab name can see it, and decimal formatting. */
module Text {
  /** `str.isspace` for one character, which is also what `\s` matches. */
  predicate IsSpace(c: char) {
    || '\t' <= c <= '\r'
    || '\U{1c}' <= c <= ' '
    || c == '\U{85}' || c == '\U{a0}' || c == '\U{1680}'
    || '\U{2000}' <= c <= '\U{200a}'
    || c == '\U{2028}' || c == '\U{2029}' || c == '\U{202f}' || c == '\U{205f}' || c == '\U{3000}'
  }

  /** Where `str.splitlines` breaks; a carriage return and line feed together are one break. */
  predicate IsLineBreak(c: char) {
    || '\n' <= c <= '\r'
    || '\U{1c}' <= c <= '\U{1e}'
    || c == '\U{85}' || c == '\U{2028}' || c == '\U{2029}'
  }

  predicate IsDigit(c: char) {
    '0' <= c <= '9'
  }

  /** `[0-9a-z]` */
  predicate IsBase36(c: char) {
    IsDigit(c) || 'a' <= c <= 'z'
  }

  /** `[a-z0-9-]` */
  predicate IsKebabChar(c: char) {
    IsBase36(c) || c == '-'
  }

  /** `[0-9A-Za-z-]`, the characters a stem must not touch. */
  predicate IsTokenChar(c: char) {
    IsKebabChar(c) || 'A' <= c <= 'Z'
  }

  predicate AllDigits(s: string) {
    forall i | 0 <= i < |s| :: IsDigit(s[i])
  }

  predicate AllBase36(s: string) {
    forall i | 0 <= i < |s| :: IsBase36(s[i])
  }

  predicate AllKebab(s: string) {
    forall i | 0 <= i < |s| :: IsKebabChar(s[i])
  }

  predicate AllSpace(s: string) {
    forall i | 0 <= i < |s| :: IsSpace(s[i])
  }

  predicate EndsWith(s: string, suffix: string) {
    |suffix| <= |s| && s[|s| - |suffix|..] == suffix
  }

  /** `str.lstrip()` */
  function LStrip(s: string): string {
    if s != "" && IsSpace(s[0]) then LStrip(s[1..]) else s
  }

  /** `str.rstrip()` */
  function RStrip(s: string): (r: string)
    ensures r <= s
    ensures r != "" ==> !IsSpace(r[|r| - 1])
    ensures AllSpace(s[|r|..])
  {
    if s != "" && IsSpace(s[|s| - 1]) then RStrip(s[..|s| - 1]) else s
  }

  /** `str.strip()` */
  function Strip(s: string): string {
    RStrip(LStrip(s))
  }

  /** `str.lower` as a kebab name can see it. The Kelvin sign and the dotted capital I are the only
      characters outside ASCII whose lower case holds an ASCII letter; every other one stays outside
      `[a-z0-9]`, and the caller replaces it whatever it is. */
  function Lower(s: string): string {
    if s == "" then ""
    else
      (if 'A' <= s[0] <= 'Z' then [s[0] as int as char + 32 as char]
       else if s[0] == '\U{212a}' then "k"
       else if s[0] == '\U{130}' then "i\U{307}"
       else [s[0]]) + Lower(s[1..])
  }

  function Digit(n: nat): (c: char)
    requires n < 10
    ensures IsDigit(c)
  {
    '0' + n as char
  }

  function Decimal(n: nat): (s: string)
    ensures s != "" && AllDigits(s)
    ensures n < 10 <==> |s| == 1
    ensures n < 100 <==> |s| <= 2
  {
    if n < 10 then [Digit(n)] else Decimal(n / 10) + [Digit(n % 10)]
  }

  /** `f"{n}"` for an integer. */
  function Int(n: int): string {
    if n < 0 then "-" + Decimal(-n) else Decimal(n)
  }

  /** `f"{n:02d}"`: at least two characters, a sign counting as one. */
  function TwoDigits(n: int): string {
    if 0 <= n < 10 then "0" + Decimal(n) else Int(n)
  }

  function DigitValue(c: char): nat
    requires IsDigit(c)
  {
    c as int - '0' as int
  }

  /** `int(s)` for decimal digits. */
  function Value(digits: string): nat
    requires AllDigits(digits)
  {
    if digits == "" then 0 else 10 * Value(digits[..|digits| - 1]) + DigitValue(digits[|digits| - 1])
  }

  lemma {:induction false} ValueOfDecimal(n: nat)
    ensures Value(Decimal(n)) == n
  {
    if n >= 10 {
      ValueOfDecimal(n / 10);
      var d := Decimal(n);
      assert d[..|d| - 1] == Decimal(n / 10) && d[|d| - 1] == Digit(n % 10);
    } else {
      assert Decimal(n)[..0] == "";
    }
  }

  /** Decimal digits, after a minus sign or not. */
  predicate IsInteger(s: string) {
    s != "" && s != "-" && (if s[0] == '-' then AllDigits(s[1..]) else AllDigits(s))
  }

  /** `int(s)` */
  function IntValue(s: string): int
    requires IsInteger(s)
  {
    if s[0] == '-' then 0 - Value(s[1..]) else Value(s)
  }

  lemma IntReads(n: int)
    ensures IsInteger(Int(n)) && IntValue(Int(n)) == n
  {
    var s := Int(n);
    if n < 0 {
      assert s[1..] == Decimal(-n);
      ValueOfDecimal(-n);
    } else {
      assert IsDigit(s[0]);
      ValueOfDecimal(n);
    }
  }

  /** `int(s)` for two decimal digits. */
  function TwoDigitValue(s: string): (n: nat)
    requires |s| == 2 && AllDigits(s)
    ensures n < 100
  {
    10 * DigitValue(s[0]) + DigitValue(s[1])
  }

  /** Printing two digits and reading them back, both ways round. */
  lemma TwoDigitsRoundTrip(n: nat)
    requires n < 100
    ensures |TwoDigits(n)| == 2 && AllDigits(TwoDigits(n)) && TwoDigitValue(TwoDigits(n)) == n
  {
    if n >= 10 {
      assert Decimal(n) == [Digit(n / 10)] + [Digit(n % 10)];
    }
  }

  // ----- lines -----

  /** `str.splitlines(keepends=True)`: the first line of a nonempty text, with its line break. */
  function FirstLine(s: string): (line: string)
    ensures line <= s
    ensures s != "" ==> line != ""
  {
    if s == "" then ""
    else if s[0] == '\r' && |s| > 1 && s[1] == '\n' then s[..2]
    else if IsLineBreak(s[0]) then s[..1]
    else [s[0]] + FirstLine(s[1..])
  }

  function SplitLines(s: string): seq<string>
    decreases |s|
  {
    if s == "" then [] else [FirstLine(s)] + SplitLines(s[|FirstLine(s)|..])
  }

  lemma SplitCons(line: string, rest: string)
    requires forall c | c in line :: !IsLineBreak(c)
    ensures SplitLines(line + "\n" + rest) == [line + "\n"] + SplitLines(rest)
  {
    hide FirstLine, IsLineBreak;
    FirstLineIs(line, rest);
    assert (line + "\n" + rest)[|line| + 1..] == rest;
  }

  lemma SplitLast(line: string)
    requires line != "" && forall c | c in line :: !IsLineBreak(c)
    ensures SplitLines(line) == [line]
  {
    hide FirstLine, IsLineBreak;
    LastLineIs(line);
    assert line[|line|..] == "";
  }

  lemma {:induction false} FirstLineIs(line: string, rest: string)
    requires forall c | c in line :: !IsLineBreak(c)
    ensures FirstLine(line + "\n" + rest) == line + "\n"
  {
    var s := line + "\n" + rest;
    if line != "" {
      assert s[1..] == line[1..] + "\n" + rest;
      FirstLineIs(line[1..], rest);
      assert [line[0]] + (line[1..] + "\n") == line + "\n";
    }
  }

  lemma {:induction false} LastLineIs(line: string)
    requires forall c | c in line :: !IsLineBreak(c)
    ensures FirstLine(line) == line
  {
    if line != "" {
      LastLineIs(line[1..]);
      assert [line[0]] + line[1..] == line;
    }
  }
}
