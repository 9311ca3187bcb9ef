/** Integers and their texts: numbers.cc, and ConsumeLeadingDigits of str_util.cc. */
module Numbers {
  import opened Basics
  import opened DivMod

  // ---------------------------------------------------------------- decimal texts

  function Digit(d: nat): (c: char)
    requires d < 10
    ensures '0' <= c <= '9' && DigitValue(c) == d
  {
    '0' + d as char
  }

  predicate IsDigit(c: char) { '0' <= c <= '9' }

  function DigitValue(c: char): nat
    requires IsDigit(c)
  {
    c as int - '0' as int
  }

  predicate AreDigits(s: string) {
    forall i | 0 <= i < |s| :: IsDigit(s[i])
  }

  /** The decimal numeral of n without leading zeros. */
  function Decimal(n: nat): (s: string)
    ensures |s| > 0 && AreDigits(s)
  {
    if n < 10 then [Digit(n)] else Decimal(n / 10) + [Digit(n % 10)]
  }

  function Printed(i: int): string {
    if i < 0 then "-" + Decimal(-i) else Decimal(i)
  }

  /** The number that a row of digits stands for. */
  function Natural(s: string): nat
    requires AreDigits(s)
  {
    if s == "" then 0 else 10 * Natural(s[..|s| - 1]) + DigitValue(s[|s| - 1])
  }

  lemma {:induction false} NaturalDecimal(n: nat)
    ensures Natural(Decimal(n)) == n
  {
    if n < 10 {
      assert Decimal(n)[..0] == "";
    } else {
      NaturalDecimal(n / 10);
      assert Decimal(n)[..|Decimal(n)| - 1] == Decimal(n / 10);
    }
  }

  function Pow10(k: nat): (p: nat)
    ensures p > 0
  {
    if k == 0 then 1 else 10 * Pow10(k - 1)
  }

  lemma {:induction false} DecimalLength(n: nat, k: nat)
    requires k > 0 && n < Pow10(k)
    ensures |Decimal(n)| <= k
  {
    if n >= 10 {
      DecimalLength(n / 10, k - 1);
    }
  }

  lemma Pow10Of20()
    ensures Pow10(20) >= TWO_64
  {
    assert Pow10(10) == 10_000_000_000;
    assert Pow10(15) == 1000_000_000_000_000;
  }

  /** std::reverse on part of a buffer. */
  method Reverse(buffer: array<char>, from: nat, to: nat)
    requires from <= to <= buffer.Length
    modifies buffer
    ensures forall i | from <= i < to :: buffer[i] == old(buffer[from + to - 1 - i])
    ensures forall i | 0 <= i < buffer.Length && !(from <= i < to) :: buffer[i] == old(buffer[i])
  {
    var i, j := from, to;
    while i < j
      invariant from <= i <= j + 1 <= to + 1 && i + j == from + to
      invariant forall k | from <= k < i || j <= k < to :: buffer[k] == old(buffer[from + to - 1 - k])
      invariant forall k | i <= k < j || 0 <= k < from || to <= k < buffer.Length :: buffer[k] == old(buffer[k])
      decreases j - i
    {
      j := j - 1;
      if i < j {
        buffer[i], buffer[j] := buffer[j], buffer[i];
      }
      i := i + 1;
    }
  }

  /** The digits that are still to be written. */
  function Remaining(i: nat): string {
    if i > 0 then Decimal(i) else ""
  }

  lemma RemainingStep(i: nat)
    ensures Decimal(i) == Remaining(i / 10) + [Digit(i % 10)]
    ensures i > 0 ==> Remaining(i) == Remaining(i / 10) + [Digit(i % 10)]
    ensures i == 0 ==> Remaining(i) == ""
  {}

  /** The digits, lowest first. */
  method WriteDigits(value: nat, buffer: array<char>, start: nat) returns (at: nat)
    requires value < TWO_64 && start + 21 <= buffer.Length
    modifies buffer
    ensures start < at < buffer.Length && Backwards(buffer[start..at]) == Decimal(value)
    ensures forall i | 0 <= i < start :: buffer[i] == old(buffer[i])
  {
    Pow10Of20();
    DecimalLength(value, 20);
    RemainingStep(value);
    BackwardsOne(Digit(value % 10));
    hide Pow10, Decimal, Digit, Remaining, Backwards;
    var i: nat;
    buffer[start], i, at := Digit(value % 10), value / 10, start + 1;
    ghost var written := [Digit(value % 10)];
    assert Remaining(i) + Backwards(written) == Decimal(value);
    while i > 0
      invariant at == start + |written| && |written| + |Remaining(i)| == |Decimal(value)| <= 20 && written != []
      invariant Decimal(value) == Remaining(i) + Backwards(written)
      invariant forall k | 0 <= k < |written| :: buffer[start + k] == written[k]
      invariant forall k | 0 <= k < start :: buffer[k] == old(buffer[k])
      decreases i
    {
      buffer[at] := Digit(i % 10);
      OneDigitMore(i, written, Decimal(value));
      written := written + [Digit(i % 10)];
      i, at := i / 10, at + 1;
    }
    RemainingStep(i);
    assert "" + Backwards(written) == Backwards(written);
    assert buffer[start..at] == written;
  }

  lemma OneDigitMore(i: nat, written: string, whole: string)
    requires i > 0 && whole == Remaining(i) + Backwards(written)
    ensures whole == Remaining(i / 10) + Backwards(written + [Digit(i % 10)])
    ensures |Remaining(i)| == |Remaining(i / 10)| + 1
  {
    RemainingStep(i);
    BackwardsSnoc(written, Digit(i % 10));
    hide Remaining, Backwards, Digit, Decimal;
  }

  /** FastUInt32ToBufferLeft and FastUInt64ToBufferLeft, which differ in the width only. The digits come out
      backwards and are reversed in place. */
  method FastUIntToBufferLeft(value: nat, buffer: array<char>, start: nat) returns (length: nat)
    requires value < TWO_64 && start + 21 <= buffer.Length
    modifies buffer
    ensures start + length < buffer.Length && buffer[start..start + length] == Decimal(value)
    ensures buffer[start + length] == '\0'
    ensures forall i | 0 <= i < start :: buffer[i] == old(buffer[i])
  {
    hide Decimal;
    var at := WriteDigits(value, buffer, start);
    ghost var reversed := buffer[start..at];
    buffer[at] := '\0';
    assert buffer[start..at] == reversed;
    Reverse(buffer, start, at);
    forall k | 0 <= k < |reversed| ensures buffer[start + k] == Backwards(reversed)[k] {
      assert start <= start + k < at;
    }
    assert buffer[start..at] == Backwards(reversed);
    length := at - start;
  }

  function Backwards(s: string): (r: string)
    ensures |r| == |s|
  {
    seq(|s|, i requires 0 <= i < |s| => s[|s| - 1 - i])
  }

  lemma BackwardsOne(c: char)
    ensures Backwards([c]) == [c]
  {}

  lemma BackwardsSnoc(s: string, c: char)
    ensures Backwards(s + [c]) == [c] + Backwards(s)
  {}

  // ---------------------------------------------------------------- reading decimal texts

  predicate IsSpace(c: char) {
    c == ' ' || c == '\t' || c == '\n' || c == '\U{0B}' || c == '\U{0C}' || c == '\r'
  }

  function SkippedSpaces(s: string): (r: string)
    ensures |r| <= |s|
  {
    if s != "" && IsSpace(s[0]) then SkippedSpaces(s[1..]) else s
  }

  /** How many digits s starts with. */
  function LeadingDigits(s: string): (k: nat)
    ensures k <= |s| && AreDigits(s[..k]) && (k < |s| ==> !IsDigit(s[k]))
  {
    if s != "" && IsDigit(s[0]) then
      var k := 1 + LeadingDigits(s[1..]);
      assert forall i | 0 < i < k :: s[i] == s[1..][i - 1];
      k
    else 0
  }

  /** Digits, then nothing but spaces. */
  function ParsedDigits(s: string): Option<nat> {
    var k := LeadingDigits(s);
    if k > 0 && SkippedSpaces(s[k..]) == "" then Some(Natural(s[..k])) else None
  }

  /** The number that a text stands for: spaces, a sign if there is one, digits, spaces. */
  function ParsedUnsigned(s: string): Option<nat> {
    ParsedDigits(SkippedSpaces(s))
  }

  function ParsedSigned(s: string): Option<int> {
    var t := SkippedSpaces(s);
    if t != "" && t[0] == '-' then
      match ParsedDigits(t[1..])
      case None => None
      case Some(n) => Some(0 - n)
    else
      match ParsedDigits(t)
      case None => None
      case Some(n) => Some(n)
  }

  /** Division of C++, which truncates toward zero. */
  function TruncatedDiv(a: int, b: int): int
    requires b > 0
  {
    if a < 0 then -(-a / b) else a / b
  }

  function FirstChar(s: string): char {
    if s == "" then '\0' else s[0]
  }

  method SkipSpaces(s: string) returns (r: string)
    ensures r == SkippedSpaces(s)
  {
    r := s;
    while IsSpace(FirstChar(r))
      invariant SkippedSpaces(r) == SkippedSpaces(s)
      decreases |r|
    {
      r := r[1..];
    }
  }

  /** k digits of s have been read, and str is what is left. */
  predicate Scanned(s: string, k: nat, str: string) {
    k <= |s| && str == s[k..] && AreDigits(s[..k])
  }

  lemma ScanOne(s: string, k: nat, str: string)
    requires Scanned(s, k, str) && IsDigit(FirstChar(str))
    ensures k < |s| && Scanned(s, k + 1, str[1..]) && FirstChar(str) == s[k]
    ensures Natural(s[..k + 1]) == 10 * Natural(s[..k]) + DigitValue(s[k])
  {
    assert s[..k + 1][..k] == s[..k];
  }

  lemma ScanDone(s: string, k: nat, str: string)
    requires Scanned(s, k, str) && !IsDigit(FirstChar(str))
    ensures LeadingDigits(s) == k
  {
    LeadingDigitsAtLeast(s, k);
  }

  lemma {:induction false} LeadingDigitsAtLeast(s: string, k: nat)
    requires k <= |s| && AreDigits(s[..k])
    ensures LeadingDigits(s) >= k
  {
    if k > 0 {
      assert s[..k][0] == s[0] && IsDigit(s[..k][0]);
      assert s[1..][..k - 1] == s[..k][1..];
      LeadingDigitsAtLeast(s[1..], k - 1);
    }
  }

  /** More digits make no smaller number. */
  lemma {:induction false} NaturalGrows(s: string, k: nat, n: nat)
    requires k <= n <= |s| && AreDigits(s[..n])
    ensures AreDigits(s[..k]) && Natural(s[..k]) <= Natural(s[..n])
  {
    assert forall i | 0 <= i < k :: s[..k][i] == s[..n][i];
    if k < n {
      assert s[..n][..n - 1] == s[..n - 1];
      NaturalGrows(s, k, n - 1);
    }
  }

  /** What has been read is too large, so the whole numeral is. */
  lemma TooLarge(s: string, k: nat, limit: nat)
    requires k <= |s| && AreDigits(s[..k]) && Natural(s[..k]) > limit
    ensures ParsedDigits(s).Some? ==> ParsedDigits(s).value > limit
  {
    LeadingDigitsAtLeast(s, k);
    NaturalGrows(s, k, LeadingDigits(s));
  }

  /** The test before `result * 10 + digit`: it fails exactly when the new result would exceed the limit. */
  lemma AddTest(result: nat, digit: nat, limit: nat)
    requires digit < 10 <= limit
    ensures (limit - digit) / 10 < result <==> 10 * result + digit > limit
  {}

  /** The test before `result * 10 - digit` relies on truncation: the quotient is rounded up. */
  lemma SubtractTest(n: nat, digit: nat, limit: nat)
    requires digit < 10 <= limit
    ensures TruncatedDiv(digit - limit, 10) > 0 - n <==> 10 * n + digit > limit
  {}

  /** With a quotient that is rounded down, the test would let one number below the minimum pass. */
  lemma RoundingDownWouldMissOverflow()
    ensures var limit, n, digit := TWO_63, 922337203685477580, 9;
      10 * n + digit > limit && !((digit - limit) / 10 > 0 - n)
  {}

  predicate IsInt64(i: int) { 0 - TWO_63 <= i < TWO_63 }

  method SafeStrto64(s: string) returns (ok: bool, value: int)
    ensures ok <==> ParsedSigned(s).Some? && IsInt64(ParsedSigned(s).value)
    ensures ok ==> value == ParsedSigned(s).value
  {
    var str := SkipSpaces(s);
    var negative := str != "" && str[0] == '-';
    if negative {
      str := str[1..];
    }
    if !IsDigit(FirstChar(str)) {
      ScanDone(str, 0, str);
      return false, 0;
    }
    if negative {
      ok, value := ReadNegative64(str);
    } else {
      ok, value := ReadPositive(str, TWO_63 - 1);
    }
  }

  /** The loop for a positive number, in safe_strto64 (limit 2^63 - 1) and safe_strtou64 (limit 2^64 - 1). */
  method ReadPositive(digits: string, limit: nat) returns (ok: bool, value: nat)
    requires limit >= 10 && IsDigit(FirstChar(digits))
    ensures ok <==> ParsedDigits(digits).Some? && ParsedDigits(digits).value <= limit
    ensures ok ==> value == ParsedDigits(digits).value
  {
    var str, k := digits, 0;
    value := 0;
    while IsDigit(FirstChar(str))
      invariant Scanned(digits, k, str) && value == Natural(digits[..k]) <= limit
      decreases |str|
    {
      ScanOne(digits, k, str);
      var digit := DigitValue(FirstChar(str));
      AddTest(value, digit, limit);
      if (limit - digit) / 10 < value {
        TooLarge(digits, k + 1, limit);
        return false, 0;
      }
      value := value * 10 + digit;
      str, k := str[1..], k + 1;
    }
    ScanDone(digits, k, str);
    LeadingDigitsAtLeast(digits, 1);
    str := SkipSpaces(str);
    ok := str == "";
  }

  method ReadNegative64(digits: string) returns (ok: bool, value: int)
    requires IsDigit(FirstChar(digits))
    ensures ok <==> ParsedDigits(digits).Some? && ParsedDigits(digits).value <= TWO_63
    ensures ok ==> value == 0 - ParsedDigits(digits).value
  {
    var str, k := digits, 0;
    value := 0;
    while IsDigit(FirstChar(str))
      invariant Scanned(digits, k, str) && -value == Natural(digits[..k]) <= TWO_63
      decreases |str|
    {
      ScanOne(digits, k, str);
      var digit := DigitValue(FirstChar(str));
      SubtractTest(-value, digit, TWO_63);
      if TruncatedDiv(digit - TWO_63, 10) > value {
        TooLarge(digits, k + 1, TWO_63);
        return false, 0;
      }
      value := value * 10 - digit;
      str, k := str[1..], k + 1;
    }
    ScanDone(digits, k, str);
    LeadingDigitsAtLeast(digits, 1);
    str := SkipSpaces(str);
    ok := str == "";
  }

  method SafeStrtou64(s: string) returns (ok: bool, value: nat)
    ensures ok <==> ParsedUnsigned(s).Some? && ParsedUnsigned(s).value < TWO_64
    ensures ok ==> value == ParsedUnsigned(s).value
  {
    var str := SkipSpaces(s);
    if !IsDigit(FirstChar(str)) {
      ScanDone(str, 0, str);
      return false, 0;
    }
    ok, value := ReadPositive(str, TWO_64 - 1);
  }

  /** The loop of safe_strto32 and safe_strtou32, which compares after adding. */
  method ReadNarrow(digits: string, limit: nat) returns (ok: bool, value: nat)
    requires IsDigit(FirstChar(digits)) && limit < TWO_32
    ensures ok <==> ParsedDigits(digits).Some? && ParsedDigits(digits).value <= limit
    ensures ok ==> value == ParsedDigits(digits).value
  {
    var str, k := digits, 0;
    value := 0;
    while IsDigit(FirstChar(str))
      invariant Scanned(digits, k, str) && value == Natural(digits[..k]) <= limit
      decreases |str|
    {
      ScanOne(digits, k, str);
      value := value * 10 + DigitValue(FirstChar(str));
      if value > limit {
        TooLarge(digits, k + 1, limit);
        return false, 0;
      }
      str, k := str[1..], k + 1;
    }
    ScanDone(digits, k, str);
    LeadingDigitsAtLeast(digits, 1);
    str := SkipSpaces(str);
    ok := str == "";
  }

  predicate IsInt32(i: int) { 0 - TWO_31 <= i < TWO_31 }

  method SafeStrto32(s: string) returns (ok: bool, value: int)
    ensures ok <==> ParsedSigned(s).Some? && IsInt32(ParsedSigned(s).value)
    ensures ok ==> value == ParsedSigned(s).value
  {
    var str := SkipSpaces(s);
    var vmax: nat, sign: int := TWO_31 - 1, 1;
    if str != "" && str[0] == '-' {
      str := str[1..];
      sign := -1;
      vmax := vmax + 1;
    }
    if !IsDigit(FirstChar(str)) {
      ScanDone(str, 0, str);
      return false, 0;
    }
    var result;
    ok, result := ReadNarrow(str, vmax);
    value := result * sign;
  }

  method SafeStrtou32(s: string) returns (ok: bool, value: nat)
    ensures ok <==> ParsedUnsigned(s).Some? && ParsedUnsigned(s).value < TWO_32
    ensures ok ==> value == ParsedUnsigned(s).value
  {
    var str := SkipSpaces(s);
    if !IsDigit(FirstChar(str)) {
      ScanDone(str, 0, str);
      return false, 0;
    }
    ok, value := ReadNarrow(str, TWO_32 - 1);
  }

  lemma DigitsParsed(s: string)
    requires s != "" && AreDigits(s)
    ensures ParsedDigits(s) == Some(Natural(s)) && SkippedSpaces(s) == s
  {
    assert s[..|s|] == s && s[|s|..] == "";
    LeadingDigitsAtLeast(s, |s|);
  }

  /** Reading a printed number gives it back. */
  lemma ParsedPrinted(i: int)
    ensures ParsedSigned(Printed(i)) == Some(i)
    ensures i >= 0 ==> ParsedUnsigned(Printed(i)) == Some(i)
  {
    var n := if i < 0 then -i else i;
    NaturalDecimal(n);
    DigitsParsed(Decimal(n));
    assert Printed(i)[if i < 0 then 1 else 0..] == Decimal(n);
    assert i >= 0 ==> Printed(i)[0] != '-';
  }

  /** Negation in unsigned arithmetic gives the absolute value, also of the minimum. */
  lemma Negated(i: int, word: nat)
    requires word == TWO_32 || word == TWO_64
    requires if word == TWO_32 then IsInt32(i) else IsInt64(i)
    ensures if i < 0 then (0 - i % word) % word == -i else i % word == i
  {
    if i < 0 {
      DivModUnique(i, word, -1, i + word);
      DivModUnique(0 - (i + word), word, -1, -i);
    }
  }

  method FastInt64ToBufferLeft(i: int, buffer: array<char>) returns (length: nat)
    requires IsInt64(i) && 22 <= buffer.Length
    modifies buffer
    ensures length < buffer.Length && buffer[..length] == Printed(i) && buffer[length] == '\0'
  {
    hide Decimal;
    var u := i % TWO_64;
    Negated(i, TWO_64);
    length := 0;
    if i < 0 {
      buffer[0] := '-';
      length := 1;
      u := (0 - u) % TWO_64;
    }
    var start := length;
    var n := FastUIntToBufferLeft(u, buffer, start);
    length := length + n;
    assert buffer[..length] == buffer[..start] + buffer[start..length];
    assert i < 0 ==> buffer[..start] == "-";
  }

  method FastInt32ToBufferLeft(i: int, buffer: array<char>) returns (length: nat)
    requires IsInt32(i) && 22 <= buffer.Length
    modifies buffer
    ensures length < buffer.Length && buffer[..length] == Printed(i) && buffer[length] == '\0'
  {
    hide Decimal;
    var u := i % TWO_32;
    Negated(i, TWO_32);
    length := 0;
    if i < 0 {
      buffer[0] := '-';
      length := 1;
      u := (0 - u) % TWO_32;
    }
    var start := length;
    var n := FastUIntToBufferLeft(u, buffer, start);
    length := length + n;
    assert buffer[..length] == buffer[..start] + buffer[start..length];
    assert i < 0 ==> buffer[..start] == "-";
  }

  // ---------------------------------------------------------------- ConsumeLeadingDigits

  /** After `v * 10 + digit` in 64 bits, comparing an eighth of the result with v detects an overflow, and
      nothing else. */
  lemma EighthDetectsOverflow(v: nat, digit: nat)
    requires v < TWO_64 && digit < 10
    ensures (v * 10 + digit) % TWO_64 / 8 < v <==> v * 10 + digit >= TWO_64
  {}

  method ConsumeLeadingDigits(s: string) returns (ok: bool, rest: string, value: nat)
    ensures ok <==> LeadingDigits(s) > 0 && Natural(s[..LeadingDigits(s)]) < TWO_64
    ensures ok ==> value == Natural(s[..LeadingDigits(s)]) && rest == s[LeadingDigits(s)..]
    ensures !ok ==> rest == s
  {
    var p, v := 0, 0;
    rest, value := s, 0;
    while p < |s|
      invariant p <= |s| && AreDigits(s[..p]) && v == Natural(s[..p]) < TWO_64 && rest == s && value == 0
      invariant LeadingDigits(s) >= p
    {
      var c := s[p];
      if c < '0' || c > '9' {
        break;
      }
      ScanOne(s, p, s[p..]);
      LeadingDigitsAtLeast(s, p + 1);
      var newV := (v * 10 + (c as int - '0' as int)) % TWO_64;
      EighthDetectsOverflow(v, DigitValue(c));
      if newV / 8 < v {
        NaturalGrows(s, p + 1, LeadingDigits(s));
        return false, s, 0;
      }
      v := newV;
      p := p + 1;
    }
    ScanDone(s, p, s[p..]);
    if p > 0 {
      ok, rest, value := true, s[p..], v;
    } else {
      ok := false;
    }
  }

  // ---------------------------------------------------------------- the texts that are numbers
  // Spaces and digits are given by their codes here, not by the predicates of the parser.

  predicate AreSpaces(s: string) {
    forall i | 0 <= i < |s| :: s[i] as int == 32 || 9 <= s[i] as int <= 13
  }

  predicate IsDigitText(d: string) {
    d != "" && forall i | 0 <= i < |d| :: 48 <= d[i] as int <= 57
  }

  /** A digit more is ten times the number and the digit. */
  lemma DigitsStandFor(d: string, c: char)
    requires AreDigits(d) && 48 <= c as int <= 57
    ensures AreDigits(d + [c]) && Natural(d + [c]) == 10 * Natural(d) + (c as int - 48) && Natural("") == 0
    ensures Digit(c as int - 48) == c
  {
    assert (d + [c])[..|d|] == d;
  }

  /** Spaces, digits, spaces. */
  ghost predicate IsUnsignedText(s: string, n: nat) {
    exists a, d, b :: AreSpaces(a) && IsDigitText(d) && AreSpaces(b) && s == a + (d + b) && n == Natural(d)
  }

  /** The same with a minus sign in front of the digits. */
  ghost predicate IsNegativeText(s: string, n: nat) {
    exists a, d, b :: AreSpaces(a) && IsDigitText(d) && AreSpaces(b) && s == a + ("-" + (d + b)) && n == Natural(d)
  }

  /** The leading spaces, and what is left. */
  lemma {:induction false} SpacesSplit(s: string) returns (a: string)
    ensures AreSpaces(a) && s == a + SkippedSpaces(s)
    ensures SkippedSpaces(s) != "" ==> !IsSpace(SkippedSpaces(s)[0])
  {
    if s != "" && IsSpace(s[0]) {
      var rest := SpacesSplit(s[1..]);
      a := [s[0]] + rest;
    } else {
      a := "";
    }
  }

  lemma {:induction false} SpacesSkipped(a: string, t: string)
    requires AreSpaces(a) && (t != "" ==> !IsSpace(t[0]))
    ensures SkippedSpaces(a + t) == t
  {
    if a == "" {
      assert a + t == t;
    } else {
      assert (a + t)[0] == a[0] && (a + t)[1..] == a[1..] + t;
      SpacesSkipped(a[1..], t);
    }
  }

  lemma DigitsSplit(s: string) returns (d: string, b: string)
    requires ParsedDigits(s).Some?
    ensures IsDigitText(d) && AreSpaces(b) && s == d + b && ParsedDigits(s) == Some(Natural(d))
  {
    var k := LeadingDigits(s);
    d, b := s[..k], s[k..];
    var a := SpacesSplit(b);
    assert a + "" == a;
  }

  lemma DigitsJoined(d: string, b: string)
    requires IsDigitText(d) && AreSpaces(b)
    ensures ParsedDigits(d + b) == Some(Natural(d))
  {
    var s := d + b;
    assert s[..|d|] == d && s[|d|..] == b && b + "" == b;
    LeadingDigitsAtLeast(s, |d|);
    ScanDone(s, |d|, b);
    SpacesSkipped(b, "");
  }

  /** safe_strtou32 and safe_strtou64 read spaces, digits and spaces, and nothing else. */
  lemma UnsignedTexts(s: string, n: nat)
    ensures ParsedUnsigned(s) == Some(n) <==> IsUnsignedText(s, n)
  {
    if ParsedUnsigned(s) == Some(n) {
      var a := SpacesSplit(s);
      var d, b := DigitsSplit(SkippedSpaces(s));
    }
    if IsUnsignedText(s, n) {
      var a, d, b :| AreSpaces(a) && IsDigitText(d) && AreSpaces(b) && s == a + (d + b) && n == Natural(d);
      assert (d + b)[0] == d[0];
      SpacesSkipped(a, d + b);
      DigitsJoined(d, b);
    }
  }

  lemma NegativeText(s: string, n: nat)
    requires IsNegativeText(s, n)
    ensures ParsedSigned(s) == Some(0 - n)
  {
    var a, d, b :| AreSpaces(a) && IsDigitText(d) && AreSpaces(b) && s == a + ("-" + (d + b)) && n == Natural(d);
    var t := "-" + (d + b);
    assert t[0] == '-' && t[1..] == d + b;
    SpacesSkipped(a, t);
    DigitsJoined(d, b);
  }

  lemma PositiveText(s: string, n: nat)
    requires IsUnsignedText(s, n)
    ensures ParsedSigned(s) == Some(n)
  {
    var a, d, b :| AreSpaces(a) && IsDigitText(d) && AreSpaces(b) && s == a + (d + b) && n == Natural(d);
    assert (d + b)[0] == d[0];
    SpacesSkipped(a, d + b);
    DigitsJoined(d, b);
  }

  /** safe_strto32 and safe_strto64 read the same, with a minus sign in front of the digits if there is one. */
  lemma SignedTexts(s: string, i: int)
    ensures ParsedSigned(s) == Some(i) <==> (i >= 0 && IsUnsignedText(s, i)) || (i <= 0 && IsNegativeText(s, -i))
  {
    if ParsedSigned(s) == Some(i) {
      var a := SpacesSplit(s);
      var t := SkippedSpaces(s);
      if t != "" && t[0] == '-' {
        var d, b := DigitsSplit(t[1..]);
        assert t == "-" + (d + b);
      } else {
        var d, b := DigitsSplit(t);
      }
    }
    if i >= 0 && IsUnsignedText(s, i) {
      PositiveText(s, i);
    }
    if i <= 0 && IsNegativeText(s, -i) {
      NegativeText(s, -i);
    }
  }
}
