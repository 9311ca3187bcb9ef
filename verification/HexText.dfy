/** Hexadecimal texts: Uint64ToHexString and HexStringToUint64 of numbers.cc, AlphaNum(Hex) of strcat.cc. */
module HexText {
  import opened Basics
  import opened Bits
  import opened DivMod

  const BUFFER_SIZE: nat := 32

  function HexDigit(d: nat): (c: char)
    requires d < 16
    ensures IsHex(c) && HexDigitValue(c) == d
  {
    if d < 10 then '0' + d as char else 'a' + (d - 10) as char
  }

  predicate IsHex(c: char) {
    '0' <= c <= '9' || 'a' <= c <= 'f' || 'A' <= c <= 'F'
  }

  function HexDigitValue(c: char): (d: nat)
    requires IsHex(c)
    ensures d < 16
  {
    if c <= '9' then c as int - '0' as int
    else if c <= 'F' then 10 + (c as int - 'A' as int)
    else 10 + (c as int - 'a' as int)
  }

  predicate AreHex(s: string) {
    forall i | 0 <= i < |s| :: IsHex(s[i])
  }

  /** The number that a row of hexadecimal digits stands for. */
  function HexValue(s: string): nat
    requires AreHex(s)
  {
    if s == "" then 0 else 16 * HexValue(s[..|s| - 1]) + HexDigitValue(s[|s| - 1])
  }

  /** The n lowest hexadecimal digits of v. */
  function FixedHex(v: nat, n: nat): (s: string)
    ensures |s| == n && AreHex(s)
  {
    if n == 0 then "" else FixedHex(v / 16, n - 1) + [HexDigit(v % 16)]
  }

  function Pow16(n: nat): (p: nat)
    ensures p > 0
  {
    if n == 0 then 1 else 16 * Pow16(n - 1)
  }

  /** The number of hexadecimal digits that v takes without leading zeros. */
  function HexLength(v: nat): (n: nat)
    ensures n > 0
  {
    if v < 16 then 1 else 1 + HexLength(v / 16)
  }

  lemma {:induction false} FixedHexValue(v: nat, n: nat)
    requires v < Pow16(n)
    ensures HexValue(FixedHex(v, n)) == v
  {
    if n > 0 {
      FixedHexValue(v / 16, n - 1);
      assert FixedHex(v, n)[..n - 1] == FixedHex(v / 16, n - 1);
    }
  }

  lemma {:induction false} HexLengthBound(v: nat, n: nat)
    ensures HexLength(v) <= n ==> v < Pow16(n)
    ensures n > 0 && v < Pow16(n) ==> HexLength(v) <= n
    decreases n
  {
    if n > 0 {
      if v >= 16 {
        HexLengthBound(v / 16, n - 1);
        assert v < 16 * Pow16(n - 1) <==> v / 16 < Pow16(n - 1);
      }
    }
  }

  lemma Pow16Of16()
    ensures Pow16(16) == TWO_64
  {
    assert Pow16(8) == TWO_32;
  }

  method Uint64ToHexString(value: nat, buf: array<char>)
    requires value < TWO_64 && buf.Length == 17
    modifies buf
    ensures buf[..16] == FixedHex(value, 16) && buf[16] == '\0'
  {
    buf[16] := '\0';
    var v, i := value, 15;
    while i >= 0
      invariant -1 <= i <= 15 && buf[16] == '\0'
      invariant FixedHex(value, 16) == FixedHex(v, i + 1) + buf[i + 1..16]
    {
      ghost var written := buf[i + 1..16];
      buf[i] := HexDigit(v % 16);
      assert buf[i..16] == [HexDigit(v % 16)] + written;
      v := v / 16;
      i := i - 1;
    }
  }

  lemma ShiftIn(h: nat, d: nat)
    requires d < 16
    ensures h % TWO_64 * 16 % TWO_64 + d == (16 * h + d) % TWO_64
  {}

  lemma OneMoreDigit(s: string, i: nat)
    requires i < |s| && AreHex(s[..i])
    ensures AreHex(s[..i + 1]) <==> IsHex(s[i])
    ensures IsHex(s[i]) ==> HexValue(s[..i + 1]) == 16 * HexValue(s[..i]) + HexDigitValue(s[i])
  {
    assert s[..i + 1][..i] == s[..i] && s[..i + 1][i] == s[i];
  }

  /** Digits beyond the sixteenth push the high bits out. */
  method HexStringToUint64(s: string) returns (ok: bool, result: nat)
    ensures ok <==> s != "" && AreHex(s)
    ensures ok ==> result == HexValue(s) % TWO_64
  {
    var v := 0;
    result := 0;
    if s == "" {
      return false, 0;
    }
    var i := 0;
    while i < |s|
      invariant i <= |s| && AreHex(s[..i]) && v == HexValue(s[..i]) % TWO_64
    {
      var c := s[i];
      OneMoreDigit(s, i);
      if IsHex(c) { ShiftIn(HexValue(s[..i]), HexDigitValue(c)); }
      if '0' <= c <= '9' {
        v := v * 16 % TWO_64 + (c as int - '0' as int);
      } else if 'a' <= c <= 'f' {
        v := v * 16 % TWO_64 + 10 + (c as int - 'a' as int);
      } else if 'A' <= c <= 'F' {
        v := v * 16 % TWO_64 + 10 + (c as int - 'A' as int);
      } else {
        assert s[i] == c && !IsHex(s[i]);
        return false, 0;
      }
      i := i + 1;
    }
    assert s[..i] == s;
    ok, result := true, v;
  }

  /** The digits that are written are lower case. */
  lemma HexDigitsAre(d: nat)
    requires d < 16
    ensures HexDigit(d) == "0123456789abcdef"[d]
  {}

  /** The most significant digit comes first. */
  lemma HexExample()
    ensures FixedHex(0x1A, 2) == "1a" && HexValue("1A") == 0x1A
  {
    assert FixedHex(0x1, 1) == "1";
    assert "1A"[..1] == "1" && "1"[..0] == "";
  }

  /** Reading back what was written gives the number. */
  lemma HexRoundTrip(v: nat)
    requires v < TWO_64
    ensures AreHex(FixedHex(v, 16)) && HexValue(FixedHex(v, 16)) % TWO_64 == v
  {
    Pow16Of16();
    FixedHexValue(v, 16);
    hide Pow16, FixedHex, HexValue, HexDigit;
    DivModUnique(v, TWO_64, 0, v);
  }

  // ---------------------------------------------------------------- AlphaNum(Hex)

  /** v with the lowest bit of its width-th digit set. */
  function WithBit(v: nat, width: nat): nat {
    if width == 0 then v
    else if v / Pow16(width - 1) % 2 == 1 then v else v + Pow16(width - 1)
  }

  lemma {:induction false} Pow16Is(n: nat)
    ensures Pow16(n) == Pow2(4 * n)
  {
    if n > 0 {
      Pow16Is(n - 1);
      assert Pow2(4) == 16;
      Pow2Sum(4, 4 * (n - 1));
    }
  }

  lemma OrIsWithBit(v: nat, width: nat)
    requires width > 0
    ensures Or(v, Pow16(width - 1)) == WithBit(v, width)
  {
    Pow16Is(width - 1);
    OrBit(v, 4 * (width - 1));
  }

  lemma ShiftWithBit(v: nat, width: nat)
    requires width > 0
    ensures WithBit(v, width) / 16 == WithBit(v / 16, width - 1)
  {
    if width == 1 {
      assert Pow16(0) == 1;
    } else {
      var q := Pow16(width - 2);
      assert Pow16(width - 1) == 16 * q;
      DivModSplit(v, q, 16);
      assert v / (q * 16) == v / 16 / q by { QuotientTwice(v, q); }
      assert (v + 16 * q) / 16 == v / 16 + q;
    }
  }

  lemma QuotientTwice(v: nat, q: nat)
    requires q > 0
    ensures v / (q * 16) == v / 16 / q
  {
    DivModSplit(v, q, 16);
    var p := q * 16;
    DivModUnique(v / 16, q, v / p, v % p / 16);
  }

  /** The digits that are still to be written when the mask is WithBit(v, width). */
  function DigitsLeft(v: nat, width: nat): nat {
    if width == 0 && v == 0 then 0 else Max(width, HexLength(v))
  }

  /** Shifting value and mask by one digit leaves one digit less; the mask is 0 when none is left. */
  lemma OneDigit(v: nat, width: nat)
    requires DigitsLeft(v, width) > 0
    ensures var width' := if width == 0 then 0 else width - 1;
      && WithBit(v, width) / 16 == WithBit(v / 16, width')
      && DigitsLeft(v / 16, width') == DigitsLeft(v, width) - 1
      && (WithBit(v / 16, width') == 0 <==> DigitsLeft(v / 16, width') == 0)
  {
    if width > 0 { ShiftWithBit(v, width); }
  }

  /** Exactly max(spec, number of digits) digits. */
  method AlphaNumHex(hex: nat, spec: nat) returns (piece: string)
    requires hex < TWO_64 && 1 <= spec <= 16
    ensures piece == FixedHex(hex, Max(spec, HexLength(hex)))
    ensures HexValue(FixedHex(hex, Max(spec, HexLength(hex)))) == hex
  {
    HexCount(hex, spec);
    ghost var count := Max(spec, HexLength(hex));
    var digits := new char[BUFFER_SIZE](_ => '\0');
    var writer := BUFFER_SIZE;
    var value := hex;
    var mask := Or(hex, Pow16(spec - 1));
    OrIsWithBit(hex, spec);
    hide Or, Pow2;
    ghost var width := spec;
    assert FixedHex(hex, count) + digits[writer..] == FixedHex(hex, count);
    hide Pow16, HexLength, WithBit, DigitsLeft, HexDigit, FixedHex, HexValue;
    assert DigitsLeft(value, width) == count;
    while mask != 0
      invariant mask == WithBit(value, width) && (mask == 0 <==> DigitsLeft(value, width) == 0)
      invariant DigitsLeft(value, width) == count - (BUFFER_SIZE - writer) && writer <= BUFFER_SIZE
      invariant FixedHex(hex, count) == FixedHex(value, DigitsLeft(value, width)) + digits[writer..]
      decreases DigitsLeft(value, width)
    {
      OneDigit(value, width);
      LastDigit(value, DigitsLeft(value, width), digits[writer..]);
      WriteBack(digits, writer, HexDigit(value % 16));
      writer := writer - 1;
      value := value / 16;
      mask := mask / 16;
      width := if width == 0 then 0 else width - 1;
    }
    piece := digits[writer..];
  }

  /** *--writer = c */
  method WriteBack(digits: array<char>, writer: nat, c: char)
    requires 0 < writer <= digits.Length
    modifies digits
    ensures digits[writer - 1..] == [c] + old(digits[writer..])
  {
    digits[writer - 1] := c;
  }

  lemma LastDigit(v: nat, n: nat, written: string)
    requires n > 0
    ensures FixedHex(v, n) + written == FixedHex(v / 16, n - 1) + ([HexDigit(v % 16)] + written)
  {
    hide HexDigit;
  }

  lemma HexCount(hex: nat, spec: nat)
    requires hex < TWO_64 && 1 <= spec <= 16
    ensures var count := Max(spec, HexLength(hex));
      && count <= 16 && DigitsLeft(hex, spec) == count && WithBit(hex, spec) != 0
      && HexValue(FixedHex(hex, count)) == hex
  {
    Pow16Of16();
    HexLengthBound(hex, 16);
    var count := Max(spec, HexLength(hex));
    HexLengthBound(hex, count);
    FixedHexValue(hex, count);
  }
}
