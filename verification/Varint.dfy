/** Varints of coding.cc: the "Base 128 Varints" of the Protocol Buffers Encoding specification. */
module Varint {
  import opened Basics
  import opened Bits
  import opened DivMod
  import opened Memory

  type Bytes = seq<byte>

  /** Seven bits a byte, lowest first; every byte but the last has its high bit set. */
  function Encoded(v: nat): (r: Bytes)
    ensures |r| > 0
  {
    if v < 128 then [v] else [v % 128 + 128] + Encoded(v / 128)
  }

  // ---------------------------------------------------------------- encoding

  /** The byte with more to follow: v | 128, narrowed to a byte. */
  function More(v: nat): (m: byte)
    ensures m == v % 128 + 128
  {
    HighBitSet(v);
    Or(v, 128) % 256
  }

  lemma HighBitSet(v: nat)
    ensures Or(v, 128) % 256 == v % 128 + 128
  {
    hide Or;
    OrBit(v, 7);
    assert Pow2(7) == 128;
    hide Pow2;
  }

  method EncodeVarint32(dst: array<byte>, at: nat, v: nat) returns (end: nat)
    requires v < TWO_32 && at + 5 <= dst.Length
    modifies dst
    ensures at < end <= at + 5 && dst[at..end] == Encoded(v)
    ensures forall i | 0 <= i < dst.Length && !(at <= i < end) :: dst[i] == old(dst[i])
  {
    end := at;
    if v < 0x80 {
      dst[at] := v;
      end := at + 1;
    } else if v < 0x4000 {
      dst[at], dst[at + 1] := More(v), v / 0x80;
      end := at + 2;
    } else if v < 0x20_0000 {
      dst[at], dst[at + 1], dst[at + 2] := More(v), More(v / 0x80), v / 0x4000;
      end := at + 3;
    } else if v < 0x1000_0000 {
      dst[at], dst[at + 1], dst[at + 2], dst[at + 3] := More(v), More(v / 0x80), More(v / 0x4000), v / 0x20_0000;
      end := at + 4;
    } else {
      dst[at], dst[at + 1], dst[at + 2], dst[at + 3], dst[at + 4] :=
        More(v), More(v / 0x80), More(v / 0x4000), More(v / 0x20_0000), v / 0x1000_0000;
      end := at + 5;
    }
    Unrolled(v);
  }

  /** The five lengths of a 32-bit varint. */
  lemma Unrolled(v: nat)
    requires v < TWO_32
    ensures Encoded(v) ==
      if v < 0x80 then [v]
      else if v < 0x4000 then [More(v), v / 0x80]
      else if v < 0x20_0000 then [More(v), More(v / 0x80), v / 0x4000]
      else if v < 0x1000_0000 then [More(v), More(v / 0x80), More(v / 0x4000), v / 0x20_0000]
      else [More(v), More(v / 0x80), More(v / 0x4000), More(v / 0x20_0000), v / 0x1000_0000]
  {
    Shifts(v);
    UnrollOne(v, v / 0x80);
    UnrollOne(v / 0x80, v / 0x4000);
    UnrollOne(v / 0x4000, v / 0x20_0000);
    UnrollOne(v / 0x20_0000, v / 0x1000_0000);
    UnrollOne(v / 0x1000_0000, 0);
    Chain(v, v / 0x80, v / 0x4000, v / 0x20_0000, v / 0x1000_0000);
  }

  lemma Chain(v: nat, b: nat, c: nat, d: nat, e: nat)
    requires Encoded(v) == if v < 128 then [v] else [More(v)] + Encoded(b)
    requires Encoded(b) == if b < 128 then [b] else [More(b)] + Encoded(c)
    requires Encoded(c) == if c < 128 then [c] else [More(c)] + Encoded(d)
    requires Encoded(d) == if d < 128 then [d] else [More(d)] + Encoded(e)
    requires e < 128 && Encoded(e) == [e]
    ensures Encoded(v) ==
      if v < 128 then [v]
      else if b < 128 then [More(v), b]
      else if c < 128 then [More(v), More(b), c]
      else if d < 128 then [More(v), More(b), More(c), d]
      else [More(v), More(b), More(c), More(d), e]
  {
    hide Encoded, More;
  }

  /** Shifting by seven bits at a time. */
  lemma Shifts(v: nat)
    ensures v / 0x4000 == v / 0x80 / 128 && v / 0x20_0000 == v / 0x4000 / 128
    ensures v / 0x1000_0000 == v / 0x20_0000 / 128
    ensures v < TWO_32 ==> v / 0x1000_0000 < 128
    ensures (v < 0x80 <==> v / 0x80 == 0) && (v < 0x4000 <==> v / 0x80 < 128) && (v < 0x20_0000 <==> v / 0x4000 < 128)
    ensures v < 0x1000_0000 <==> v / 0x20_0000 < 128
  {}

  lemma UnrollOne(v: nat, next: nat)
    requires v < 128 || next == v / 128
    ensures Encoded(v) == if v < 128 then [v] else [More(v)] + Encoded(next)
  {}

  method EncodeVarint64(dst: array<byte>, at: nat, value: nat) returns (end: nat)
    requires value < TWO_64 && at + 10 <= dst.Length
    modifies dst
    ensures at < end <= at + 10 && dst[at..end] == Encoded(value)
    ensures forall i | 0 <= i < dst.Length && !(at <= i < end) :: dst[i] == old(dst[i])
  {
    EncodedLength(value, 10) by { assert TWO_64 <= Pow128(10); }
    hide Encoded, More, Pow128, Or;
    end := at;
    var v := value;
    assert dst[at..end] + Encoded(v) == Encoded(value);
    while v >= 128
      invariant at <= end && end + |Encoded(v)| == at + |Encoded(value)| && |Encoded(value)| <= 10
      invariant dst[at..end] + Encoded(v) == Encoded(value)
      invariant forall i | 0 <= i < dst.Length && !(at <= i < end) :: dst[i] == old(dst[i])
      decreases v
    {
      UnrollOne(v, v / 128);
      Associate(dst[at..end], More(v), Encoded(v / 128));
      Store(dst, at, end, More(v));
      end := end + 1;
      v := v / 128;
    }
    UnrollOne(v, 0);
    Store(dst, at, end, v);
    end := end + 1;
  }

  /** *(ptr++) = b */
  method Store(dst: array<byte>, at: nat, end: nat, b: byte)
    requires at <= end < dst.Length
    modifies dst
    ensures dst[at..end + 1] == old(dst[at..end]) + [b]
    ensures forall i | 0 <= i < dst.Length && i != end :: dst[i] == old(dst[i])
  {
    dst[end] := b;
  }

  lemma Associate(front: Bytes, b: byte, rest: Bytes)
    ensures front + ([b] + rest) == (front + [b]) + rest
  {}

  /** A number of at most 7k bits takes at most k bytes. */
  lemma {:induction false} EncodedLength(v: nat, k: nat)
    requires k > 0 && v < Pow128(k)
    ensures |Encoded(v)| <= k
  {
    if v >= 128 {
      assert k > 1;
      DivBound(v, Pow128(k - 1), 128);
      EncodedLength(v / 128, k - 1);
    }
  }

  function Pow128(k: nat): (p: nat)
    ensures p > 0
  {
    if k == 0 then 1 else Pow128(k - 1) * 128
  }

  /** Byte i holds the i-th seven bits, and has its high bit set unless it is the last one; the last one is not 0
      except for 0 itself. */
  lemma {:induction false} EncodedBytes(v: nat, i: nat)
    requires i < |Encoded(v)|
    ensures Encoded(v)[i] == v / Pow128(i) % 128 + if i + 1 < |Encoded(v)| then 128 else 0
    ensures i + 1 == |Encoded(v)| ==> v / Pow128(i) < 128 && (v > 0 ==> v / Pow128(i) > 0)
  {
    if i == 0 {
      assert Pow128(0) == 1;
    } else {
      EncodedBytes(v / 128, i - 1);
      DivModSplit(v, Pow128(i - 1), 128);
      QuotientTwice(v, Pow128(i - 1));
      assert Encoded(v)[i] == Encoded(v / 128)[i - 1];
    }
  }

  lemma QuotientTwice(v: nat, q: nat)
    requires q > 0
    ensures v / (q * 128) == v / 128 / q
  {
    DivModSplit(v, q, 128);
    var p := q * 128;
    DivModUnique(v / 128, q, v / p, v % p / 128);
  }

  /** The example of the specification. */
  lemma ThreeHundred()
    ensures Encoded(300) == [0xAC, 0x02]
  {
    assert Encoded(2) == [2];
  }

  method VarintLength(value: nat) returns (len: nat)
    ensures len == |Encoded(value)|
  {
    len := 1;
    var v := value;
    while v >= 128
      invariant len >= 1 && len - 1 + |Encoded(v)| == |Encoded(value)|
      decreases v
    {
      v := v / 128;
      len := len + 1;
    }
  }

  method PutVarint32(out: Bytes, v: nat) returns (r: Bytes)
    requires v < TWO_32
    ensures r == out + Encoded(v)
  {
    var buf := new byte[5];
    var end := EncodeVarint32(buf, 0, v);
    r := out + buf[..end];
  }

  method PutVarint64(out: Bytes, v: nat) returns (r: Bytes)
    requires v < TWO_64
    ensures r == out + Encoded(v)
  {
    var buf := new byte[10];
    var end := EncodeVarint64(buf, 0, v);
    r := out + buf[..end];
  }

  // ---------------------------------------------------------------- decoding

  /** The number in the first k bytes, seven bits each. */
  function Value(s: Bytes, k: nat): nat
    requires k <= |s|
  {
    if k == 0 then 0 else Value(s, k - 1) + (s[k - 1] % 128) * Pow128(k - 1)
  }

  /** The position of the last byte of the varint that s starts with, if it is among the first `most`. */
  function LastByte(s: Bytes, most: nat, k: nat): (r: Option<nat>)
    requires k <= |s| && k <= most
    ensures r.Some? ==> k <= r.value < |s| && r.value < most && s[r.value] < 128
    ensures r.Some? ==> forall i | k <= i < r.value :: s[i] >= 128
    ensures r.None? ==> forall i | k <= i < |s| && i < most :: s[i] >= 128
    decreases most - k
  {
    if k == most || k == |s| then None else if s[k] < 128 then Some(k) else LastByte(s, most, k + 1)
  }

  /** What GetVarint reads from s: the value, modulo the word size, and the number of bytes it takes. */
  function Decoded(s: Bytes, most: nat, word: nat): (r: Option<(nat, nat)>)
    requires word > 0
    ensures r.Some? ==> 0 < r.value.1 <= |s| && r.value.1 <= most && r.value.0 < word
  {
    match LastByte(s, most, 0)
    case None => None
    case Some(last) => Some((Value(s, last + 1) % word, last + 1))
  }

  method GetVarint32(input: Bytes) returns (ok: bool, rest: Bytes, value: nat)
    ensures ok <==> Decoded(input, 5, TWO_32).Some?
    ensures ok ==> value == Decoded(input, 5, TWO_32).value.0 && rest == input[Decoded(input, 5, TWO_32).value.1..]
    ensures !ok ==> rest == input
  {
    if |input| > 0 {
      if input[0] < 128 {
        assert Pow128(0) == 1 && Value(input, 1) == Value(input, 0) + (input[0] % 128) * Pow128(0);
        return true, input[1..], input[0];
      }
    }
    Words();
    ok, rest, value := GetVarint(input, 5, 32, TWO_32);
  }

  method GetVarint64(input: Bytes) returns (ok: bool, rest: Bytes, value: nat)
    ensures ok <==> Decoded(input, 10, TWO_64).Some?
    ensures ok ==> value == Decoded(input, 10, TWO_64).value.0 && rest == input[Decoded(input, 10, TWO_64).value.1..]
    ensures !ok ==> rest == input
  {
    Words();
    ok, rest, value := GetVarint(input, 10, 64, TWO_64);
  }

  /** The loop of GetVarint32PtrFallback and GetVarint64Ptr, which differ in the number of shifts and the word. */
  method GetVarint(input: Bytes, most: nat, bits: nat, word: nat) returns (ok: bool, rest: Bytes, value: nat)
    requires word == Pow2(bits) && 7 * most < bits + 7
    ensures ok <==> Decoded(input, most, word).Some?
    ensures ok ==> value == Decoded(input, most, word).value.0 && rest == input[Decoded(input, most, word).value.1..]
    ensures !ok ==> rest == input
  {
    var result, p, scale := 0, 0, 1;
    DivModUnique(0, word, 0, 0);
    hide Pow2, Or;
    while p < most && p < |input|
      invariant p <= most && p <= |input| && scale == Pow128(p)
      invariant result == Value(input, p) % word
      invariant LastByte(input, most, 0) == LastByte(input, most, p)
    {
      var b: int := input[p];
      OrNext(input, p, bits);
      result := Or(result, (b % 128) * scale % word);
      p := p + 1;
      if b < 128 {
        return true, input[p..], result;
      }
      scale := scale * 128;
    }
    return false, input, 0;
  }

  /** Or-ing in the next seven bits, shifted to their place, gives the value with one byte more. */
  lemma OrNext(s: Bytes, k: nat, bits: nat)
    requires k < |s| && 7 * k <= bits
    ensures Or(Value(s, k) % Pow2(bits), (s[k] % 128) * Pow128(k) % Pow2(bits)) == Value(s, k + 1) % Pow2(bits)
  {
    ValueBound(s, k);
    Pow128Is(k);
    OrShifted(Value(s, k), s[k] % 128, 7 * k, bits);
  }

  lemma {:induction false} Pow128Is(k: nat)
    ensures Pow128(k) == Pow2(7 * k)
  {
    if k > 0 {
      Pow128Is(k - 1);
      Words();
      Pow2Sum(7 * (k - 1), 7);
    }
  }

  lemma {:induction false} ValueBound(s: Bytes, k: nat)
    requires k <= |s|
    ensures Value(s, k) < Pow128(k)
  {
    if k > 0 {
      ValueBound(s, k - 1);
      MulMonotone(s[k - 1] % 128, 127, Pow128(k - 1));
    }
  }

  // ---------------------------------------------------------------- round trip

  /** The bytes of an encoded number have its value, and only the last has no high bit. */
  lemma {:induction false} EncodedValue(v: nat, rest: Bytes)
    ensures var e, n := Encoded(v), |Encoded(v)|;
      && Value(e + rest, n) == v
      && (forall i | 0 <= i < n - 1 :: (e + rest)[i] >= 128) && (e + rest)[n - 1] < 128
  {
    hide More, Or;
    var e, n := Encoded(v), |Encoded(v)|;
    if v < 128 {
      assert Pow128(0) == 1 && Value(e + rest, 1) == Value(e + rest, 0) + ((e + rest)[0] % 128) * Pow128(0);
    } else {
      EncodedValue(v / 128, rest);
      UnrollOne(v, v / 128);
      hide Encoded, Pow128;
      var tail := Encoded(v / 128) + rest;
      assert e + rest == [v % 128 + 128] + tail;
      ValueShift(e + rest, tail, n - 1);
      assert forall i | 0 < i < n :: (e + rest)[i] == tail[i - 1];
    }
  }

  lemma {:induction false} ValueShift(s: Bytes, tail: Bytes, k: nat)
    requires |s| > 0 && s[1..] == tail && k <= |tail|
    ensures Value(s, k + 1) == s[0] % 128 + 128 * Value(tail, k)
  {
    if k == 0 {
      assert Pow128(0) == 1 && Value(s, 1) == Value(s, 0) + (s[0] % 128) * Pow128(0);
    } else {
      ValueShift(s, tail, k - 1);
      assert tail[k - 1] == s[k];
      var d: nat, p := s[k] % 128, Pow128(k - 1);
      assert Pow128(k) == p * 128;
      MulAssociative(d, p, 128);
      assert d * (p * 128) == 128 * (d * p);
    }
  }

  lemma LastByteIs(s: Bytes, most: nat, k: nat, last: nat)
    requires k <= last < |s| && last < most && s[last] < 128 && forall i | k <= i < last :: s[i] >= 128
    ensures LastByte(s, most, k) == Some(last)
    decreases last - k
  {
    if k < last { LastByteIs(s, most, k + 1, last); }
  }

  /** Decoding inverts encoding, takes exactly the encoded bytes, and leaves whatever follows. */
  lemma DecodedEncoded(v: nat, rest: Bytes, most: nat, word: nat)
    requires v < word && |Encoded(v)| <= most
    ensures Decoded(Encoded(v) + rest, most, word) == Some((v, |Encoded(v)|))
    ensures (Encoded(v) + rest)[|Encoded(v)|..] == rest
  {
    EncodedValue(v, rest);
    LastByteIs(Encoded(v) + rest, most, 0, |Encoded(v)| - 1);
    DivModUnique(v, word, 0, v);
  }

  lemma Decoded32(v: nat, rest: Bytes)
    requires v < TWO_32
    ensures Decoded(Encoded(v) + rest, 5, TWO_32) == Some((v, |Encoded(v)|))
    ensures (Encoded(v) + rest)[|Encoded(v)|..] == rest
  {
    assert TWO_32 <= Pow128(5);
    EncodedLength(v, 5);
    DecodedEncoded(v, rest, 5, TWO_32);
  }

  lemma Decoded64(v: nat, rest: Bytes)
    requires v < TWO_64
    ensures Decoded(Encoded(v) + rest, 10, TWO_64) == Some((v, |Encoded(v)|))
    ensures (Encoded(v) + rest)[|Encoded(v)|..] == rest
  {
    assert TWO_64 <= Pow128(10);
    EncodedLength(v, 10);
    DecodedEncoded(v, rest, 10, TWO_64);
  }
}
