/** The 24 bytes of ctstring_internal.h, as values: the two low bits of byte 0 give the type; then a SMALL string
    holds its characters in place, a LARGE one points to a block of its own, and a VIEW to memory of others. */
module TStringRep {
  import opened Basics
  import opened Bits
  import opened Memory

  type Bytes = seq<byte>
  type Raw = b: seq<byte> | |b| == 24 witness seq(24, _ => 0)

  const SMALL: nat := 0
  const LARGE: nat := 1
  const OFFSET: nat := 2
  const VIEW: nat := 3

  const SMALL_CAPACITY: nat := 22
  const SIZE_MAX: nat := 0xFFFF_FFFF_FFFF_FFFF
  /** Sizes lose their two high bits when they are stored. */
  const SIZE_LIMIT: nat := 0x4000_0000_0000_0000

  function Type(raw: Raw): nat { raw[0] % 4 }

  /** TF_TString_ToInternalSizeT */
  function Packed(size: nat, kind: nat): nat
    requires size < SIZE_LIMIT && kind < 4
  {
    4 * size + kind
  }

  function LargeSize(raw: Raw): nat { Get64(raw, 0) / 4 }

  function LargeCap(raw: Raw): nat { Get64(raw, 8) }

  function LargePtr(raw: Raw): nat { Get64(raw, 16) }

  function ViewPtr(raw: Raw): nat { Get64(raw, 8) }

  function Size(raw: Raw): nat {
    if Type(raw) == SMALL then raw[0] / 4 else LargeSize(raw)
  }

  function Capacity(raw: Raw): nat {
    if Type(raw) == SMALL then SMALL_CAPACITY else if Type(raw) == LARGE then LargeCap(raw) else 0
  }

  function PutLarge(raw: Raw, size: nat, cap: nat, ptr: nat): (r: Raw)
    requires size < SIZE_LIMIT && cap < TWO_64 && ptr < TWO_64
    ensures Type(r) == LARGE && LargeSize(r) == size && LargeCap(r) == cap && LargePtr(r) == ptr
  {
    hide Get16, Get32, Get64, Put64;
    var r0 := Put64(raw, 0, Packed(size, LARGE));
    var r1 := Put64(r0, 16, ptr);
    var r2 := Put64(r1, 8, cap);
    FieldsKept(r0, r1, 16, 8, 0);
    FieldsKept(r1, r2, 8, 8, 0);
    FieldsKept(r1, r2, 8, 8, 16);
    LowByte(r2);
    r2
  }

  function PutView(raw: Raw, size: nat, ptr: nat): (r: Raw)
    requires size < SIZE_LIMIT && ptr < TWO_64
    ensures Type(r) == VIEW && LargeSize(r) == size && ViewPtr(r) == ptr
  {
    var r0 := Put64(raw, 0, Packed(size, VIEW));
    var r1 := Put64(r0, 8, ptr);
    FieldsKept(r0, r1, 8, 8, 0);
    LowByte(r1);
    r1
  }

  /** The type is in the lowest byte of the size word. */
  lemma LowByte(raw: Raw)
    ensures Get64(raw, 0) % 4 == raw[0] % 4
  {
    assert Get64(raw, 0) == raw[0] as int + 4 * (0x40 * raw[1] as int + 0x4000 * Get16(raw, 2) + 0x4000_0000 * Get32(raw, 4));
  }

  // ---------------------------------------------------------------- capacities

  /** TF_align16 */
  function Align16(i: nat): nat {
    And((i + 0xF) % TWO_64, SIZE_MAX - 0xF)
  }

  /** The mask rounds up to a multiple of 16, when the sum does not wrap. */
  lemma AlignMask(i: nat)
    requires i + 0xF < TWO_64
    ensures Align16(i) == (i + 0xF) / 16 * 16
  {
    Words();
    assert Pow2(4) == 16;
    hide Pow2, And;
    AndMask(i + 0xF, 4, 64);
  }

  /** TF_align16(i) - 1, in a size_t. */
  function BeforeAligned(i: nat): nat {
    (Align16(i) + SIZE_MAX) % TWO_64
  }

  /** The capacity that TF_TString_ResizeUninitialized chooses for a LARGE result. */
  function NewCapacity(size: nat, cap: nat, newSize: nat): nat {
    var capX2 := if cap >= SIZE_MAX / 2 then SIZE_MAX - 1 else cap * 2;
    if newSize < size && newSize < cap / 2 then BeforeAligned(cap / 2 + 1)
    else if newSize > capX2 then BeforeAligned(newSize + 1)
    else if newSize > cap then BeforeAligned(capX2 + 1)
    else cap
  }

  /** Every capacity of a LARGE string. */
  predicate IsCap(cap: nat) {
    (cap + 1) % 16 == 0 && SMALL_CAPACITY < cap < TWO_64
  }

  /** The new capacity holds the string, is 15 modulo 16, is at least doubled when it grows, and is kept unless
      the string outgrows it or shrinks below half of it; only a LARGE string keeps it. */
  lemma NewCapacityRules(size: nat, cap: nat, newSize: nat)
    requires size < SIZE_LIMIT && SMALL_CAPACITY < newSize < SIZE_LIMIT
    requires IsCap(cap) || cap == SMALL_CAPACITY || cap == 0
    ensures var c := NewCapacity(size, cap, newSize);
      && newSize <= c && IsCap(c)
      && (c > cap ==> c >= 2 * cap && newSize > cap)
      && (newSize <= cap && !(newSize < size && newSize < cap / 2) ==> c == cap)
      && (c == cap ==> IsCap(cap))
      && (newSize <= cap ==> c <= cap) && (newSize >= 2 * cap ==> c <= newSize + 15)
  {
    AlignRules(cap / 2 + 1);
    AlignRules(newSize + 1);
    if cap < SIZE_LIMIT { AlignRules(cap * 2 + 1); }
    hide BeforeAligned, Align16;
  }

  lemma AlignRules(i: nat)
    requires 0 < i && i + 0xF < TWO_64
    ensures var c := BeforeAligned(i); (c + 1) % 16 == 0 && i <= c + 1 < i + 16
  {
    AlignMask(i);
    hide Align16;
    var q := (i + 0xF) / 16;
    assert BeforeAligned(i) == 16 * q - 1;
    hide BeforeAligned;
  }

  /** Which capacity it is: the wanted one, at least doubled or exactly halved if need be, is rounded up to 15
      modulo 16. */
  lemma NewCapacityIs(size: nat, cap: nat, newSize: nat)
    requires size < SIZE_LIMIT && SMALL_CAPACITY < newSize < SIZE_LIMIT
    requires IsCap(cap) || cap == SMALL_CAPACITY || cap == 0
    ensures var c := NewCapacity(size, cap, newSize);
      if newSize < size && newSize < cap / 2 then c == (cap / 2 + 16) / 16 * 16 - 1
      else if newSize <= cap then c == cap
      else if newSize <= 2 * cap then c == (2 * cap + 16) / 16 * 16 - 1
      else c == (newSize + 16) / 16 * 16 - 1
  {
    RoundedUp(cap / 2);
    RoundedUp(newSize);
    if cap < SIZE_LIMIT { RoundedUp(cap * 2); }
    hide BeforeAligned, Align16;
  }

  lemma RoundedUp(i: nat)
    requires i + 16 < TWO_64
    ensures BeforeAligned(i + 1) == (i + 16) / 16 * 16 - 1
  {
    AlignMask(i + 1);
    hide Align16;
    var q := (i + 16) / 16;
    assert q > 0;
  }

  /** The capacity after ResizeUninitialized. */
  function ResizedCapacity(size: nat, cap: nat, newSize: nat): nat {
    if newSize <= SMALL_CAPACITY then SMALL_CAPACITY else NewCapacity(size, cap, newSize)
  }

  /** The source remarks that SIZE_MAX is a multiple of 16; it is 15 modulo 16. */
  lemma SizeMaxIsNotAligned()
    ensures SIZE_MAX % 16 == 15
  {}

  // ---------------------------------------------------------------- contents

  function Overwrite(s: Bytes, at: nat, bytes: Bytes): (r: Bytes)
    requires at + |bytes| <= |s|
    ensures |r| == |s| && forall i | 0 <= i < |s| :: r[i] == if at <= i < at + |bytes| then bytes[i - at] else s[i]
  {
    s[..at] + bytes + s[at + |bytes|..]
  }

  lemma OverwriteFront(s: Bytes, at: nat, bytes: Bytes, n: nat)
    requires at + |bytes| <= n <= |s|
    ensures Overwrite(s, at, bytes)[..n] == Overwrite(s[..n], at, bytes)
  {}

  /** The bytes of a SMALL string of n characters, which are left as they are. */
  function PutSmall(raw: Raw, n: nat): (r: Raw)
    requires n <= SMALL_CAPACITY
    ensures Type(r) == SMALL && Size(r) == n && r[1 + n] == 0 && r[1..1 + n] == raw[1..1 + n]
  {
    raw[0 := 4 * n][1 + n := 0]
  }

  lemma PutSmallKeeps(raw: Raw, n: nat, k: nat)
    requires k <= n <= SMALL_CAPACITY && (Type(raw) == SMALL ==> k <= Size(raw) <= SMALL_CAPACITY)
    ensures Type(raw) == SMALL ==> PutSmall(raw, n)[1..1 + n][..k] == raw[1..1 + Size(raw)][..k]
  {
    assert PutSmall(raw, n)[1..1 + n] == raw[1..1 + n];
  }

  /** The characters at `at` of a SMALL string overwritten. */
  function StoreSmall(raw: Raw, at: nat, bytes: Bytes): (r: Raw)
    requires Type(raw) == SMALL && at + |bytes| <= Size(raw) <= SMALL_CAPACITY
    ensures Type(r) == SMALL && Size(r) == Size(raw) && r[1 + Size(r)] == raw[1 + Size(r)]
    ensures r[1..1 + Size(r)] == Overwrite(raw[1..1 + Size(raw)], at, bytes)
  {
    var r := Overwrite(raw, 1 + at, bytes);
    assert r[0] == raw[0];
    r
  }

  /** The block behind a LARGE string: cap + 1 bytes, with a NUL after the characters. */
  predicate IsBlock(block: Bytes, size: nat, cap: nat) {
    |block| == cap + 1 && size <= cap && block[size] == 0
  }

  predicate IsString(raw: Raw, block: Bytes, memory: Bytes) {
    && Size(raw) < SIZE_LIMIT
    && (Type(raw) == SMALL ==> Size(raw) <= SMALL_CAPACITY && raw[1 + Size(raw)] == 0)
    && (Type(raw) == LARGE ==> IsCap(LargeCap(raw)) && LargePtr(raw) != 0 && IsBlock(block, Size(raw), LargeCap(raw)))
    && (Type(raw) == VIEW ==> Size(raw) <= |memory|)
    && Type(raw) != OFFSET
  }

  function CharsOf(raw: Raw, block: Bytes, memory: Bytes): (s: Bytes)
    requires IsString(raw, block, memory)
    ensures |s| == Size(raw)
  {
    if Type(raw) == SMALL then raw[1..1 + Size(raw)]
    else if Type(raw) == LARGE then block[..Size(raw)]
    else memory[..Size(raw)]
  }
}
