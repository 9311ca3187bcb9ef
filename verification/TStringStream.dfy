/** TStringOutputStream: a stream that hands out the free part of a tstring, region by region. */
module TStringStream {
  import opened Basics
  import opened Memory
  import opened TString
  import opened TStringRep

  const MINIMUM_SIZE: nat := 16

  /** The size of the string after Next. */
  function NextSize(size: nat, cap: nat): nat {
    if size < cap then cap else if 2 * size > MINIMUM_SIZE then 2 * size else MINIMUM_SIZE
  }

  /** Next always grows the string: to its capacity or, when that is used up, to twice its size and at least 16. */
  lemma NextGrows(size: nat, cap: nat)
    ensures NextSize(size, cap) > size
    ensures NextSize(size, cap) == if size < cap then cap else if size <= 8 then 16 else 2 * size
  {}

  /** The size reported through the int is that of the region exactly when the string grows by less than 2^31. */
  lemma RegionIsExact(size: nat, cap: nat)
    requires NextSize(size, cap) < SIZE_LIMIT
    ensures ToInt32(NextSize(size, cap) - size) == NextSize(size, cap) - size <==> Growth(size, cap) < TWO_31
  {
    var g := NextSize(size, cap) - size;
    assert g >= 0;
    if g < TWO_31 { assert g % TWO_32 == g; }
  }

  /** The bytes that are free, or, when there are none, as many as the string has. */
  function Growth(size: nat, cap: nat): nat {
    if size < cap then cap - size else size
  }

  /** A view of 2^31 bytes, whose capacity is 0: Next reports a region of negative size. */
  lemma RegionCanBeNegative()
    ensures ToInt32(NextSize(0x8000_0000, 0) - 0x8000_0000) == -0x8000_0000
  {}

  // ---------------------------------------------------------------- runs of a client

  /** What a client does with one region: it writes these bytes at its front and gives the rest back; when there is
      no rest it may call BackUp all the same. */
  datatype Turn = Turn(bytes: Bytes, backUp: bool)

  predicate CallsBackUp(turn: Turn, region: nat) {
    |turn.bytes| < region || turn.backUp
  }

  /** The next region can be stored, its size is reported exactly, and it has room for the bytes of the turn. */
  predicate TurnFits(size: nat, cap: nat, turn: Turn) {
    NextSize(size, cap) < SIZE_LIMIT && Growth(size, cap) < TWO_31 && |turn.bytes| <= NextSize(size, cap) - size
  }

  /** The capacity after a turn. */
  function CapacityAfter(size: nat, cap: nat, turn: Turn): nat {
    var grown := NextSize(size, cap);
    var cap' := ResizedCapacity(size, cap, grown);
    if CallsBackUp(turn, grown - size) then ResizedCapacity(grown, cap', size + |turn.bytes|) else cap'
  }

  predicate TurnsFit(size: nat, cap: nat, turns: seq<Turn>)
    decreases |turns|
  {
    turns == []
    || (TurnFits(size, cap, turns[0]) && TurnsFit(size + |turns[0].bytes|, CapacityAfter(size, cap, turns[0]), turns[1..]))
  }

  /** The bytes that are kept in all. */
  function KeptBytes(turns: seq<Turn>): Bytes {
    if turns == [] then [] else KeptBytes(turns[..|turns| - 1]) + turns[|turns| - 1].bytes
  }

  lemma NextTurn(size: nat, cap: nat, turns: seq<Turn>, i: nat)
    requires i < |turns| && TurnsFit(size, cap, turns[i..])
    ensures TurnFits(size, cap, turns[i])
    ensures TurnsFit(size + |turns[i].bytes|, CapacityAfter(size, cap, turns[i]), turns[i + 1..])
    ensures KeptBytes(turns[..i + 1]) == KeptBytes(turns[..i]) + turns[i].bytes
  {
    assert turns[i..][0] == turns[i] && turns[i..][1..] == turns[i + 1..];
    assert turns[..i + 1][..i] == turns[..i];
  }

  /** A client that writes n bytes fills every region but the last. */
  function Greedy(size: nat, cap: nat, n: nat): (k: nat)
    ensures k <= n && (n > 0 ==> k > 0)
  {
    NextGrows(size, cap);
    Min(n, NextSize(size, cap) - size)
  }

  /** The capacity after such a turn. */
  function GreedyCapacity(size: nat, cap: nat, n: nat): nat {
    CapacityAfter(size, cap, Turn(seq(Greedy(size, cap, n), _ => 0), false))
  }

  predicate BytesFit(size: nat, cap: nat, n: nat)
    decreases n
  {
    n == 0
    || (NextSize(size, cap) < SIZE_LIMIT && Growth(size, cap) < TWO_31
        && var k := Greedy(size, cap, n); BytesFit(size + k, GreedyCapacity(size, cap, n), n - k))
  }

  /** Below 2^30 bytes every region is reported exactly. */
  lemma {:induction false} SmallFits(size: nat, cap: nat, n: nat)
    requires size + n < TWO_31 / 2 - 16 && cap < TWO_31 && (IsCap(cap) || cap == SMALL_CAPACITY || cap == 0)
    ensures BytesFit(size, cap, n)
    decreases n
  {
    hide IsCap, NextSize, Growth, Greedy, GreedyCapacity;
    if n > 0 {
      hide BytesFit;
      var k := Greedy(size, cap, n);
      SmallCapacity(size, cap, n);
      SmallFits(size + k, GreedyCapacity(size, cap, n), n - k);
      NextFits(size, cap, n);
    }
  }

  lemma NextFits(size: nat, cap: nat, n: nat)
    requires NextSize(size, cap) < SIZE_LIMIT && Growth(size, cap) < TWO_31
    requires var k := Greedy(size, cap, n); BytesFit(size + k, GreedyCapacity(size, cap, n), n - k)
    ensures BytesFit(size, cap, n)
  {
    hide NextSize, Growth, Greedy, GreedyCapacity;
  }

  lemma SmallCapacity(size: nat, cap: nat, n: nat)
    requires 0 < n && size + n < TWO_31 / 2 - 16 && cap < TWO_31 && (IsCap(cap) || cap == SMALL_CAPACITY || cap == 0)
    ensures NextSize(size, cap) < SIZE_LIMIT && Growth(size, cap) < TWO_31
    ensures var c := GreedyCapacity(size, cap, n); c < TWO_31 && (IsCap(c) || c == SMALL_CAPACITY)
  {
    var grown := NextSize(size, cap);
    var cap' := ResizedCapacity(size, cap, grown);
    var kept := size + Greedy(size, cap, n);
    NextGrows(size, cap);
    if grown > SMALL_CAPACITY { NewCapacityRules(size, cap, grown); }
    if kept > SMALL_CAPACITY { NewCapacityRules(grown, cap', kept); }
  }

  lemma FrontKept(region: Bytes, at: nat, bytes: Bytes)
    requires at + |bytes| <= |region|
    ensures Overwrite(region, at, bytes)[..at + |bytes|] == region[..at] + bytes
    ensures at + |bytes| == |region| ==> Overwrite(region, at, bytes) == region[..at] + bytes
  {}

  class TStringOutputStream {
    const target: TString

    constructor (t: TString)
      ensures target == t && fresh(this)
    {
      target := t;
    }

    ghost predicate Valid()
      reads this, target, target.heap
    {
      target.Valid() && target.HasSpace()
    }

    /** The region is what the string holds from `at` on; its size is given as an int, which is exact iff there is
        less than 2^31 to hand out. The sizes for which the source gives up cannot be stored in a string. */
    method Next() returns (ok: bool, at: nat, size: int)
      requires Valid() && NextSize(|target.Contents()|, Capacity(target.raw)) < SIZE_LIMIT
      modifies target, target.heap
      ensures Valid() && ok && at == |old(target.Contents())|
      ensures |target.Contents()| == NextSize(at, old(Capacity(target.raw))) > at
      ensures var cap := old(Capacity(target.raw));
        |target.Contents()| == if at < cap then cap else if at <= 8 then 16 else 2 * at
      ensures target.Contents()[..at] == old(target.Contents()) && Type(target.raw) != VIEW
      ensures size == ToInt32(|target.Contents()| - at)
      ensures var cap := old(Capacity(target.raw));
        size == |target.Contents()| - at <==> (if at < cap then cap - at else at) < TWO_31
      ensures Capacity(target.raw) == ResizedCapacity(at, old(Capacity(target.raw)), |target.Contents()|)
      ensures OnlyOwn(old(target.heap.cells), old(target.Owned()), target.heap.cells, target.Owned())
    {
      hide IsString, CharsOf, OnlyOwn, ResizedCapacity, ToInt32, NextSize;
      ok, at, size := false, 0, 0;
      var oldSize := Size(target.raw);
      ghost var cap := Capacity(target.raw);
      NextGrows(oldSize, cap);
      assert ToInt32(NextSize(oldSize, cap) - oldSize) == NextSize(oldSize, cap) - oldSize
        <==> (if oldSize < cap then cap - oldSize else oldSize) < TWO_31 by { RegionIsExact(oldSize, cap); }
      if oldSize < Capacity(target.raw) {
        target.ResizeUninitialized(Capacity(target.raw));
      } else {
        if oldSize > SIZE_MAX / 2 {
          return;
        }
        target.ResizeUninitialized(if 2 * oldSize > MINIMUM_SIZE then 2 * oldSize else MINIMUM_SIZE);
      }
      ok, at, size := true, oldSize, ToInt32(Size(target.raw) - oldSize);
    }

    /** Gives the last count bytes back. */
    method BackUp(count: int)
      requires Valid() && 0 <= count <= |target.Contents()|
      modifies target, target.heap
      ensures Valid()
      ensures target.Contents() == old(target.Contents())[..|old(target.Contents())| - count]
      ensures Type(target.raw) != VIEW
      ensures Capacity(target.raw) == ResizedCapacity(old(Size(target.raw)), old(Capacity(target.raw)), |target.Contents()|)
      ensures OnlyOwn(old(target.heap.cells), old(target.Owned()), target.heap.cells, target.Owned())
    {
      hide ResizedCapacity;
      target.Resize(Size(target.raw) - count, 0);
    }

    method ByteCount() returns (n: int)
      requires Valid()
      ensures n == |target.Contents()|
    {
      n := Size(target.raw);
    }

    /** Next, for a region whose size is reported exactly. */
    method Claim() returns (at: nat, size: nat)
      requires Valid() && NextSize(|target.Contents()|, Capacity(target.raw)) < SIZE_LIMIT
      requires Growth(|target.Contents()|, Capacity(target.raw)) < TWO_31
      modifies target, target.heap
      ensures Valid() && at == |old(target.Contents())| && size > 0 && Type(target.raw) != VIEW
      ensures |target.Contents()| == at + size == NextSize(at, old(Capacity(target.raw)))
      ensures target.Contents()[..at] == old(target.Contents())
      ensures Capacity(target.raw) == ResizedCapacity(at, old(Capacity(target.raw)), at + size)
      ensures OnlyOwn(old(target.heap.cells), old(target.Owned()), target.heap.cells, target.Owned())
    {
      hide IsString, CharsOf, OnlyOwn, NextSize, ToInt32, ResizedCapacity;
      var ok, start, n := Next();
      at, size := start, n;
    }

    /** A client fills the front of its region and gives the rest back. */
    method Fill(at: nat, size: nat, turn: Turn)
      requires Valid() && |target.Contents()| == at + size && |turn.bytes| <= size && Type(target.raw) != VIEW
      modifies target, target.heap
      ensures Valid() && target.Contents() == old(target.Contents())[..at] + turn.bytes
      ensures Capacity(target.raw) == if CallsBackUp(turn, size)
        then ResizedCapacity(at + size, old(Capacity(target.raw)), at + |turn.bytes|) else old(Capacity(target.raw))
      ensures OnlyOwn(old(target.heap.cells), old(target.Owned()), target.heap.cells, target.Owned())
    {
      hide IsString, CharsOf, ResizedCapacity, Overwrite;
      ghost var region := target.Contents();
      target.Store(at, turn.bytes);
      ghost var cells, owned := target.heap.cells, target.Owned();
      FrontKept(region, at, turn.bytes);
      if |turn.bytes| < size || turn.backUp {
        BackUp(size - |turn.bytes|);
        OwnOnly(old(target.heap.cells), old(target.Owned()), cells, owned, target.heap.cells, target.Owned());
      }
    }

    method TakeTurn(turn: Turn)
      requires Valid() && TurnFits(|target.Contents()|, Capacity(target.raw), turn)
      modifies target, target.heap
      ensures Valid() && target.Contents() == old(target.Contents()) + turn.bytes
      ensures Capacity(target.raw) == CapacityAfter(|old(target.Contents())|, old(Capacity(target.raw)), turn)
      ensures OnlyOwn(old(target.heap.cells), old(target.Owned()), target.heap.cells, target.Owned())
    {
      hide IsString, CharsOf, OnlyOwn, ResizedCapacity, NextSize, CallsBackUp;
      var at, size := Claim();
      ghost var cells, owned := target.heap.cells, target.Owned();
      Fill(at, size, turn);
      OwnOnly(old(target.heap.cells), old(target.Owned()), cells, owned, target.heap.cells, target.Owned());
    }

    /** Turn i of a run. */
    method TakeNext(turns: seq<Turn>, i: nat, ghost before: Bytes)
      requires i < |turns| && Valid() && target.Contents() == before + KeptBytes(turns[..i])
      requires TurnsFit(|target.Contents()|, Capacity(target.raw), turns[i..])
      modifies target, target.heap
      ensures Valid() && target.Contents() == before + KeptBytes(turns[..i + 1])
      ensures TurnsFit(|target.Contents()|, Capacity(target.raw), turns[i + 1..])
      ensures OnlyOwn(old(target.heap.cells), old(target.Owned()), target.heap.cells, target.Owned())
    {
      hide IsString, CharsOf, TurnsFit, KeptBytes, OnlyOwn, TurnFits, CapacityAfter;
      NextTurn(|target.Contents()|, Capacity(target.raw), turns, i);
      TakeTurn(turns[i]);
    }

    /** Any run: however much of each region a client keeps, nothing, a part, or all of it with or without a call of
        BackUp, the string is in the end what it was, followed by the bytes kept. */
    method Run(turns: seq<Turn>)
      requires Valid() && TurnsFit(|target.Contents()|, Capacity(target.raw), turns)
      modifies target, target.heap
      ensures Valid() && target.Contents() == old(target.Contents()) + KeptBytes(turns)
      ensures OnlyOwn(old(target.heap.cells), old(target.Owned()), target.heap.cells, target.Owned())
    {
      OwnNothing(target.heap.cells, target.Owned());
      ghost var before := target.Contents();
      assert turns[0..] == turns && KeptBytes(turns[..0]) == [];
      hide IsString, CharsOf, TurnsFit, KeptBytes, OnlyOwn;
      var i := 0;
      while i < |turns|
        invariant i <= |turns| && Valid() && target.Contents() == before + KeptBytes(turns[..i])
        invariant TurnsFit(|target.Contents()|, Capacity(target.raw), turns[i..])
        invariant OnlyOwn(old(target.heap.cells), old(target.Owned()), target.heap.cells, target.Owned())
      {
        ghost var cells, owned := target.heap.cells, target.Owned();
        TakeNext(turns, i, before);
        OwnOnly(old(target.heap.cells), old(target.Owned()), cells, owned, target.heap.cells, target.Owned());
        i := i + 1;
      }
      assert turns[..i] == turns;
    }

    /** One turn of a client that writes the bytes from `from` on, as many as fit. */
    method EmitRegion(bytes: Bytes, from: nat) returns (next: nat)
      requires Valid() && from < |bytes|
      requires BytesFit(|target.Contents()|, Capacity(target.raw), |bytes| - from)
      modifies target, target.heap
      ensures Valid() && from < next <= |bytes| && target.Contents() == old(target.Contents()) + bytes[from..next]
      ensures BytesFit(|target.Contents()|, Capacity(target.raw), |bytes| - next)
      ensures OnlyOwn(old(target.heap.cells), old(target.Owned()), target.heap.cells, target.Owned())
    {
      hide IsString, CharsOf, OnlyOwn, ResizedCapacity, NextSize;
      var at, size := Claim();
      next := if size < |bytes| - from then from + size else |bytes|;
      ghost var cells, owned := target.heap.cells, target.Owned();
      Fill(at, size, Turn(bytes[from..next], false));
      OwnOnly(old(target.heap.cells), old(target.Owned()), cells, owned, target.heap.cells, target.Owned());
    }

    /** Writing bytes through the stream appends them, however many regions that takes. */
    method Emit(bytes: Bytes)
      requires Valid() && BytesFit(|target.Contents()|, Capacity(target.raw), |bytes|)
      modifies target, target.heap
      ensures Valid() && target.Contents() == old(target.Contents()) + bytes
      ensures OnlyOwn(old(target.heap.cells), old(target.Owned()), target.heap.cells, target.Owned())
    {
      hide IsString, CharsOf, BytesFit;
      OwnNothing(target.heap.cells, target.Owned());
      ghost var before := target.Contents();
      assert before + bytes[..0] == before;
      var i := 0;
      while i < |bytes|
        invariant i <= |bytes| && Valid() && target.Contents() == before + bytes[..i]
        invariant BytesFit(|target.Contents()|, Capacity(target.raw), |bytes| - i)
        invariant OnlyOwn(old(target.heap.cells), old(target.Owned()), target.heap.cells, target.Owned())
      {
        ghost var cells, owned, from := target.heap.cells, target.Owned(), i;
        i := EmitRegion(bytes, i);
        assert bytes[..i] == bytes[..from] + bytes[from..i];
        OwnOnly(old(target.heap.cells), old(target.Owned()), cells, owned, target.heap.cells, target.Owned());
      }
      assert bytes[..i] == bytes;
    }
  }
}
