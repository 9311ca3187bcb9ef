/** TF_TString and tstring: byte strings that are stored in place, in a block of their own, or as a view. */
module TString {
  import opened Basics
  import opened Memory
  import opened TStringRep

  class TString {
    /** The free store. */
    const heap: Heap<Bytes>
    /** Memory of others that a VIEW may point to: what can be read from each address on. It does not change. */
    const views: map<nat, Bytes>
    var raw: Raw

    /** The block of a LARGE string. */
    ghost function Block(): Bytes
      reads this, heap
    {
      if Type(raw) == LARGE && LargePtr(raw) in heap.cells then heap.cells[LargePtr(raw)] else []
    }

    ghost function Viewed(): Bytes
      reads this
    {
      if Type(raw) == VIEW && ViewPtr(raw) in views then views[ViewPtr(raw)] else []
    }

    ghost function Owned(): set<nat>
      reads this
    {
      if Type(raw) == LARGE then {LargePtr(raw)} else {}
    }

    ghost predicate Valid()
      reads this, heap
    {
      && Owned() <= heap.cells.Keys
      && (Type(raw) == VIEW ==> ViewPtr(raw) in views)
      && IsString(raw, Block(), Viewed())
    }

    ghost function Contents(): Bytes
      reads this, heap
      requires Valid()
    {
      CharsOf(raw, Block(), Viewed())
    }

    /** An allocation succeeds, or a block can be reallocated. */
    ghost predicate HasSpace()
      reads this, heap
    {
      Type(raw) == LARGE || heap.HasRoom()
    }

    /** TF_TString_Init */
    constructor (h: Heap<Bytes>, external: map<nat, Bytes>)
      ensures heap == h && views == external && fresh(this)
      ensures Valid() && Contents() == [] && Owned() == {}
    {
      heap := h;
      views := external;
      raw := seq(24, _ => 0);
    }

    method Init()
      modifies this
      ensures Valid() && Contents() == [] && Owned() == {}
    {
      raw := seq(24, _ => 0);
    }

    /** TF_TString_Dealloc, also the destructor. */
    method Dealloc()
      requires Valid()
      modifies this, heap
      ensures Valid() && Owned() == {} && Contents() == if old(Type(raw)) == LARGE then [] else old(Contents())
      ensures heap.cells == old(heap.cells) - old(Owned())
      ensures old(HasSpace()) ==> heap.HasRoom()
    {
      if Type(raw) == LARGE && LargePtr(raw) != 0 {
        heap.Delete(LargePtr(raw));
        assert 0 < LargePtr(raw) < TWO_64 && LargePtr(raw) !in heap.cells;
        Init();
      }
    }

    // ---------------------------------------------------------------- resizing

    /** The bytes that data() reads; the source keeps the pointer to them. */
    method Read() returns (s: Bytes)
      requires Valid()
      ensures s == Contents()
    {
      if Type(raw) == SMALL {
        s := raw[1..1 + Size(raw)];
      } else if Type(raw) == LARGE {
        s := heap.cells[LargePtr(raw)][..Size(raw)];
      } else {
        s := views[ViewPtr(raw)][..Size(raw)];
      }
    }

    /** The case "-> SMALL" of TF_TString_ResizeUninitialized. */
    method ResizeSmall(newSize: nat)
      requires Valid() && newSize <= SMALL_CAPACITY
      modifies this, heap
      ensures Valid() && Type(raw) == SMALL && |Contents()| == newSize && Owned() == {}
      ensures var kept := Min(newSize, |old(Contents())|); Contents()[..kept] == old(Contents())[..kept]
      ensures heap.cells == old(heap.cells) - old(Owned())
      ensures old(HasSpace()) ==> heap.HasRoom()
    {
      hide Get16, Get32, Get64, PutLarge, PutSmall, StoreSmall, NewCapacity, Overwrite;
      var current := Read();
      var copySize := Min(newSize, |current|);
      var currType, currPtr := Type(raw), LargePtr(raw);
      PutSmallKeeps(raw, newSize, copySize);
      raw := PutSmall(raw, newSize);
      if currType != SMALL && copySize != 0 {
        ghost var chars := raw[1..1 + newSize];
        raw := StoreSmall(raw, 0, current[..copySize]);
        assert Overwrite(chars, 0, current[..copySize])[..copySize] == current[..copySize];
      }
      assert Contents()[..copySize] == current[..copySize];
      if currType == LARGE {
        heap.Delete(currPtr);
        assert 0 < currPtr < TWO_64 && currPtr !in heap.cells;
      }
    }

    /** The case "-> LARGE". */
    method ResizeLarge(newSize: nat)
      requires Valid() && HasSpace() && SMALL_CAPACITY < newSize < SIZE_LIMIT
      modifies this, heap
      ensures Valid() && HasSpace() && Type(raw) == LARGE && |Contents()| == newSize
      ensures var kept := Min(newSize, |old(Contents())|); Contents()[..kept] == old(Contents())[..kept]
      ensures LargeCap(raw) == NewCapacity(old(Size(raw)), old(Capacity(raw)), newSize)
      ensures LargeCap(raw) == old(Capacity(raw)) ==> Owned() == old(Owned())
      ensures OnlyOwn(old(heap.cells), old(Owned()), heap.cells, Owned())
    {
      hide Get16, Get32, Get64, PutLarge, PutSmall, StoreSmall, NewCapacity, Overwrite;
      var newCap := NewCapacity(Size(raw), Capacity(raw), newSize);
      NewCapacityRules(Size(raw), Capacity(raw), newSize);
      var newPtr := NewBlock(newSize, newCap);
      heap.Write(newPtr, heap.cells[newPtr][newSize := 0]);
      raw := PutLarge(raw, newSize, newCap, newPtr);
    }

    /** The block for newSize characters at a new capacity: the same, reallocated, or a new one. */
    method NewBlock(newSize: nat, newCap: nat) returns (newPtr: nat)
      requires Valid() && HasSpace() && newSize <= newCap < TWO_64
      requires newCap == Capacity(raw) ==> Type(raw) == LARGE
      modifies heap
      ensures 0 < newPtr < TWO_64 && newPtr in heap.cells && |heap.cells[newPtr]| == newCap + 1
      ensures var kept := Min(newSize, |old(Contents())|); heap.cells[newPtr][..kept] == old(Contents())[..kept]
      ensures newCap == Capacity(raw) ==> newPtr == LargePtr(raw)
      ensures OnlyOwn(old(heap.cells), Owned(), heap.cells, {newPtr})
    {
      hide Get16, Get32, Get64, Overwrite;
      var current := Read();
      var copySize := Min(newSize, |current|);
      if newCap == Capacity(raw) {
        newPtr := LargePtr(raw);
      } else if Type(raw) == LARGE {
        newPtr := Reallocate(heap, LargePtr(raw), newCap + 1);
      } else {
        newPtr := Allocate(heap, newCap + 1);
        if copySize != 0 {
          heap.Write(newPtr, Overwrite(heap.cells[newPtr], 0, current[..copySize]));
        }
      }
    }

    method ResizeUninitialized(newSize: nat)
      requires Valid() && HasSpace() && newSize < SIZE_LIMIT
      modifies this, heap
      ensures Valid() && HasSpace() && Type(raw) == (if newSize <= SMALL_CAPACITY then SMALL else LARGE)
      ensures |Contents()| == newSize
      ensures var kept := Min(newSize, |old(Contents())|); Contents()[..kept] == old(Contents())[..kept]
      ensures Capacity(raw) == ResizedCapacity(old(Size(raw)), old(Capacity(raw)), newSize)
      ensures OnlyOwn(old(heap.cells), old(Owned()), heap.cells, Owned())
    {
      if newSize <= SMALL_CAPACITY {
        ResizeSmall(newSize);
      } else {
        ResizeLarge(newSize);
      }
    }

    /** TF_TString_GetMutableDataPointer: a VIEW becomes a string of its own. */
    method MakeMutable()
      requires Valid() && HasSpace()
      modifies this, heap
      ensures Valid() && HasSpace() && Type(raw) != VIEW && Contents() == old(Contents())
      ensures old(Type(raw)) != VIEW ==> raw == old(raw) && heap.cells == old(heap.cells)
      ensures OnlyOwn(old(heap.cells), old(Owned()), heap.cells, Owned())
    {
      if Type(raw) == VIEW {
        ResizeUninitialized(Size(raw));
        assert Contents()[..|Contents()|] == Contents();
      } else {
        OwnNothing(heap.cells, Owned());
      }
    }

    /** memcpy, memmove and memset through the mutable data pointer. */
    method Store(at: nat, bytes: Bytes)
      requires Valid() && Type(raw) != VIEW && at + |bytes| <= |Contents()|
      modifies this, heap
      ensures Valid() && Type(raw) == old(Type(raw)) && Contents() == Overwrite(old(Contents()), at, bytes)
      ensures Owned() == old(Owned()) && Capacity(raw) == old(Capacity(raw))
      ensures OnlyOwn(old(heap.cells), old(Owned()), heap.cells, Owned())
    {
      hide Get16, Get32, Get64, PutLarge, PutSmall, StoreSmall, NewCapacity, Overwrite;
      if Type(raw) == SMALL {
        raw := StoreSmall(raw, at, bytes);
      } else {
        var p := LargePtr(raw);
        OverwriteFront(heap.cells[p], at, bytes, Size(raw));
        heap.Write(p, Overwrite(heap.cells[p], at, bytes));
      }
    }

    method Resize(newSize: nat, c: byte)
      requires Valid() && HasSpace() && newSize < SIZE_LIMIT
      modifies this, heap
      ensures Valid() && HasSpace() && Contents() == Resized(old(Contents()), newSize, c)
      ensures Type(raw) == (if newSize <= SMALL_CAPACITY then SMALL else LARGE)
      ensures Capacity(raw) == ResizedCapacity(old(Size(raw)), old(Capacity(raw)), newSize)
      ensures OnlyOwn(old(heap.cells), old(Owned()), heap.cells, Owned())
    {
      hide Get16, Get32, Get64, PutLarge, PutSmall, StoreSmall, NewCapacity, Overwrite;
      var currSize := Size(raw);
      ResizeUninitialized(newSize);
      if newSize > currSize {
        ghost var cells, owned := heap.cells, Owned();
        Store(currSize, seq(newSize - currSize, _ => c));
        OwnOnly(old(heap.cells), old(Owned()), cells, owned, heap.cells, Owned());
      }
    }

    method Reserve(n: nat)
      requires Valid() && HasSpace() && n < SIZE_LIMIT
      modifies this, heap
      ensures Valid() && HasSpace() && Contents() == old(Contents())
      ensures n <= SMALL_CAPACITY ==> raw == old(raw)
      ensures n > SMALL_CAPACITY ==> Type(raw) == LARGE && LargeCap(raw) >= n
      ensures old(Type(raw)) == LARGE && n <= old(LargeCap(raw)) ==> raw == old(raw)
      ensures n > SMALL_CAPACITY && !(old(Type(raw)) == LARGE && n <= old(LargeCap(raw))) ==>
        LargeCap(raw) == ((if n > old(Size(raw)) then n else old(Size(raw))) + 16) / 16 * 16 - 1
      ensures OnlyOwn(old(heap.cells), old(Owned()), heap.cells, Owned())
    {
      hide IsString, CharsOf, BeforeAligned;
      OwnNothing(heap.cells, Owned());
      if n <= SMALL_CAPACITY {
        return;
      }
      if Type(raw) == LARGE && n <= LargeCap(raw) {
        return;
      }
      var size := Size(raw);
      var newCap := RoundUp(if n > size then n else size);
      if Type(raw) == LARGE {
        ReserveLarge(size, newCap);
      } else {
        ReserveNew(size, newCap);
      }
    }

    /** TF_align16(n + 1) - 1 */
    method RoundUp(n: nat) returns (cap: nat)
      requires SMALL_CAPACITY < n < SIZE_LIMIT
      ensures n <= cap && IsCap(cap) && cap == (n + 16) / 16 * 16 - 1
    {
      AlignRules(n + 1);
      RoundedUp(n);
      hide BeforeAligned;
      cap := BeforeAligned(n + 1);
    }

    /** A LARGE string gets a larger block. */
    method ReserveLarge(size: nat, newCap: nat)
      requires Valid() && Type(raw) == LARGE && size == Size(raw) <= newCap && IsCap(newCap)
      modifies this, heap
      ensures Valid() && HasSpace() && Contents() == old(Contents()) && Type(raw) == LARGE && LargeCap(raw) == newCap
      ensures OnlyOwn(old(heap.cells), old(Owned()), heap.cells, Owned())
    {
      hide Get16, Get32, Get64, PutLarge;
      ghost var block := Block();
      assert block[size] == 0 && Contents() == block[..size];
      var p := Reallocate(heap, LargePtr(raw), newCap + 1);
      assert heap.cells[p][..size + 1] == block[..size + 1];
      assert heap.cells[p][..size] == heap.cells[p][..size + 1][..size] && heap.cells[p][size] == heap.cells[p][..size + 1][size];
      hide IsString, CharsOf, OnlyOwn, IsCap;
      BecomeLarge(size, newCap, p);
    }

    /** A SMALL string or a VIEW gets a block of its own. */
    method ReserveNew(size: nat, newCap: nat)
      requires Valid() && Type(raw) != LARGE && heap.HasRoom() && size == Size(raw) <= newCap && IsCap(newCap)
      modifies this, heap
      ensures Valid() && HasSpace() && Contents() == old(Contents()) && Type(raw) == LARGE && LargeCap(raw) == newCap
      ensures OnlyOwn(old(heap.cells), old(Owned()), heap.cells, Owned())
    {
      assert size < SIZE_LIMIT && newCap < TWO_64 && newCap != Capacity(raw);
      hide Get16, Get32, Get64, PutLarge, IsString, CharsOf, IsCap;
      ghost var s := Contents();
      var p := NewBlock(size, newCap);
      assert heap.cells[p][..size] == s[..size] == s;
      heap.Write(p, heap.cells[p][size := 0]);
      BecomeLarge(size, newCap, p);
    }

    /** The fields of a LARGE string whose block is filled already. */
    method BecomeLarge(size: nat, cap: nat, p: nat)
      requires size < SIZE_LIMIT && size <= cap && IsCap(cap) && 0 < p < TWO_64
      requires p in heap.cells && |heap.cells[p]| == cap + 1 && heap.cells[p][size] == 0
      modifies this`raw
      ensures Valid() && Type(raw) == LARGE && LargeCap(raw) == cap && Contents() == heap.cells[p][..size] && Owned() == {p}
    {
      hide Get16, Get32, Get64, PutLarge;
      raw := PutLarge(raw, size, cap, p);
    }

    // ---------------------------------------------------------------- assigning

    method AssignView(src: nat, size: nat)
      requires Valid() && src in views && src < TWO_64 && size <= |views[src]| && size < SIZE_LIMIT
      modifies this, heap
      ensures Valid() && Type(raw) == VIEW && Contents() == views[src][..size] && Owned() == {}
      ensures heap.cells == old(heap.cells) - old(Owned())
    {
      hide Get16, Get32, Get64, PutView;
      Dealloc();
      raw := PutView(raw, size, src);
    }

    /** src is memory that this string does not own. */
    method AppendN(src: Bytes)
      requires Valid() && HasSpace() && |Contents()| + |src| < SIZE_LIMIT
      modifies this, heap
      ensures Valid() && HasSpace() && Contents() == old(Contents()) + src
      ensures OnlyOwn(old(heap.cells), old(Owned()), heap.cells, Owned())
    {
      hide IsString, CharsOf;
      OwnNothing(heap.cells, Owned());
      if |src| == 0 {
        assert Contents() + src == Contents();
        return;
      }
      var dstSize := Size(raw);
      ResizeUninitialized(dstSize + |src|);
      ghost var cells, owned := heap.cells, Owned();
      ghost var grown := Contents();
      Store(dstSize, src);
      assert Overwrite(grown, dstSize, src) == old(Contents()) + src;
      OwnOnly(old(heap.cells), old(Owned()), cells, owned, heap.cells, Owned());
    }

    method Append(src: TString)
      requires Valid() && HasSpace() && src.Valid() && src != this && |Contents()| + |src.Contents()| < SIZE_LIMIT
      modifies this, heap
      ensures Valid() && HasSpace() && Contents() == old(Contents()) + old(src.Contents())
      ensures OnlyOwn(old(heap.cells), old(Owned()), heap.cells, Owned())
    {
      var bytes := src.Read();
      AppendN(bytes);
    }

    method Copy(src: Bytes)
      requires Valid() && HasSpace() && |src| < SIZE_LIMIT
      modifies this, heap
      ensures Valid() && HasSpace() && Contents() == src && Type(raw) != VIEW
      ensures OnlyOwn(old(heap.cells), old(Owned()), heap.cells, Owned())
    {
      hide IsString, CharsOf;
      ResizeUninitialized(|src|);
      if |src| != 0 {
        ghost var cells, owned := heap.cells, Owned();
        Store(0, src);
        OwnOnly(old(heap.cells), old(Owned()), cells, owned, heap.cells, Owned());
      }
    }

    /** Copies a SMALL or LARGE string; a VIEW becomes another view of the same memory. */
    method Assign(src: TString)
      requires Valid() && src.Valid() && src.heap == heap && src.views == views && HasSpace()
      requires src == this || src.Owned() !! Owned()
      modifies this, heap
      ensures Valid() && src.Valid() && src.Contents() == old(src.Contents()) && src.raw == old(src.raw)
      ensures Contents() == src.Contents() && (src == this || Owned() !! src.Owned())
      ensures OnlyOwn(old(heap.cells), old(Owned()), heap.cells, Owned())
    {
      OwnNothing(heap.cells, Owned());
      if src == this {
        return;
      }
      Dealloc();
      if Type(src.raw) == SMALL || Type(src.raw) == VIEW {
        raw := src.raw;
      } else {
        ghost var cells := heap.cells;
        CopyFrom(src);
        OwnOnly(old(heap.cells), old(Owned()), cells, {}, heap.cells, Owned());
      }
    }

    method CopyFrom(src: TString)
      requires Valid() && HasSpace() && src.Valid() && src != this && src.heap == heap && Owned() == {}
      modifies this, heap
      ensures Valid() && src.Valid() && src.Contents() == old(src.Contents()) && Contents() == src.Contents()
      ensures Owned() !! src.Owned()
      ensures OnlyOwn(old(heap.cells), {}, heap.cells, Owned())
    {
      hide CharsOf, IsString;
      var bytes := src.Read();
      Copy(bytes);
      assert src.Block() == old(src.Block());
    }

    /** The source of a move is left empty if it was LARGE, and as it was otherwise. */
    method Move(src: TString)
      requires Valid() && src.Valid() && src.heap == heap && src.views == views
      requires src == this || src.Owned() !! Owned()
      modifies this, src, heap
      ensures Valid() && Contents() == old(src.Contents()) && Owned() == old(src.Owned())
      ensures src != this ==> src.Valid() && src.Owned() == {}
      ensures src != this ==> src.Contents() == if old(Type(src.raw)) == LARGE then [] else old(src.Contents())
      ensures src == this ==> heap.cells == old(heap.cells)
      ensures src != this ==> heap.cells == old(heap.cells) - old(Owned())
    {
      if src == this {
        return;
      }
      hide IsString, CharsOf;
      Dealloc();
      assert src.Block() == old(src.Block());
      raw := src.raw;
      if Type(src.raw) == LARGE {
        src.Init();
      }
    }

    method Swap(str: TString)
      requires Valid() && str.Valid() && str.heap == heap && str.views == views
      modifies this, str
      ensures Valid() && Contents() == old(str.Contents()) && Owned() == old(str.Owned())
      ensures str.Valid() && str.Contents() == old(Contents()) && str.Owned() == old(Owned())
    {
      var raw0 := raw;
      raw := str.raw;
      str.raw := raw0;
    }

    // ---------------------------------------------------------------- editing

    method AppendChars(n: nat, c: byte)
      requires Valid() && HasSpace() && |Contents()| + n < SIZE_LIMIT
      modifies this, heap
      ensures Valid() && HasSpace() && Contents() == old(Contents()) + seq(n, _ => c)
      ensures OnlyOwn(old(heap.cells), old(Owned()), heap.cells, Owned())
    {
      Resize(Size(raw) + n, c);
      assert n == 0 ==> old(Contents()) + seq(n, _ => c) == old(Contents());
    }

    method Erase(pos: nat, len: nat)
      requires Valid() && HasSpace() && pos + len <= |Contents()|
      modifies this, heap
      ensures Valid() && HasSpace() && Contents() == old(Contents())[..pos] + old(Contents())[pos + len..]
      ensures OnlyOwn(old(heap.cells), old(Owned()), heap.cells, Owned())
    {
      hide IsString, CharsOf, ResizedCapacity;
      ghost var s := Contents();
      MakeMutable();
      ghost var cells1, owned1 := heap.cells, Owned();
      var size := Size(raw);
      var data := Read();
      Store(pos, data[pos + len..]);
      ghost var cells2, owned2 := heap.cells, Owned();
      Resize(size - len, 0);
      assert Overwrite(s, pos, s[pos + len..])[..size - len] == s[..pos] + s[pos + len..];
      OwnOnly(cells1, owned1, cells2, owned2, heap.cells, Owned());
      OwnOnly(old(heap.cells), old(Owned()), cells1, owned1, heap.cells, Owned());
    }

    /** The middle of both inserts: room for n bytes at pos. */
    method OpenGap(pos: nat, n: nat)
      requires Valid() && HasSpace() && pos <= |Contents()| && |Contents()| + n < SIZE_LIMIT
      modifies this, heap
      ensures Valid() && HasSpace() && Type(raw) != VIEW && |Contents()| == |old(Contents())| + n
      ensures Contents()[..pos] == old(Contents())[..pos] && Contents()[pos + n..] == old(Contents())[pos..]
      ensures OnlyOwn(old(heap.cells), old(Owned()), heap.cells, Owned())
    {
      hide IsString, CharsOf, Overwrite, OnlyOwn, ResizedCapacity;
      ghost var s := Contents();
      var origSize := Size(raw);
      ResizeUninitialized(origSize + n);
      ghost var cells, owned := heap.cells, Owned();
      var data := Read();
      assert data[pos..origSize] == s[pos..] by { assert data[..origSize] == s; }
      assert data[..pos] == s[..pos] by { assert data[..origSize] == s; }
      Store(pos + n, data[pos..origSize]);
      OwnOnly(old(heap.cells), old(Owned()), cells, owned, heap.cells, Owned());
    }

    /** A gap of the right size is opened and filled. */
    method FillGap(pos: nat, bytes: Bytes)
      requires Valid() && HasSpace() && pos <= |Contents()| && |Contents()| + |bytes| < SIZE_LIMIT
      modifies this, heap
      ensures Valid() && HasSpace() && Contents() == old(Contents())[..pos] + bytes + old(Contents())[pos..]
      ensures OnlyOwn(old(heap.cells), old(Owned()), heap.cells, Owned())
    {
      hide IsString, CharsOf;
      ghost var s := Contents();
      OpenGap(pos, |bytes|);
      ghost var cells, owned, gap := heap.cells, Owned(), Contents();
      Store(pos, bytes);
      GapFilled(s, gap, pos, bytes);
      hide Overwrite, OnlyOwn;
      OwnOnly(old(heap.cells), old(Owned()), cells, owned, heap.cells, Owned());
    }

    method Insert(pos: nat, str: TString, subpos: nat, sublen: nat)
      requires Valid() && HasSpace() && pos <= |Contents()| && str != this && str.Valid()
      requires subpos + sublen <= |str.Contents()| && |Contents()| + sublen < SIZE_LIMIT
      modifies this, heap
      ensures Valid() && HasSpace()
      ensures Contents() ==
        old(Contents())[..pos] + old(str.Contents())[subpos..subpos + sublen] + old(Contents())[pos..]
      ensures OnlyOwn(old(heap.cells), old(Owned()), heap.cells, Owned())
    {
      hide IsString, CharsOf;
      var bytes := str.Read();
      FillGap(pos, bytes[subpos..subpos + sublen]);
    }

    method InsertChars(pos: nat, n: nat, c: byte)
      requires Valid() && HasSpace() && pos <= |Contents()| && |Contents()| + n < SIZE_LIMIT
      modifies this, heap
      ensures Valid() && HasSpace() && Contents() == old(Contents())[..pos] + seq(n, _ => c) + old(Contents())[pos..]
      ensures OnlyOwn(old(heap.cells), old(Owned()), heap.cells, Owned())
    {
      hide IsString, CharsOf;
      FillGap(pos, seq(n, _ => c));
    }
  }

  lemma GapFilled(s: Bytes, gap: Bytes, pos: nat, bytes: Bytes)
    requires pos <= |s| && |gap| == |s| + |bytes| && gap[..pos] == s[..pos] && gap[pos + |bytes|..] == s[pos..]
    ensures Overwrite(gap, pos, bytes) == s[..pos] + bytes + s[pos..]
  {}

  /** std::string::resize */
  function Resized(s: Bytes, n: nat, c: byte): (r: Bytes)
    ensures |r| == n
  {
    if n <= |s| then s[..n] else s + seq(n - |s|, _ => c)
  }

  /** What is there is kept as far as it fits, and the fill byte makes up the rest. */
  lemma ResizedMeans(s: Bytes, n: nat, c: byte, i: nat)
    requires i < n
    ensures |Resized(s, n, c)| == n && Resized(s, n, c)[i] == if i < |s| then s[i] else c
  {}

  /** An empty string with room for n bytes. */
  method Reserved(h: Heap<Bytes>, views: map<nat, Bytes>, n: nat) returns (r: TString)
    requires h.HasRoom() && n < SIZE_LIMIT
    modifies h
    ensures fresh(r) && r.heap == h && r.views == views && r.Valid() && r.HasSpace() && r.Contents() == []
    ensures OnlyOwn(old(h.cells), {}, h.cells, r.Owned())
  {
    r := new TString(h, views);
    r.Reserve(n);
  }

  /** append, with another string looking on. */
  method AppendBeside(r: TString, src: TString, other: TString)
    requires r.Valid() && r.HasSpace() && src != r && other != r && src.heap == other.heap == r.heap
    requires src.Valid() && other.Valid() && r.Owned() !! src.Owned() && r.Owned() !! other.Owned()
    requires |r.Contents()| + |src.Contents()| < SIZE_LIMIT
    modifies r, r.heap
    ensures r.Valid() && r.HasSpace() && r.Contents() == old(r.Contents()) + old(src.Contents())
    ensures src.Valid() && src.Contents() == old(src.Contents()) && other.Valid() && other.Contents() == old(other.Contents())
    ensures r.Owned() !! src.Owned() && r.Owned() !! other.Owned()
    ensures OnlyOwn(old(r.heap.cells), old(r.Owned()), r.heap.cells, r.Owned())
  {
    hide IsString, CharsOf;
    r.Append(src);
    assert src.Block() == old(src.Block()) && other.Block() == old(other.Block());
  }

  /** operator+ */
  method Concat(a: TString, b: TString) returns (r: TString)
    requires a.Valid() && b.Valid() && a.heap == b.heap && a.views == b.views && a.heap.HasRoom()
    requires |a.Contents()| + |b.Contents()| < SIZE_LIMIT
    modifies a.heap
    ensures fresh(r) && r.heap == a.heap && r.Valid() && r.Contents() == old(a.Contents()) + old(b.Contents())
    ensures OnlyOwn(old(a.heap.cells), {}, a.heap.cells, r.Owned())
    ensures a.Valid() && a.Contents() == old(a.Contents()) && b.Valid() && b.Contents() == old(b.Contents())
  {
    hide IsString, CharsOf;
    r := Reserved(a.heap, a.views, Size(a.raw) + Size(b.raw));
    assert a.Block() == old(a.Block()) && b.Block() == old(b.Block());
    ghost var cells, owned := r.heap.cells, r.Owned();
    AppendBoth(r, a, b);
    OwnOnly(old(a.heap.cells), {}, cells, owned, r.heap.cells, r.Owned());
  }

  method AppendBoth(r: TString, a: TString, b: TString)
    requires r.Valid() && r.HasSpace() && r.Contents() == [] && a != r && b != r && a.heap == b.heap == r.heap
    requires a.Valid() && b.Valid() && r.Owned() !! a.Owned() && r.Owned() !! b.Owned()
    requires |a.Contents()| + |b.Contents()| < SIZE_LIMIT
    modifies r, r.heap
    ensures r.Valid() && r.Contents() == old(a.Contents()) + old(b.Contents())
    ensures a.Valid() && a.Contents() == old(a.Contents()) && b.Valid() && b.Contents() == old(b.Contents())
    ensures OnlyOwn(old(r.heap.cells), old(r.Owned()), r.heap.cells, r.Owned())
  {
    hide IsString, CharsOf, OnlyOwn;
    AppendBeside(r, a, b);
    ghost var cells, owned := r.heap.cells, r.Owned();
    AppendBeside(r, b, a);
    OwnOnly(old(r.heap.cells), old(r.Owned()), cells, owned, r.heap.cells, r.Owned());
  }
}
