/**
 * Runs of operations on any number of tstrings that share one free store. A run refines plain byte sequences, and
 * throughout it every block is owned by exactly one string: none is leaked or freed twice.
 */
module TStringWorld {
  import opened Basics
  import opened Memory
  import opened Ownership
  import opened TString
  import opened TStringRep

  /** One variable: not alive, moved from, or holding a string. */
  datatype Slot = Dead | Moved | Live(s: Bytes)

  /** The copy and move constructors of tstring are Create followed by Assign or Move. */
  datatype Op =
    | Create(at: nat)
    | Destroy(at: nat)
    | Move(at: nat, from: nat)
    | Swap(at: nat, from: nat)
    | Assign(at: nat, from: nat)
    | Set(at: nat, bytes: Bytes)
    | View(at: nat, src: nat, size: nat)
    | Resize(at: nat, n: nat, c: byte)
    | Reserve(at: nat, n: nat)
    | Append(at: nat, bytes: Bytes)
    | AppendFrom(at: nat, from: nat)
    | Erase(at: nat, pos: nat, len: nat)
    | Insert(at: nat, pos: nat, from: nat, subpos: nat, sublen: nat)
    | InsertChars(at: nat, pos: nat, n: nat, c: byte)

  predicate IsEdit(op: Op) {
    !op.Create? && !op.Destroy? && !op.Move? && !op.Swap?
  }

  predicate ReadsOther(op: Op) {
    op.Assign? || op.AppendFrom? || op.Insert?
  }

  /** The callers' obligations for an operation on one string, perhaps with another as its source. */
  predicate EditAllowed(views: map<nat, Bytes>, slots: seq<Slot>, op: Op)
    requires IsEdit(op)
  {
    && op.at < |slots| && !slots[op.at].Dead?
    && (ReadsOther(op) ==> op.from < |slots| && slots[op.from].Live?)
    && (!op.Assign? && !op.Set? && !op.View? ==> slots[op.at].Live?)
    && match op
       case Assign(_, _) => true
       case Set(_, bytes) => |bytes| < SIZE_LIMIT
       case View(_, src, size) => src in views && src < TWO_64 && size <= |views[src]| && size < SIZE_LIMIT
       case Resize(_, n, _) => n < SIZE_LIMIT
       case Reserve(_, n) => n < SIZE_LIMIT
       case Append(at, bytes) => |slots[at].s| + |bytes| < SIZE_LIMIT
       case AppendFrom(at, from) => from != at && |slots[at].s| + |slots[from].s| < SIZE_LIMIT
       case Erase(at, pos, len) => pos + len <= |slots[at].s|
       case Insert(at, pos, from, subpos, sublen) =>
         from != at && pos <= |slots[at].s| && subpos + sublen <= |slots[from].s| && |slots[at].s| + sublen < SIZE_LIMIT
       case InsertChars(at, pos, n, _) => pos <= |slots[at].s| && |slots[at].s| + n < SIZE_LIMIT
  }

  function Edited(views: map<nat, Bytes>, slots: seq<Slot>, op: Op): Bytes
    requires IsEdit(op) && EditAllowed(views, slots, op)
  {
    match op
    case Assign(_, from) => slots[from].s
    case Set(_, bytes) => bytes
    case View(_, src, size) => views[src][..size]
    case Resize(at, n, c) => Resized(slots[at].s, n, c)
    case Reserve(at, _) => slots[at].s
    case Append(at, bytes) => slots[at].s + bytes
    case AppendFrom(at, from) => slots[at].s + slots[from].s
    case Erase(at, pos, len) => slots[at].s[..pos] + slots[at].s[pos + len..]
    case Insert(at, pos, from, subpos, sublen) =>
      slots[at].s[..pos] + slots[from].s[subpos..subpos + sublen] + slots[at].s[pos..]
    case InsertChars(at, pos, n, c) => slots[at].s[..pos] + seq(n, _ => c) + slots[at].s[pos..]
  }

  predicate Allowed(views: map<nat, Bytes>, slots: seq<Slot>, op: Op) {
    && op.at < |slots|
    && match op
       case Create(at) => slots[at].Dead?
       case Destroy(at) => !slots[at].Dead?
       case Move(at, from) => !slots[at].Dead? && from < |slots| && slots[from].Live? && from != at
       case Swap(at, from) => slots[at].Live? && from < |slots| && slots[from].Live? && from != at
       case _ => EditAllowed(views, slots, op)
  }

  function Apply(views: map<nat, Bytes>, slots: seq<Slot>, op: Op): (r: seq<Slot>)
    requires Allowed(views, slots, op)
    ensures |r| == |slots|
  {
    match op
    case Create(at) => slots[at := Live([])]
    case Destroy(at) => slots[at := Dead]
    case Move(at, from) => slots[at := slots[from]][from := Moved]
    case Swap(at, from) => slots[at := slots[from]][from := slots[at]]
    case _ => slots[op.at := Live(Edited(views, slots, op))]
  }

  predicate AllAllowed(views: map<nat, Bytes>, slots: seq<Slot>, ops: seq<Op>)
    decreases |ops|
  {
    ops == [] || (Allowed(views, slots, ops[0]) && AllAllowed(views, Apply(views, slots, ops[0]), ops[1..]))
  }

  function ApplyAll(views: map<nat, Bytes>, slots: seq<Slot>, ops: seq<Op>): (r: seq<Slot>)
    requires AllAllowed(views, slots, ops)
    ensures |r| == |slots|
    decreases |ops|
  {
    if ops == [] then slots else ApplyAll(views, Apply(views, slots, ops[0]), ops[1..])
  }

  // What an edit does, byte by byte.

  /** Byte i after an edit that lengthens or replaces a string. */
  lemma EditedAt(views: map<nat, Bytes>, slots: seq<Slot>, op: Op, i: nat)
    requires IsEdit(op) && EditAllowed(views, slots, op) && i < |Edited(views, slots, op)|
    ensures var r := Edited(views, slots, op);
      match op
      case Assign(_, from) => |r| == |slots[from].s| && r[i] == slots[from].s[i]
      case Set(_, bytes) => |r| == |bytes| && r[i] == bytes[i]
      case View(_, src, size) => |r| == size && r[i] == views[src][i]
      case Resize(at, n, c) => |r| == n && r[i] == if i < |slots[at].s| then slots[at].s[i] else c
      case Reserve(at, _) => |r| == |slots[at].s| && r[i] == slots[at].s[i]
      case Append(at, bytes) =>
        var s := slots[at].s;
        |r| == |s| + |bytes| && r[i] == if i < |s| then s[i] else bytes[i - |s|]
      case AppendFrom(at, from) =>
        var s, b := slots[at].s, slots[from].s;
        |r| == |s| + |b| && r[i] == if i < |s| then s[i] else b[i - |s|]
      case Erase(at, pos, len) =>
        var s := slots[at].s;
        |r| == |s| - len && r[i] == if i < pos then s[i] else s[i + len]
      case Insert(at, pos, from, subpos, sublen) =>
        var s := slots[at].s;
        |r| == |s| + sublen
        && r[i] == if i < pos then s[i] else if i < pos + sublen then slots[from].s[subpos + (i - pos)] else s[i - sublen]
      case InsertChars(at, pos, n, c) =>
        var s := slots[at].s;
        |r| == |s| + n && r[i] == if i < pos then s[i] else if i < pos + n then c else s[i - n]
  {}

  lemma OneByOne(views: map<nat, Bytes>, slots: seq<Slot>, first: Op, second: Op)
    requires Allowed(views, slots, first) && Allowed(views, Apply(views, slots, first), second)
    ensures AllAllowed(views, slots, [first, second])
    ensures ApplyAll(views, slots, [first, second]) == Apply(views, Apply(views, slots, first), second)
  {
    var after := Apply(views, slots, first);
    assert [first, second][1..] == [second] && [second][1..] == [];
    assert AllAllowed(views, Apply(views, after, second), []);
    assert AllAllowed(views, after, [second]) && ApplyAll(views, after, [second]) == Apply(views, after, second);
  }

  /** Erasing what was inserted gives the string back. */
  lemma InsertThenErase(views: map<nat, Bytes>, slots: seq<Slot>, at: nat, pos: nat, from: nat, subpos: nat, sublen: nat)
    requires Allowed(views, slots, Insert(at, pos, from, subpos, sublen))
    ensures var ops := [Insert(at, pos, from, subpos, sublen), Erase(at, pos, sublen)];
      AllAllowed(views, slots, ops) && ApplyAll(views, slots, ops) == slots
  {
    var first, second := Insert(at, pos, from, subpos, sublen), Erase(at, pos, sublen);
    var s, r := slots[at].s, Edited(views, slots, first);
    assert r[..pos] + r[pos + sublen..] == s;
    OneByOne(views, slots, first, second);
  }

  /** Erasing what was appended gives the string back. */
  lemma AppendThenErase(views: map<nat, Bytes>, slots: seq<Slot>, at: nat, bytes: Bytes)
    requires Allowed(views, slots, Append(at, bytes))
    ensures var ops := [Append(at, bytes), Erase(at, |slots[at].s|, |bytes|)];
      AllAllowed(views, slots, ops) && ApplyAll(views, slots, ops) == slots
  {
    var first, second := Append(at, bytes), Erase(at, |slots[at].s|, |bytes|);
    var s, r := slots[at].s, Edited(views, slots, first);
    assert r[..|s|] + r[|s| + |bytes|..] == s;
    OneByOne(views, slots, first, second);
  }

  /** Swapping twice changes nothing. */
  lemma SwapTwice(views: map<nat, Bytes>, slots: seq<Slot>, at: nat, from: nat)
    requires Allowed(views, slots, Swap(at, from))
    ensures AllAllowed(views, slots, [Swap(at, from), Swap(at, from)])
    ensures ApplyAll(views, slots, [Swap(at, from), Swap(at, from)]) == slots
    ensures Apply(views, slots, Swap(at, from))[at] == slots[from] && Apply(views, slots, Swap(at, from))[from] == slots[at]
  {
    OneByOne(views, slots, Swap(at, from), Swap(at, from));
  }

  /** Moving a string away and back. */
  lemma MoveAndBack(views: map<nat, Bytes>, slots: seq<Slot>, at: nat, from: nat)
    requires Allowed(views, slots, Move(at, from))
    ensures AllAllowed(views, slots, [Move(at, from), Move(from, at)])
    ensures ApplyAll(views, slots, [Move(at, from), Move(from, at)]) == slots[at := Moved]
  {
    OneByOne(views, slots, Move(at, from), Move(from, at));
  }

  /** The string is what the slot says. */
  ghost predicate Represents(s: TString, slot: Slot)
    reads s, s.heap
  {
    match slot
    case Dead => false
    case Moved => s.Valid() && s.Owned() == {}
    case Live(bytes) => s.Valid() && s.Contents() == bytes
  }

  /** An edit of one string; `src` is the other string that some edits read. */
  method EditString(s: TString, src: TString, op: Op, ghost slots: seq<Slot>)
    requires IsEdit(op) && EditAllowed(s.views, slots, op) && s.heap.HasRoom()
    requires Represents(s, slots[op.at])
    requires ReadsOther(op) ==>
      && Represents(src, slots[op.from]) && src.heap == s.heap && src.views == s.views
      && (src == s <==> op.from == op.at) && (src == s || src.Owned() !! s.Owned())
    modifies s, s.heap
    ensures Represents(s, Live(Edited(s.views, slots, op)))
    ensures OnlyOwn(old(s.heap.cells), old(s.Owned()), s.heap.cells, s.Owned())
  {
    hide IsString, CharsOf, OnlyOwn;
    match op
    case Assign(_, _) => s.Assign(src);
    case Set(_, bytes) => s.Copy(bytes);
    case View(_, at, size) => EditView(s, at, size);
    case Resize(_, n, c) => s.Resize(n, c);
    case Reserve(_, n) => s.Reserve(n);
    case Append(_, bytes) => s.AppendN(bytes);
    case AppendFrom(_, _) => s.Append(src);
    case Erase(_, pos, len) => s.Erase(pos, len);
    case Insert(_, pos, _, subpos, sublen) => s.Insert(pos, src, subpos, sublen);
    case InsertChars(_, pos, n, c) => s.InsertChars(pos, n, c);
  }

  method EditView(s: TString, src: nat, size: nat)
    requires s.Valid() && src in s.views && src < TWO_64 && size <= |s.views[src]| && size < SIZE_LIMIT
    modifies s, s.heap
    ensures s.Valid() && s.Contents() == s.views[src][..size]
    ensures OnlyOwn(old(s.heap.cells), old(s.Owned()), s.heap.cells, s.Owned())
  {
    Freed(s.heap.cells, s.Owned());
    s.AssignView(src, size);
  }

  class World {
    const heap: Heap<Bytes>
    const views: map<nat, Bytes>
    var strings: seq<TString?>
    ghost var slots: seq<Slot>
    ghost var owners: seq<set<nat>>

    /** Variable i is what the slot says, and owns these cells. */
    ghost predicate Is(i: nat, slot: Slot, owned: set<nat>)
      requires i < |strings|
      reads this`strings, heap, if strings[i] == null then {} else {strings[i]}
    {
      if strings[i] == null then slot.Dead? && owned == {}
      else
        && strings[i].heap == heap && strings[i].views == views
        && Represents(strings[i], slot) && strings[i].Owned() == owned
    }

    ghost predicate Valid()
      reads this, heap, set i | 0 <= i < |strings| && strings[i] != null :: strings[i]
    {
      && |strings| == |slots| == |owners| < TWO_63
      && Distinct()
      && (forall i | 0 <= i < |strings| :: Is(i, slots[i], owners[i]))
      && Partitioned(heap.cells, owners)
    }

    ghost predicate Distinct()
      reads this
    {
      forall i, j | 0 <= i < j < |strings| && strings[i] != null :: strings[i] != strings[j]
    }

    constructor (variables: nat, external: map<nat, Bytes>)
      requires variables < TWO_63
      ensures Valid() && slots == seq(variables, _ => Dead) && views == external && fresh(heap)
    {
      heap := new Heap<Bytes>();
      views := external;
      strings := seq(variables, _ => null);
      slots := seq(variables, _ => Dead);
      owners := seq(variables, _ => {});
    }

    /** The strings are those of an earlier moment, or were allocated since. */
    twostate predicate StillMine(new before: seq<TString?>)
      reads this
    {
      |strings| == |before| && forall i | 0 <= i < |strings| && strings[i] != null :: strings[i] == before[i] || fresh(strings[i])
    }

    /** Records what the variables have become. */
    ghost method Settle(slots': seq<Slot>, owners': seq<set<nat>>)
      requires |strings| == |slots'| == |owners'| < TWO_63 && Distinct() && Partitioned(heap.cells, owners')
      requires forall i | 0 <= i < |strings| :: Is(i, slots'[i], owners'[i])
      modifies this`slots, this`owners
      ensures Valid() && slots == slots'
    {
      hide Represents, Partitioned;
      slots := slots';
      owners := owners';
    }

    /** An operation of the owner `at` leaves variable j as it was. */
    twostate lemma OtherKept(new at: nat, new j: nat, new owned: set<nat>)
      requires old(Valid()) && at < |strings| && j < |strings| == |old(strings)| && j != at
      requires strings[j] == old(strings[j]) && (strings[j] != null ==> unchanged(strings[j]))
      requires OnlyOwn(old(heap.cells), old(owners[at]), heap.cells, owned)
      ensures Is(j, old(slots[j]), old(owners[j]))
    {
      hide IsString, CharsOf;
      Apart(old(heap.cells), old(owners), at);
      hide Partitioned;
      assert old(Is(j, slots[j], owners[j]));
      if strings[j] != null {
        assert strings[j].Block() == old(strings[j].Block());
      }
    }

    twostate lemma OthersKept(new at: nat, new owned: set<nat>)
      requires old(Valid()) && at < |strings| && strings == old(strings)
      requires forall j | 0 <= j < |strings| && j != at && strings[j] != null :: unchanged(strings[j])
      requires OnlyOwn(old(heap.cells), old(owners[at]), heap.cells, owned)
      ensures forall j | 0 <= j < |strings| && j != at :: Is(j, old(slots[j]), old(owners[j]))
    {
      hide Is, Partitioned;
      forall j | 0 <= j < |strings| && j != at ensures Is(j, old(slots[j]), old(owners[j])) {
        OtherKept(at, j, owned);
      }
    }

    method Edit(op: Op)
      requires Valid() && IsEdit(op) && Allowed(views, slots, op)
      modifies this, heap, set i | 0 <= i < |strings| && strings[i] != null :: strings[i]
      ensures Valid() && slots == Apply(views, old(slots), op) && StillMine(old(strings))
    {
      hide Partitioned, Represents, OnlyOwn;
      var at := op.at;
      EditInPlace(op);
      ghost var owned := strings[at].Owned();
      PartitionKept(old(heap.cells), owners, at, heap.cells, owned);
      hide Is, EditAllowed, Edited;
      Settle(slots[at := Live(Edited(views, slots, op))], owners[at := owned]);
    }

    /** The edit itself, before it is recorded. */
    method EditInPlace(op: Op)
      requires Valid() && IsEdit(op) && Allowed(views, slots, op)
      modifies heap, set i | 0 <= i < |strings| && strings[i] != null :: strings[i]
      ensures strings[op.at] != null && Is(op.at, Live(Edited(views, slots, op)), strings[op.at].Owned())
      ensures OnlyOwn(old(heap.cells), owners[op.at], heap.cells, strings[op.at].Owned())
      ensures forall j | 0 <= j < |strings| && j != op.at :: Is(j, slots[j], owners[j])
    {
      hide IsString, CharsOf, Edited;
      var at := op.at;
      var from := if ReadsOther(op) then op.from else at;
      assert Is(at, slots[at], owners[at]) && Is(from, slots[from], owners[from]);
      Apart(heap.cells, owners, at);
      RoomForAll(heap, owners);
      hide EditAllowed, Partitioned;
      EditString(strings[at], strings[from], op, slots);
      OthersKept(at, strings[at].Owned());
    }

    method Make(op: Op)
      requires Valid() && op.Create? && Allowed(views, slots, op)
      modifies this
      ensures Valid() && slots == Apply(views, old(slots), op) && StillMine(old(strings))
    {
      hide IsString, CharsOf;
      var at := op.at;
      assert Is(at, slots[at], owners[at]);
      hide Partitioned;
      var s := new TString(heap, views);
      assert Represents(s, Live([])) && s.Owned() == {};
      hide Represents;
      strings := strings[at := s];
      assert forall j | 0 <= j < |strings| && j != at :: old(Is(j, slots[j], owners[j]));
      assert owners[at := {}] == owners;
      Settle(slots[at := Live([])], owners);
    }

    method Unmake(op: Op)
      requires Valid() && op.Destroy? && Allowed(views, slots, op)
      modifies this, heap, set i | 0 <= i < |strings| && strings[i] != null :: strings[i]
      ensures Valid() && slots == Apply(views, old(slots), op) && StillMine(old(strings))
    {
      hide IsString, CharsOf, Partitioned;
      var at := op.at;
      assert Is(at, slots[at], owners[at]);
      Freed(heap.cells, owners[at]);
      PartitionKept(heap.cells, owners, at, heap.cells - owners[at], {});
      strings[at].Dealloc();
      OthersKept(at, {});
      hide Represents;
      strings := strings[at := null];
      assert forall j | 0 <= j < |strings| && j != at :: Is(j, slots[j], owners[j]);
      Settle(slots[at := Dead], owners[at := {}]);
    }

    method MoveOver(op: Op)
      requires Valid() && op.Move? && Allowed(views, slots, op)
      modifies this, heap, set i | 0 <= i < |strings| && strings[i] != null :: strings[i]
      ensures Valid() && slots == Apply(views, old(slots), op) && StillMine(old(strings))
    {
      hide Partitioned, Represents;
      var at, from := op.at, op.from;
      Freed(heap.cells, owners[at]);
      PartitionKept(heap.cells, owners, at, heap.cells - owners[at], {});
      PartitionMoved(heap.cells - owners[at], owners[at := {}], at, from);
      MovePair(at, from);
      hide Is;
      assert owners[at := {}][at := owners[from]][from := {}] == owners[at := owners[from]][from := {}];
      Settle(slots[at := slots[from]][from := Moved], owners[at := owners[from]][from := {}]);
    }

    /** The move itself, before it is recorded. */
    method MovePair(at: nat, from: nat)
      requires Valid() && at < |slots| && from < |slots| && at != from && !slots[at].Dead? && slots[from].Live?
      modifies heap, set i | 0 <= i < |strings| && strings[i] != null :: strings[i]
      ensures heap.cells == old(heap.cells) - owners[at]
      ensures Is(at, slots[from], owners[from]) && Is(from, Moved, {})
      ensures forall j | 0 <= j < |strings| && j != at && j != from :: Is(j, slots[j], owners[j])
    {
      hide IsString, CharsOf;
      assert Is(at, slots[at], owners[at]) && Is(from, slots[from], owners[from]);
      Apart(heap.cells, owners, from);
      hide Partitioned;
      strings[at].Move(strings[from]);
      Freed(old(heap.cells), owners[at]);
      forall j | 0 <= j < |strings| && j != at && j != from ensures Is(j, slots[j], owners[j]) {
        OtherKept(at, j, {});
      }
    }

    method Exchange(op: Op)
      requires Valid() && op.Swap? && Allowed(views, slots, op)
      modifies this, heap, set i | 0 <= i < |strings| && strings[i] != null :: strings[i]
      ensures Valid() && slots == Apply(views, old(slots), op) && StillMine(old(strings))
    {
      hide Partitioned, Represents;
      var at, from := op.at, op.from;
      PartitionSwapped(heap.cells, owners, at, from);
      SwapPair(at, from);
      hide Is;
      Settle(slots[at := slots[from]][from := slots[at]], owners[at := owners[from]][from := owners[at]]);
    }

    method SwapPair(at: nat, from: nat)
      requires Valid() && at < |slots| && from < |slots| && at != from && slots[at].Live? && slots[from].Live?
      modifies set i | 0 <= i < |strings| && strings[i] != null :: strings[i]
      ensures Is(at, slots[from], owners[from]) && Is(from, slots[at], owners[at])
      ensures forall j | 0 <= j < |strings| && j != at && j != from :: Is(j, slots[j], owners[j])
    {
      hide IsString, CharsOf, Partitioned;
      assert Is(at, slots[at], owners[at]) && Is(from, slots[from], owners[from]);
      OwnNothing(heap.cells, {});
      strings[at].Swap(strings[from]);
      forall j | 0 <= j < |strings| && j != at && j != from ensures Is(j, slots[j], owners[j]) {
        assert old(Is(j, slots[j], owners[j]));
      }
    }

    method Step(op: Op)
      requires Valid() && Allowed(views, slots, op)
      modifies this, heap, set i | 0 <= i < |strings| && strings[i] != null :: strings[i]
      ensures Valid() && slots == Apply(views, old(slots), op) && StillMine(old(strings))
    {
      if op.Create? {
        Make(op);
      } else if op.Destroy? {
        Unmake(op);
      } else if op.Move? {
        MoveOver(op);
      } else if op.Swap? {
        Exchange(op);
      } else {
        Edit(op);
      }
    }

    /** Any run of allowed operations does to the strings what it does to the plain bytes; at every moment the
        allocated blocks are exactly those of the live strings, each owned once. */
    method Run(ops: seq<Op>)
      requires Valid() && AllAllowed(views, slots, ops)
      modifies this, heap, set i | 0 <= i < |strings| && strings[i] != null :: strings[i]
      ensures Valid() && slots == ApplyAll(views, old(slots), ops) && StillMine(old(strings))
      ensures (forall i | 0 <= i < |slots| :: !slots[i].Live?) ==> heap.cells == map[]
    {
      hide Is, Partitioned, Distinct, Apply, Allowed;
      var i := 0;
      assert ops[0..] == ops;
      while i < |ops|
        invariant i <= |ops| && Valid()
        invariant AllAllowed(views, slots, ops[i..])
        invariant ApplyAll(views, slots, ops[i..]) == ApplyAll(views, old(slots), ops)
        invariant StillMine(old(strings))
      {
        assert ops[i..][0] == ops[i] && ops[i..][1..] == ops[i + 1..];
        Step(ops[i]);
        i := i + 1;
      }
      if forall i | 0 <= i < |slots| :: !slots[i].Live? {
        NothingLive();
      }
    }

    lemma NothingLive()
      requires Valid() && forall i | 0 <= i < |slots| :: !slots[i].Live?
      ensures heap.cells == map[]
    {
      forall j | 0 <= j < |owners| ensures owners[j] == {} {
        assert Is(j, slots[j], owners[j]);
      }
      assert forall p | p in heap.cells :: HasOwner(owners, p);
    }
  }
}
