/**
 * Runs of operations on any number of shapes that share one free store. A run refines a list of plain dims, and
 * throughout it every out-of-line vector is owned by exactly one live shape: none is leaked or freed twice.
 */
module ShapeWorld {
  import opened Basics
  import opened Memory
  import opened Ownership
  import opened ShapeRep
  import opened ShapeSpec
  import opened TensorShape

  /** One variable: not alive, moved from, or holding a shape. */
  datatype Slot = Dead | Moved | Live(contents: Contents, dataType: byte)

  datatype Op =
    | Create(at: nat)
    | CreateDims(at: nat, dims: Dims)
    | Copy(at: nat, from: nat)
    | Move(at: nat, from: nat)
    | Assign(at: nat, from: nat)
    | MoveAssign(at: nat, from: nat)
    | Destroy(at: nat)
    | Clear(at: nat)
    | AddDim(at: nat, size: int)
    | InsertDim(at: nat, d: nat, size: int)
    | SetDim(at: nat, d: nat, size: int)
    | RemoveDims(at: nat, begin: int, end: int)

  predicate IsLiveKnown(slot: Slot) {
    slot.Live? && slot.contents.Known?
  }

  function Inserted(dims: Dims, d: nat, size: int): Dims
    requires d <= |dims|
  {
    dims[..d] + [size] + dims[d..]
  }

  predicate RemoveAllowed(partial: bool, dims: Dims, begin: int, end: int) {
    var b, e := FromEnd(begin, |dims|), FromEnd(end, |dims|);
    0 <= b <= |dims| && 0 <= e <= |dims| && (b < e ==> ValidDims(partial, dims[..b] + dims[e..]))
  }

  /** The operations that change one shape. */
  predicate IsEdit(op: Op) {
    op.Clear? || op.AddDim? || op.InsertDim? || op.SetDim? || op.RemoveDims?
  }

  predicate EditAllowed(partial: bool, slot: Slot, op: Op)
    requires IsEdit(op)
  {
    match op
    case Clear(_) => !slot.Dead?
    case AddDim(_, size) => slot.Live? && IsSize(partial, size) && IsContents(partial, Appended(slot.contents, size))
    case InsertDim(_, d, size) =>
      IsLiveKnown(slot) && d <= |slot.contents.dims| && ValidDims(partial, Inserted(slot.contents.dims, d, size))
    case SetDim(_, d, size) =>
      IsLiveKnown(slot) && d < |slot.contents.dims| && size >= 0 && ValidDims(partial, slot.contents.dims[d := size])
    case RemoveDims(_, begin, end) =>
      slot.Live? && (slot.contents.Known? ==> RemoveAllowed(partial, slot.contents.dims, begin, end))
  }

  function Edited(partial: bool, slot: Slot, op: Op): (r: Slot)
    requires IsEdit(op) && EditAllowed(partial, slot, op)
    ensures r.Live?
  {
    match op
    case Clear(_) => Live(Known([]), 0)
    case AddDim(_, size) => Live(Appended(slot.contents, size), slot.dataType)
    case InsertDim(_, d, size) => Live(Known(Inserted(slot.contents.dims, d, size)), slot.dataType)
    case SetDim(_, d, size) => Live(Known(slot.contents.dims[d := size]), slot.dataType)
    case RemoveDims(_, begin, end) =>
      if slot.contents.UnknownRank? then slot else Live(Known(Removed(slot.contents.dims, begin, end)), slot.dataType)
  }

  /** What C++ and the CHECKs demand of an operation, in terms of the plain contents. */
  predicate Allowed(partial: bool, op: Op, slots: seq<Slot>) {
    && op.at < |slots|
    && ((op.Copy? || op.Move? || op.Assign? || op.MoveAssign?) ==> op.from < |slots| && slots[op.from].Live?)
    && match op
       case Create(at) => slots[at].Dead?
       case CreateDims(at, dims) => slots[at].Dead? && ValidDims(partial, dims)
       case Copy(at, _) => slots[at].Dead?
       case Move(at, _) => slots[at].Dead?
       case Assign(at, _) => !slots[at].Dead?
       case MoveAssign(at, from) => !slots[at].Dead?
       case Destroy(at) => !slots[at].Dead?
       case _ => EditAllowed(partial, slots[op.at], op)
  }

  /** The effect of an operation on the plain contents. */
  function Apply(partial: bool, op: Op, slots: seq<Slot>): (r: seq<Slot>)
    requires Allowed(partial, op, slots)
    ensures |r| == |slots|
  {
    match op
    case Create(at) => slots[at := Live(if partial then UnknownRank else Known([]), 0)]
    case CreateDims(at, dims) => slots[at := Live(Known(dims), 0)]
    case Copy(at, from) => slots[at := slots[from]]
    case Move(at, from) => slots[at := slots[from]][from := Moved]
    case Assign(at, from) => slots[at := slots[from]]
    case MoveAssign(at, from) => slots[at := slots[from]][from := Moved]
    case Destroy(at) => slots[at := Dead]
    case _ => slots[op.at := Edited(partial, slots[op.at], op)]
  }

  predicate AllAllowed(partial: bool, ops: seq<Op>, slots: seq<Slot>)
    decreases |ops|
  {
    ops == [] || (Allowed(partial, ops[0], slots) && AllAllowed(partial, ops[1..], Apply(partial, ops[0], slots)))
  }

  function ApplyAll(partial: bool, ops: seq<Op>, slots: seq<Slot>): (r: seq<Slot>)
    requires AllAllowed(partial, ops, slots)
    ensures |r| == |slots|
    decreases |ops|
  {
    if ops == [] then slots else ApplyAll(partial, ops[1..], Apply(partial, ops[0], slots))
  }

  /** Inserting a dimension and removing it again changes no variable. */
  lemma InsertThenRemove(partial: bool, at: nat, d: nat, size: int, slots: seq<Slot>)
    requires Allowed(partial, InsertDim(at, d, size), slots) && ValidDims(partial, slots[at].contents.dims)
    ensures AllAllowed(partial, [InsertDim(at, d, size), RemoveDims(at, d, d + 1)], slots)
    ensures ApplyAll(partial, [InsertDim(at, d, size), RemoveDims(at, d, d + 1)], slots) == slots
  {
    var insert, remove := InsertDim(at, d, size), RemoveDims(at, d, d + 1);
    var dims := slots[at].contents.dims;
    var more := Inserted(dims, d, size);
    InsertedThenRemoved(dims, d, size);
    assert more[..d] + more[d + 1..] == dims;
    var after := Apply(partial, insert, slots);
    assert Allowed(partial, remove, after) && Apply(partial, remove, after) == slots;
    OneByOne(partial, insert, remove, slots);
  }

  lemma OneByOne(partial: bool, first: Op, second: Op, slots: seq<Slot>)
    requires Allowed(partial, first, slots) && Allowed(partial, second, Apply(partial, first, slots))
    ensures AllAllowed(partial, [first, second], slots)
    ensures ApplyAll(partial, [first, second], slots) == Apply(partial, second, Apply(partial, first, slots))
  {
    var after := Apply(partial, first, slots);
    assert [first, second][1..] == [second] && [second][1..] == [];
    assert AllAllowed(partial, [], Apply(partial, second, after));
    assert AllAllowed(partial, [second], after) && ApplyAll(partial, [second], after) == Apply(partial, second, after);
  }

  /** Adding a dimension and removing the last one again changes no variable. */
  lemma AddThenRemove(partial: bool, at: nat, size: int, slots: seq<Slot>)
    requires Allowed(partial, AddDim(at, size), slots) && IsLiveKnown(slots[at]) && ValidDims(partial, slots[at].contents.dims)
    ensures AllAllowed(partial, [AddDim(at, size), RemoveDims(at, -2, -1)], slots)
    ensures ApplyAll(partial, [AddDim(at, size), RemoveDims(at, -2, -1)], slots) == slots
  {
    var add, remove := AddDim(at, size), RemoveDims(at, -2, -1);
    var dims := slots[at].contents.dims;
    LastRemoved(dims + [size], 1);
    assert (dims + [size])[..|dims|] == dims && (dims + [size])[..|dims|] + (dims + [size])[|dims| + 1..] == dims;
    var after := Apply(partial, add, slots);
    assert Allowed(partial, remove, after) && Apply(partial, remove, after) == slots;
    OneByOne(partial, add, remove, slots);
  }

  /** Dimension k after an edit, and the data type: only Clear resets it. */
  lemma EditedAt(partial: bool, slot: Slot, op: Op, k: nat)
    requires IsEdit(op) && EditAllowed(partial, slot, op) && IsLiveKnown(slot)
    ensures var r := Edited(partial, slot, op);
      r.contents.Known? && r.dataType == if op.Clear? then 0 else slot.dataType
    ensures var r, dims := Edited(partial, slot, op).contents.dims, slot.contents.dims;
      match op
      case Clear(_) => r == []
      case AddDim(_, size) => |r| == |dims| + 1 && (k < |r| ==> r[k] == if k < |dims| then dims[k] else size)
      case InsertDim(_, d, size) =>
        |r| == |dims| + 1 && (k < |r| ==> r[k] == if k < d then dims[k] else if k == d then size else dims[k - 1])
      case SetDim(_, d, size) => |r| == |dims| && (k < |r| ==> r[k] == if k == d then size else dims[k])
      case RemoveDims(_, begin, end) =>
        var b := if begin < 0 then |dims| + begin + 1 else begin;
        var e := if end < 0 then |dims| + end + 1 else end;
        if b >= e then r == dims
        else |r| == |dims| - (e - b) && (k < |r| ==> r[k] == if k < b then dims[k] else dims[k + (e - b)])
  {
    if op.RemoveDims? {
      RemovedRange(slot.contents.dims, op.begin, op.end);
    }
  }

  /** Removing the range from 0 to -1 leaves a scalar of the same data type. */
  lemma RemoveAll(partial: bool, at: nat, slots: seq<Slot>)
    requires at < |slots| && IsLiveKnown(slots[at])
    ensures Allowed(partial, RemoveDims(at, 0, -1), slots)
    ensures Apply(partial, RemoveDims(at, 0, -1), slots) == slots[at := Live(Known([]), slots[at].dataType)]
  {
    AllRemoved(slots[at].contents.dims);
  }

  // ---------------------------------------------------------------- the shapes themselves

  /** The shape is what the slot says. */
  ghost predicate Represents(s: Shape, slot: Slot)
    reads s, s.heap
  {
    match slot
    case Dead => false
    case Moved => s.Safe() && s.Owned() == {}
    case Live(c, dataType) => s.Valid() && s.Contents() == c && DataType(s.buf) == dataType
  }

  method EditShape(s: Shape, op: Op, ghost slot: Slot)
    requires IsEdit(op) && Represents(s, slot) && EditAllowed(s.isPartial, slot, op) && s.heap.HasRoom()
    modifies s, s.heap
    ensures Represents(s, Edited(s.isPartial, slot, op))
    ensures OnlyOwn(old(s.heap.cells), old(s.Owned()), s.heap.cells, s.Owned())
  {
    hide IsKnown, DimsOf, ValidDims, Elements;
    match op
    case Clear(_) => s.Clear();
    case AddDim(_, size) => s.AddDim(size);
    case InsertDim(_, d, size) => s.InsertDim(d, size);
    case SetDim(_, d, size) => s.SetDim(d, size);
    case RemoveDims(_, begin, end) => s.RemoveDimRange(begin, end);
  }

  class World {
    const partial: bool
    const heap: Heap<Dims>
    var shapes: seq<Shape?>
    ghost var slots: seq<Slot>
    ghost var owners: seq<set<nat>>

    /** Variable i is what the slot says, and owns these cells. */
    ghost predicate Is(i: nat, slot: Slot, owned: set<nat>)
      requires i < |shapes|
      reads this`shapes, heap, if shapes[i] == null then {} else {shapes[i]}
    {
      if shapes[i] == null then slot.Dead? && owned == {}
      else
        && shapes[i].isPartial == partial && shapes[i].heap == heap
        && Represents(shapes[i], slot) && shapes[i].Owned() == owned
    }

    ghost predicate Valid()
      reads this, heap, set i | 0 <= i < |shapes| && shapes[i] != null :: shapes[i]
    {
      && |shapes| == |slots| == |owners| < TWO_63
      && Distinct()
      && (forall i | 0 <= i < |shapes| :: Is(i, slots[i], owners[i]))
      && Partitioned(heap.cells, owners)
    }

    constructor (isPartial: bool, variables: nat)
      requires variables < TWO_63
      ensures Valid() && partial == isPartial && slots == seq(variables, _ => Dead) && fresh(heap)
    {
      partial := isPartial;
      heap := new Heap<Dims>();
      shapes := seq(variables, _ => null);
      slots := seq(variables, _ => Dead);
      owners := seq(variables, _ => {});
    }

    ghost predicate Distinct()
      reads this
    {
      forall i, j | 0 <= i < j < |shapes| && shapes[i] != null :: shapes[i] != shapes[j]
    }

    /** The shapes are those of an earlier moment, or were allocated since. */
    twostate predicate StillMine(new before: seq<Shape?>)
      reads this
    {
      |shapes| == |before| && forall i | 0 <= i < |shapes| && shapes[i] != null :: shapes[i] == before[i] || fresh(shapes[i])
    }

    /** Records what the variables have become. */
    ghost method Settle(slots': seq<Slot>, owners': seq<set<nat>>)
      requires |shapes| == |slots'| == |owners'| < TWO_63 && Distinct() && Partitioned(heap.cells, owners')
      requires forall i | 0 <= i < |shapes| :: Is(i, slots'[i], owners'[i])
      modifies this`slots, this`owners
      ensures Valid() && slots == slots'
    {
      hide Represents, Partitioned;
      slots := slots';
      owners := owners';
    }

    /** An operation of the owner `at` leaves variable j as it was. */
    twostate lemma OtherKept(new at: nat, new j: nat, new owned: set<nat>)
      requires old(Valid()) && at < |shapes| && j < |shapes| == |old(shapes)| && j != at
      requires shapes[j] == old(shapes[j]) && (shapes[j] != null ==> unchanged(shapes[j]))
      requires OnlyOwn(old(heap.cells), old(owners[at]), heap.cells, owned)
      ensures Is(j, old(slots[j]), old(owners[j]))
    {
      hide IsKnown, DimsOf, ValidDims, Elements;
      Apart(old(heap.cells), old(owners), at);
      hide Partitioned;
      assert old(Is(j, slots[j], owners[j]));
      if shapes[j] != null {
        assert shapes[j].Vec() == old(shapes[j].Vec());
      }
    }

    twostate lemma OthersKept(new at: nat, new owned: set<nat>)
      requires old(Valid()) && at < |shapes| && shapes == old(shapes)
      requires forall j | 0 <= j < |shapes| && j != at && shapes[j] != null :: unchanged(shapes[j])
      requires OnlyOwn(old(heap.cells), old(owners[at]), heap.cells, owned)
      ensures forall j | 0 <= j < |shapes| && j != at :: Is(j, old(slots[j]), old(owners[j]))
    {
      hide Is, Partitioned;
      forall j | 0 <= j < |shapes| && j != at ensures Is(j, old(slots[j]), old(owners[j])) {
        OtherKept(at, j, owned);
      }
    }

    method Edit(op: Op)
      requires Valid() && IsEdit(op) && Allowed(partial, op, slots)
      modifies this, heap, set i | 0 <= i < |shapes| && shapes[i] != null :: shapes[i]
      ensures Valid() && slots == Apply(partial, op, old(slots)) && StillMine(old(shapes))
    {
      hide Partitioned, Represents, OnlyOwn;
      var at := op.at;
      EditInPlace(op);
      ghost var owned := shapes[at].Owned();
      PartitionKept(old(heap.cells), owners, at, heap.cells, owned);
      hide Is, EditAllowed, Edited;
      Settle(slots[at := Edited(partial, slots[at], op)], owners[at := owned]);
    }

    /** The edit itself, before it is recorded. */
    method EditInPlace(op: Op)
      requires Valid() && IsEdit(op) && Allowed(partial, op, slots)
      modifies heap, set i | 0 <= i < |shapes| && shapes[i] != null :: shapes[i]
      ensures shapes[op.at] != null && Is(op.at, Edited(partial, slots[op.at], op), shapes[op.at].Owned())
      ensures OnlyOwn(old(heap.cells), owners[op.at], heap.cells, shapes[op.at].Owned())
      ensures forall j | 0 <= j < |shapes| && j != op.at :: Is(j, slots[j], owners[j])
    {
      hide IsKnown, DimsOf, ValidDims, Elements, Edited;
      var at := op.at;
      assert !slots[at].Dead? && Is(at, slots[at], owners[at]);
      hide EditAllowed;
      RoomForAll(heap, owners);
      hide Partitioned;
      EditShape(shapes[at], op, slots[at]);
      ghost var owned := shapes[at].Owned();
      OthersKept(at, owned);
    }

    /** A dead variable gets a shape that was just constructed. */
    method Place(at: nat, s: Shape, ghost slot: Slot, ghost before: map<nat, Dims>)
      requires at < |shapes| == |slots| == |owners| < TWO_63 && shapes[at] == null && Distinct() && s !in shapes
      requires s.isPartial == partial && s.heap == heap && Represents(s, slot)
      requires Partitioned(before, owners) && OnlyOwn(before, {}, heap.cells, s.Owned()) && owners[at] == {}
      requires forall j | 0 <= j < |shapes| && j != at :: Is(j, slots[j], owners[j])
      modifies this
      ensures Valid() && slots == old(slots)[at := slot] && shapes == old(shapes)[at := s]
    {
      hide Represents, Partitioned;
      shapes := shapes[at := s];
      PartitionKept(before, owners, at, heap.cells, s.Owned());
      assert forall j | 0 <= j < |shapes| && j != at :: old(Is(j, slots[j], owners[j]));
      Settle(slots[at := slot], owners[at := s.Owned()]);
    }

    /** A new shape for a dead variable, before it is recorded. */
    method Fresh(op: Op) returns (s: Shape)
      requires Valid() && (op.Create? || op.CreateDims? || op.Copy?) && Allowed(partial, op, slots)
      modifies heap
      ensures fresh(s) && s.isPartial == partial && s.heap == heap && Represents(s, Apply(partial, op, slots)[op.at])
      ensures OnlyOwn(old(heap.cells), {}, heap.cells, s.Owned())
    {
      hide IsKnown, DimsOf, ValidDims, Elements;
      RoomForAll(heap, owners);
      hide Partitioned;
      if op.Create? {
        s := new Shape(partial, heap);
        OwnNothing(heap.cells, {});
      } else if op.CreateDims? {
        s := FromDims(op.dims);
      } else {
        s := Duplicate(op.from);
      }
    }

    method FromDims(dims: Dims) returns (s: Shape)
      requires ValidDims(partial, dims) && heap.HasRoom()
      modifies heap
      ensures fresh(s) && s.isPartial == partial && s.heap == heap && Represents(s, Live(Known(dims), 0))
      ensures OnlyOwn(old(heap.cells), {}, heap.cells, s.Owned())
    {
      ValidPasses(partial, dims);
      hide IsKnown, DimsOf, ValidDims, Elements, OnlyOwn, Held, ConstructorPasses;
      s := new Shape.FromDims(partial, heap, dims);
    }

    method Duplicate(from: nat) returns (s: Shape)
      requires Valid() && from < |slots| && slots[from].Live? && heap.HasRoom()
      modifies heap
      ensures fresh(s) && s.isPartial == partial && s.heap == heap && Represents(s, slots[from])
      ensures OnlyOwn(old(heap.cells), {}, heap.cells, s.Owned())
    {
      hide IsKnown, DimsOf, ValidDims, Elements, Partitioned, OnlyOwn;
      assert Is(from, slots[from], owners[from]);
      s := new Shape.Copy(shapes[from]);
    }

    method Construct(op: Op)
      requires Valid() && (op.Create? || op.CreateDims? || op.Copy?) && Allowed(partial, op, slots)
      modifies this, heap, set i | 0 <= i < |shapes| && shapes[i] != null :: shapes[i]
      ensures Valid() && slots == Apply(partial, op, old(slots)) && StillMine(old(shapes))
    {
      var at := op.at;
      assert Is(at, slots[at], owners[at]);
      var s := Fresh(op);
      hide Represents, OnlyOwn, Partitioned;
      assert owners[at] == {};
      OthersKept(at, s.Owned());
      ghost var slot := Apply(partial, op, slots)[at];
      Place(at, s, slot, old(heap.cells));
    }

    method CopyAssign(op: Op)
      requires Valid() && op.Assign? && Allowed(partial, op, slots)
      modifies this, heap, set i | 0 <= i < |shapes| && shapes[i] != null :: shapes[i]
      ensures Valid() && slots == Apply(partial, op, old(slots)) && StillMine(old(shapes))
    {
      hide IsKnown, DimsOf, ValidDims, Elements;
      var at, from := op.at, op.from;
      assert Is(at, slots[at], owners[at]) && Is(from, slots[from], owners[from]);
      RoomForAll(heap, owners);
      Apart(heap.cells, owners, from);
      hide Partitioned;
      var s := shapes[at];
      s.Assign(shapes[from]);
      assert Is(at, slots[from], s.Owned());
      OthersKept(at, s.Owned());
      PartitionKept(old(heap.cells), owners, at, heap.cells, s.Owned());
      Settle(slots[at := slots[from]], owners[at := s.Owned()]);
    }

    method MoveConstruct(op: Op)
      requires Valid() && op.Move? && Allowed(partial, op, slots)
      modifies this, heap, set i | 0 <= i < |shapes| && shapes[i] != null :: shapes[i]
      ensures Valid() && slots == Apply(partial, op, old(slots)) && StillMine(old(shapes))
    {
      hide Partitioned;
      var at, from := op.at, op.from;
      assert Is(at, slots[at], owners[at]);
      PartitionMoved(heap.cells, owners, at, from);
      var s := MoveFrom(at, from);
      hide Represents;
      shapes := shapes[at := s];
      assert Is(at, slots[from], owners[from]) && Is(from, Moved, {});
      assert forall j | 0 <= j < |shapes| && j != at && j != from :: Is(j, slots[j], owners[j]);
      hide Is;
      Settle(slots[at := slots[from]][from := Moved], owners[at := owners[from]][from := {}]);
    }

    /** The move construction itself, before it is recorded. */
    method MoveFrom(at: nat, from: nat) returns (s: Shape)
      requires Valid() && at < |slots| && from < |slots| && slots[at].Dead? && slots[from].Live?
      modifies set i | 0 <= i < |shapes| && shapes[i] != null :: shapes[i]
      ensures fresh(s) && s.isPartial == partial && s.heap == heap
      ensures Represents(s, slots[from]) && s.Owned() == owners[from] && Is(from, Moved, {})
      ensures forall j | 0 <= j < |shapes| && j != at && j != from :: Is(j, slots[j], owners[j])
    {
      hide IsKnown, DimsOf, ValidDims, Elements;
      assert Is(at, slots[at], owners[at]) && Is(from, slots[from], owners[from]);
      OwnNothing(heap.cells, {});
      hide Partitioned;
      s := new Shape.Move(shapes[from]);
      forall j | 0 <= j < |shapes| && j != at && j != from ensures Is(j, slots[j], owners[j]) {
        OtherKept(at, j, {});
      }
    }

    method MoveOver(op: Op)
      requires Valid() && op.MoveAssign? && Allowed(partial, op, slots)
      modifies this, heap, set i | 0 <= i < |shapes| && shapes[i] != null :: shapes[i]
      ensures Valid() && slots == Apply(partial, op, old(slots)) && StillMine(old(shapes))
    {
      hide Partitioned, Represents;
      var at, from := op.at, op.from;
      Freed(heap.cells, owners[at]);
      PartitionKept(heap.cells, owners, at, heap.cells - owners[at], {});
      if at == from {
        MoveSelf(at);
        hide Is;
        Settle(slots[at := Moved], owners[at := {}]);
      } else {
        PartitionMoved(heap.cells - owners[at], owners[at := {}], at, from);
        MovePair(at, from);
        hide Is;
        assert owners[at := {}][at := owners[from]][from := {}] == owners[at := owners[from]][from := {}];
        Settle(slots[at := slots[from]][from := Moved], owners[at := owners[from]][from := {}]);
      }
    }

    /** A shape moved onto itself, before it is recorded. */
    method MoveSelf(at: nat)
      requires Valid() && at < |slots| && slots[at].Live?
      modifies heap, set i | 0 <= i < |shapes| && shapes[i] != null :: shapes[i]
      ensures heap.cells == old(heap.cells) - owners[at]
      ensures Is(at, Moved, {})
      ensures forall j | 0 <= j < |shapes| && j != at :: Is(j, slots[j], owners[j])
    {
      hide IsKnown, DimsOf, ValidDims, Elements, Partitioned;
      assert Is(at, slots[at], owners[at]);
      shapes[at].MoveAssign(shapes[at]);
      Freed(old(heap.cells), owners[at]);
      OthersKept(at, {});
    }

    /** The move assignment itself, before it is recorded. */
    method MovePair(at: nat, from: nat)
      requires Valid() && at < |slots| && from < |slots| && at != from && !slots[at].Dead? && slots[from].Live?
      modifies heap, set i | 0 <= i < |shapes| && shapes[i] != null :: shapes[i]
      ensures heap.cells == old(heap.cells) - owners[at]
      ensures Is(at, slots[from], owners[from]) && Is(from, Moved, {})
      ensures forall j | 0 <= j < |shapes| && j != at && j != from :: Is(j, slots[j], owners[j])
    {
      hide IsKnown, DimsOf, ValidDims, Elements;
      assert Is(at, slots[at], owners[at]) && Is(from, slots[from], owners[from]);
      Apart(heap.cells, owners, from);
      hide Partitioned;
      shapes[at].MoveAssign(shapes[from]);
      Freed(old(heap.cells), owners[at]);
      forall j | 0 <= j < |shapes| && j != at && j != from ensures Is(j, slots[j], owners[j]) {
        OtherKept(at, j, {});
      }
    }

    method Destroy(op: Op)
      requires Valid() && op.Destroy? && Allowed(partial, op, slots)
      modifies this, heap, set i | 0 <= i < |shapes| && shapes[i] != null :: shapes[i]
      ensures Valid() && slots == Apply(partial, op, old(slots)) && StillMine(old(shapes))
    {
      hide IsKnown, DimsOf, ValidDims, Elements, Partitioned;
      var at := op.at;
      assert Is(at, slots[at], owners[at]);
      Freed(heap.cells, owners[at]);
      PartitionKept(heap.cells, owners, at, heap.cells - owners[at], {});
      shapes[at].Destroy();
      OthersKept(at, {});
      hide Represents;
      shapes := shapes[at := null];
      assert forall j | 0 <= j < |shapes| && j != at :: Is(j, slots[j], owners[j]);
      Settle(slots[at := Dead], owners[at := {}]);
    }

    method Step(op: Op)
      requires Valid() && Allowed(partial, op, slots)
      modifies this, heap, set i | 0 <= i < |shapes| && shapes[i] != null :: shapes[i]
      ensures Valid() && slots == Apply(partial, op, old(slots)) && StillMine(old(shapes))
    {
      if IsEdit(op) {
        Edit(op);
      } else if op.Assign? {
        CopyAssign(op);
      } else if op.Move? {
        MoveConstruct(op);
      } else if op.MoveAssign? {
        MoveOver(op);
      } else if op.Destroy? {
        Destroy(op);
      } else {
        Construct(op);
      }
    }

    /** Any run of allowed operations does to the shapes what it does to the plain contents; at every moment the
        allocated vectors are exactly those of the live shapes, each owned once. */
    method Run(ops: seq<Op>)
      requires Valid() && AllAllowed(partial, ops, slots)
      modifies this, heap, set i | 0 <= i < |shapes| && shapes[i] != null :: shapes[i]
      ensures Valid() && slots == ApplyAll(partial, ops, old(slots)) && StillMine(old(shapes))
      ensures (forall i | 0 <= i < |slots| :: !slots[i].Live?) ==> heap.cells == map[]
    {
      hide Is, Partitioned, Distinct, Apply, Allowed;
      var i := 0;
      assert ops[0..] == ops;
      while i < |ops|
        invariant i <= |ops| && Valid()
        invariant AllAllowed(partial, ops[i..], slots)
        invariant ApplyAll(partial, ops[i..], slots) == ApplyAll(partial, ops, old(slots))
        invariant StillMine(old(shapes))
      {
        assert ops[i..][0] == ops[i] && ops[i..][1..] == ops[i + 1..];
        Step(ops[i]);
        i := i + 1;
      }
      if forall i | 0 <= i < |slots| :: !slots[i].Live? {
        NothingLive();
      }
    }

    lemma NothingLive()
      requires Valid() && forall i | 0 <= i < |slots| :: !slots[i].Live?
      ensures heap.cells == map[]
    {
      forall j | 0 <= j < |owners| ensures owners[j] == {} {
        assert Is(j, slots[j], owners[j]);
      }
      assert forall p | p in heap.cells :: HasOwner(owners, p);
    }
  }
}
