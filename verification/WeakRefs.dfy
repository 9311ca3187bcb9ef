/**
 * The weak/strong reference protocol of one WeakRefCounted object, its WeakRefData and any number of
 * WeakPtrs and threads, as a labelled transition system. Every atomic operation on a reference count,
 * every acquisition and release of the mutex and every access under the mutex is one step.
 */
module WeakRefs {
  import opened Basics

  type Thread = nat
  type Weak = nat      // the identity of a WeakPtr
  type Strong = nat    // the identity of a strong reference (a RefCountPtr)

  /** What a thread does after RemoveNotifier: finish ~WeakPtr, or move from another WeakPtr. */
  datatype After = ThenDestroy | ThenMove(src: Weak)

  /** Where a thread is inside the operations of refcount.h. */
  datatype Pc =
    | Idle
    // WeakRefData::GetNewRef
    | GetLock(h: Weak)
    | GetCheck(h: Weak)
    | GetLoad(h: Weak)
    | GetCas(h: Weak, seen: nat)
    | GetUnlock(h: Weak, got: Option<Strong>)
    // WeakRefData::AddNotifier
    | AddLock(h: Weak)
    | AddInsert(h: Weak)
    | AddUnlock(h: Weak, id: nat)
    // WeakRefData::RemoveNotifier, then the release of the WeakPtr's reference to WeakRefData
    | RemoveLock(h: Weak, after: After)
    | RemoveErase(h: Weak, after: After)
    | RemoveUnlock(h: Weak, after: After)
    | DropData(h: Weak, after: After)
    // ~WeakRefCounted: WeakRefData::Notify, then ~data_, then the memory of the object
    | NotifyLock
    | NotifyLoop
    | NotifyUnlock(id: nat)
    | NotifyCall(id: nat)
    | NotifyRelock
    | NotifyClear
    | NotifyDone
    | ReleaseData
    | FreeObject
    // the memory of WeakRefData; `last` when the object's own reference was the last one
    | FreeData(last: bool)

  datatype State = State(
    ref: nat,                     // RefCounted::ref_ of the object
    refs: set<Strong>,            // the strong references that exist
    dataRef: nat,                 // RefCounted::ref_ of the WeakRefData
    weaks: map<Weak, nat>,        // WeakPtrs whose data_ is this WeakRefData, with their notifier_id_
    holdsData: bool,              // the object's own data_
    ptrNull: bool,                // WeakRefData::ptr == nullptr
    mu: Option<Thread>,
    notifiers: set<nat>,          // the keys of WeakRefData::notifiers
    nextId: nat,                  // WeakRefData::next_notifier_id
    objectFreed: bool,
    dataFreed: bool,
    pcs: map<Thread, Pc>,         // threads that are not listed are idle
    destroyer: Option<Thread>,    // the thread inside ~WeakRefCounted
    ran: seq<nat>,                // the notifiers called, in order
    removed: set<nat>             // the notifiers erased by RemoveNotifier
  )

  datatype Label =
    | CopyRef(t: Thread, r: Strong, novel: Strong)
    | DropRef(t: Thread, r: Strong)
    | StartGet(t: Thread, h: Weak)
    | MakeWeak(t: Thread, r: Strong, h: Weak, notify: bool)
    | DestroyWeak(t: Thread, h: Weak)
    | MoveWeak(t: Thread, src: Weak, dst: Weak)
    | MoveOver(t: Thread, src: Weak, dst: Weak)
    | Acquire(t: Thread)
    | Continue(t: Thread, novel: Strong, spurious: bool)

  function PcAt(pcs: map<Thread, Pc>, t: Thread): Pc {
    if t in pcs then pcs[t] else Idle
  }

  /** The state with thread t moved to pc; every other thread stays where it is. */
  function At(s: State, t: Thread, pc: Pc): (r: State)
    ensures forall u: Thread :: PcAt(r.pcs, u) == if u == t then pc else PcAt(s.pcs, u)
  {
    s.(pcs := s.pcs[t := pc])
  }

  const Init: State := State(1, {0}, 1, map[], true, false, None, {}, 1, false, false, map[], None, [], {})

  // ---------------------------------------------------------------- classes of program points

  predicate HoldsLock(pc: Pc) {
    || pc.GetCheck? || pc.GetLoad? || pc.GetCas? || pc.GetUnlock? || pc.AddInsert? || pc.AddUnlock?
    || pc.RemoveErase? || pc.RemoveUnlock? || pc.NotifyLoop? || pc.NotifyUnlock? || pc.NotifyClear? || pc.NotifyDone?
  }

  predicate Destroying(pc: Pc) {
    || pc.NotifyLock? || pc.NotifyLoop? || pc.NotifyUnlock? || pc.NotifyCall? || pc.NotifyRelock? || pc.NotifyClear?
    || pc.NotifyDone? || pc.ReleaseData? || pc.FreeObject? || (pc.FreeData? && pc.last)
  }

  /** Destruction has got past the assignment ptr = nullptr. */
  predicate PastClear(pc: Pc) {
    pc.NotifyDone? || pc.ReleaseData? || pc.FreeObject? || (pc.FreeData? && pc.last)
  }

  /** The object has let go of its WeakRefData. */
  predicate PastRelease(pc: Pc) {
    pc.FreeObject? || (pc.FreeData? && pc.last)
  }

  /** TryRef on the object. */
  predicate InTryRef(pc: Pc) {
    pc.GetLoad? || pc.GetCas?
  }

  /** The operations that use a WeakPtr; several threads may be inside GetNewRef of the same one. */
  predicate InGet(pc: Pc) {
    pc.GetLock? || pc.GetCheck? || pc.GetLoad? || pc.GetCas? || pc.GetUnlock?
  }

  predicate InExclusive(pc: Pc) {
    || pc.AddLock? || pc.AddInsert? || pc.AddUnlock?
    || pc.RemoveLock? || pc.RemoveErase? || pc.RemoveUnlock? || pc.DropData?
  }

  predicate Uses(pc: Pc, h: Weak) {
    || ((InGet(pc) || InExclusive(pc)) && pc.h == h)
    || ((pc.RemoveLock? || pc.RemoveErase? || pc.RemoveUnlock? || pc.DropData?) && pc.after == ThenMove(h))
  }

  predicate UsesExclusively(pc: Pc, h: Weak) {
    Uses(pc, h) && InExclusive(pc)
  }

  /** Reads or writes the memory of the object. */
  predicate TouchesObject(pc: Pc) {
    InTryRef(pc) || Destroying(pc)
  }

  /** Reads or writes the memory of WeakRefData. */
  predicate TouchesData(pc: Pc) {
    InGet(pc) || InExclusive(pc) || pc.FreeData? || (Destroying(pc) && !pc.FreeObject?)
  }

  predicate Returning(pc: Pc, r: Strong) {
    pc.GetUnlock? && pc.got == Some(r)
  }

  predicate InDestroy(pc: Pc) {
    Destroying(pc) || pc.FreeData?
  }

  predicate WaitsForLock(pc: Pc) {
    pc.GetLock? || pc.AddLock? || pc.RemoveLock? || pc.NotifyLock? || pc.NotifyRelock?
  }

  // ---------------------------------------------------------------- the steps

  /** Client obligations: a strong reference is used by its owner only, a WeakPtr is not destroyed, moved or
      moved over while another thread uses it, and new identities are new. */
  ghost predicate Owned(s: State, r: Strong) {
    r in s.refs && forall t: Thread :: !Returning(PcAt(s.pcs, t), r)
  }

  /** Who may pass the object's address to the constructor of a WeakPtr: the owner of a reference and, while the
      object is being destroyed, a callback or the destructor of a derived class; it reads data_. */
  ghost predicate Reaches(s: State, r: Strong) {
    Owned(s, r) || (s.destroyer.Some? && s.holdsData)
  }

  ghost predicate Unused(s: State, h: Weak) {
    forall t: Thread :: !Uses(PcAt(s.pcs, t), h)
  }

  predicate Runs(s: State, t: Thread) {
    !PcAt(s.pcs, t).Idle? && !WaitsForLock(PcAt(s.pcs, t))
  }

  ghost predicate Enabled(s: State, l: Label) {
    match l
    case CopyRef(t, r, novel) => PcAt(s.pcs, t).Idle? && Owned(s, r) && novel !in s.refs
    case DropRef(t, r) => PcAt(s.pcs, t).Idle? && Owned(s, r)
    case StartGet(t, h) => PcAt(s.pcs, t).Idle? && h in s.weaks && forall u: Thread :: !UsesExclusively(PcAt(s.pcs, u), h)
    case MakeWeak(t, r, h, _) => PcAt(s.pcs, t).Idle? && Reaches(s, r) && h !in s.weaks && Unused(s, h)
    case DestroyWeak(t, h) => PcAt(s.pcs, t).Idle? && h in s.weaks && Unused(s, h)
    case MoveWeak(t, src, dst) =>
      PcAt(s.pcs, t).Idle? && src in s.weaks && dst !in s.weaks && Unused(s, src) && Unused(s, dst)
    case MoveOver(t, src, dst) => PcAt(s.pcs, t).Idle? && dst in s.weaks && src != dst && Unused(s, src) && Unused(s, dst)
    case Acquire(t) =>
      s.mu.None? && WaitsForLock(PcAt(s.pcs, t))
    case Continue(t, novel, _) =>
      var pc := PcAt(s.pcs, t);
      Runs(s, t) && (pc.GetCas? ==> novel !in s.refs)
  }

  ghost predicate IsLeast(ids: set<nat>, id: nat) {
    id in ids && forall other | other in ids :: id <= other
  }

  lemma {:induction false} LeastExists(ids: set<nat>)
    requires ids != {}
    ensures exists id :: IsLeast(ids, id)
  {
    var x :| x in ids;
    if ids == {x} {
      assert IsLeast(ids, x);
    } else {
      var rest := ids - {x};
      LeastExists(rest);
      var y :| IsLeast(rest, y);
      assert ids == rest + {x};
      assert IsLeast(ids, if x < y then x else y);
    }
  }

  /** notifiers.begin(): the notifier registered first. */
  ghost function Begin(ids: set<nat>): (id: nat)
    requires ids != {}
    ensures IsLeast(ids, id)
  {
    LeastExists(ids);
    var id :| IsLeast(ids, id);
    id
  }

  function Locked(pc: Pc): Pc
    requires WaitsForLock(pc)
  {
    match pc
    case GetLock(h) => GetCheck(h)
    case AddLock(h) => AddInsert(h)
    case RemoveLock(h, after) => RemoveErase(h, after)
    case NotifyLock => NotifyLoop
    case NotifyRelock => NotifyLoop
  }

  function BeginRemove(s: State, h: Weak, after: After): Pc
    requires h in s.weaks
  {
    if s.weaks[h] != 0 then RemoveLock(h, after) else DropData(h, after)
  }

  /** The effect of a step. */
  ghost function Next(s: State, l: Label): State
    requires Enabled(s, l)
  {
    match l
    case CopyRef(t, r, novel) => s.(ref := s.ref + 1, refs := s.refs + {novel})
    case DropRef(t, r) =>
      if s.ref == 1 then At(s, t, NotifyLock).(ref := 0, refs := s.refs - {r}, destroyer := Some(t))
      else s.(ref := if s.ref == 0 then 0 else s.ref - 1, refs := s.refs - {r})
    case StartGet(t, h) => At(s, t, GetLock(h))
    case MakeWeak(t, r, h, notify) =>
      At(s, t, if notify then AddLock(h) else Idle).(dataRef := s.dataRef + 1, weaks := s.weaks[h := 0])
    case DestroyWeak(t, h) => At(s, t, BeginRemove(s, h, ThenDestroy))
    case MoveWeak(t, src, dst) => s.(weaks := (s.weaks - {src})[dst := s.weaks[src]])
    case MoveOver(t, src, dst) => At(s, t, BeginRemove(s, dst, ThenMove(src)))
    case Acquire(t) => At(s, t, Locked(PcAt(s.pcs, t))).(mu := Some(t))
    case Continue(t, novel, spurious) => Advance(s, t, novel, spurious)
  }

  /** The WeakPtrs after h has let go of its WeakRefData, and has perhaps taken over that of another. */
  function LetGo(weaks: map<Weak, nat>, h: Weak, after: After): map<Weak, nat> {
    if after.ThenMove? && after.src in weaks then (weaks - {h, after.src})[h := weaks[after.src]] else weaks - {h}
  }

  ghost function Advance(s: State, t: Thread, novel: Strong, spurious: bool): State {
    var pc := PcAt(s.pcs, t);
    if InGet(pc) then AdvanceGet(s, t, novel, spurious)
    else if InExclusive(pc) then AdvanceWeak(s, t)
    else AdvanceDestroy(s, t)
  }

  function AdvanceGet(s: State, t: Thread, novel: Strong, spurious: bool): State {
    match PcAt(s.pcs, t)
    case GetCheck(h) => At(s, t, if s.ptrNull then GetUnlock(h, None) else GetLoad(h))
    case GetLoad(h) => At(s, t, if s.ref == 0 then GetUnlock(h, None) else GetCas(h, s.ref))
    case GetCas(h, seen) =>
      if s.ref == seen && !spurious then
        At(s, t, GetUnlock(h, Some(novel))).(ref := s.ref + 1, refs := s.refs + {novel})
      else At(s, t, if s.ref == 0 then GetUnlock(h, None) else GetCas(h, s.ref))
    case GetUnlock(h, got) => At(s, t, Idle).(mu := None)
    case _ => s
  }

  function AdvanceWeak(s: State, t: Thread): State {
    match PcAt(s.pcs, t)
    case AddInsert(h) =>
      if s.ptrNull then At(s, t, AddUnlock(h, 0))
      else At(s, t, AddUnlock(h, s.nextId)).(notifiers := s.notifiers + {s.nextId}, nextId := s.nextId + 1)
    case AddUnlock(h, id) => At(s, t, Idle).(mu := None, weaks := s.weaks[h := id])
    case RemoveErase(h, after) =>
      var id := if h in s.weaks then s.weaks[h] else 0;
      At(s, t, RemoveUnlock(h, after)).(
        notifiers := s.notifiers - {id},
        removed := if id in s.notifiers then s.removed + {id} else s.removed)
    case RemoveUnlock(h, after) => At(s, t, DropData(h, after)).(mu := None)
    case DropData(h, after) =>
      At(s, t, if s.dataRef == 1 then FreeData(false) else Idle).(
        dataRef := if s.dataRef == 0 then 0 else s.dataRef - 1, weaks := LetGo(s.weaks, h, after))
    case _ => s
  }

  ghost function AdvanceDestroy(s: State, t: Thread): State {
    match PcAt(s.pcs, t)
    case NotifyLoop =>
      if s.notifiers == {} then At(s, t, NotifyClear)
      else
        var id := Begin(s.notifiers);
        At(s, t, NotifyUnlock(id)).(notifiers := s.notifiers - {id})
    case NotifyUnlock(id) => At(s, t, NotifyCall(id)).(mu := None)
    case NotifyCall(id) => At(s, t, NotifyRelock).(ran := s.ran + [id])
    case NotifyClear => At(s, t, NotifyDone).(ptrNull := true)
    case NotifyDone => At(s, t, ReleaseData).(mu := None)
    case ReleaseData =>
      At(s, t, if s.dataRef == 1 then FreeData(true) else FreeObject).(
        dataRef := if s.dataRef == 0 then 0 else s.dataRef - 1, holdsData := false)
    case FreeData(last) => At(s, t, if last then FreeObject else Idle).(dataFreed := true)
    case FreeObject => At(s, t, Idle).(objectFreed := true, destroyer := None)
    case _ => s
  }

  // ---------------------------------------------------------------- the invariant

  /** Strong references: the count is the number of references, and destruction starts when it reaches 0. */
  ghost predicate StrongInv(s: State) {
    && StrongCounted(s)
    && (s.ref == 0 <==> s.destroyer.Some? || s.objectFreed)
    && (s.objectFreed ==> s.destroyer.None?)
    && (forall t: Thread :: Destroying(PcAt(s.pcs, t)) <==> s.destroyer == Some(t))
    && (forall t: Thread :: PcAt(s.pcs, t).GetCas? ==> PcAt(s.pcs, t).seen > 0)
    && (forall t: Thread, r: Strong :: Returning(PcAt(s.pcs, t), r) ==> r in s.refs)
  }

  /** The destruction's progress and the pointer back to the object. */
  ghost predicate PhaseFlags(s: State) {
    && (s.ptrNull <==> s.objectFreed || (s.destroyer.Some? && PastClear(PcAt(s.pcs, s.destroyer.value))))
    && (!s.holdsData <==> s.objectFreed || (s.destroyer.Some? && PastRelease(PcAt(s.pcs, s.destroyer.value))))
  }

  ghost predicate PhaseInv(s: State) {
    && PhaseFlags(s)
    && (forall t: Thread :: InTryRef(PcAt(s.pcs, t)) ==> !s.ptrNull)
  }

  ghost predicate LockInv(s: State) {
    forall t: Thread :: HoldsLock(PcAt(s.pcs, t)) <==> s.mu == Some(t)
  }

  /** References to WeakRefData: one per WeakPtr, plus one while the object has not released its own. */
  ghost predicate DataInv(s: State) {
    && DataCounted(s)
    && (s.dataFreed ==> s.dataRef == 0)
    && (s.dataRef == 0 && !s.dataFreed ==> exists t: Thread :: PcAt(s.pcs, t).FreeData?)
    && (forall t: Thread :: PcAt(s.pcs, t).FreeData? ==> s.dataRef == 0 && !s.dataFreed)
    && (forall t: Thread, u: Thread :: PcAt(s.pcs, t).FreeData? && PcAt(s.pcs, u).FreeData? ==> t == u)
  }

  ghost predicate WeakInv(s: State) {
    && (forall t: Thread :: InGet(PcAt(s.pcs, t)) || InExclusive(PcAt(s.pcs, t)) ==> PcAt(s.pcs, t).h in s.weaks)
    && (forall t: Thread, u: Thread, h: Weak :: UsesExclusively(PcAt(s.pcs, t), h) && Uses(PcAt(s.pcs, u), h) ==> t == u)
    && (forall t: Thread :: !MovesOntoItself(PcAt(s.pcs, t)))
  }

  predicate MovesOntoItself(pc: Pc) {
    (pc.RemoveLock? || pc.RemoveErase? || pc.RemoveUnlock? || pc.DropData?) && pc.after == ThenMove(pc.h)
  }

  predicate Increasing(ids: seq<nat>) {
    forall i, j | 0 <= i < j < |ids| :: ids[i] < ids[j]
  }

  /** The notifiers that Notify has taken out of the map, in order: those called, then the one in hand. */
  ghost function Picked(s: State): seq<nat> {
    s.ran + if s.destroyer.Some? then InHand(PcAt(s.pcs, s.destroyer.value)) else []
  }

  function InHand(pc: Pc): seq<nat> {
    if pc.NotifyUnlock? || pc.NotifyCall? then [pc.id] else []
  }

  /** Every registered notifier is waiting, picked or removed, and only one of these; they are picked in the
      order of their registration. */
  ghost predicate Accounted(notifiers: set<nat>, picked: seq<nat>, removed: set<nat>, nextId: nat) {
    && nextId > 0
    && (forall id: nat :: (id in notifiers || id in picked || id in removed) <==> 0 < id < nextId)
    && notifiers !! removed
    && (forall id | id in picked :: id !in removed)
    && Increasing(picked)
    && (forall id, later | id in picked && later in notifiers :: id < later)
  }

  ghost predicate NotifierInv(s: State) {
    && Accounted(s.notifiers, Picked(s), s.removed, s.nextId)
    && (s.ptrNull ==> s.notifiers == {})
    && (s.destroyer.Some? && PcAt(s.pcs, s.destroyer.value).NotifyClear? ==> s.notifiers == {})
  }

  ghost predicate Inv(s: State) {
    StrongInv(s) && PhaseInv(s) && LockInv(s) && DataInv(s) && WeakInv(s) && NotifierInv(s)
  }

  lemma InitInv()
    ensures Inv(Init)
  {}

  // ---------------------------------------------------------------- one step keeps the invariant
  // A step moves one thread t. For each part of the invariant, one lemma says what has to be checked about t
  // and about the shared fields; the other threads then follow.

  ghost predicate OthersStay(s: State, s': State, t: Thread) {
    forall u: Thread | u != t :: PcAt(s'.pcs, u) == PcAt(s.pcs, u)
  }

  lemma OneThreadMoves(s: State, l: Label)
    requires Enabled(s, l)
    ensures OthersStay(s, Next(s, l), l.t)
  {
    hide Enabled, HoldsLock, Destroying, Uses, Returning, LetGo, BeginRemove, Locked, Begin;
    if l.Continue? {
      OneThreadAdvances(s, l.t, l.novel, l.spurious);
    }
  }

  lemma OneThreadAdvances(s: State, t: Thread, novel: Strong, spurious: bool)
    ensures OthersStay(s, AdvanceGet(s, t, novel, spurious), t)
    ensures OthersStay(s, AdvanceWeak(s, t), t)
    ensures OthersStay(s, AdvanceDestroy(s, t), t)
  {
    hide LetGo, Begin;
  }

  ghost predicate StrongCounted(s: State) {
    s.ref == |s.refs|
  }

  ghost predicate StrongLocal(s: State, s': State, t: Thread) {
    var pc := PcAt(s'.pcs, t);
    && (s'.ref == 0 <==> s'.destroyer.Some? || s'.objectFreed)
    && (s'.objectFreed ==> s'.destroyer.None?)
    && (Destroying(pc) <==> s'.destroyer == Some(t))
    && (s'.destroyer == s.destroyer || (s.destroyer in {None, Some(t)} && s'.destroyer in {None, Some(t)}))
    && (pc.GetCas? ==> pc.seen > 0)
    && (forall r :: Returning(pc, r) ==> r in s'.refs)
    && (forall u: Thread, r: Strong :: r in s.refs && r !in s'.refs ==> !Returning(PcAt(s.pcs, u), r))
  }

  lemma StrongMoved(s: State, s': State, t: Thread)
    requires StrongInv(s) && OthersStay(s, s', t) && StrongCounted(s') && StrongLocal(s, s', t)
    ensures StrongInv(s')
  {}

  ghost predicate LockLocal(s: State, s': State, t: Thread) {
    && (HoldsLock(PcAt(s'.pcs, t)) <==> s'.mu == Some(t))
    && (s'.mu == s.mu || (s.mu in {None, Some(t)} && s'.mu in {None, Some(t)}))
  }

  lemma LockMoved(s: State, s': State, t: Thread)
    requires LockInv(s) && OthersStay(s, s', t) && LockLocal(s, s', t)
    ensures LockInv(s')
  {}

  ghost predicate PhaseLocal(s: State, s': State, t: Thread) {
    && PhaseFlags(s')
    && (InTryRef(PcAt(s'.pcs, t)) ==> !s'.ptrNull)
    && (s'.ptrNull ==> s.ptrNull || HoldsLock(PcAt(s.pcs, t)))
  }

  lemma PhaseMoved(s: State, s': State, t: Thread)
    requires PhaseInv(s) && LockInv(s) && OthersStay(s, s', t) && PhaseLocal(s, s', t)
    ensures PhaseInv(s')
  {
    forall u: Thread ensures InTryRef(PcAt(s'.pcs, u)) ==> !s'.ptrNull {
      assert InTryRef(PcAt(s.pcs, u)) ==> HoldsLock(PcAt(s.pcs, u)) && s.mu == Some(u);
    }
  }

  ghost predicate DataCounted(s: State) {
    s.dataRef == |s.weaks| + (if s.holdsData then 1 else 0)
  }

  ghost predicate DataLocal(s: State, s': State, t: Thread) {
    var pc, pc' := PcAt(s.pcs, t), PcAt(s'.pcs, t);
    && (s'.dataFreed ==> s'.dataRef == 0)
    && (pc'.FreeData? ==> s'.dataRef == 0 && !s'.dataFreed && (pc.FreeData? || s.dataRef > 0))
    && (s'.dataRef == 0 && !s'.dataFreed && !pc'.FreeData? ==> s.dataRef == 0 && !s.dataFreed && !pc.FreeData?)
    && (s.dataRef > 0 || pc.FreeData? || (s'.dataRef == s.dataRef && s'.dataFreed == s.dataFreed))
  }

  lemma DataMoved(s: State, s': State, t: Thread)
    requires DataInv(s) && OthersStay(s, s', t) && DataCounted(s') && DataLocal(s, s', t)
    ensures DataInv(s')
  {
    if s'.dataRef == 0 && !s'.dataFreed && !PcAt(s'.pcs, t).FreeData? {
      var u: Thread :| PcAt(s.pcs, u).FreeData?;
      assert PcAt(s'.pcs, u).FreeData?;
    }
  }

  ghost predicate WeakLocal(s: State, s': State, t: Thread) {
    var pc, pc' := PcAt(s.pcs, t), PcAt(s'.pcs, t);
    && (InGet(pc') || InExclusive(pc') ==> pc'.h in s'.weaks && !MovesOntoItself(pc'))
    && (forall u: Thread, h: Weak | u != t && h in s.weaks && h !in s'.weaks :: !Uses(PcAt(s.pcs, u), h))
    && (forall u: Thread, h: Weak | u != t && Uses(pc', h) && !Uses(pc, h) :: !UsesExclusively(PcAt(s.pcs, u), h))
    && (forall u: Thread, h: Weak | u != t && UsesExclusively(pc', h) && !UsesExclusively(pc, h) :: !Uses(PcAt(s.pcs, u), h))
  }

  lemma WeakMoved(s: State, s': State, t: Thread)
    requires WeakInv(s) && OthersStay(s, s', t) && WeakLocal(s, s', t)
    ensures WeakInv(s')
  {
    forall u: Thread ensures InGet(PcAt(s'.pcs, u)) || InExclusive(PcAt(s'.pcs, u)) ==> PcAt(s'.pcs, u).h in s'.weaks {
      if u != t && (InGet(PcAt(s.pcs, u)) || InExclusive(PcAt(s.pcs, u))) {
        assert Uses(PcAt(s.pcs, u), PcAt(s.pcs, u).h);
      }
    }
  }

  lemma Moved(s: State, s': State, t: Thread)
    requires Inv(s) && OthersStay(s, s', t) && NotifierInv(s')
    requires StrongCounted(s') && StrongLocal(s, s', t) && PhaseLocal(s, s', t) && LockLocal(s, s', t)
    requires DataCounted(s') && DataLocal(s, s', t) && WeakLocal(s, s', t)
    ensures Inv(s')
  {
    hide StrongLocal, PhaseLocal, LockLocal, DataLocal, WeakLocal, NotifierInv, OthersStay;
    hide StrongInv, PhaseInv, LockInv, DataInv, WeakInv;
    StrongMoved(s, s', t);
    PhaseMoved(s, s', t);
    LockMoved(s, s', t);
    DataMoved(s, s', t);
    WeakMoved(s, s', t);
  }

  // Parts that a step leaves alone.

  lemma QuietStrong(s: State, s': State, t: Thread)
    requires StrongInv(s) && s'.ref == s.ref && s'.refs == s.refs
    requires s'.destroyer == s.destroyer && s'.objectFreed == s.objectFreed
    requires var pc, pc' := PcAt(s.pcs, t), PcAt(s'.pcs, t);
      (Destroying(pc) <==> Destroying(pc')) && !pc'.GetCas? && (pc'.GetUnlock? ==> pc'.got.None?)
    ensures StrongCounted(s') && StrongLocal(s, s', t)
  {}

  lemma QuietPhase(s: State, s': State, t: Thread)
    requires StrongInv(s) && PhaseInv(s) && OthersStay(s, s', t)
    requires s'.ptrNull == s.ptrNull && s'.holdsData == s.holdsData
    requires s'.destroyer == s.destroyer && s'.objectFreed == s.objectFreed
    requires !Destroying(PcAt(s.pcs, t)) && (InTryRef(PcAt(s'.pcs, t)) ==> !s.ptrNull)
    ensures PhaseLocal(s, s', t)
  {}

  lemma QuietData(s: State, s': State, t: Thread)
    requires DataInv(s) && s'.dataRef == s.dataRef && s'.weaks == s.weaks
    requires s'.holdsData == s.holdsData && s'.dataFreed == s.dataFreed
    requires !PcAt(s.pcs, t).FreeData? && !PcAt(s'.pcs, t).FreeData?
    ensures DataCounted(s') && DataLocal(s, s', t)
  {}

  ghost predicate SameNotifiers(s: State, s': State) {
    && s'.notifiers == s.notifiers && s'.ran == s.ran && s'.removed == s.removed && s'.nextId == s.nextId
    && s'.ptrNull == s.ptrNull && s'.destroyer == s.destroyer
  }

  lemma QuietNotifier(s: State, s': State, t: Thread)
    requires StrongInv(s) && NotifierInv(s) && OthersStay(s, s', t) && SameNotifiers(s, s')
    requires !Destroying(PcAt(s.pcs, t))
    ensures NotifierInv(s') && Picked(s') == Picked(s)
  {
    hide Accounted;
    assert Picked(s') == Picked(s);
  }

  // The steps of GetNewRef.

  /** What a step inside GetNewRef changes. */
  ghost predicate GetMoves(s: State, s': State, t: Thread) {
    var pc, pc' := PcAt(s.pcs, t), PcAt(s'.pcs, t);
    && SameNotifiers(s, s')
    && s'.dataRef == s.dataRef && s'.weaks == s.weaks && s'.holdsData == s.holdsData && s'.dataFreed == s.dataFreed
    && s'.objectFreed == s.objectFreed
    && s'.mu == (if pc'.Idle? then None else s.mu)
    && (pc'.Idle? || (InGet(pc) && InGet(pc') && !pc'.GetLock? && pc'.h == pc.h))
    && (InTryRef(pc') ==> InTryRef(pc) || !s.ptrNull)
    && (pc'.GetCas? ==> pc'.seen > 0)
  }

  lemma GetEffect(s: State, t: Thread, novel: Strong, spurious: bool)
    requires Runs(s, t) && InGet(PcAt(s.pcs, t))
    ensures GetMoves(s, AdvanceGet(s, t, novel, spurious), t)
  {
    var pc := PcAt(s.pcs, t);
    assert pc.GetCheck? || pc.GetLoad? || pc.GetCas? || pc.GetUnlock?;
    hide Runs, WaitsForLock;
  }

  /** Only a successful compare-and-swap changes the count. */
  lemma GetCount(s: State, t: Thread, novel: Strong, spurious: bool)
    requires Runs(s, t) && InGet(PcAt(s.pcs, t))
    ensures var s', pc' := AdvanceGet(s, t, novel, spurious), PcAt(AdvanceGet(s, t, novel, spurious).pcs, t);
      || (s'.ref == s.ref && s'.refs == s.refs && (pc'.GetUnlock? ==> pc'.got.None?))
      || (PcAt(s.pcs, t).GetCas? && s.ref == PcAt(s.pcs, t).seen && s'.ref == s.ref + 1 && s'.refs == s.refs + {novel}
          && pc' == GetUnlock(PcAt(s.pcs, t).h, Some(novel)))
  {
    match PcAt(s.pcs, t)
    case GetCheck(h) =>
    case GetLoad(h) =>
    case GetCas(h, seen) =>
    case GetUnlock(h, got) =>
  }

  lemma StrongGet(s: State, t: Thread, novel: Strong, spurious: bool)
    requires StrongInv(s) && Runs(s, t) && InGet(PcAt(s.pcs, t)) && (PcAt(s.pcs, t).GetCas? ==> novel !in s.refs)
    ensures StrongCounted(AdvanceGet(s, t, novel, spurious))
    ensures StrongLocal(s, AdvanceGet(s, t, novel, spurious), t)
  {
    hide AdvanceGet, HoldsLock, Uses;
    GetEffect(s, t, novel, spurious);
    GetCount(s, t, novel, spurious);
  }

  lemma GetKeeps(s: State, t: Thread, novel: Strong, spurious: bool)
    requires Inv(s) && Enabled(s, Continue(t, novel, spurious)) && InGet(PcAt(s.pcs, t))
    ensures Inv(AdvanceGet(s, t, novel, spurious))
  {
    hide AdvanceGet, Accounted;
    var s' := AdvanceGet(s, t, novel, spurious);
    OneThreadAdvances(s, t, novel, spurious);
    GetEffect(s, t, novel, spurious);
    StrongGet(s, t, novel, spurious);
    GetRest(s, s', t);
    hide *;
    Moved(s, s', t);
  }

  lemma GetRest(s: State, s': State, t: Thread)
    requires Inv(s) && Runs(s, t) && InGet(PcAt(s.pcs, t)) && OthersStay(s, s', t) && GetMoves(s, s', t)
    ensures PhaseLocal(s, s', t) && LockLocal(s, s', t) && DataCounted(s') && DataLocal(s, s', t)
    ensures WeakLocal(s, s', t) && NotifierInv(s')
  {
    QuietPhase(s, s', t);
    QuietData(s, s', t);
    QuietNotifier(s, s', t);
    hide PhaseLocal, DataLocal, NotifierInv, Destroying, StrongInv, PhaseInv, DataInv;
  }

  // The steps of AddNotifier and RemoveNotifier, and of letting go of WeakRefData.

  ghost predicate WeakMoves(s: State, s': State, t: Thread) {
    var pc, pc' := PcAt(s.pcs, t), PcAt(s'.pcs, t);
    && s'.ref == s.ref && s'.refs == s.refs && s'.destroyer == s.destroyer && s'.objectFreed == s.objectFreed
    && s'.ptrNull == s.ptrNull && s'.holdsData == s.holdsData && s'.ran == s.ran && s'.dataFreed == s.dataFreed
    && s'.mu == (if pc.AddUnlock? || pc.RemoveUnlock? then None else s.mu)
    && (pc'.Idle? || pc' == FreeData(false)
        || (pc.AddInsert? && pc'.AddUnlock? && pc'.h == pc.h)
        || ((pc.RemoveErase? || pc.RemoveUnlock?) && (pc'.RemoveUnlock? || pc'.DropData?) && pc'.h == pc.h && pc'.after == pc.after))
    && (HoldsLock(pc') <==> HoldsLock(pc) && !pc.AddUnlock? && !pc.RemoveUnlock?)
  }

  lemma WeakEffect(s: State, t: Thread)
    requires Runs(s, t) && InExclusive(PcAt(s.pcs, t))
    ensures WeakMoves(s, AdvanceWeak(s, t), t)
  {
    hide LetGo;
    match PcAt(s.pcs, t)
    case AddInsert(h) =>
    case AddUnlock(h, id) =>
    case RemoveErase(h, after) =>
    case RemoveUnlock(h, after) =>
    case DropData(h, after) =>
  }

  lemma LetGoSize(weaks: map<Weak, nat>, h: Weak, after: After)
    requires h in weaks && after != ThenMove(h)
    ensures |LetGo(weaks, h, after)| == |weaks| - 1
  {
    if after.ThenMove? && after.src in weaks {
      assert LetGo(weaks, h, after).Keys == weaks.Keys - {after.src};
    } else {
      assert LetGo(weaks, h, after).Keys == weaks.Keys - {h};
    }
  }

  lemma DataWeak(s: State, t: Thread)
    requires StrongInv(s) && PhaseInv(s) && DataInv(s) && WeakInv(s) && Runs(s, t) && InExclusive(PcAt(s.pcs, t))
    ensures DataCounted(AdvanceWeak(s, t))
    ensures DataLocal(s, AdvanceWeak(s, t), t)
  {
    hide HoldsLock, Uses, Returning, LetGo;
    match PcAt(s.pcs, t)
    case AddInsert(h) =>
    case AddUnlock(h, id) =>
    case RemoveErase(h, after) =>
    case RemoveUnlock(h, after) =>
    case DropData(h, after) =>
      LetGoSize(s.weaks, h, after);
  }

  lemma WeakWeak(s: State, t: Thread)
    requires WeakInv(s) && Runs(s, t) && InExclusive(PcAt(s.pcs, t))
    ensures WeakLocal(s, AdvanceWeak(s, t), t)
  {
    hide WeakLocal;
    if PcAt(s.pcs, t).DropData? {
      WeakDropped(s, t);
    } else {
      WeakEffect(s, t);
      WeakKeysKept(s, t);
      hide AdvanceWeak;
      WeakKeysLocal(s, AdvanceWeak(s, t), t);
    }
  }

  lemma WeakDropped(s: State, t: Thread)
    requires WeakInv(s) && PcAt(s.pcs, t).DropData?
    ensures WeakLocal(s, AdvanceWeak(s, t), t)
  {
    hide HoldsLock;
  }

  lemma WeakKeysKept(s: State, t: Thread)
    requires WeakInv(s) && InExclusive(PcAt(s.pcs, t)) && !PcAt(s.pcs, t).DropData?
    ensures AdvanceWeak(s, t).weaks.Keys == s.weaks.Keys
  {
    assert PcAt(s.pcs, t).h in s.weaks;
    hide WeakInv, LetGo;
    var pc := PcAt(s.pcs, t);
    if pc.AddInsert? {
    } else if pc.AddUnlock? {
    } else if pc.RemoveErase? {
    } else if pc.RemoveUnlock? {
    }
  }

  lemma WeakKeysLocal(s: State, s': State, t: Thread)
    requires WeakInv(s) && Runs(s, t) && InExclusive(PcAt(s.pcs, t)) && !PcAt(s.pcs, t).DropData?
    requires WeakMoves(s, s', t) && s'.weaks.Keys == s.weaks.Keys
    ensures WeakLocal(s, s', t)
  {
    hide HoldsLock;
  }

  lemma NotifierWeak(s: State, t: Thread)
    requires StrongInv(s) && PhaseInv(s) && LockInv(s) && NotifierInv(s) && Runs(s, t) && InExclusive(PcAt(s.pcs, t))
    ensures NotifierInv(AdvanceWeak(s, t))
  {
    hide NotifierInv, LetGo;
    var pc := PcAt(s.pcs, t);
    WeakPicked(s, t);
    if pc.AddInsert? {
      NotifierInserted(s, t);
    } else if pc.RemoveErase? {
      NotifierErased(s, t);
    } else {
      NotifierSame(s, t);
    }
  }

  lemma WeakPicked(s: State, t: Thread)
    requires StrongInv(s) && Runs(s, t) && InExclusive(PcAt(s.pcs, t))
    ensures var s' := AdvanceWeak(s, t); Picked(s') == Picked(s) && s'.ptrNull == s.ptrNull && s'.destroyer == s.destroyer
    ensures s.destroyer.Some? ==> PcAt(AdvanceWeak(s, t).pcs, s.destroyer.value) == PcAt(s.pcs, s.destroyer.value)
  {
    WeakEffect(s, t);
    OneThreadAdvances(s, t, 0, false);
    hide AdvanceWeak, HoldsLock;
    assert s.destroyer != Some(t);
  }

  lemma NotifierInserted(s: State, t: Thread)
    requires StrongInv(s) && PhaseInv(s) && LockInv(s) && NotifierInv(s) && PcAt(s.pcs, t).AddInsert?
    requires Picked(AdvanceWeak(s, t)) == Picked(s)
    requires s.destroyer.Some? ==> PcAt(AdvanceWeak(s, t).pcs, s.destroyer.value) == PcAt(s.pcs, s.destroyer.value)
    ensures NotifierInv(AdvanceWeak(s, t))
  {
    hide Accounted, Picked;
    NotifierAdded(s.notifiers, Picked(s), s.removed, s.nextId);
  }

  lemma NotifierErased(s: State, t: Thread)
    requires NotifierInv(s) && PcAt(s.pcs, t).RemoveErase? && Picked(AdvanceWeak(s, t)) == Picked(s)
    requires s.destroyer.Some? ==> PcAt(AdvanceWeak(s, t).pcs, s.destroyer.value) == PcAt(s.pcs, s.destroyer.value)
    ensures NotifierInv(AdvanceWeak(s, t))
  {
    hide Accounted, Picked;
    var pc := PcAt(s.pcs, t);
    NotifierRemoved(s.notifiers, Picked(s), s.removed, s.nextId, if pc.h in s.weaks then s.weaks[pc.h] else 0);
  }

  lemma NotifierSame(s: State, t: Thread)
    requires NotifierInv(s) && InExclusive(PcAt(s.pcs, t)) && !PcAt(s.pcs, t).AddInsert? && !PcAt(s.pcs, t).RemoveErase?
    requires Picked(AdvanceWeak(s, t)) == Picked(s)
    requires s.destroyer.Some? ==> PcAt(AdvanceWeak(s, t).pcs, s.destroyer.value) == PcAt(s.pcs, s.destroyer.value)
    ensures NotifierInv(AdvanceWeak(s, t))
  {
    hide Accounted, Picked, LetGo;
  }

  lemma WeakKeeps(s: State, t: Thread)
    requires Inv(s) && Runs(s, t) && InExclusive(PcAt(s.pcs, t))
    ensures Inv(AdvanceWeak(s, t))
  {
    hide AdvanceWeak;
    var s' := AdvanceWeak(s, t);
    OneThreadAdvances(s, t, 0, false);
    WeakEffect(s, t);
    DataWeak(s, t);
    WeakWeak(s, t);
    NotifierWeak(s, t);
    hide DataLocal, WeakLocal, NotifierInv, DataInv, WeakInv, Accounted;
    QuietStrong(s, s', t);
    QuietPhase(s, s', t);
    assert LockLocal(s, s', t);
    hide *;
    Moved(s, s', t);
  }

  // The steps of destruction.

  /** A thread in Notify that does not wait for the lock. */
  predicate NotifyRuns(pc: Pc) {
    pc.NotifyLoop? || pc.NotifyUnlock? || pc.NotifyCall? || pc.NotifyClear? || pc.NotifyDone?
  }

  /** A thread that has left Notify. */
  predicate Frees(pc: Pc) {
    pc.ReleaseData? || pc.FreeData? || pc.FreeObject?
  }

  lemma DestroyPoints(s: State, t: Thread)
    requires Runs(s, t) && InDestroy(PcAt(s.pcs, t))
    ensures NotifyRuns(PcAt(s.pcs, t)) || Frees(PcAt(s.pcs, t))
  {}

  ghost predicate DestroyMoves(s: State, s': State, t: Thread) {
    var pc, pc' := PcAt(s.pcs, t), PcAt(s'.pcs, t);
    && s'.weaks == s.weaks && s'.ref == s.ref && s'.refs == s.refs && s'.removed == s.removed && s'.nextId == s.nextId
    && (InDestroy(pc') || pc'.Idle?)
  }

  lemma DestroyEffect(s: State, t: Thread)
    requires Runs(s, t) && InDestroy(PcAt(s.pcs, t))
    ensures DestroyMoves(s, AdvanceDestroy(s, t), t)
  {
    DestroyPoints(s, t);
    hide Runs, InDestroy, AdvanceDestroy, DestroyMoves;
    if NotifyRuns(PcAt(s.pcs, t)) {
      NotifyEffect(s, t);
    } else {
      FreeEffect(s, t);
    }
  }

  lemma NotifyEffect(s: State, t: Thread)
    requires NotifyRuns(PcAt(s.pcs, t))
    ensures DestroyMoves(s, AdvanceDestroy(s, t), t)
    ensures var s', pc' := AdvanceDestroy(s, t), PcAt(AdvanceDestroy(s, t).pcs, t);
      s'.destroyer == s.destroyer && s'.objectFreed == s.objectFreed && Destroying(pc')
  {
    hide AdvanceDestroy, DestroyMoves, Destroying;
    if PcAt(s.pcs, t).NotifyLoop? {
      LoopEffect(s, t);
    } else if PcAt(s.pcs, t).NotifyUnlock? || PcAt(s.pcs, t).NotifyCall? {
      CallEffect(s, t);
    } else {
      ClearEffect(s, t);
    }
  }

  lemma LoopEffect(s: State, t: Thread)
    requires PcAt(s.pcs, t).NotifyLoop?
    ensures DestroyMoves(s, AdvanceDestroy(s, t), t)
    ensures var s', pc' := AdvanceDestroy(s, t), PcAt(AdvanceDestroy(s, t).pcs, t);
      s'.destroyer == s.destroyer && s'.objectFreed == s.objectFreed && Destroying(pc')
  {
    hide Begin;
  }

  lemma CallEffect(s: State, t: Thread)
    requires PcAt(s.pcs, t).NotifyUnlock? || PcAt(s.pcs, t).NotifyCall?
    ensures DestroyMoves(s, AdvanceDestroy(s, t), t)
    ensures var s', pc' := AdvanceDestroy(s, t), PcAt(AdvanceDestroy(s, t).pcs, t);
      s'.destroyer == s.destroyer && s'.objectFreed == s.objectFreed && Destroying(pc')
  {
    match PcAt(s.pcs, t)
    case NotifyUnlock(id) =>
    case NotifyCall(id) =>
  }

  lemma ClearEffect(s: State, t: Thread)
    requires PcAt(s.pcs, t).NotifyClear? || PcAt(s.pcs, t).NotifyDone?
    ensures DestroyMoves(s, AdvanceDestroy(s, t), t)
    ensures var s', pc' := AdvanceDestroy(s, t), PcAt(AdvanceDestroy(s, t).pcs, t);
      s'.destroyer == s.destroyer && s'.objectFreed == s.objectFreed && Destroying(pc')
  {
    match PcAt(s.pcs, t)
    case NotifyClear =>
    case NotifyDone =>
  }

  lemma FreeEffect(s: State, t: Thread)
    requires Frees(PcAt(s.pcs, t))
    ensures DestroyMoves(s, AdvanceDestroy(s, t), t)
    ensures var s', pc, pc' := AdvanceDestroy(s, t), PcAt(s.pcs, t), PcAt(AdvanceDestroy(s, t).pcs, t);
      if pc.FreeObject? then s'.destroyer.None? && s'.objectFreed && pc'.Idle?
      else s'.destroyer == s.destroyer && s'.objectFreed == s.objectFreed && (Destroying(pc') <==> Destroying(pc))
  {
    match PcAt(s.pcs, t)
    case ReleaseData =>
    case FreeData(last) =>
    case FreeObject =>
  }

  lemma LockDestroy(s: State, t: Thread)
    requires LockInv(s) && Runs(s, t) && InDestroy(PcAt(s.pcs, t))
    ensures LockLocal(s, AdvanceDestroy(s, t), t)
  {
    hide InGet, InExclusive, Begin;
    assert HoldsLock(PcAt(s.pcs, t)) <==> s.mu == Some(t);
    hide LockInv;
    if HoldsLock(PcAt(s.pcs, t)) {
      match PcAt(s.pcs, t)
      case NotifyLoop =>
      case NotifyUnlock(id) =>
      case NotifyClear =>
      case NotifyDone =>
    } else {
      LockDestroyOutside(s, t);
    }
  }

  lemma LockDestroyOutside(s: State, t: Thread)
    requires s.mu != Some(t) && Runs(s, t) && InDestroy(PcAt(s.pcs, t)) && !HoldsLock(PcAt(s.pcs, t))
    ensures LockLocal(s, AdvanceDestroy(s, t), t)
  {
    DestroyPoints(s, t);
    hide Runs, InDestroy;
    if PcAt(s.pcs, t).NotifyCall? {
      hide LockLocal;
      LockCall(s, t);
    } else {
      hide LockLocal, AdvanceDestroy;
      LockFree(s, t);
    }
  }

  lemma LockCall(s: State, t: Thread)
    requires s.mu != Some(t) && PcAt(s.pcs, t).NotifyCall?
    ensures LockLocal(s, AdvanceDestroy(s, t), t)
  {}

  lemma LockFree(s: State, t: Thread)
    requires s.mu != Some(t) && Frees(PcAt(s.pcs, t))
    ensures LockLocal(s, AdvanceDestroy(s, t), t)
  {
    match PcAt(s.pcs, t)
    case ReleaseData =>
    case FreeData(last) =>
    case FreeObject =>
  }

  lemma DestroyerEffect(s: State, t: Thread)
    requires Runs(s, t) && InDestroy(PcAt(s.pcs, t))
    ensures var s', pc, pc' := AdvanceDestroy(s, t), PcAt(s.pcs, t), PcAt(AdvanceDestroy(s, t).pcs, t);
      if pc.FreeObject? then s'.destroyer.None? && s'.objectFreed && pc'.Idle?
      else s'.destroyer == s.destroyer && s'.objectFreed == s.objectFreed && (Destroying(pc') <==> Destroying(pc))
  {
    DestroyPoints(s, t);
    hide Runs, InDestroy, AdvanceDestroy, DestroyMoves;
    if NotifyRuns(PcAt(s.pcs, t)) {
      NotifyEffect(s, t);
    } else {
      FreeEffect(s, t);
    }
  }

  lemma StrongDestroy(s: State, t: Thread)
    requires StrongInv(s) && Runs(s, t) && InDestroy(PcAt(s.pcs, t))
    ensures StrongCounted(AdvanceDestroy(s, t))
    ensures StrongLocal(s, AdvanceDestroy(s, t), t)
  {
    DestroyEffect(s, t);
    DestroyerEffect(s, t);
    hide AdvanceDestroy, InGet, InExclusive, HoldsLock, Runs;
  }

  lemma PhaseDestroy(s: State, t: Thread)
    requires StrongInv(s) && PhaseInv(s) && LockInv(s) && Runs(s, t) && InDestroy(PcAt(s.pcs, t))
    ensures PhaseLocal(s, AdvanceDestroy(s, t), t)
  {
    hide Uses, Returning, Begin;
    match PcAt(s.pcs, t)
    case NotifyLoop =>
    case NotifyUnlock(id) =>
    case NotifyCall(id) =>
    case NotifyClear =>
    case NotifyDone =>
    case ReleaseData =>
    case FreeData(last) =>
    case FreeObject =>
  }

  lemma DataDestroy(s: State, t: Thread)
    requires StrongInv(s) && PhaseInv(s) && DataInv(s) && WeakInv(s) && Runs(s, t) && InDestroy(PcAt(s.pcs, t))
    ensures DataCounted(AdvanceDestroy(s, t))
    ensures DataLocal(s, AdvanceDestroy(s, t), t)
  {
    hide HoldsLock, Uses, Returning, Begin;
    match PcAt(s.pcs, t)
    case NotifyLoop =>
    case NotifyUnlock(id) =>
    case NotifyCall(id) =>
    case NotifyClear =>
    case NotifyDone =>
    case ReleaseData =>
    case FreeData(last) =>
    case FreeObject =>
  }

  lemma NotifierDestroy(s: State, t: Thread)
    requires StrongInv(s) && PhaseInv(s) && NotifierInv(s) && Runs(s, t) && InDestroy(PcAt(s.pcs, t))
    ensures NotifierInv(AdvanceDestroy(s, t))
  {
    hide Accounted, HoldsLock, Uses, Returning, Begin;
    if PcAt(s.pcs, t).NotifyLoop? {
      hide AdvanceDestroy, NotifierInv;
      NotifierLoop(s, t);
    } else {
      hide AdvanceDestroy, NotifierInv;
      NotifierStays(s, t);
    }
  }

  lemma NotifierStays(s: State, t: Thread)
    requires StrongInv(s) && PhaseInv(s) && NotifierInv(s) && Runs(s, t) && InDestroy(PcAt(s.pcs, t)) && !PcAt(s.pcs, t).NotifyLoop?
    ensures NotifierInv(AdvanceDestroy(s, t))
  {
    hide Accounted;
    DestroyPoints(s, t);
    hide Runs, InDestroy;
    if Frees(PcAt(s.pcs, t)) {
      NotifierFreed(s, t);
    } else {
      assert s.destroyer == Some(t);
      hide StrongInv, PhaseInv;
      NotifierCalled(s, t);
    }
  }

  lemma NotifierFreed(s: State, t: Thread)
    requires StrongInv(s) && PhaseInv(s) && NotifierInv(s) && Frees(PcAt(s.pcs, t))
    ensures NotifierInv(AdvanceDestroy(s, t))
  {
    hide Accounted;
    OneThreadAdvances(s, t, 0, false);
    match PcAt(s.pcs, t)
    case ReleaseData =>
    case FreeData(last) =>
      assert Picked(AdvanceDestroy(s, t)) == Picked(s);
    case FreeObject =>
  }

  lemma NotifierCalled(s: State, t: Thread)
    requires NotifierInv(s) && NotifyRuns(PcAt(s.pcs, t)) && !PcAt(s.pcs, t).NotifyLoop? && s.destroyer == Some(t)
    ensures NotifierInv(AdvanceDestroy(s, t))
  {
    hide Accounted, NotifierInv;
    if PcAt(s.pcs, t).NotifyUnlock? || PcAt(s.pcs, t).NotifyCall? {
      NotifierRan(s, t);
    } else {
      NotifierCleared(s, t);
    }
  }

  lemma NotifierRan(s: State, t: Thread)
    requires NotifierInv(s) && (PcAt(s.pcs, t).NotifyUnlock? || PcAt(s.pcs, t).NotifyCall?) && s.destroyer == Some(t)
    ensures NotifierInv(AdvanceDestroy(s, t))
  {
    hide Accounted;
    assert Picked(AdvanceDestroy(s, t)) == Picked(s);
  }

  lemma NotifierCleared(s: State, t: Thread)
    requires NotifierInv(s) && (PcAt(s.pcs, t).NotifyClear? || PcAt(s.pcs, t).NotifyDone?) && s.destroyer == Some(t)
    ensures NotifierInv(AdvanceDestroy(s, t))
  {
    hide Accounted;
    assert Picked(AdvanceDestroy(s, t)) == Picked(s);
  }

  lemma NotifierLoop(s: State, t: Thread)
    requires StrongInv(s) && PhaseInv(s) && NotifierInv(s) && PcAt(s.pcs, t).NotifyLoop?
    ensures NotifierInv(AdvanceDestroy(s, t))
  {
    hide Accounted, HoldsLock, Uses, Returning, Begin;
    var next := AdvanceDestroy(s, t);
    assert s.destroyer == Some(t);
    if s.notifiers != {} {
      assert Picked(next) == Picked(s) + [Begin(s.notifiers)];
      NotifierPicked(s.notifiers, Picked(s), s.removed, s.nextId);
    } else {
      assert Picked(next) == Picked(s);
    }
  }

  lemma DestroyKeeps(s: State, t: Thread)
    requires Inv(s) && Runs(s, t) && InDestroy(PcAt(s.pcs, t))
    ensures Inv(AdvanceDestroy(s, t))
  {
    hide AdvanceDestroy;
    var s' := AdvanceDestroy(s, t);
    OneThreadAdvances(s, t, 0, false);
    DestroyEffect(s, t);
    LockDestroy(s, t);
    StrongDestroy(s, t);
    PhaseDestroy(s, t);
    DataDestroy(s, t);
    NotifierDestroy(s, t);
    hide StrongLocal, PhaseLocal, LockLocal, DataLocal, NotifierInv, StrongInv, PhaseInv, LockInv, DataInv, Accounted;
    assert WeakLocal(s, s', t);
    hide *;
    Moved(s, s', t);
  }

  // The steps that begin an operation, take the lock, or are an operation by themselves.

  ghost predicate StartMoves(s: State, l: Label, s': State) {
    var pc, pc' := PcAt(s.pcs, l.t), PcAt(s'.pcs, l.t);
    && s'.ptrNull == s.ptrNull && s'.holdsData == s.holdsData && s'.notifiers == s.notifiers && s'.nextId == s.nextId
    && s'.objectFreed == s.objectFreed && s'.dataFreed == s.dataFreed && s'.ran == s.ran && s'.removed == s.removed
    && s'.mu == (if l.Acquire? then Some(l.t) else s.mu)
    && (!l.CopyRef? && !l.DropRef? ==> s'.ref == s.ref && s'.refs == s.refs && s'.destroyer == s.destroyer)
    && (!l.MakeWeak? && !l.MoveWeak? ==> s'.weaks == s.weaks && s'.dataRef == s.dataRef)
    && if l.Acquire? then s.mu.None? && WaitsForLock(pc) && pc' == Locked(pc)
       else pc.Idle? && (pc'.Idle? || pc'.GetLock? || pc'.AddLock? || pc'.RemoveLock? || pc'.DropData?
                         || (l.DropRef? && pc'.NotifyLock? && s.ref == 1))
  }

  lemma StartEffect(s: State, l: Label)
    requires Enabled(s, l) && !l.Continue?
    ensures StartMoves(s, l, Next(s, l))
  {
    hide HoldsLock, Uses, Returning, Destroying, Unused, Owned;
    match l
    case CopyRef(t, r, novel) =>
    case DropRef(t, r) =>
    case StartGet(t, h) =>
    case MakeWeak(t, r, h, n) =>
    case DestroyWeak(t, h) =>
    case MoveWeak(t, src, dst) =>
    case MoveOver(t, src, dst) =>
    case Acquire(t) =>
  }

  lemma StrongStart(s: State, l: Label)
    requires StrongInv(s) && Enabled(s, l) && !l.Continue?
    ensures StrongCounted(Next(s, l)) && StrongLocal(s, Next(s, l), l.t)
  {
    if l.CopyRef? {
      StrongCopy(s, l);
    } else if l.DropRef? {
      StrongDrop(s, l);
    } else {
      StartEffect(s, l);
      hide Next, Enabled;
      QuietStrong(s, Next(s, l), l.t);
    }
  }

  lemma StrongCopy(s: State, l: Label)
    requires StrongInv(s) && Enabled(s, l) && l.CopyRef?
    ensures StrongCounted(Next(s, l)) && StrongLocal(s, Next(s, l), l.t)
  {
    assert l.r in s.refs;
  }

  lemma StrongDrop(s: State, l: Label)
    requires StrongInv(s) && Enabled(s, l) && l.DropRef?
    ensures StrongCounted(Next(s, l)) && StrongLocal(s, Next(s, l), l.t)
  {
    assert l.r in s.refs;
  }

  lemma PhaseStart(s: State, s': State, l: Label)
    requires StrongInv(s) && PhaseInv(s) && OthersStay(s, s', l.t) && StartMoves(s, l, s')
    requires l.DropRef? ==> s'.destroyer == s.destroyer || (s'.destroyer == Some(l.t) && PcAt(s'.pcs, l.t).NotifyLock?)
    requires l.CopyRef? ==> s'.destroyer == s.destroyer
    ensures PhaseLocal(s, s', l.t)
  {}

  lemma NotifierStart(s: State, s': State, l: Label)
    requires StrongInv(s) && NotifierInv(s) && OthersStay(s, s', l.t) && StartMoves(s, l, s')
    requires l.DropRef? ==> s'.destroyer == s.destroyer || (s'.destroyer == Some(l.t) && PcAt(s'.pcs, l.t).NotifyLock?)
    requires l.CopyRef? ==> s'.destroyer == s.destroyer
    ensures NotifierInv(s')
  {
    hide Accounted;
    assert Picked(s') == Picked(s);
  }

  lemma MoveSize(weaks: map<Weak, nat>, src: Weak, dst: Weak)
    requires src in weaks && dst !in weaks
    ensures |(weaks - {src})[dst := weaks[src]]| == |weaks|
  {
    assert (weaks - {src})[dst := weaks[src]].Keys == weaks.Keys - {src} + {dst};
  }

  lemma DataStart(s: State, l: Label)
    requires StrongInv(s) && PhaseInv(s) && DataInv(s) && Enabled(s, l) && !l.Continue?
    ensures DataCounted(Next(s, l)) && DataLocal(s, Next(s, l), l.t)
  {
    hide HoldsLock, Uses, Returning;
    if l.MoveWeak? {
      MoveSize(s.weaks, l.src, l.dst);
    } else if !l.MakeWeak? {
      StartEffect(s, l);
      hide Next, Enabled;
      QuietData(s, Next(s, l), l.t);
    }
  }

  lemma WeakStart(s: State, l: Label)
    requires WeakInv(s) && Enabled(s, l) && !l.Continue? && !l.DestroyWeak? && !l.MoveOver?
    ensures WeakLocal(s, Next(s, l), l.t)
  {
    hide HoldsLock, Returning, Destroying, Reaches, Owned;
    if l.CopyRef? || l.DropRef? || l.Acquire? {
      StartEffect(s, l);
      hide Next, Enabled;
      if !l.Acquire? { UsesNone(s, l); }
      hide Unused;
    } else {
      hide StartMoves;
      WeakStartOther(s, l);
    }
  }

  lemma WeakStartOther(s: State, l: Label)
    requires WeakInv(s) && Enabled(s, l) && (l.StartGet? || l.MakeWeak? || l.MoveWeak?)
    ensures WeakLocal(s, Next(s, l), l.t)
  {
    hide HoldsLock, Returning, Destroying, Reaches, Owned;
    if l.StartGet? {
    } else if l.MakeWeak? {
    }
  }

  lemma UsesNone(s: State, l: Label)
    requires Enabled(s, l) && (l.CopyRef? || l.DropRef?)
    ensures PcAt(Next(s, l).pcs, l.t).Idle? || PcAt(Next(s, l).pcs, l.t).NotifyLock?
  {
    hide Returning;
  }

  lemma WeakRelease(s: State, l: Label)
    requires WeakInv(s) && Enabled(s, l) && (l.DestroyWeak? || l.MoveOver?)
    ensures WeakLocal(s, Next(s, l), l.t)
  {
    hide HoldsLock, Returning, Destroying;
  }

  lemma DropRefEffect(s: State, l: Label)
    requires Enabled(s, l) && (l.DropRef? || l.CopyRef?)
    ensures var s' := Next(s, l);
      s'.destroyer == s.destroyer || (l.DropRef? && s'.destroyer == Some(l.t) && PcAt(s'.pcs, l.t).NotifyLock?)
  {
    hide Returning;
  }

  lemma StartKeeps(s: State, l: Label)
    requires Inv(s) && Enabled(s, l) && !l.Continue?
    ensures Inv(Next(s, l))
  {
    hide Next, Enabled, Accounted;
    var s' := Next(s, l);
    OneThreadMoves(s, l);
    StartEffect(s, l);
    StrongStart(s, l);
    if l.DropRef? || l.CopyRef? { DropRefEffect(s, l); }
    PhaseStart(s, s', l);
    NotifierStart(s, s', l);
    DataStart(s, l);
    if l.DestroyWeak? || l.MoveOver? {
      WeakRelease(s, l);
    } else {
      WeakStart(s, l);
    }
    hide StrongLocal, PhaseLocal, DataLocal, WeakLocal, NotifierInv, StrongInv, PhaseInv, DataInv, WeakInv, OthersStay;
    assert LockLocal(s, s', l.t);
    hide *;
    Moved(s, s', l.t);
  }

  lemma NotifierAdded(notifiers: set<nat>, picked: seq<nat>, removed: set<nat>, nextId: nat)
    requires Accounted(notifiers, picked, removed, nextId)
    ensures Accounted(notifiers + {nextId}, picked, removed, nextId + 1)
  {
    assert nextId !in removed && nextId !in picked;
  }

  lemma NotifierRemoved(notifiers: set<nat>, picked: seq<nat>, removed: set<nat>, nextId: nat, id: nat)
    requires Accounted(notifiers, picked, removed, nextId)
    ensures Accounted(notifiers - {id}, picked, if id in notifiers then removed + {id} else removed, nextId)
  {
    assert notifiers - {id} <= notifiers;
  }

  lemma NotifierPicked(notifiers: set<nat>, picked: seq<nat>, removed: set<nat>, nextId: nat)
    requires notifiers != {} && Accounted(notifiers, picked, removed, nextId)
    ensures Accounted(notifiers - {Begin(notifiers)}, picked + [Begin(notifiers)], removed, nextId)
  {
    var id := Begin(notifiers);
    var after := picked + [id];
    assert forall other :: other in after <==> other in picked || other == id;
    assert forall i | 0 <= i < |picked| :: picked[i] in picked;
  }

  lemma StepInv(s: State, l: Label)
    requires Inv(s) && Enabled(s, l)
    ensures Inv(Next(s, l))
  {
    hide Inv, AdvanceGet, AdvanceWeak, AdvanceDestroy;
    if !l.Continue? {
      StartKeeps(s, l);
    } else if InGet(PcAt(s.pcs, l.t)) {
      GetKeeps(s, l.t, l.novel, l.spurious);
    } else if InExclusive(PcAt(s.pcs, l.t)) {
      WeakKeeps(s, l.t);
    } else {
      DestroyKeeps(s, l.t);
    }
  }

  // ---------------------------------------------------------------- every run

  /** The labels, in this order, are steps that can be taken from s. */
  ghost predicate IsRun(s: State, labels: seq<Label>)
    decreases |labels|
  {
    labels == [] || (Enabled(s, labels[0]) && IsRun(Next(s, labels[0]), labels[1..]))
  }

  ghost function Final(s: State, labels: seq<Label>): State
    requires IsRun(s, labels)
    decreases |labels|
  {
    if labels == [] then s else Final(Next(s, labels[0]), labels[1..])
  }

  lemma {:induction false} RunInv(s: State, labels: seq<Label>)
    requires Inv(s) && IsRun(s, labels)
    ensures Inv(Final(s, labels))
    decreases |labels|
  {
    hide Inv, Enabled, Next;
    if labels != [] {
      StepInv(s, labels[0]);
      RunInv(Next(s, labels[0]), labels[1..]);
    }
  }

  /** Safety over every run that starts with a new object: what a thread touches has not been freed, and the
      object is freed only once its WeakRefData no longer points to it. */
  lemma NothingFreedIsTouched(labels: seq<Label>)
    requires IsRun(Init, labels)
    ensures var s := Final(Init, labels);
      && (s.objectFreed ==> s.ptrNull)
      && (forall t: Thread :: TouchesObject(PcAt(s.pcs, t)) ==> !s.objectFreed)
      && (forall t: Thread :: TouchesData(PcAt(s.pcs, t)) ==> !s.dataFreed)
  {
    hide Enabled, Next;
    InitInv();
    RunInv(Init, labels);
    var s := Final(Init, labels);
    hide Final, IsRun, NotifierInv, LockInv;
    forall t: Thread ensures TouchesData(PcAt(s.pcs, t)) ==> !s.dataFreed {
      var pc := PcAt(s.pcs, t);
      if InGet(pc) || InExclusive(pc) {
        assert pc.h in s.weaks;
      }
    }
  }

  /** When nothing refers to the object or its WeakRefData and no operation is under way, both are freed. */
  lemma NothingLeaks(labels: seq<Label>)
    requires IsRun(Init, labels)
    ensures var s := Final(Init, labels);
      s.refs == {} && s.weaks == map[] && (forall t: Thread :: PcAt(s.pcs, t).Idle?) ==> s.objectFreed && s.dataFreed
  {
    hide Enabled, Next;
    InitInv();
    RunInv(Init, labels);
    var s := Final(Init, labels);
    hide Final, IsRun, NotifierInv, LockInv, WeakInv;
  }

  /** A reference that GetNewRef is about to return counts, and the destruction of its object has not begun. */
  lemma NewRefIsAlive(labels: seq<Label>, t: Thread, r: Strong)
    requires IsRun(Init, labels) && Returning(PcAt(Final(Init, labels).pcs, t), r)
    ensures var s := Final(Init, labels);
      r in s.refs && s.ref > 0 && s.destroyer.None? && !s.objectFreed && !s.ptrNull
  {
    hide Enabled, Next;
    InitInv();
    RunInv(Init, labels);
    var s := Final(Init, labels);
    hide Final, IsRun, NotifierInv, LockInv, WeakInv, DataInv;
    assert s.refs != {};
  }

  /** What WeakRefCount reports: the count of WeakRefData is the number of WeakPtrs plus the object's own, which
      it has from the start until its destructor lets go of it. */
  lemma WeakCountIsExact(labels: seq<Label>)
    requires IsRun(Init, labels)
    ensures var s := Final(Init, labels);
      && s.dataRef == |s.weaks| + (if s.holdsData then 1 else 0)
      && (s.holdsData <==> s.ref > 0 || (s.destroyer.Some? && !PastRelease(PcAt(s.pcs, s.destroyer.value))))
      && (s.ref > 0 ==> s.dataRef - 1 == |s.weaks|)
      && (s.objectFreed ==> s.dataRef == |s.weaks|)
      && s.ref == |s.refs|
  {
    hide Enabled, Next;
    InitInv();
    RunInv(Init, labels);
    var s := Final(Init, labels);
    hide Final, IsRun, NotifierInv, LockInv, WeakInv;
  }

  lemma StaysZeroStep(s: State, l: Label)
    requires Inv(s) && Enabled(s, l) && s.ref == 0
    ensures Next(s, l).ref == 0
  {
    hide PhaseInv, LockInv, DataInv, WeakInv, NotifierInv, AdvanceGet, AdvanceWeak, AdvanceDestroy;
    assert s.refs == {};
    if !l.Continue? {
      StartEffect(s, l);
    } else if InGet(PcAt(s.pcs, l.t)) {
      GetCount(s, l.t, l.novel, l.spurious);
    } else if InExclusive(PcAt(s.pcs, l.t)) {
      WeakEffect(s, l.t);
    } else {
      DestroyEffect(s, l.t);
    }
  }

  /** A strong count that has reached 0 stays there, in every continuation. */
  lemma {:induction false} NoResurrection(s: State, labels: seq<Label>)
    requires Inv(s) && s.ref == 0 && IsRun(s, labels)
    ensures Final(s, labels).ref == 0
    decreases |labels|
  {
    hide Inv, Enabled, Next;
    if labels != [] {
      StepInv(s, labels[0]);
      StaysZeroStep(s, labels[0]);
      NoResurrection(Next(s, labels[0]), labels[1..]);
    }
  }

  /** GetNewRef is about to return null only when the strong count is 0. */
  ghost predicate NullIsJustified(s: State) {
    forall t: Thread :: IsNull(PcAt(s.pcs, t)) ==> s.ref == 0
  }

  predicate IsNull(pc: Pc) {
    pc.GetUnlock? && pc.got.None?
  }

  lemma NullFromGet(s: State, t: Thread, novel: Strong, spurious: bool)
    requires StrongInv(s) && PhaseFlags(s) && Runs(s, t) && InGet(PcAt(s.pcs, t))
    ensures IsNull(PcAt(AdvanceGet(s, t, novel, spurious).pcs, t)) ==> s.ref == 0
  {
    match PcAt(s.pcs, t)
    case GetCheck(h) =>
    case GetLoad(h) =>
    case GetCas(h, seen) =>
    case GetUnlock(h, got) =>
  }

  lemma NullStep(s: State, l: Label)
    requires Inv(s) && Enabled(s, l) && NullIsJustified(s)
    ensures NullIsJustified(Next(s, l))
  {
    OneThreadMoves(s, l);
    if s.ref == 0 { StaysZeroStep(s, l); }
    hide LockInv, DataInv, WeakInv, NotifierInv, AdvanceGet, AdvanceWeak, AdvanceDestroy, HoldsLock, InTryRef;
    if !l.Continue? {
      StartEffect(s, l);
      hide Next, Enabled;
    } else if InGet(PcAt(s.pcs, l.t)) {
      NullFromGet(s, l.t, l.novel, l.spurious);
    } else if InExclusive(PcAt(s.pcs, l.t)) {
      WeakEffect(s, l.t);
    } else {
      DestroyEffect(s, l.t);
    }
  }

  lemma {:induction false} NullRun(s: State, labels: seq<Label>)
    requires Inv(s) && NullIsJustified(s) && IsRun(s, labels)
    ensures NullIsJustified(Final(s, labels))
    decreases |labels|
  {
    if labels != [] {
      hide Inv, Enabled, Next, NullIsJustified;
      NullStep(s, labels[0]);
      StepInv(s, labels[0]);
      NullRun(Next(s, labels[0]), labels[1..]);
    }
  }

  /** GetNewRef returns null only once destruction has begun: the count is 0, and then it stays 0. */
  lemma NullMeansDestroyed(labels: seq<Label>, t: Thread)
    requires IsRun(Init, labels) && IsNull(PcAt(Final(Init, labels).pcs, t))
    ensures var s := Final(Init, labels); s.ref == 0 && (s.destroyer.Some? || s.objectFreed)
  {
    InitInv();
    assert NullIsJustified(Init);
    hide Enabled, Next, IsRun, Final, PhaseInv, LockInv, DataInv, WeakInv, NotifierInv;
    RunInv(Init, labels);
    NullRun(Init, labels);
  }

  // ---------------------------------------------------------------- notifiers over every run

  /** How the notifiers of one state continue those of an earlier one. */
  ghost predicate Extends(s: State, s': State) {
    && s.ran <= s'.ran
    && Picked(s) <= Picked(s')
    && s.removed <= s'.removed
    && (s.ptrNull ==> s'.ptrNull && s'.nextId == s.nextId && s'.ran == s.ran)
  }

  lemma ExtendsGet(s: State, t: Thread, novel: Strong, spurious: bool)
    requires StrongInv(s) && NotifierInv(s) && Runs(s, t) && InGet(PcAt(s.pcs, t))
    ensures Extends(s, AdvanceGet(s, t, novel, spurious))
  {
    hide AdvanceGet;
    OneThreadAdvances(s, t, novel, spurious);
    GetEffect(s, t, novel, spurious);
    QuietNotifier(s, AdvanceGet(s, t, novel, spurious), t);
  }

  lemma ExtendsWeak(s: State, t: Thread)
    requires StrongInv(s) && Runs(s, t) && InExclusive(PcAt(s.pcs, t))
    ensures Extends(s, AdvanceWeak(s, t))
  {
    OneThreadAdvances(s, t, 0, false);
    WeakEffect(s, t);
    WeakRecords(s, t);
    hide AdvanceWeak, HoldsLock, Uses, Returning;
    assert Picked(AdvanceWeak(s, t)) == Picked(s);
  }

  lemma WeakRecords(s: State, t: Thread)
    requires InExclusive(PcAt(s.pcs, t))
    ensures s.removed <= AdvanceWeak(s, t).removed && (s.ptrNull ==> AdvanceWeak(s, t).nextId == s.nextId)
  {
    hide LetGo;
    var pc := PcAt(s.pcs, t);
    if pc.AddInsert? {
    } else if pc.AddUnlock? {
    } else if pc.RemoveErase? {
    } else if pc.RemoveUnlock? {
    } else if pc.DropData? {
    }
  }

  lemma ExtendsDestroy(s: State, t: Thread)
    requires StrongInv(s) && PhaseInv(s) && Runs(s, t) && InDestroy(PcAt(s.pcs, t))
    ensures Extends(s, AdvanceDestroy(s, t))
  {
    hide HoldsLock, Uses, Returning, Begin;
  }

  lemma ExtendsStep(s: State, l: Label)
    requires Inv(s) && Enabled(s, l)
    ensures Extends(s, Next(s, l))
  {
    hide PhaseInv, LockInv, DataInv, WeakInv, NotifierInv, AdvanceGet, AdvanceWeak, AdvanceDestroy;
    if !l.Continue? {
      OneThreadMoves(s, l);
      StartEffect(s, l);
      if l.DropRef? || l.CopyRef? { DropRefEffect(s, l); }
      hide Next, Enabled;
      assert Picked(Next(s, l)) == Picked(s);
    } else {
      hide Extends, StrongInv;
      if InGet(PcAt(s.pcs, l.t)) {
        ExtendsGet(s, l.t, l.novel, l.spurious);
      } else if InExclusive(PcAt(s.pcs, l.t)) {
        ExtendsWeak(s, l.t);
      } else {
        ExtendsDestroy(s, l.t);
      }
    }
  }

  lemma {:induction false} ExtendsRun(s: State, labels: seq<Label>)
    requires Inv(s) && IsRun(s, labels)
    ensures Extends(s, Final(s, labels))
    decreases |labels|
  {
    if labels != [] {
      hide Inv, Enabled, Next, Picked;
      StepInv(s, labels[0]);
      ExtendsStep(s, labels[0]);
      ExtendsRun(Next(s, labels[0]), labels[1..]);
    }
  }

  /** Every registered notifier runs at most once, in the order of registration, and none that was removed
      runs; once ptr is null each has run, exactly once, or was removed, and none is waiting. */
  lemma NotifiersRunAtMostOnce(labels: seq<Label>)
    requires IsRun(Init, labels)
    ensures var s := Final(Init, labels);
      && Increasing(s.ran)
      && (forall id | id in s.ran :: 0 < id < s.nextId && id !in s.removed && id !in s.notifiers)
      && (s.ptrNull ==>
            s.notifiers == {} && forall id: nat | 0 < id < s.nextId :: id in s.ran <==> id !in s.removed)
  {
    hide Enabled, Next;
    InitInv();
    RunInv(Init, labels);
    var s := Final(Init, labels);
    hide Final, IsRun, LockInv, WeakInv, DataInv, HoldsLock;
    assert forall id | id in s.ran :: id in Picked(s);
    assert forall i | 0 <= i < |s.ran| :: s.ran[i] == Picked(s)[i];
    assert s.ptrNull ==> Picked(s) == s.ran;
  }

  /** After ptr is null nothing is registered and nothing runs, in every continuation. */
  lemma NothingAfterNull(s: State, labels: seq<Label>)
    requires Inv(s) && s.ptrNull && IsRun(s, labels)
    ensures var s' := Final(s, labels);
      s'.ptrNull && s'.notifiers == {} && s'.nextId == s.nextId && s'.ran == s.ran
  {
    hide Enabled, Next;
    ExtendsRun(s, labels);
    RunInv(s, labels);
  }

  // ---------------------------------------------------------------- whose callback runs

  /** RemoveNotifier of WeakPtr h has erased its notifier, and h still has to let go. */
  predicate Erased(pc: Pc, h: Weak) {
    (pc.RemoveUnlock? || pc.DropData?) && pc.h == h
  }

  ghost predicate Erasing(s: State, h: Weak) {
    exists t: Thread :: Erased(PcAt(s.pcs, t), h)
  }

  /** No two WeakPtrs have the same notifier. */
  ghost predicate DistinctIds(weaks: map<Weak, nat>, nextId: nat) {
    && (forall h | h in weaks :: weaks[h] < nextId)
    && (forall h, g | h in weaks && g in weaks && weaks[h] != 0 && weaks[h] == weaks[g] :: h == g)
  }

  /** The notifier of a WeakPtr is its own, and has been removed only if the WeakPtr is on its way out. */
  ghost predicate OwnerInv(s: State) {
    && DistinctIds(s.weaks, s.nextId)
    && (forall h | h in s.weaks && s.weaks[h] in s.removed :: Erasing(s, h))
    && (forall t: Thread | PcAt(s.pcs, t).AddUnlock? :: IsFresh(s, PcAt(s.pcs, t).id))
  }

  ghost predicate IsFresh(s: State, id: nat) {
    id < s.nextId && id !in s.removed && (id != 0 ==> forall h | h in s.weaks :: s.weaks[h] != id)
  }

  /** The three fields that OwnerInv is about. */
  ghost predicate SameOwners(s: State, s': State) {
    s'.weaks == s.weaks && s'.removed == s.removed && s'.nextId == s.nextId
  }

  predicate KeepsErased(pc: Pc, pc': Pc) {
    (pc.RemoveUnlock? || pc.DropData?) ==> (pc'.RemoveUnlock? || pc'.DropData?) && pc'.h == pc.h
  }

  lemma OwnersKept(s: State, s': State, t: Thread)
    requires OwnerInv(s) && OthersStay(s, s', t) && SameOwners(s, s')
    requires KeepsErased(PcAt(s.pcs, t), PcAt(s'.pcs, t)) && !PcAt(s'.pcs, t).AddUnlock?
    ensures OwnerInv(s')
  {
    forall h | h in s'.weaks && s'.weaks[h] in s'.removed ensures Erasing(s', h) {
      var u: Thread :| Erased(PcAt(s.pcs, u), h);
      assert Erased(PcAt(s'.pcs, u), h);
    }
  }

  lemma OwnerGet(s: State, t: Thread, novel: Strong, spurious: bool)
    requires OwnerInv(s) && Runs(s, t) && InGet(PcAt(s.pcs, t))
    ensures OwnerInv(AdvanceGet(s, t, novel, spurious))
  {
    hide OwnerInv, AdvanceGet;
    OneThreadAdvances(s, t, novel, spurious);
    GetEffect(s, t, novel, spurious);
    OwnersKept(s, AdvanceGet(s, t, novel, spurious), t);
  }

  lemma OwnerDestroy(s: State, t: Thread)
    requires OwnerInv(s) && Runs(s, t) && InDestroy(PcAt(s.pcs, t))
    ensures OwnerInv(AdvanceDestroy(s, t))
  {
    hide OwnerInv, AdvanceDestroy;
    OneThreadAdvances(s, t, 0, false);
    DestroyEffect(s, t);
    OwnersKept(s, AdvanceDestroy(s, t), t);
  }

  lemma OwnerWeak(s: State, t: Thread)
    requires OwnerInv(s) && LockInv(s) && WeakInv(s) && NotifierInv(s) && Runs(s, t) && InExclusive(PcAt(s.pcs, t))
    ensures OwnerInv(AdvanceWeak(s, t))
  {
    var next, pc := AdvanceWeak(s, t), PcAt(s.pcs, t);
    OneThreadAdvances(s, t, 0, false);
    if pc.RemoveUnlock? {
      hide OwnerInv, LockInv, WeakInv, NotifierInv;
      OwnersKept(s, next, t);
    } else if pc.AddInsert? {
      OwnerInsert(s, t);
    } else if pc.AddUnlock? {
      OwnerRecord(s, t);
    } else if pc.RemoveErase? {
      OwnerErase(s, t);
    } else {
      OwnerDrop(s, t);
    }
  }

  lemma OwnerInsert(s: State, t: Thread)
    requires OwnerInv(s) && LockInv(s) && NotifierInv(s) && PcAt(s.pcs, t).AddInsert?
    ensures OwnerInv(AdvanceWeak(s, t))
  {
    hide Picked, LetGo;
    var next := AdvanceWeak(s, t);
    assert s.nextId !in s.removed && 0 !in s.removed;
    forall u: Thread | PcAt(next.pcs, u).AddUnlock? ensures IsFresh(next, PcAt(next.pcs, u).id) {
      assert u == t || s.mu != Some(u);
      assert HoldsLock(PcAt(next.pcs, u));
    }
    hide LockInv, NotifierInv, IsFresh;
    ErasersStay(s, next, t);
  }

  lemma OwnerRecord(s: State, t: Thread)
    requires OwnerInv(s) && LockInv(s) && NotifierInv(s) && PcAt(s.pcs, t).AddUnlock?
    ensures OwnerInv(AdvanceWeak(s, t))
  {
    hide Picked, LetGo;
    var next := AdvanceWeak(s, t);
    forall u: Thread ensures !PcAt(next.pcs, u).AddUnlock? {
      assert u == t || s.mu != Some(u);
      assert HoldsLock(PcAt(s.pcs, u)) ==> u == t;
    }
    hide LockInv, NotifierInv;
    ErasersStay(s, next, t);
  }

  /** Threads other than t that have erased the notifier of their WeakPtr still have. */
  lemma ErasersStay(s: State, s': State, t: Thread)
    requires OthersStay(s, s', t) && !PcAt(s.pcs, t).RemoveUnlock? && !PcAt(s.pcs, t).DropData?
    ensures forall h :: Erasing(s, h) ==> Erasing(s', h)
  {
    forall h | Erasing(s, h) ensures Erasing(s', h) {
      var u: Thread :| Erased(PcAt(s.pcs, u), h);
      assert Erased(PcAt(s'.pcs, u), h);
    }
  }

  lemma OwnerErase(s: State, t: Thread)
    requires OwnerInv(s) && LockInv(s) && WeakInv(s) && NotifierInv(s) && PcAt(s.pcs, t).RemoveErase?
    ensures OwnerInv(AdvanceWeak(s, t))
  {
    hide Picked, LetGo, Uses;
    var next, pc := AdvanceWeak(s, t), PcAt(s.pcs, t);
    assert 0 !in s.notifiers && pc.h in s.weaks;
    assert Erased(PcAt(next.pcs, t), pc.h);
    forall h | h in next.weaks && next.weaks[h] in next.removed ensures Erasing(next, h) {
      if h != pc.h {
        var u: Thread :| Erased(PcAt(s.pcs, u), h);
        assert Erased(PcAt(next.pcs, u), h);
      }
    }
    assert forall u: Thread :: HoldsLock(PcAt(next.pcs, u)) ==> u == t;
  }

  lemma OwnerDrop(s: State, t: Thread)
    requires OwnerInv(s) && WeakInv(s) && PcAt(s.pcs, t).DropData?
    ensures OwnerInv(AdvanceWeak(s, t))
  {
    var next, pc := AdvanceWeak(s, t), PcAt(s.pcs, t);
    forall h | h in next.weaks && next.weaks[h] in next.removed ensures Erasing(next, h) {
      var g := if h == pc.h then pc.after.src else h;
      var u: Thread :| Erased(PcAt(s.pcs, u), g);
      assert Uses(PcAt(s.pcs, u), g);
      assert Erased(PcAt(next.pcs, u), h);
    }
  }

  lemma OwnerStep(s: State, l: Label)
    requires OwnerInv(s) && Enabled(s, l) && !l.Continue?
    requires 0 !in s.removed && 0 < s.nextId
    ensures OwnerInv(Next(s, l))
  {
    hide OwnerInv, Next, Enabled;
    if l.MakeWeak? {
      OwnerMake(s, l);
    } else if l.MoveWeak? {
      OwnerMove(s, l);
    } else {
      OneThreadMoves(s, l);
      StartEffect(s, l);
      OwnersKept(s, Next(s, l), l.t);
    }
  }

  lemma OwnerMake(s: State, l: Label)
    requires OwnerInv(s) && Enabled(s, l) && l.MakeWeak? && 0 !in s.removed && 0 < s.nextId
    ensures OwnerInv(Next(s, l))
  {
    var next := Next(s, l);
    forall h | h in next.weaks && next.weaks[h] in next.removed ensures Erasing(next, h) {
      var u: Thread :| Erased(PcAt(s.pcs, u), h);
      assert Erased(PcAt(next.pcs, u), h);
    }
  }

  lemma OwnerMove(s: State, l: Label)
    requires OwnerInv(s) && Enabled(s, l) && l.MoveWeak?
    ensures OwnerInv(Next(s, l))
  {
    var next := Next(s, l);
    forall u: Thread ensures !Erased(PcAt(s.pcs, u), l.src) {
      assert !Uses(PcAt(s.pcs, u), l.src);
    }
    assert s.weaks[l.src] !in s.removed;
    forall h | h in next.weaks && h != l.dst && next.weaks[h] in next.removed ensures Erasing(next, h) {
      var u: Thread :| Erased(PcAt(s.pcs, u), h);
      assert Erased(PcAt(next.pcs, u), h);
    }
  }

  lemma InitOwners()
    ensures OwnerInv(Init)
  {}

  lemma OwnersAfter(s: State, l: Label)
    requires Inv(s) && OwnerInv(s) && Enabled(s, l)
    ensures OwnerInv(Next(s, l))
  {
    hide StrongInv, PhaseInv, LockInv, DataInv, WeakInv, OwnerInv, Picked, AdvanceGet, AdvanceWeak, AdvanceDestroy;
    if l.Continue? {
      if InGet(PcAt(s.pcs, l.t)) {
        OwnerGet(s, l.t, l.novel, l.spurious);
      } else if InExclusive(PcAt(s.pcs, l.t)) {
        OwnerWeak(s, l.t);
      } else {
        OwnerDestroy(s, l.t);
      }
    } else {
      hide Next, Enabled;
      OwnerStep(s, l);
    }
  }

  lemma {:induction false} OwnersAlong(s: State, labels: seq<Label>)
    requires Inv(s) && OwnerInv(s) && IsRun(s, labels)
    ensures OwnerInv(Final(s, labels))
    decreases |labels|
  {
    hide Inv, OwnerInv, Enabled, Next;
    if labels != [] {
      StepInv(s, labels[0]);
      OwnersAfter(s, labels[0]);
      OwnersAlong(Next(s, labels[0]), labels[1..]);
    }
  }

  // When the callback of a WeakPtr can still run after the WeakPtr has removed its notifier.

  ghost predicate Quiet(s: State) {
    s.ref > 0 ==> s.ran == []
  }

  lemma QuietStep(s: State, l: Label)
    requires StrongInv(s) && Quiet(s) && Enabled(s, l)
    ensures Quiet(Next(s, l))
  {
    hide HoldsLock, Uses, Returning, Begin, LetGo, Reaches, Unused;
    if l.Continue? {
      hide Next;
      if InGet(PcAt(s.pcs, l.t)) {
        GetEffect(s, l.t, l.novel, l.spurious);
        GetCount(s, l.t, l.novel, l.spurious);
      } else if InExclusive(PcAt(s.pcs, l.t)) {
        WeakEffect(s, l.t);
      } else {
        DestroyEffect(s, l.t);
      }
    }
  }

  lemma {:induction false} QuietRun(s: State, labels: seq<Label>)
    requires Inv(s) && Quiet(s) && IsRun(s, labels)
    ensures Quiet(Final(s, labels))
    decreases |labels|
  {
    if labels != [] {
      hide Quiet, Enabled, Next, PhaseInv, LockInv, DataInv, WeakInv, NotifierInv;
      QuietStep(s, labels[0]);
      StepInv(s, labels[0]);
      QuietRun(Next(s, labels[0]), labels[1..]);
    }
  }

  /** A callback runs only when the object is being destroyed: none runs, and none has been taken out of the map,
      before the strong count has reached 0. */
  lemma NoCallbackBeforeZero(labels: seq<Label>)
    requires IsRun(Init, labels) && Final(Init, labels).ref > 0
    ensures Final(Init, labels).ran == [] && Picked(Final(Init, labels)) == []
  {
    hide Enabled, Next, IsRun, Final;
    InitInv();
    RunInv(Init, labels);
    QuietRun(Init, labels);
  }

  /** Notify has taken the notifier out of the map and has not called it yet. */
  ghost predicate InHands(s: State, id: nat) {
    s.destroyer.Some? && InHand(PcAt(s.pcs, s.destroyer.value)) == [id]
  }

  ghost predicate RunsLater(s: State, id: nat, after: seq<Label>) {
    IsRun(s, after) && id !in s.ran && id in Final(s, after).ran
  }

  /** A registered notifier that is no longer in the map runs in some continuation exactly when Notify has it in
      its hands. */
  lemma RunsLaterIffInHands(s: State, id: nat)
    requires Inv(s) && 0 < id < s.nextId && id !in s.notifiers
    ensures (exists after :: RunsLater(s, id, after)) <==> InHands(s, id)
  {
    if InHands(s, id) {
      var after := CallOfHeld(s, id);
      assert RunsLater(s, id, after);
    }
    forall after | RunsLater(s, id, after) ensures InHands(s, id) {
      OnlyHeldRuns(s, id, after);
    }
  }

  lemma OnlyHeldRuns(s: State, id: nat, after: seq<Label>)
    requires Inv(s) && 0 < id < s.nextId && id !in s.notifiers && RunsLater(s, id, after)
    ensures InHands(s, id)
  {
    hide Enabled, Next, IsRun, Final;
    ExtendsRun(s, after);
    RunInv(s, after);
    RemovedDoesNotRun(Final(s, after));
    hide StrongInv, PhaseInv, LockInv, DataInv, WeakInv;
    assert id in Picked(s);
  }

  /** The destroying thread can call what it has in its hands. */
  lemma CallOfHeld(s: State, id: nat) returns (after: seq<Label>)
    requires Inv(s) && InHands(s, id)
    ensures RunsLater(s, id, after)
  {
    var d := s.destroyer.value;
    assert Picked(s) == s.ran + [id] && forall i | 0 <= i < |s.ran| :: Picked(s)[i] == s.ran[i];
    assert id !in s.ran by { assert Increasing(Picked(s)) && Picked(s)[|s.ran|] == id; }
    var go := Continue(d, 0, false);
    hide StrongInv, PhaseInv, LockInv, DataInv, WeakInv, NotifierInv, Picked, Begin;
    if PcAt(s.pcs, d).NotifyCall? {
      after := [go];
      RunOne(s, go);
    } else {
      var next := Next(s, go);
      assert PcAt(next.pcs, d) == NotifyCall(id) && next.ran == s.ran;
      after := [go] + [go];
      RunOne(s, go);
      RunSnoc(s, [go], go);
    }
  }

  /**
   * What RemoveNotifier can and cannot stop. When a WeakPtr with a notifier reaches the erase, the notifier is in
   * the map, and then it has not run and runs in no continuation; or it has run, and does not run again; or it is
   * in the hands of Notify, and exactly then some continuation calls it after the erase. While the strong count is
   * positive it is in the map.
   */
  lemma RemovalIsFinalUnlessPicked(before: seq<Label>, t: Thread, novel: Strong)
    requires IsRun(Init, before)
    requires var s := Final(Init, before);
      && PcAt(s.pcs, t).RemoveErase? && PcAt(s.pcs, t).h in s.weaks && s.weaks[PcAt(s.pcs, t).h] != 0
      && Enabled(s, Continue(t, novel, false))
    ensures var s := Final(Init, before);
      var id, next := s.weaks[PcAt(s.pcs, t).h], Next(s, Continue(t, novel, false));
      && (id in s.notifiers ==> id !in s.ran && forall after | IsRun(next, after) :: id !in Final(next, after).ran)
      && (id !in s.notifiers ==> (id in s.ran <==> !InHands(s, id)))
      && ((exists after :: RunsLater(next, id, after)) <==> InHands(s, id))
      && (s.ref > 0 ==> id in s.notifiers)
  {
    hide Enabled, Next, Picked, InHands;
    InitInv();
    InitOwners();
    RunInv(Init, before);
    OwnersAlong(Init, before);
    var s := Final(Init, before);
    var l := Continue(t, novel, false);
    var id, next := s.weaks[PcAt(s.pcs, t).h], Next(s, l);
    if s.ref > 0 { NoCallbackBeforeZero(before); }
    hide IsRun, Final;
    StepInv(s, l);
    OwnHolds(s, t);
    PickedIsRunOrHeld(s, id);
    EraseEffect(s, t, novel);
    RunsLaterIffInHands(next, id);
    forall after | id in s.notifiers && IsRun(next, after) ensures id !in Final(next, after).ran {
      ExtendsRun(next, after);
      RunInv(next, after);
      RemovedDoesNotRun(Final(next, after));
    }
  }

  lemma RunOne(s: State, l: Label)
    requires Enabled(s, l)
    ensures IsRun(s, [l]) && Final(s, [l]) == Next(s, l)
  {
    hide Enabled, Next;
    assert [l][1..] == [] && IsRun(Next(s, l), []);
  }

  lemma PickedIsRunOrHeld(s: State, id: nat)
    requires NotifierInv(s)
    ensures id in Picked(s) ==> id !in s.notifiers && (id in s.ran <==> !InHands(s, id))
    ensures id !in Picked(s) ==> id !in s.ran && !InHands(s, id)
    ensures 0 !in s.notifiers && 0 !in Picked(s)
    ensures id in s.notifiers || id in Picked(s) ==> 0 < id < s.nextId
  {
    assert forall i | 0 <= i < |s.ran| :: Picked(s)[i] == s.ran[i];
    if InHands(s, id) {
      assert Picked(s)[|s.ran|] == id;
    }
    assert id in Picked(s) ==> id !in s.notifiers;
  }

  lemma EraseEffect(s: State, t: Thread, novel: Strong)
    requires Inv(s) && PcAt(s.pcs, t).RemoveErase? && Enabled(s, Continue(t, novel, false)) && PcAt(s.pcs, t).h in s.weaks
    ensures var id, next := s.weaks[PcAt(s.pcs, t).h], Next(s, Continue(t, novel, false));
      && id !in next.notifiers && (id in s.notifiers ==> id in next.removed)
      && next.ran == s.ran && next.nextId == s.nextId && (InHands(next, id) <==> InHands(s, id))
  {
    hide PhaseInv, LockInv, DataInv, WeakInv, NotifierInv, Uses, Returning, HoldsLock, LetGo;
    assert s.destroyer != Some(t);
  }

  /** The notifier is on its way out: thread t is about to remove it, or it has left the map. */
  ghost predicate Leaving(s: State, t: Thread, h: Weak, id: nat) {
    || id in s.removed
    || id in Picked(s)
    || (Removing(PcAt(s.pcs, t), h) && h in s.weaks && s.weaks[h] == id)
  }

  predicate Removing(pc: Pc, h: Weak) {
    (pc.RemoveLock? || pc.RemoveErase?) && pc.h == h
  }

  lemma WeakStays(s: State, l: Label, t: Thread, h: Weak)
    requires WeakInv(s) && Enabled(s, l) && l.t != t && h in s.weaks && UsesExclusively(PcAt(s.pcs, t), h)
    ensures h in Next(s, l).weaks && Next(s, l).weaks[h] == s.weaks[h]
  {
    assert !Unused(s, h);
    if l.Continue? {
      hide Enabled;
      if InGet(PcAt(s.pcs, l.t)) {
        hide AdvanceGet;
        GetEffect(s, l.t, l.novel, l.spurious);
      } else if InExclusive(PcAt(s.pcs, l.t)) {
        hide *;
        WeakStaysExclusive(s, l.t, t, h);
      } else {
        hide AdvanceDestroy;
        DestroyEffect(s, l.t);
      }
    } else if !l.MakeWeak? && !l.MoveWeak? {
      StartEffect(s, l);
      hide Next, Enabled;
    } else {
      hide Uses, Returning, Reaches;
    }
  }

  lemma WeakStaysExclusive(s: State, u: Thread, t: Thread, h: Weak)
    requires WeakInv(s) && u != t && h in s.weaks && UsesExclusively(PcAt(s.pcs, t), h)
    requires Runs(s, u) && InExclusive(PcAt(s.pcs, u))
    ensures h in AdvanceWeak(s, u).weaks && AdvanceWeak(s, u).weaks[h] == s.weaks[h]
  {
    assert !Uses(PcAt(s.pcs, u), h);
    hide WeakInv, HoldsLock;
  }

  lemma LeavingStep(s: State, l: Label, t: Thread, h: Weak, id: nat)
    requires Inv(s) && OwnerInv(s) && Enabled(s, l) && id != 0 && Leaving(s, t, h, id)
    ensures Leaving(Next(s, l), t, h, id)
  {
    hide AdvanceGet, AdvanceDestroy, AdvanceWeak, StrongInv, PhaseInv, DataInv, OwnerInv, Picked, Enabled;
    ExtendsStep(s, l);
    if id !in s.removed && id !in Picked(s) {
      if l.t != t {
        OneThreadMoves(s, l);
        WeakStays(s, l, t, h);
      } else if PcAt(s.pcs, t).RemoveErase? {
        OwnHolds(s, t);
        ErasedIsRemoved(s, l);
      } else {
        LockToErase(s, l, h);
      }
    }
  }

  lemma LockToErase(s: State, l: Label, h: Weak)
    requires Enabled(s, l) && PcAt(s.pcs, l.t).RemoveLock? && PcAt(s.pcs, l.t).h == h
    ensures Removing(PcAt(Next(s, l).pcs, l.t), h) && Next(s, l).weaks == s.weaks
  {
    hide Returning, Uses, Begin;
  }

  lemma {:induction false} LeavingRun(s: State, labels: seq<Label>, t: Thread, h: Weak, id: nat)
    requires Inv(s) && OwnerInv(s) && IsRun(s, labels) && id != 0 && Leaving(s, t, h, id)
    ensures Leaving(Final(s, labels), t, h, id)
    decreases |labels|
  {
    if labels != [] {
      hide Inv, OwnerInv, Enabled, Next, Leaving;
      StepInv(s, labels[0]);
      OwnersAfter(s, labels[0]);
      LeavingStep(s, labels[0], t, h, id);
      LeavingRun(Next(s, labels[0]), labels[1..], t, h, id);
    }
  }

  /** ~WeakPtr or a move over the WeakPtr starts to remove its notifier. */
  predicate StartsRemoval(l: Label, h: Weak) {
    (l.DestroyWeak? && l.h == h) || (l.MoveOver? && l.dst == h)
  }

  lemma RemovalStarts(s: State, l: Label, h: Weak)
    requires Enabled(s, l) && StartsRemoval(l, h) && s.weaks[h] != 0
    ensures Leaving(Next(s, l), l.t, h, s.weaks[h])
  {
    hide Unused;
  }

  /**
   * What ~WeakPtr, or a move over a WeakPtr, has achieved when it returns: its notifier is out of the map, and the
   * callback runs in some continuation exactly when Notify has it in its hands. If the strong count is still
   * positive, as it is for a caller that holds a reference, the callback has not run and never runs.
   */
  lemma CallbackAfterDestructor(before: seq<Label>, l: Label, h: Weak, during: seq<Label>)
    requires IsRun(Init, before) && Enabled(Final(Init, before), l) && StartsRemoval(l, h)
    requires Final(Init, before).weaks[h] != 0 && IsRun(Next(Final(Init, before), l), during)
    requires PcAt(Final(Next(Final(Init, before), l), during).pcs, l.t).Idle?
    ensures var id, s := Final(Init, before).weaks[h], Final(Next(Final(Init, before), l), during);
      && id !in s.notifiers
      && ((exists after :: RunsLater(s, id, after)) <==> InHands(s, id))
      && (s.ref > 0 ==> forall after | IsRun(s, after) :: id !in Final(s, after).ran)
  {
    var s0 := Final(Init, before);
    assert h in s0.weaks;
    hide Enabled, Next, Picked, InHands;
    InitInv();
    InitOwners();
    RunInv(Init, before);
    OwnersAlong(Init, before);
    var id, s1 := s0.weaks[h], Next(s0, l);
    RemovalStarts(s0, l, h);
    StepInv(s0, l);
    OwnersAfter(s0, l);
    LeavingRun(s1, during, l.t, h, id);
    RunInv(s1, during);
    OwnersAlong(s1, during);
    var s := Final(s1, during);
    RunJoined(before, l, during);
    if s.ref > 0 { NoCallbackBeforeZero(before + [l] + during); }
    hide IsRun, Final;
    LeftTheMap(s, l.t, h, id);
    RunsLaterIffInHands(s, id);
    forall after | s.ref > 0 && IsRun(s, after) ensures id !in Final(s, after).ran {
      ExtendsRun(s, after);
      RunInv(s, after);
      RemovedDoesNotRun(Final(s, after));
    }
  }

  lemma LeftTheMap(s: State, t: Thread, h: Weak, id: nat)
    requires NotifierInv(s) && Leaving(s, t, h, id) && PcAt(s.pcs, t).Idle?
    ensures id !in s.notifiers && 0 < id < s.nextId && (id in s.removed || id in Picked(s))
  {
    hide Picked;
    assert id in Picked(s) ==> id !in s.notifiers;
  }

  lemma {:induction false} RunJoined(before: seq<Label>, l: Label, during: seq<Label>)
    requires IsRun(Init, before) && Enabled(Final(Init, before), l) && IsRun(Next(Final(Init, before), l), during)
    ensures IsRun(Init, before + [l] + during)
    ensures Final(Init, before + [l] + during) == Final(Next(Final(Init, before), l), during)
  {
    hide Enabled, Next;
    RunSnoc(Init, before, l);
    RunConcat(Init, before + [l], during);
  }

  lemma {:induction false} RunConcat(s: State, first: seq<Label>, second: seq<Label>)
    requires IsRun(s, first) && IsRun(Final(s, first), second)
    ensures IsRun(s, first + second) && Final(s, first + second) == Final(Final(s, first), second)
    decreases |first|
  {
    hide Enabled, Next;
    if first == [] {
      assert first + second == second;
    } else {
      RunConcat(Next(s, first[0]), first[1..], second);
      assert (first + second)[1..] == first[1..] + second;
    }
  }

  lemma OwnHolds(s: State, t: Thread)
    requires LockInv(s) && WeakInv(s) && OwnerInv(s) && NotifierInv(s)
    requires PcAt(s.pcs, t).RemoveErase? && s.weaks[PcAt(s.pcs, t).h] != 0
    ensures var id := s.weaks[PcAt(s.pcs, t).h]; id in s.notifiers || id in Picked(s)
  {
    hide Picked;
    var h := PcAt(s.pcs, t).h;
    assert UsesExclusively(PcAt(s.pcs, t), h);
    forall u: Thread ensures !Erased(PcAt(s.pcs, u), h) {
      assert Uses(PcAt(s.pcs, u), h) ==> u == t;
    }
  }

  lemma RemovedDoesNotRun(s: State)
    requires NotifierInv(s)
    ensures forall id | id in s.removed :: id !in s.ran
  {
    assert forall id | id in s.ran :: id in Picked(s);
  }

  lemma ErasedIsRemoved(s: State, l: Label)
    requires Enabled(s, l) && PcAt(s.pcs, l.t).RemoveErase?
    ensures var h := PcAt(s.pcs, l.t).h;
      h in s.weaks && s.weaks[h] in s.notifiers ==> s.weaks[h] in Next(s, l).removed
  {
    hide Returning, Uses, Begin;
  }

  lemma {:induction false} RunSnoc(s: State, labels: seq<Label>, l: Label)
    requires IsRun(s, labels) && Enabled(Final(s, labels), l)
    ensures IsRun(s, labels + [l]) && Final(s, labels + [l]) == Next(Final(s, labels), l)
    decreases |labels|
  {
    hide Enabled, Next;
    if labels == [] {
      assert IsRun(Next(s, l), []);
      assert labels + [l] == [l];
    } else {
      RunSnoc(Next(s, labels[0]), labels[1..], l);
      assert (labels + [l])[1..] == labels[1..] + [l];
    }
  }

  lemma Follow(labels: seq<Label>, s: State, l: Label, next: State)
    requires IsRun(Init, labels) && Final(Init, labels) == s && Enabled(s, l) && Next(s, l) == next
    ensures IsRun(Init, labels + [l]) && Final(Init, labels + [l]) == next
  {
    hide Enabled, Next;
    RunSnoc(Init, labels, l);
  }

  // ~WeakPtr does not wait: thread 1 creates and destroys WeakPtr 7, whose notifier 1 is meanwhile in the hands
  // of Notify, run by thread 2, which calls it afterwards.
  const CREATED: seq<Label> := [MakeWeak(1, 0, 7, true), Acquire(1), Continue(1, 9, false), Continue(1, 9, false)]
  const TAKEN: seq<Label> := CREATED + [DropRef(2, 0)] + [Acquire(2)] + [Continue(2, 9, false)] + [Continue(2, 9, false)]
  const DESTROYED: seq<Label> :=
    TAKEN + [DestroyWeak(1, 7)] + [Acquire(1)] + [Continue(1, 9, false)] + [Continue(1, 9, false)] + [Continue(1, 9, false)]
  const CALLED: seq<Label> := DESTROYED + [Continue(2, 9, false)]

  lemma Adding() returns (s: State)
    ensures IsRun(Init, [MakeWeak(1, 0, 7, true), Acquire(1)]) && s == Final(Init, [MakeWeak(1, 0, 7, true), Acquire(1)])
    ensures s == Init.(dataRef := 2, weaks := map[7 := 0], mu := Some(1), pcs := s.pcs)
    ensures forall t :: PcAt(s.pcs, t) == if t == 1 then AddInsert(7) else Idle
  {
    var s1 := Next(Init, MakeWeak(1, 0, 7, true));
    Follow([], Init, MakeWeak(1, 0, 7, true), s1);
    s := Next(s1, Acquire(1));
    Follow([MakeWeak(1, 0, 7, true)], s1, Acquire(1), s);
  }

  lemma Inserting() returns (s: State)
    ensures var labels := [MakeWeak(1, 0, 7, true), Acquire(1)] + [Continue(1, 9, false)];
      IsRun(Init, labels) && s == Final(Init, labels)
    ensures s == Init.(dataRef := 2, weaks := map[7 := 0], mu := Some(1), notifiers := {1}, nextId := 2, pcs := s.pcs)
    ensures forall t :: PcAt(s.pcs, t) == if t == 1 then AddUnlock(7, 1) else Idle
  {
    var s2 := Adding();
    s := Next(s2, Continue(1, 9, false));
    Follow([MakeWeak(1, 0, 7, true), Acquire(1)], s2, Continue(1, 9, false), s);
  }

  lemma Creating() returns (s: State)
    ensures IsRun(Init, CREATED) && s == Final(Init, CREATED)
    ensures s == Init.(dataRef := 2, weaks := map[7 := 1], notifiers := {1}, nextId := 2, pcs := s.pcs)
    ensures forall t :: PcAt(s.pcs, t).Idle?
  {
    var go := Continue(1, 9, false);
    var s3 := Inserting();
    s := Next(s3, go);
    Follow([MakeWeak(1, 0, 7, true), Acquire(1)] + [go], s3, go, s);
    assert [MakeWeak(1, 0, 7, true), Acquire(1)] + [go] + [go] == CREATED;
  }

  lemma Notifying() returns (s: State)
    ensures var labels := CREATED + [DropRef(2, 0)] + [Acquire(2)];
      IsRun(Init, labels) && s == Final(Init, labels)
    ensures s == Init.(ref := 0, refs := {}, dataRef := 2, weaks := map[7 := 1], mu := Some(2), notifiers := {1},
                       nextId := 2, destroyer := Some(2), pcs := s.pcs)
    ensures forall t :: PcAt(s.pcs, t) == if t == 2 then NotifyLoop else Idle
  {
    var s0 := Creating();
    var s1 := Next(s0, DropRef(2, 0));
    Follow(CREATED, s0, DropRef(2, 0), s1);
    s := Next(s1, Acquire(2));
    Follow(CREATED + [DropRef(2, 0)], s1, Acquire(2), s);
  }

  lemma Picking() returns (s: State)
    ensures var labels := CREATED + [DropRef(2, 0)] + [Acquire(2)] + [Continue(2, 9, false)];
      IsRun(Init, labels) && s == Final(Init, labels)
    ensures s == Init.(ref := 0, refs := {}, dataRef := 2, weaks := map[7 := 1], mu := Some(2), nextId := 2,
                       destroyer := Some(2), pcs := s.pcs)
    ensures forall t :: PcAt(s.pcs, t) == if t == 2 then NotifyUnlock(1) else Idle
  {
    var s2 := Notifying();
    assert Begin({1}) == 1;
    s := Next(s2, Continue(2, 9, false));
    assert s.notifiers == {};
    Follow(CREATED + [DropRef(2, 0)] + [Acquire(2)], s2, Continue(2, 9, false), s);
  }

  lemma Taking() returns (s: State)
    ensures IsRun(Init, TAKEN) && s == Final(Init, TAKEN)
    ensures s == Init.(ref := 0, refs := {}, dataRef := 2, weaks := map[7 := 1], nextId := 2, destroyer := Some(2), pcs := s.pcs)
    ensures forall t :: PcAt(s.pcs, t) == if t == 2 then NotifyCall(1) else Idle
  {
    var go := Continue(2, 9, false);
    var s3 := Picking();
    s := Next(s3, go);
    Follow(CREATED + [DropRef(2, 0)] + [Acquire(2)] + [go], s3, go, s);
  }

  lemma Locking7() returns (s: State)
    ensures IsRun(Init, TAKEN + [DestroyWeak(1, 7)] + [Acquire(1)]) && s == Final(Init, TAKEN + [DestroyWeak(1, 7)] + [Acquire(1)])
    ensures s == Init.(ref := 0, refs := {}, dataRef := 2, weaks := map[7 := 1], mu := Some(1), nextId := 2,
                       destroyer := Some(2), pcs := s.pcs)
    ensures PcAt(s.pcs, 2) == NotifyCall(1) && PcAt(s.pcs, 1) == RemoveErase(7, ThenDestroy)
    ensures forall t | t != 1 && t != 2 :: PcAt(s.pcs, t).Idle?
  {
    var s0 := Taking();
    var s1 := Next(s0, DestroyWeak(1, 7));
    Follow(TAKEN, s0, DestroyWeak(1, 7), s1);
    s := Next(s1, Acquire(1));
    Follow(TAKEN + [DestroyWeak(1, 7)], s1, Acquire(1), s);
  }

  lemma Erasing7() returns (s: State)
    ensures var labels := TAKEN + [DestroyWeak(1, 7)] + [Acquire(1)] + [Continue(1, 9, false)];
      IsRun(Init, labels) && s == Final(Init, labels)
    ensures s == Init.(ref := 0, refs := {}, dataRef := 2, weaks := map[7 := 1], mu := Some(1), nextId := 2,
                       destroyer := Some(2), pcs := s.pcs)
    ensures PcAt(s.pcs, 2) == NotifyCall(1) && PcAt(s.pcs, 1) == RemoveUnlock(7, ThenDestroy)
    ensures forall t | t != 1 && t != 2 :: PcAt(s.pcs, t).Idle?
  {
    var s2 := Locking7();
    var go := Continue(1, 9, false);
    s := Next(s2, go);
    Follow(TAKEN + [DestroyWeak(1, 7)] + [Acquire(1)], s2, go, s);
  }

  lemma Unlocking7() returns (s: State)
    ensures var labels := TAKEN + [DestroyWeak(1, 7)] + [Acquire(1)] + [Continue(1, 9, false)] + [Continue(1, 9, false)];
      IsRun(Init, labels) && s == Final(Init, labels)
    ensures s == Init.(ref := 0, refs := {}, dataRef := 2, weaks := map[7 := 1], nextId := 2, destroyer := Some(2), pcs := s.pcs)
    ensures PcAt(s.pcs, 2) == NotifyCall(1) && PcAt(s.pcs, 1) == DropData(7, ThenDestroy)
    ensures forall t | t != 1 && t != 2 :: PcAt(s.pcs, t).Idle?
  {
    var s3 := Erasing7();
    var go := Continue(1, 9, false);
    s := Next(s3, go);
    Follow(TAKEN + [DestroyWeak(1, 7)] + [Acquire(1)] + [go], s3, go, s);
  }

  lemma Destroyed() returns (s: State)
    ensures IsRun(Init, DESTROYED) && s == Final(Init, DESTROYED)
    ensures s == Init.(ref := 0, refs := {}, nextId := 2, destroyer := Some(2), pcs := s.pcs)
    ensures forall t :: PcAt(s.pcs, t) == if t == 2 then NotifyCall(1) else Idle
  {
    var s4 := Unlocking7();
    var go := Continue(1, 9, false);
    s := Next(s4, go);
    Follow(TAKEN + [DestroyWeak(1, 7)] + [Acquire(1)] + [go] + [go], s4, go, s);
  }

  lemma Called()
    ensures IsRun(Init, CALLED) && Final(Init, CALLED).ran == [1]
  {
    var s := Destroyed();
    Follow(DESTROYED, s, Continue(2, 9, false), Next(s, Continue(2, 9, false)));
  }

  lemma CallbackCanOutliveItsWeakPtr()
    ensures IsRun(Init, CREATED) && Final(Init, CREATED).weaks == map[7 := 1]
    ensures IsRun(Init, DESTROYED) && Final(Init, DESTROYED).weaks == map[] && Final(Init, DESTROYED).ran == []
    ensures IsRun(Init, CALLED) && Final(Init, CALLED).ran == [1]
  {
    var s0 := Creating();
    var s := Destroyed();
    Called();
  }

  // Notify need not end: thread 1 registers a WeakPtr while thread 2 runs callback number k.

  ghost predicate Calling(s: State, k: nat) {
    && CalledSoFar(s, k) && s.mu.None? && s.notifiers == {} && s.nextId == k + 1
    && PcAt(s.pcs, 2) == NotifyCall(k) && forall t: Thread | t != 2 :: PcAt(s.pcs, t).Idle?
  }

  predicate CalledSoFar(s: State, k: nat) {
    0 < k == |s.ran| + 1 && s.destroyer == Some(2) && s.holdsData && !s.ptrNull
  }

  lemma RegisterBegins(s: State, k: nat) returns (labels: seq<Label>)
    requires Calling(s, k)
    ensures IsRun(s, labels)
    ensures var r := Final(s, labels);
      && CalledSoFar(r, k) && r.mu == Some(1) && r.notifiers == {} && r.nextId == k + 1
      && PcAt(r.pcs, 2) == NotifyCall(k) && PcAt(r.pcs, 1).AddInsert?
      && forall t: Thread | t != 1 && t != 2 :: PcAt(r.pcs, t).Idle?
  {
    NovelExists(s.weaks.Keys);
    var h: Weak :| h !in s.weaks.Keys;
    var make := MakeWeak(1, 0, h, true);
    RunOne(s, make);
    var next := Next(s, make);
    RunSnoc(s, [make], Acquire(1));
    labels := [make] + [Acquire(1)];
  }

  lemma RegisterEnds(s: State, k: nat) returns (labels: seq<Label>)
    requires CalledSoFar(s, k) && s.mu == Some(1) && s.notifiers == {} && s.nextId == k + 1
    requires PcAt(s.pcs, 2) == NotifyCall(k) && PcAt(s.pcs, 1).AddInsert?
    requires forall t: Thread | t != 1 && t != 2 :: PcAt(s.pcs, t).Idle?
    ensures IsRun(s, labels)
    ensures var r := Final(s, labels);
      && CalledSoFar(r, k) && r.mu.None? && r.notifiers == {k + 1} && r.nextId == k + 2
      && PcAt(r.pcs, 2) == NotifyCall(k) && forall t: Thread | t != 2 :: PcAt(r.pcs, t).Idle?
  {
    var go := Continue(1, 0, true);
    RunOne(s, go);
    RunSnoc(s, [go], go);
    labels := [go] + [go];
  }

  lemma CallEnds(s: State, k: nat) returns (labels: seq<Label>)
    requires CalledSoFar(s, k) && s.mu.None? && s.notifiers == {k + 1} && s.nextId == k + 2
    requires PcAt(s.pcs, 2) == NotifyCall(k) && forall t: Thread | t != 2 :: PcAt(s.pcs, t).Idle?
    ensures IsRun(s, labels)
    ensures var r := Final(s, labels);
      && CalledSoFar(r, k + 1) && r.mu == Some(2) && r.notifiers == {k + 1} && r.nextId == k + 2
      && PcAt(r.pcs, 2) == NotifyLoop && forall t: Thread | t != 2 :: PcAt(r.pcs, t).Idle?
  {
    RunOne(s, Continue(2, 0, true));
    RunSnoc(s, [Continue(2, 0, true)], Acquire(2));
    labels := [Continue(2, 0, true)] + [Acquire(2)];
  }

  lemma NextIsTaken(s: State, k: nat) returns (labels: seq<Label>)
    requires CalledSoFar(s, k + 1) && s.mu == Some(2) && s.notifiers == {k + 1} && s.nextId == k + 2
    requires PcAt(s.pcs, 2) == NotifyLoop && forall t: Thread | t != 2 :: PcAt(s.pcs, t).Idle?
    ensures IsRun(s, labels) && Calling(Final(s, labels), k + 1)
  {
    var go := Continue(2, 0, true);
    assert Begin({k + 1}) == k + 1;
    assert s.notifiers - {k + 1} == {};
    RunOne(s, go);
    RunSnoc(s, [go], go);
    labels := [go] + [go];
  }

  lemma OneMoreCallback(s: State, k: nat) returns (labels: seq<Label>)
    requires Calling(s, k)
    ensures IsRun(s, labels) && Calling(Final(s, labels), k + 1)
  {
    hide Enabled, Next, IsRun, Final, Calling;
    var first := RegisterBegins(s, k);
    var second := RegisterEnds(Final(s, first), k);
    RunConcat(s, first, second);
    var third := CallEnds(Final(s, first + second), k);
    RunConcat(s, first + second, third);
    var fourth := NextIsTaken(Final(s, first + second + third), k);
    RunConcat(s, first + second + third, fourth);
    labels := first + second + third + fourth;
  }

  /** Callbacks that register a further notifier each keep Notify going: for every n there is a run in which n
      callbacks have run, the next one is about to, and the object still has to be destroyed. */
  lemma {:induction false} NotifyNeedNotEnd(n: nat) returns (labels: seq<Label>)
    ensures IsRun(Init, labels) && Calling(Final(Init, labels), n + 1)
  {
    hide Enabled, Next;
    if n == 0 {
      labels := TAKEN;
      var s := Taking();
    } else {
      hide Calling, IsRun, Final;
      var front := NotifyNeedNotEnd(n - 1);
      var rest := OneMoreCallback(Final(Init, front), n);
      RunConcat(Init, front, rest);
      labels := front + rest;
    }
  }

  // ---------------------------------------------------------------- progress

  lemma {:induction false} NovelExists(refs: set<Strong>)
    ensures exists novel: Strong :: novel !in refs && forall r | r in refs :: r < novel
  {
    if refs == {} {
      assert 0 !in refs;
    } else {
      var r :| r in refs;
      NovelExists(refs - {r});
      var n: Strong :| n !in refs - {r} && forall q | q in refs - {r} :: q < n;
      var novel := if r < n then n else r + 1;
      assert forall q | q in refs :: q in refs - {r} || q == r;
      assert novel !in refs;
    }
  }

  /** No reachable state is stuck: while an operation is under way, some thread inside one can take a step. */
  lemma NoDeadlock(labels: seq<Label>, t: Thread)
    requires IsRun(Init, labels) && !PcAt(Final(Init, labels).pcs, t).Idle?
    ensures exists l: Label ::
      (l.Acquire? || l.Continue?) && Enabled(Final(Init, labels), l) && !PcAt(Final(Init, labels).pcs, l.t).Idle?
  {
    hide Enabled, Next;
    InitInv();
    RunInv(Init, labels);
    var s := Final(Init, labels);
    hide IsRun, Final;
    NovelExists(s.refs);
    var novel: Strong :| novel !in s.refs;
    var u := if s.mu.Some? then s.mu.value else t;
    CanStep(s, u, novel);
  }

  lemma CanStep(s: State, u: Thread, novel: Strong)
    requires novel !in s.refs && !PcAt(s.pcs, u).Idle? && (s.mu.None? || HoldsLock(PcAt(s.pcs, u)))
    ensures Enabled(s, if WaitsForLock(PcAt(s.pcs, u)) then Acquire(u) else Continue(u, novel, false))
  {}
}
