/** What the operations on a WeakPtr have achieved when they return, over every run; no notifier is orphaned. */
module WeakRefMoves {
  import opened Basics
  import opened WeakRefs

  // ---------------------------------------------------------------- WeakPtrs that a step leaves alone

  /** The operations that create, destroy or move a WeakPtr; GetNewRef is none of them. */
  predicate Changes(l: Label, h: Weak) {
    match l
    case MakeWeak(_, _, g, _) => g == h
    case DestroyWeak(_, g) => g == h
    case MoveWeak(_, src, dst) => h == src || h == dst
    case MoveOver(_, src, dst) => h == src || h == dst
    case _ => false
  }

  predicate NoChange(labels: seq<Label>, h: Weak) {
    forall i | 0 <= i < |labels| :: !Changes(labels[i], h)
  }

  ghost predicate Free(s: State, h: Weak) {
    forall u: Thread :: !UsesExclusively(PcAt(s.pcs, u), h)
  }

  ghost predicate SameAt(s: State, s': State, h: Weak) {
    (h in s.weaks <==> h in s'.weaks) && (h in s.weaks ==> s'.weaks[h] == s.weaks[h])
  }

  lemma FreeAdvance(s: State, t: Thread, novel: Strong, spurious: bool, h: Weak)
    requires WeakInv(s) && Enabled(s, Continue(t, novel, spurious)) && !UsesExclusively(PcAt(s.pcs, t), h)
    ensures var s' := Next(s, Continue(t, novel, spurious));
      SameAt(s, s', h) && !UsesExclusively(PcAt(s'.pcs, t), h)
  {
    if InGet(PcAt(s.pcs, t)) {
      hide AdvanceGet, AdvanceWeak, AdvanceDestroy, WeakInv;
      GetEffect(s, t, novel, spurious);
    } else if InExclusive(PcAt(s.pcs, t)) {
      hide AdvanceGet, AdvanceWeak, AdvanceDestroy;
      WeakAdvance(s, t, h);
    } else {
      hide AdvanceGet, AdvanceWeak, AdvanceDestroy, WeakInv;
      DestroyEffect(s, t);
    }
  }

  /** A step on another WeakPtr. */
  lemma WeakAdvance(s: State, t: Thread, h: Weak)
    requires WeakInv(s) && Runs(s, t) && InExclusive(PcAt(s.pcs, t)) && !UsesExclusively(PcAt(s.pcs, t), h)
    ensures SameAt(s, AdvanceWeak(s, t), h) && !UsesExclusively(PcAt(AdvanceWeak(s, t).pcs, t), h)
  {
    assert PcAt(s.pcs, t).h in s.weaks && PcAt(s.pcs, t).h != h;
    WeakEffect(s, t);
    hide WeakInv, HoldsLock;
    if PcAt(s.pcs, t).DropData? {
    } else if PcAt(s.pcs, t).AddUnlock? {
    } else {
      assert AdvanceWeak(s, t).weaks == s.weaks;
    }
  }

  lemma FreeStart(s: State, l: Label, h: Weak)
    requires Enabled(s, l) && !l.Continue? && !Changes(l, h) && !UsesExclusively(PcAt(s.pcs, l.t), h)
    ensures SameAt(s, Next(s, l), h) && !UsesExclusively(PcAt(Next(s, l).pcs, l.t), h)
  {
    hide Unused, Owned, Reaches, HoldsLock, Destroying;
    if l.MakeWeak? || l.MoveWeak? {
      hide UsesExclusively;
      FreeMake(s, l, h);
    } else if l.DestroyWeak? || l.MoveOver? {
      FreeRelease(s, l, h);
    } else {
      StartEffect(s, l);
      FreeOther(s, l, h);
    }
  }

  lemma FreeMake(s: State, l: Label, h: Weak)
    requires Enabled(s, l) && (l.MakeWeak? || l.MoveWeak?) && !Changes(l, h)
    ensures SameAt(s, Next(s, l), h) && !UsesExclusively(PcAt(Next(s, l).pcs, l.t), h)
  {
    hide Unused, Owned, Reaches, HoldsLock, Destroying;
  }

  lemma FreeRelease(s: State, l: Label, h: Weak)
    requires Enabled(s, l) && (l.DestroyWeak? || l.MoveOver?) && !Changes(l, h)
    ensures SameAt(s, Next(s, l), h) && !UsesExclusively(PcAt(Next(s, l).pcs, l.t), h)
  {
    hide Unused, HoldsLock, Destroying;
  }

  lemma FreeOther(s: State, l: Label, h: Weak)
    requires Enabled(s, l) && (l.CopyRef? || l.DropRef? || l.StartGet? || l.Acquire?) && !UsesExclusively(PcAt(s.pcs, l.t), h)
    ensures SameAt(s, Next(s, l), h) && !UsesExclusively(PcAt(Next(s, l).pcs, l.t), h)
  {
    hide Unused, Owned, HoldsLock, Destroying;
  }

  /** A WeakPtr that no operation is changing stays as it is, present or not, until one starts. */
  lemma FreeStep(s: State, l: Label, h: Weak)
    requires WeakInv(s) && Enabled(s, l) && !Changes(l, h) && Free(s, h)
    ensures SameAt(s, Next(s, l), h) && Free(Next(s, l), h)
  {
    OneThreadMoves(s, l);
    hide WeakInv, Enabled, Next, UsesExclusively;
    if l.Continue? {
      FreeAdvance(s, l.t, l.novel, l.spurious, h);
    } else {
      FreeStart(s, l, h);
    }
  }

  /** A step of another thread leaves a WeakPtr alone that t is changing, present or not. */
  lemma HeldStep(s: State, l: Label, t: Thread, h: Weak)
    requires WeakInv(s) && Enabled(s, l) && l.t != t && UsesExclusively(PcAt(s.pcs, t), h)
    ensures SameAt(s, Next(s, l), h)
  {
    assert !Unused(s, h);
    assert !UsesExclusively(PcAt(s.pcs, l.t), h);
    hide WeakInv, Next, UsesExclusively;
    if l.Continue? {
      FreeAdvance(s, l.t, l.novel, l.spurious, h);
    } else {
      assert !Changes(l, h);
      FreeStart(s, l, h);
    }
  }

  // ---------------------------------------------------------------- ~WeakPtr and moving over a WeakPtr

  predicate LettingGo(pc: Pc, h: Weak, after: After) {
    (pc.RemoveLock? || pc.RemoveErase? || pc.RemoveUnlock? || pc.DropData?) && pc.h == h && pc.after == after
  }

  /** WeakPtr h has this id, or refers to no object. */
  ghost predicate Holds(s: State, h: Weak, id: Option<nat>) {
    if id.Some? then h in s.weaks && s.weaks[h] == id.value else h !in s.weaks
  }

  lemma HoldsStays(s: State, s': State, h: Weak, id: Option<nat>)
    requires Holds(s, h, id) && SameAt(s, s', h)
    ensures Holds(s', h, id)
  {}

  /** While thread t is at it; and afterwards. */
  ghost predicate MovingOver(s: State, t: Thread, src: Weak, dst: Weak, id: Option<nat>) {
    || (LettingGo(PcAt(s.pcs, t), dst, ThenMove(src)) && Holds(s, src, id))
    || (Holds(s, dst, id) && Holds(s, src, None) && Free(s, dst) && Free(s, src))
  }

  /** Thread t's own step on the way. */
  lemma LettingGoStep(s: State, l: Label, h: Weak, after: After)
    requires Enabled(s, l) && LettingGo(PcAt(s.pcs, l.t), h, after)
    ensures var s' := Next(s, l);
      if PcAt(s.pcs, l.t).DropData? then
        s'.weaks == LetGo(s.weaks, h, after) && (PcAt(s'.pcs, l.t).Idle? || PcAt(s'.pcs, l.t).FreeData?)
      else LettingGo(PcAt(s'.pcs, l.t), h, after) && s'.weaks == s.weaks
  {
    hide LetGo, HoldsLock, Uses, Destroying;
    assert l.Acquire? || l.Continue?;
    if l.Continue? {
      match PcAt(s.pcs, l.t)
      case RemoveErase(_, _) =>
      case RemoveUnlock(_, _) =>
      case DropData(_, _) =>
    }
  }

  lemma FreedBy(s: State, s': State, t: Thread, h: Weak)
    requires WeakInv(s) && UsesExclusively(PcAt(s.pcs, t), h) && OthersStay(s, s', t)
    requires PcAt(s'.pcs, t).Idle? || PcAt(s'.pcs, t).FreeData?
    ensures Free(s', h)
  {}

  lemma MovingOverStep(s: State, l: Label, t: Thread, src: Weak, dst: Weak, id: Option<nat>)
    requires WeakInv(s) && Enabled(s, l) && src != dst && !Changes(l, src) && !Changes(l, dst)
    requires MovingOver(s, t, src, dst, id)
    ensures MovingOver(Next(s, l), t, src, dst, id)
  {
    var s' := Next(s, l);
    OneThreadMoves(s, l);
    if LettingGo(PcAt(s.pcs, t), dst, ThenMove(src)) && Holds(s, src, id) {
      assert UsesExclusively(PcAt(s.pcs, t), src) && UsesExclusively(PcAt(s.pcs, t), dst);
      hide WeakInv, Next, Enabled, Changes, UsesExclusively, Free;
      if l.t != t {
        HeldStep(s, l, t, src);
      } else {
        LettingGoStep(s, l, dst, ThenMove(src));
        if PcAt(s.pcs, t).DropData? {
          FreedBy(s, s', t, src);
          FreedBy(s, s', t, dst);
        }
      }
    } else {
      hide WeakInv, Next, Enabled, Changes, Free;
      FreeStep(s, l, src);
      FreeStep(s, l, dst);
    }
  }

  lemma {:induction false} MovingOverRun(s: State, labels: seq<Label>, t: Thread, src: Weak, dst: Weak, id: Option<nat>)
    requires Inv(s) && IsRun(s, labels) && src != dst && NoChange(labels, src) && NoChange(labels, dst)
    requires MovingOver(s, t, src, dst, id)
    ensures MovingOver(Final(s, labels), t, src, dst, id)
    decreases |labels|
  {
    if labels != [] {
      StepInv(s, labels[0]);
      assert WeakInv(s);
      hide Inv, Enabled, Next, MovingOver, WeakInv;
      MovingOverStep(s, labels[0], t, src, dst, id);
      MovingOverRun(Next(s, labels[0]), labels[1..], t, src, dst, id);
    }
  }

  /**
   * A move over a WeakPtr hands over what the other one had. When it has returned, and no operation on the two has
   * been started since, dst refers to the object with the id that src had, and src refers to nothing; if src
   * referred to nothing, neither of them refers to the object.
   */
  lemma MoveOverHandsOver(before: seq<Label>, t: Thread, src: Weak, dst: Weak, during: seq<Label>)
    requires IsRun(Init, before) && Enabled(Final(Init, before), MoveOver(t, src, dst))
    requires IsRun(Next(Final(Init, before), MoveOver(t, src, dst)), during)
    requires NoChange(during, src) && NoChange(during, dst)
    requires PcAt(Final(Next(Final(Init, before), MoveOver(t, src, dst)), during).pcs, t).Idle?
    ensures var s0 := Final(Init, before);
      var s := Final(Next(s0, MoveOver(t, src, dst)), during);
      && (src in s0.weaks ==> dst in s.weaks && s.weaks[dst] == s0.weaks[src] && src !in s.weaks)
      && (src !in s0.weaks ==> dst !in s.weaks && src !in s.weaks)
  {
    var s0, l := Final(Init, before), MoveOver(t, src, dst);
    var s1 := Next(s0, l);
    var id := if src in s0.weaks then Some(s0.weaks[src]) else None;
    MoveOverStarts(s0, l);
    InitInv();
    hide Enabled, Next, IsRun, Final, Inv;
    RunInv(Init, before);
    StepInv(s0, l);
    MovingOverRun(s1, during, t, src, dst, id);
  }

  lemma MoveOverStarts(s: State, l: Label)
    requires Enabled(s, l) && l.MoveOver?
    ensures l.src != l.dst && LettingGo(PcAt(Next(s, l).pcs, l.t), l.dst, ThenMove(l.src)) && Next(s, l).weaks == s.weaks
  {
    hide Unused;
  }

  /** A move to a WeakPtr that refers to nothing is done in one step. */
  lemma MoveHandsOver(s: State, t: Thread, src: Weak, dst: Weak)
    requires Enabled(s, MoveWeak(t, src, dst))
    ensures var s' := Next(s, MoveWeak(t, src, dst));
      && dst in s'.weaks && s'.weaks[dst] == s.weaks[src] && src !in s'.weaks
      && forall h | h != src && h != dst :: SameAt(s, s', h)
  {
    hide Unused;
  }

  ghost predicate BeingDestroyed(s: State, t: Thread, h: Weak) {
    LettingGo(PcAt(s.pcs, t), h, ThenDestroy) || (h !in s.weaks && Free(s, h))
  }

  lemma BeingDestroyedStep(s: State, l: Label, t: Thread, h: Weak)
    requires WeakInv(s) && Enabled(s, l) && !Changes(l, h) && BeingDestroyed(s, t, h)
    ensures BeingDestroyed(Next(s, l), t, h)
  {
    var s' := Next(s, l);
    OneThreadMoves(s, l);
    if LettingGo(PcAt(s.pcs, t), h, ThenDestroy) {
      assert UsesExclusively(PcAt(s.pcs, t), h);
      hide WeakInv, Next, Enabled, Changes, UsesExclusively, Free;
      if l.t == t {
        LettingGoStep(s, l, h, ThenDestroy);
        if PcAt(s.pcs, t).DropData? {
          FreedBy(s, s', t, h);
        }
      }
    } else {
      hide WeakInv, Next, Enabled, Changes, Free;
      FreeStep(s, l, h);
    }
  }

  lemma {:induction false} BeingDestroyedRun(s: State, labels: seq<Label>, t: Thread, h: Weak)
    requires Inv(s) && IsRun(s, labels) && NoChange(labels, h) && BeingDestroyed(s, t, h)
    ensures BeingDestroyed(Final(s, labels), t, h)
    decreases |labels|
  {
    if labels != [] {
      StepInv(s, labels[0]);
      assert WeakInv(s);
      hide Inv, Enabled, Next, BeingDestroyed, WeakInv;
      BeingDestroyedStep(s, labels[0], t, h);
      BeingDestroyedRun(Next(s, labels[0]), labels[1..], t, h);
    }
  }

  /** After ~WeakPtr the WeakPtr refers to nothing. */
  lemma DestructorLetsGo(before: seq<Label>, t: Thread, h: Weak, during: seq<Label>)
    requires IsRun(Init, before) && Enabled(Final(Init, before), DestroyWeak(t, h))
    requires IsRun(Next(Final(Init, before), DestroyWeak(t, h)), during) && NoChange(during, h)
    requires PcAt(Final(Next(Final(Init, before), DestroyWeak(t, h)), during).pcs, t).Idle?
    ensures h !in Final(Next(Final(Init, before), DestroyWeak(t, h)), during).weaks
  {
    var s0, l := Final(Init, before), DestroyWeak(t, h);
    assert LettingGo(PcAt(Next(s0, l).pcs, t), h, ThenDestroy);
    InitInv();
    hide Enabled, Next, IsRun, Final, Inv;
    RunInv(Init, before);
    StepInv(s0, l);
    BeingDestroyedRun(Next(s0, l), during, t, h);
  }

  // ---------------------------------------------------------------- a new WeakPtr

  /** The WeakPtr has no notifier only if the object's destruction had got past Notify. */
  ghost predicate Making(s: State, t: Thread, h: Weak) {
    h in s.weaks &&
    ( || ((PcAt(s.pcs, t).AddLock? || PcAt(s.pcs, t).AddInsert?) && PcAt(s.pcs, t).h == h)
      || (PcAt(s.pcs, t).AddUnlock? && PcAt(s.pcs, t).h == h && (PcAt(s.pcs, t).id == 0 ==> s.ptrNull))
      || ((s.weaks[h] == 0 ==> s.ptrNull) && Free(s, h)))
  }

  lemma MakingOwnStep(s: State, l: Label, h: Weak)
    requires WeakInv(s) && Enabled(s, l) && s.nextId > 0 && Making(s, l.t, h)
    requires PcAt(s.pcs, l.t).AddLock? || PcAt(s.pcs, l.t).AddInsert? || PcAt(s.pcs, l.t).AddUnlock?
    requires PcAt(s.pcs, l.t).h == h
    ensures Making(Next(s, l), l.t, h)
  {
    OneThreadMoves(s, l);
    assert UsesExclusively(PcAt(s.pcs, l.t), h);
    hide HoldsLock, Destroying, Uses, LetGo, Unused;
    assert l.Acquire? || l.Continue?;
    if l.Continue? && PcAt(s.pcs, l.t).AddUnlock? {
      FreedBy(s, Next(s, l), l.t, h);
    }
  }

  lemma MakingStep(s: State, l: Label, t: Thread, h: Weak)
    requires Inv(s) && Enabled(s, l) && !Changes(l, h) && Making(s, t, h)
    ensures Making(Next(s, l), t, h)
  {
    var s', pc := Next(s, l), PcAt(s.pcs, t);
    OneThreadMoves(s, l);
    ExtendsStep(s, l);
    assert WeakInv(s) && s.nextId > 0;
    hide Inv, Next, Enabled, Changes, Free, WeakInv, Picked;
    if (pc.AddLock? || pc.AddInsert? || pc.AddUnlock?) && pc.h == h {
      assert UsesExclusively(pc, h);
      if l.t == t {
        MakingOwnStep(s, l, h);
      } else {
        hide UsesExclusively;
        HeldStep(s, l, t, h);
      }
    } else {
      hide UsesExclusively;
      FreeStep(s, l, h);
    }
  }

  lemma {:induction false} MakingRun(s: State, labels: seq<Label>, t: Thread, h: Weak)
    requires Inv(s) && IsRun(s, labels) && NoChange(labels, h) && Making(s, t, h)
    ensures Making(Final(s, labels), t, h)
    decreases |labels|
  {
    if labels != [] {
      hide Inv, Enabled, Next, Making;
      StepInv(s, labels[0]);
      MakingStep(s, labels[0], t, h);
      MakingRun(Next(s, labels[0]), labels[1..], t, h);
    }
  }

  /**
   * The constructor of a WeakPtr with a callback registers it: when it has returned, the WeakPtr refers to the object,
   * and it has a notifier unless destruction had got past Notify. While the strong count is positive its notifier
   * is in the map.
   */
  lemma ConstructorRegisters(before: seq<Label>, t: Thread, r: Strong, h: Weak, during: seq<Label>)
    requires IsRun(Init, before) && Enabled(Final(Init, before), MakeWeak(t, r, h, true))
    requires IsRun(Next(Final(Init, before), MakeWeak(t, r, h, true)), during) && NoChange(during, h)
    requires PcAt(Final(Next(Final(Init, before), MakeWeak(t, r, h, true)), during).pcs, t).Idle?
    ensures var s := Final(Next(Final(Init, before), MakeWeak(t, r, h, true)), during);
      && h in s.weaks
      && (!s.ptrNull ==> s.weaks[h] != 0)
      && (s.ref > 0 ==> s.weaks[h] in s.notifiers)
  {
    var s0, l := Final(Init, before), MakeWeak(t, r, h, true);
    assert Making(Next(s0, l), t, h);
    InitInv();
    InitOwners();
    hide Enabled, Next, IsRun, Final, Inv, OwnerInv;
    RunInv(Init, before);
    OwnersAlong(Init, before);
    StepInv(s0, l);
    OwnersAfter(s0, l);
    MakingRun(Next(s0, l), during, t, h);
    RunInv(Next(s0, l), during);
    OwnersAlong(Next(s0, l), during);
    RunConcatWith(before, l, during);
    var s := Final(Next(s0, l), during);
    if s.ref > 0 {
      NoCallbackBeforeZero(before + [l] + during);
      RegisteredWhileAlive(s, h);
    }
  }

  lemma RunConcatWith(before: seq<Label>, l: Label, during: seq<Label>)
    requires IsRun(Init, before) && Enabled(Final(Init, before), l) && IsRun(Next(Final(Init, before), l), during)
    ensures IsRun(Init, before + [l] + during)
    ensures Final(Init, before + [l] + during) == Final(Next(Final(Init, before), l), during)
  {
    hide Enabled, Next, IsRun, Final;
    RunSnoc(Init, before, l);
    RunConcat(Init, before + [l], during);
  }

  lemma RegisteredWhileAlive(s: State, h: Weak)
    requires Inv(s) && OwnerInv(s) && s.ref > 0 && Picked(s) == []
    requires h in s.weaks && Free(s, h) && (s.weaks[h] == 0 ==> s.ptrNull)
    ensures s.weaks[h] in s.notifiers
  {
    assert !s.ptrNull;
    forall u: Thread ensures !Erased(PcAt(s.pcs, u), h) {
      assert !UsesExclusively(PcAt(s.pcs, u), h);
    }
    assert !Erasing(s, h);
    hide Picked;
    assert 0 < s.weaks[h] < s.nextId;
  }

  /** A WeakPtr without a callback is there at once, and has no notifier. */
  lemma ConstructorWithoutCallback(s: State, t: Thread, r: Strong, h: Weak)
    requires Enabled(s, MakeWeak(t, r, h, false))
    ensures var s' := Next(s, MakeWeak(t, r, h, false));
      PcAt(s'.pcs, t).Idle? && h in s'.weaks && s'.weaks[h] == 0 && forall g | g != h :: SameAt(s, s', g)
  {
    hide Unused, Reaches;
  }

  /** Copying a reference makes a new one and keeps the old one; dropping one leaves all others. */
  lemma ReferencesMove(s: State, t: Thread, r: Strong, novel: Strong)
    ensures Enabled(s, CopyRef(t, r, novel)) ==>
      r in Next(s, CopyRef(t, r, novel)).refs && novel in Next(s, CopyRef(t, r, novel)).refs
    ensures Enabled(s, DropRef(t, r)) ==>
      r !in Next(s, DropRef(t, r)).refs && forall q | q in s.refs && q != r :: q in Next(s, DropRef(t, r)).refs
  {
    hide Returning;
  }

  // ---------------------------------------------------------------- no notifier is orphaned

  predicate Adding(pc: Pc) {
    pc.AddLock? || pc.AddInsert? || pc.AddUnlock?
  }

  predicate Dropping(pc: Pc) {
    pc.RemoveUnlock? || pc.DropData?
  }

  ghost predicate HasOwner(s: State, id: nat) {
    exists h :: h in s.weaks && s.weaks[h] == id
  }

  ghost predicate HasAdder(s: State, id: nat) {
    exists t: Thread :: PcAt(s.pcs, t).AddUnlock? && PcAt(s.pcs, t).id == id
  }

  /** A WeakPtr that is getting a notifier has none yet, and one that is dropped has none in the map. */
  ghost predicate Settled(s: State, pc: Pc) {
    && (Adding(pc) ==> pc.h in s.weaks && s.weaks[pc.h] == 0)
    && (Dropping(pc) ==> pc.h in s.weaks && s.weaks[pc.h] !in s.notifiers)
  }

  ghost predicate AdoptInv(s: State) {
    && (forall id | id in s.notifiers :: HasOwner(s, id) || HasAdder(s, id))
    && (forall t: Thread :: Settled(s, PcAt(s.pcs, t)))
  }

  lemma InitAdopted()
    ensures AdoptInv(Init)
  {}

  lemma NotifiersGrow(s: State, l: Label)
    requires Enabled(s, l)
    ensures forall id | id in Next(s, l).notifiers && id !in s.notifiers ::
      id == s.nextId && l.Continue? && PcAt(s.pcs, l.t).AddInsert?
      && PcAt(Next(s, l).pcs, l.t) == AddUnlock(PcAt(s.pcs, l.t).h, id)
  {
    if !l.Continue? {
      StartEffect(s, l);
    } else if InGet(PcAt(s.pcs, l.t)) {
      hide AdvanceGet;
      GetEffect(s, l.t, l.novel, l.spurious);
    } else if InExclusive(PcAt(s.pcs, l.t)) {
      hide AdvanceWeak;
      WeakNotifiers(s, l.t);
    } else {
      hide AdvanceDestroy;
      DestroyNotifiers(s, l.t);
    }
  }

  lemma WeakNotifiers(s: State, t: Thread)
    requires InExclusive(PcAt(s.pcs, t))
    ensures forall id | id in AdvanceWeak(s, t).notifiers && id !in s.notifiers ::
      id == s.nextId && PcAt(s.pcs, t).AddInsert? && PcAt(AdvanceWeak(s, t).pcs, t) == AddUnlock(PcAt(s.pcs, t).h, id)
  {
    hide LetGo, Uses, HoldsLock;
    if PcAt(s.pcs, t).AddInsert? {
    } else if PcAt(s.pcs, t).RemoveErase? {
    } else {
      assert AdvanceWeak(s, t).notifiers == s.notifiers;
    }
  }

  lemma DestroyNotifiers(s: State, t: Thread)
    requires Runs(s, t) && InDestroy(PcAt(s.pcs, t))
    ensures AdvanceDestroy(s, t).notifiers <= s.notifiers
  {
    DestroyPoints(s, t);
    hide Runs, InDestroy, AdvanceDestroy;
    if PcAt(s.pcs, t).NotifyLoop? {
      LoopNotifiers(s, t);
    } else if PcAt(s.pcs, t).NotifyUnlock? || PcAt(s.pcs, t).NotifyCall? {
      CallNotifiers(s, t);
    } else if NotifyRuns(PcAt(s.pcs, t)) {
      ClearNotifiers(s, t);
    } else {
      FreeNotifiers(s, t);
    }
  }

  lemma LoopNotifiers(s: State, t: Thread)
    requires PcAt(s.pcs, t).NotifyLoop?
    ensures AdvanceDestroy(s, t).notifiers <= s.notifiers
  {
    hide Begin;
  }

  lemma CallNotifiers(s: State, t: Thread)
    requires PcAt(s.pcs, t).NotifyUnlock? || PcAt(s.pcs, t).NotifyCall?
    ensures AdvanceDestroy(s, t).notifiers == s.notifiers
  {
    match PcAt(s.pcs, t)
    case NotifyUnlock(id) =>
    case NotifyCall(id) =>
  }

  lemma ClearNotifiers(s: State, t: Thread)
    requires PcAt(s.pcs, t).NotifyClear? || PcAt(s.pcs, t).NotifyDone?
    ensures AdvanceDestroy(s, t).notifiers == s.notifiers
  {
    match PcAt(s.pcs, t)
    case NotifyClear =>
    case NotifyDone =>
  }

  lemma FreeNotifiers(s: State, t: Thread)
    requires Frees(PcAt(s.pcs, t))
    ensures AdvanceDestroy(s, t).notifiers == s.notifiers
  {
    hide Begin;
  }

  lemma OthersSettled(s: State, l: Label, u: Thread)
    requires WeakInv(s) && DistinctIds(s.weaks, s.nextId) && Enabled(s, l) && l.t != u && Settled(s, PcAt(s.pcs, u))
    ensures Settled(Next(s, l), PcAt(Next(s, l).pcs, u))
  {
    var pc := PcAt(s.pcs, u);
    OneThreadMoves(s, l);
    NotifiersGrow(s, l);
    if Adding(pc) || Dropping(pc) {
      assert UsesExclusively(pc, pc.h);
      hide Next, Enabled, UsesExclusively, WeakInv;
      HeldStep(s, l, u, pc.h);
    }
  }

  lemma OwnSettled(s: State, l: Label)
    requires WeakInv(s) && 0 !in s.notifiers && Enabled(s, l) && Settled(s, PcAt(s.pcs, l.t))
    ensures Settled(Next(s, l), PcAt(Next(s, l).pcs, l.t))
  {
    hide AdvanceGet, AdvanceWeak, AdvanceDestroy;
    if !l.Continue? {
      hide Settled;
      OwnSettledStart(s, l);
    } else if InExclusive(PcAt(s.pcs, l.t)) {
      hide Settled, WeakInv;
      OwnSettledWeak(s, l.t);
    } else if InGet(PcAt(s.pcs, l.t)) {
      hide Settled, WeakInv;
      OwnSettledGet(s, l);
    } else {
      hide WeakInv;
      DestroyEffect(s, l.t);
    }
  }

  lemma OwnSettledGet(s: State, l: Label)
    requires Enabled(s, l) && l.Continue? && InGet(PcAt(s.pcs, l.t))
    ensures Settled(Next(s, l), PcAt(Next(s, l).pcs, l.t))
  {
    hide AdvanceGet;
    GetEffect(s, l.t, l.novel, l.spurious);
    hide HoldsLock, Destroying, Uses;
  }

  lemma OwnSettledStart(s: State, l: Label)
    requires 0 !in s.notifiers && Enabled(s, l) && !l.Continue? && Settled(s, PcAt(s.pcs, l.t))
    ensures Settled(Next(s, l), PcAt(Next(s, l).pcs, l.t))
  {
    hide HoldsLock, Destroying, Unused, Reaches;
    if !l.MakeWeak? {
      StartEffect(s, l);
    }
  }

  lemma OwnSettledWeak(s: State, t: Thread)
    requires WeakInv(s) && 0 !in s.notifiers && Runs(s, t) && InExclusive(PcAt(s.pcs, t)) && Settled(s, PcAt(s.pcs, t))
    ensures Settled(AdvanceWeak(s, t), PcAt(AdvanceWeak(s, t).pcs, t))
  {
    hide LetGo, Uses, HoldsLock, MovesOntoItself;
    assert PcAt(s.pcs, t).h in s.weaks;
    hide WeakInv;
    if PcAt(s.pcs, t).AddUnlock? || PcAt(s.pcs, t).DropData? {
      assert !Adding(PcAt(AdvanceWeak(s, t).pcs, t)) && !Dropping(PcAt(AdvanceWeak(s, t).pcs, t));
    } else if PcAt(s.pcs, t).AddInsert? {
    } else if PcAt(s.pcs, t).RemoveErase? {
    } else {
      assert PcAt(s.pcs, t).RemoveUnlock?;
    }
  }

  /** A registered notifier stays with its WeakPtr, or goes where that is moved. */
  lemma NotifierIsPassedOn(s: State, l: Label, h: Weak) returns (g: Weak)
    requires WeakInv(s) && 0 !in s.notifiers && Enabled(s, l) && Settled(s, PcAt(s.pcs, l.t))
    requires h in s.weaks && s.weaks[h] in s.notifiers
    ensures g in Next(s, l).weaks && Next(s, l).weaks[g] == s.weaks[h]
  {
    var pc := PcAt(s.pcs, l.t);
    g := h;
    if l.MoveWeak? && l.src == h {
      g := l.dst;
    } else if !l.Continue? {
      hide Settled, UsesExclusively;
      PassedOnStart(s, l, h);
    } else if UsesExclusively(pc, h) {
      g := PassedOnHeld(s, l, h);
    } else {
      hide Settled, UsesExclusively, Enabled;
      FreeAdvance(s, l.t, l.novel, l.spurious, h);
    }
  }

  lemma PassedOnStart(s: State, l: Label, h: Weak)
    requires Enabled(s, l) && !l.Continue? && h in s.weaks && !(l.MoveWeak? && l.src == h)
    ensures SameAt(s, Next(s, l), h)
  {
    hide HoldsLock, Destroying, Unused, Reaches;
    if !l.MakeWeak? && !l.MoveWeak? {
      StartEffect(s, l);
    }
  }

  lemma PassedOnHeld(s: State, l: Label, h: Weak) returns (g: Weak)
    requires WeakInv(s) && 0 !in s.notifiers && Enabled(s, l) && l.Continue? && Settled(s, PcAt(s.pcs, l.t))
    requires h in s.weaks && s.weaks[h] in s.notifiers && UsesExclusively(PcAt(s.pcs, l.t), h)
    ensures g in Next(s, l).weaks && Next(s, l).weaks[g] == s.weaks[h]
  {
    var pc := PcAt(s.pcs, l.t);
    assert pc.h in s.weaks && !MovesOntoItself(pc);
    hide WeakInv, HoldsLock, Destroying;
    g := h;
    if pc.DropData? {
      assert pc.after == ThenMove(h);
      g := pc.h;
    } else if pc.AddUnlock? {
      assert false;
    }
  }

  lemma AdoptStep(s: State, l: Label)
    requires Inv(s) && OwnerInv(s) && AdoptInv(s) && Enabled(s, l)
    ensures AdoptInv(Next(s, l))
  {
    var s' := Next(s, l);
    PickedIsRunOrHeld(s, 0);
    OneThreadMoves(s, l);
    NotifiersGrow(s, l);
    assert WeakInv(s) && DistinctIds(s.weaks, s.nextId);
    hide Inv, OwnerInv, Enabled, Next, Settled, WeakInv;
    forall u: Thread ensures Settled(s', PcAt(s'.pcs, u)) {
      if u == l.t {
        OwnSettled(s, l);
      } else {
        OthersSettled(s, l, u);
      }
    }
    forall id | id in s'.notifiers ensures HasOwner(s', id) || HasAdder(s', id) {
      if id in s.notifiers {
        StillAdopted(s, l, id);
      } else {
        assert PcAt(s'.pcs, l.t).AddUnlock? && PcAt(s'.pcs, l.t).id == id;
      }
    }
  }

  lemma StillAdopted(s: State, l: Label, id: nat)
    requires WeakInv(s) && 0 !in s.notifiers && Enabled(s, l) && Settled(s, PcAt(s.pcs, l.t))
    requires id in s.notifiers && (HasOwner(s, id) || HasAdder(s, id))
    ensures HasOwner(Next(s, l), id) || HasAdder(Next(s, l), id)
  {
    var s' := Next(s, l);
    OneThreadMoves(s, l);
    if HasOwner(s, id) {
      hide Next, Enabled, WeakInv, Settled;
      var h :| h in s.weaks && s.weaks[h] == id;
      var g := NotifierIsPassedOn(s, l, h);
    } else {
      var u: Thread :| PcAt(s.pcs, u).AddUnlock? && PcAt(s.pcs, u).id == id;
      if u == l.t {
        AdderRecords(s, l);
      } else {
        hide Next, Enabled, WeakInv, Settled;
        assert PcAt(s'.pcs, u).AddUnlock?;
      }
    }
  }

  lemma AdderRecords(s: State, l: Label)
    requires Enabled(s, l) && PcAt(s.pcs, l.t).AddUnlock?
    ensures Next(s, l).weaks == s.weaks[PcAt(s.pcs, l.t).h := PcAt(s.pcs, l.t).id]
    ensures HasOwner(Next(s, l), PcAt(s.pcs, l.t).id)
  {
    hide HoldsLock, Uses, Destroying, Returning;
    assert PcAt(s.pcs, l.t).h in Next(s, l).weaks;
  }

  lemma {:induction false} AdoptRun(s: State, labels: seq<Label>)
    requires Inv(s) && OwnerInv(s) && AdoptInv(s) && IsRun(s, labels)
    ensures AdoptInv(Final(s, labels))
    decreases |labels|
  {
    if labels != [] {
      hide Inv, OwnerInv, AdoptInv, Enabled, Next;
      StepInv(s, labels[0]);
      OwnersAfter(s, labels[0]);
      AdoptStep(s, labels[0]);
      AdoptRun(Next(s, labels[0]), labels[1..]);
    }
  }

  /** In every reachable state each notifier in the map is that of exactly one WeakPtr, or of one AddNotifier that
      has still to record it in its WeakPtr. */
  lemma NoNotifierIsOrphaned(labels: seq<Label>, id: nat)
    requires IsRun(Init, labels) && id in Final(Init, labels).notifiers
    ensures var s := Final(Init, labels);
      && ((exists h :: h in s.weaks && s.weaks[h] == id)
          <==> !exists t: Thread :: PcAt(s.pcs, t).AddUnlock? && PcAt(s.pcs, t).id == id)
      && (forall g, h | g in s.weaks && h in s.weaks && s.weaks[g] == id && s.weaks[h] == id :: g == h)
      && (forall t: Thread, u: Thread | PcAt(s.pcs, t).AddUnlock? && PcAt(s.pcs, u).AddUnlock? :: t == u)
  {
    hide Enabled, Next, Inv, OwnerInv, AdoptInv;
    InitInv();
    InitOwners();
    InitAdopted();
    RunInv(Init, labels);
    OwnersAlong(Init, labels);
    AdoptRun(Init, labels);
    var s := Final(Init, labels);
    hide IsRun, Final;
    OneOwner(s, id);
  }

  lemma OneOwner(s: State, id: nat)
    requires Inv(s) && OwnerInv(s) && AdoptInv(s) && id in s.notifiers
    ensures HasOwner(s, id) <==> !HasAdder(s, id)
    ensures forall g, h | g in s.weaks && h in s.weaks && s.weaks[g] == id && s.weaks[h] == id :: g == h
    ensures forall t: Thread, u: Thread | PcAt(s.pcs, t).AddUnlock? && PcAt(s.pcs, u).AddUnlock? :: t == u
  {
    PickedIsRunOrHeld(s, 0);
    assert forall t: Thread | PcAt(s.pcs, t).AddUnlock? :: HoldsLock(PcAt(s.pcs, t));
    if HasAdder(s, id) {
      var t: Thread :| PcAt(s.pcs, t).AddUnlock? && PcAt(s.pcs, t).id == id;
      assert IsFresh(s, id);
    }
  }
}
