/** wait, exit, reparent, fork's adoption and kill of kernel/proc.c on top of sleep and wakeup, as a machine
    that interleaves the steps between lock operations of any number of processes. */
module WaitExit {
  import opened Basics

  datatype Life = Unused | Live | Zombie

  datatype Pc =
    | Away                              // not in wait or exit
    | WantWait                          // at acquire(&wait_lock), on entry to wait or at the end of sleep
    | Look(next: nat, kids: bool)       // wait's scan for exited children
    | Sleep1                            // sleep, at acquire(&p->lock)
    | Sleep2                            // holds p->lock and wait_lock
    | Sleep3                            // has released wait_lock, state not yet SLEEPING
    | Asleep                            // SLEEPING on its own channel
    | WantExit
    | Reparent(next: nat)               // reparent's scan
    | InitWake(next: nat, scan: nat)    // reparent, in wakeup(initproc)
    | ParentWake(scan: nat)             // exit, in wakeup(p->parent)
    | Die1                              // at acquire(&p->lock)
    | Die2                              // ZOMBIE, holds p->lock and wait_lock
    | Die3                              // has released wait_lock, not yet off the processor
    | Dead

  datatype Proc = Proc(life: Life, parent: Option<nat>, killed: bool, pc: Pc)

  datatype State = State(lock: Option<nat>, init: nat, procs: seq<Proc>)

  datatype Step =
    | Fork(p: nat, child: nat)
    | EnterWait(p: nat)
    | EnterExit(p: nat)
    | Acquire(p: nat)
    | LookOn(p: nat)
    | Reap(p: nat)
    | ReapFails(p: nat)
    | LookEnd(p: nat)
    | SleepStep(p: nat)
    | Kill(p: nat)
    | Adopt(p: nat)
    | Wake(p: nat)
    | WakeEnd(p: nat)
    | Die(p: nat)

  predicate HasLock(pc: Pc) {
    match pc
    case Look(_, _) => true
    case Sleep1 => true
    case Sleep2 => true
    case Reparent(_) => true
    case InitWake(_, _) => true
    case ParentWake(_) => true
    case Die1 => true
    case Die2 => true
    case _ => false
  }

  /** Holds its own p->lock. */
  predicate HasOwn(pc: Pc) {
    pc == Sleep2 || pc == Sleep3 || pc == Die2 || pc == Die3
  }

  predicate Sleepy(pc: Pc) {
    pc == Sleep1 || pc == Sleep2 || pc == Sleep3 || pc == Asleep
  }

  predicate Dying(pc: Pc) {
    pc == Die2 || pc == Die3 || pc == Dead
  }

  function Set(st: State, p: nat, pc: Pc): State
    requires p < |st.procs|
  {
    st.(procs := st.procs[p := st.procs[p].(pc := pc)])
  }

  /** A process's pc and the lock after it. */
  function Move(st: State, p: nat, pc: Pc): State
    requires p < |st.procs|
  {
    Set(st, p, pc).(lock := if HasLock(pc) then Some(p) else None)
  }

  /** What wakeup does to process `q`, for the channel of process `chan`. */
  function Woken(st: State, q: nat, chan: nat): State
    requires q < |st.procs|
  {
    if q == chan && st.procs[q].pc == Asleep then Set(st, q, WantWait) else st
  }

  predicate Scanning(pc: Pc) {
    pc.InitWake? || pc.ParentWake?
  }

  /** On whose channel a wakeup is. */
  function Channel(st: State, p: nat): nat
    requires p < |st.procs| && Scanning(st.procs[p].pc)
    requires st.procs[p].pc.ParentWake? ==> st.procs[p].parent.Some?
  {
    if st.procs[p].pc.InitWake? then st.init else st.procs[p].parent.value
  }

  function Advance(pc: Pc): Pc
    requires Scanning(pc)
  {
    match pc
    case InitWake(k, j) => InitWake(k, j + 1)
    case ParentWake(j) => ParentWake(j + 1)
  }

  predicate IsChild(st: State, k: nat, p: nat) {
    k < |st.procs| && st.procs[k].parent == Some(p)
  }

  predicate ForkStep(st: State, p: nat, child: nat, st': State) {
    && p < |st.procs| && st.procs[p].pc == Away && st.procs[p].life == Live && st.lock == None
    && child < |st.procs| && st.procs[child].life == Unused
    && st' == st.(procs := st.procs[child := Proc(Live, Some(p), false, Away)])
  }

  predicate EnterStep(st: State, p: nat, pc: Pc, st': State) {
    p < |st.procs| && st.procs[p].pc == Away && st.procs[p].life == Live && st' == Set(st, p, pc)
  }

  predicate AcquireStep(st: State, p: nat, st': State) {
    && p < |st.procs| && st.lock == None && (st.procs[p].pc == WantWait || st.procs[p].pc == WantExit)
    && st' == Move(st, p, if st.procs[p].pc == WantWait then Look(0, false) else Reparent(0))
  }

  predicate LookOnStep(st: State, p: nat, st': State) {
    && p < |st.procs| && st.procs[p].pc.Look? && st.procs[p].pc.next < |st.procs|
    && var k := st.procs[p].pc.next;
    && (IsChild(st, k, p) ==> !HasOwn(st.procs[k].pc) && st.procs[k].life != Zombie)
    && st' == Move(st, p, Look(k + 1, st.procs[p].pc.kids || IsChild(st, k, p)))
  }

  /** wait's scan stands at an exited child that is off the processor. */
  predicate AtZombie(st: State, p: nat) {
    && p < |st.procs| && st.procs[p].pc.Look? && IsChild(st, st.procs[p].pc.next, p)
    && !HasOwn(st.procs[st.procs[p].pc.next].pc) && st.procs[st.procs[p].pc.next].life == Zombie
  }

  predicate ReapStep(st: State, p: nat, st': State) {
    && AtZombie(st, p)
    && var st1 := Move(st, p, Away);
    st' == st1.(procs := st1.procs[st.procs[p].pc.next := Proc(Unused, None, false, Away)])
  }

  predicate LookEndStep(st: State, p: nat, st': State) {
    && p < |st.procs| && st.procs[p].pc.Look? && st.procs[p].pc.next >= |st.procs|
    && st' == Move(st, p, if !st.procs[p].pc.kids || st.procs[p].killed then Away else Sleep1)
  }

  predicate SleepStepStep(st: State, p: nat, st': State) {
    && p < |st.procs|
    && match st.procs[p].pc
       case Sleep1 => st' == Move(st, p, Sleep2)
       case Sleep2 => st' == Move(st, p, Sleep3)
       case Sleep3 => st' == Set(st, p, Asleep)
       case _ => false
  }

  predicate KillStep(st: State, p: nat, st': State) {
    && p < |st.procs| && st.procs[p].life == Live && !HasOwn(st.procs[p].pc)
    && var pc := if st.procs[p].pc == Asleep then WantWait else st.procs[p].pc;
    st' == st.(procs := st.procs[p := st.procs[p].(pc := pc, killed := true)])
  }

  /** A round of reparent: a child is given to init, and init will be woken. */
  predicate AdoptStep(st: State, p: nat, st': State) {
    && p < |st.procs| && st.procs[p].pc.Reparent?
    && var k := st.procs[p].pc.next;
    if k >= |st.procs| then st' == Move(st, p, ParentWake(0))
    else if IsChild(st, k, p) then Adopts(st, p, k, st')
    else st' == Move(st, p, Reparent(k + 1))
  }

  predicate Adopts(st: State, p: nat, k: nat, st': State)
    requires p < |st.procs| && k < |st.procs|
  {
    var st1 := Move(st, p, InitWake(k, 0));
    st' == st1.(procs := st1.procs[k := st1.procs[k].(parent := Some(st.init))])
  }

  /** A round of wakeup. */
  predicate WakeStep(st: State, p: nat, st': State) {
    && p < |st.procs| && Scanning(st.procs[p].pc)
    && var pc := st.procs[p].pc;
    && pc.scan < |st.procs| && (pc.ParentWake? ==> st.procs[p].parent.Some?)
    && (pc.scan != p ==> !HasOwn(st.procs[pc.scan].pc))
    && st' == Move(if pc.scan == p then st else Woken(st, pc.scan, Channel(st, p)), p, Advance(pc))
  }

  predicate WakeEndStep(st: State, p: nat, st': State) {
    && p < |st.procs| && Scanning(st.procs[p].pc) && st.procs[p].pc.scan >= |st.procs|
    && st' == Move(st, p, if st.procs[p].pc.InitWake? then Reparent(st.procs[p].pc.next + 1) else Die1)
  }

  predicate DieStep(st: State, p: nat, st': State) {
    && p < |st.procs|
    && match st.procs[p].pc
       case Die1 => st' == st.(procs := st.procs[p := st.procs[p].(pc := Die2, life := Zombie)])
       case Die2 => st' == Move(st, p, Die3)
       case Die3 => st' == Set(st, p, Dead)
       case _ => false
  }

  predicate Next(st: State, step: Step, st': State) {
    match step
    case Fork(p, child) => ForkStep(st, p, child, st')
    case EnterWait(p) => EnterStep(st, p, WantWait, st')
    case EnterExit(p) => p != st.init && EnterStep(st, p, WantExit, st')
    case Acquire(p) => AcquireStep(st, p, st')
    case LookOn(p) => LookOnStep(st, p, st')
    case Reap(p) => ReapStep(st, p, st')
    case ReapFails(p) => AtZombie(st, p) && st' == Move(st, p, Away)   // copyout fails
    case LookEnd(p) => LookEndStep(st, p, st')
    case SleepStep(p) => SleepStepStep(st, p, st')
    case Kill(p) => KillStep(st, p, st')
    case Adopt(p) => AdoptStep(st, p, st')
    case Wake(p) => WakeStep(st, p, st')
    case WakeEnd(p) => WakeEndStep(st, p, st')
    case Die(p) => DieStep(st, p, st')
  }

  // ---- what every run keeps ----

  ghost predicate Mutex(st: State) {
    forall p: nat :: p < |st.procs| ==> (HasLock(st.procs[p].pc) <==> st.lock == Some(p))
  }

  predicate LifeOk(proc: Proc) {
    && (proc.life == Zombie <==> Dying(proc.pc))
    && (proc.life == Unused ==> proc.pc == Away && proc.parent == None)
  }

  /** Everybody but init has a parent that can still wait for it. */
  predicate ParentOk(st: State, k: nat)
    requires k < |st.procs|
  {
    && (k == st.init ==> st.procs[k].life == Live && st.procs[k].parent == None && st.procs[k].pc != WantExit &&
                         !st.procs[k].pc.Reparent? && !Scanning(st.procs[k].pc) && st.procs[k].pc != Die1)
    && (k != st.init && st.procs[k].life != Unused ==> st.procs[k].parent.Some?)
    && (st.procs[k].parent.Some? ==>
          var q := st.procs[k].parent.value; q != k && q < |st.procs| && st.procs[q].life == Live)
  }

  ghost predicate Family(st: State) {
    st.init < |st.procs| && forall k :: 0 <= k < |st.procs| ==> LifeOk(st.procs[k]) && ParentOk(st, k)
  }

  /** What the holder `p` of the lock has made sure of when it is at `pc`. */
  ghost predicate Progress(st: State, p: nat, pc: Pc)
    requires p < |st.procs|
  {
    match pc
    case Look(next, kids) =>
      && (forall k :: 0 <= k < next && IsChild(st, k, p) ==> st.procs[k].life != Zombie)
      && (kids <==> exists k :: 0 <= k < next && IsChild(st, k, p))
    case Sleep1 => NoneDead(st, p)
    case Sleep2 => NoneDead(st, p)
    case Reparent(next) => NoChildBelow(st, p, next)
    case InitWake(next, _) => NoChildBelow(st, p, next + 1)
    case ParentWake(scan) => NoChildBelow(st, p, |st.procs|) && ParentAwake(st, p, scan)
    case Die1 => NoChildBelow(st, p, |st.procs|) && ParentAwake(st, p, |st.procs|)
    case _ => true
  }

  ghost predicate NoChildBelow(st: State, p: nat, end: nat) {
    forall k :: 0 <= k < end ==> !IsChild(st, k, p)
  }

  /** The parent of `p` is not asleep if it comes before `end`. */
  predicate ParentAwake(st: State, p: nat, end: nat)
    requires p < |st.procs|
  {
    st.procs[p].parent.Some? && st.procs[p].parent.value < |st.procs| && st.procs[p].parent.value < end ==>
      !Sleepy(st.procs[st.procs[p].parent.value].pc)
  }

  ghost predicate Progressing(st: State) {
    forall p :: 0 <= p < |st.procs| && HasLock(st.procs[p].pc) ==> Progress(st, p, st.procs[p].pc)
  }

  /** No child of `p` is a zombie. */
  ghost predicate NoneDead(st: State, p: nat) {
    forall k :: 0 <= k < |st.procs| && IsChild(st, k, p) ==> st.procs[k].life != Zombie
  }

  /** The holder of the lock has yet to pass process `q` in a wakeup of init. */
  predicate Pending(st: State, q: nat) {
    && st.lock.Some? && st.lock.value < |st.procs| && st.lock.value != q && q == st.init
    && st.procs[st.lock.value].pc.InitWake? && st.procs[st.lock.value].pc.scan <= q
  }

  ghost predicate SleepOk(st: State, q: nat)
    requires q < |st.procs|
  {
    Sleepy(st.procs[q].pc) ==> NoneDead(st, q) || Pending(st, q)
  }

  ghost predicate NoLost(st: State) {
    forall q: nat :: q < |st.procs| ==> SleepOk(st, q)
  }

  ghost predicate Inv(st: State) {
    Mutex(st) && Family(st) && Progressing(st) && NoLost(st)
  }

  /** Only init is there. */
  predicate Init(st: State) {
    && st.lock == None && st.init < |st.procs| && st.procs[st.init] == Proc(Live, None, false, Away)
    && forall k :: 0 <= k < |st.procs| && k != st.init ==> st.procs[k] == Proc(Unused, None, false, Away)
  }

  lemma InitInv(st: State)
    requires Init(st)
    ensures Inv(st)
  {
  }

  // ---- a step of the holder, or of a process that takes the free lock ----

  predicate ExitPc(pc: Pc) {
    pc == WantExit || pc.Reparent? || Scanning(pc) || pc == Die1
  }

  /** Life and parents are as they were. */
  ghost predicate SameFamily(st: State, st': State) {
    && st'.init == st.init && |st'.procs| == |st.procs|
    && forall k :: 0 <= k < |st.procs| ==>
         st'.procs[k].life == st.procs[k].life && st'.procs[k].parent == st.procs[k].parent
  }

  lemma SameNoneDead(st: State, st': State, q: nat)
    requires SameFamily(st, st') && NoneDead(st, q)
    ensures NoneDead(st', q)
  {
    forall k | 0 <= k < |st'.procs| && IsChild(st', k, q) ensures st'.procs[k].life != Zombie {
      assert IsChild(st, k, q);
    }
  }

  lemma FamilyKept(st: State, st': State, p: nat)
    requires Family(st) && SameFamily(st, st') && p < |st.procs|
    requires forall k :: 0 <= k < |st.procs| && k != p ==>
               Dying(st'.procs[k].pc) == Dying(st.procs[k].pc) &&
                   (ExitPc(st'.procs[k].pc) ==> ExitPc(st.procs[k].pc)) &&
               (st'.procs[k].pc != Away ==> st.procs[k].pc != Away)
    requires Dying(st'.procs[p].pc) == Dying(st.procs[p].pc) && st.procs[p].life != Unused
    requires ExitPc(st'.procs[p].pc) ==> ExitPc(st.procs[p].pc) || p != st.init
    ensures Family(st')
  {
    forall k | 0 <= k < |st'.procs| ensures LifeOk(st'.procs[k]) && ParentOk(st', k) {
      assert LifeOk(st.procs[k]) && ParentOk(st, k);
    }
  }

  /** No process still waits for the wakeup that `p` is in. */
  predicate AllPassed(st: State, pc: Pc) {
    pc.InitWake? ==> pc.scan >= |st.procs|
  }

  ghost predicate GoodMove(st: State, p: nat, pc: Pc) {
    && p < |st.procs| && (HasLock(st.procs[p].pc) || st.lock == None) && st.procs[p].life != Unused
    && Dying(pc) == Dying(st.procs[p].pc) && (ExitPc(pc) ==> p != st.init)
    && Progress(st, p, pc) && (Sleepy(pc) ==> NoneDead(st, p)) && AllPassed(st, st.procs[p].pc)
  }

  lemma MoveNoLost(st: State, p: nat, pc: Pc, q: nat)
    requires Mutex(st) && GoodMove(st, p, pc) && q < |st.procs| && SleepOk(st, q)
    ensures SleepOk(Move(st, p, pc), q)
  {
    hide Progress;
    assert HasLock(st.procs[p].pc) ==> st.lock == Some(p);
    if NoneDead(st, q) {
      SameNoneDead(st, Move(st, p, pc), q);
    }
  }

  lemma MoveKeeps(st: State, p: nat, pc: Pc)
    requires Inv(st) && GoodMove(st, p, pc)
    ensures Inv(Move(st, p, pc))
  {
    var st' := Move(st, p, pc);
    FamilyKept(st, st', p);
    assert ParentOk(st, p);
    forall q: nat | q < |st.procs| && q != p ensures !HasLock(st.procs[q].pc) {
    }
    forall q: nat | q < |st'.procs| ensures SleepOk(st', q) {
      MoveNoLost(st, p, pc, q);
    }
    ProgressKept(st, st', p, pc);
    assert Mutex(st') && NoLost(st') && Progressing(st');
  }

  // ---- a step of a process outside the lock ----

  lemma SetKeeps(st: State, p: nat, pc: Pc, killed: bool)
    requires Inv(st) && p < |st.procs| && !HasLock(st.procs[p].pc) && !HasLock(pc) && st.procs[p].life != Unused
    requires Dying(pc) == Dying(st.procs[p].pc) && (ExitPc(pc) ==> p != st.init)
    requires Sleepy(pc) ==> Sleepy(st.procs[p].pc)
    ensures Inv(st.(procs := st.procs[p := st.procs[p].(pc := pc, killed := killed)]))
  {
    var st' := st.(procs := st.procs[p := st.procs[p].(pc := pc, killed := killed)]);
    FamilyKept(st, st', p);
    assert Mutex(st');
    SetNoLost(st, p, pc, killed);
    SetProgress(st, p, pc, killed);
    hide Family, NoLost, Progressing, Mutex;
  }

  lemma SetNoLost(st: State, p: nat, pc: Pc, killed: bool)
    requires Mutex(st) && NoLost(st) && p < |st.procs| && !HasLock(st.procs[p].pc)
    requires Sleepy(pc) ==> Sleepy(st.procs[p].pc)
    ensures NoLost(st.(procs := st.procs[p := st.procs[p].(pc := pc, killed := killed)]))
  {
    var st' := st.(procs := st.procs[p := st.procs[p].(pc := pc, killed := killed)]);
    forall q: nat | q < |st'.procs| ensures SleepOk(st', q) {
      assert SleepOk(st, q);
      if NoneDead(st, q) {
        SameNoneDead(st, st', q);
      }
    }
  }

  lemma SetProgress(st: State, p: nat, pc: Pc, killed: bool)
    requires Family(st) && Progressing(st) && p < |st.procs| && !HasLock(st.procs[p].pc) && !HasLock(pc)
    requires Sleepy(pc) ==> Sleepy(st.procs[p].pc)
    ensures Progressing(st.(procs := st.procs[p := st.procs[p].(pc := pc, killed := killed)]))
  {
    var st' := st.(procs := st.procs[p := st.procs[p].(pc := pc, killed := killed)]);
    forall h | 0 <= h < |st'.procs| && HasLock(st'.procs[h].pc) ensures Progress(st', h, st'.procs[h].pc) {
      assert Progress(st, h, st.procs[h].pc) && ParentOk(st, h);
      ProgressKept(st, st', h, st.procs[h].pc);
    }
  }

  /** Nobody falls asleep or dies behind the holder's back. */
  lemma ProgressKept(st: State, st': State, h: nat, pc: Pc)
    requires SameFamily(st, st') && h < |st.procs| && Progress(st, h, pc) && ParentOk(st, h)
    requires forall q :: 0 <= q < |st.procs| && q != h && Sleepy(st'.procs[q].pc) ==> Sleepy(st.procs[q].pc)
    ensures Progress(st', h, pc)
  {
    forall k: nat, q: nat ensures IsChild(st', k, q) == IsChild(st, k, q) {
    }
    if pc == Sleep1 || pc == Sleep2 {
      SameNoneDead(st, st', h);
    }
  }

  // ---- the steps one by one ----

  lemma ProcFacts(st: State, p: nat)
    requires Inv(st) && p < |st.procs|
    ensures LifeOk(st.procs[p]) && ParentOk(st, p)
    ensures HasLock(st.procs[p].pc) ==> st.lock == Some(p) && Progress(st, p, st.procs[p].pc)
    ensures SleepOk(st, p)
  {
  }

  lemma AcquireKeeps(st: State, p: nat, st': State)
    requires Inv(st) && AcquireStep(st, p, st')
    ensures Inv(st')
  {
    ProcFacts(st, p);
    hide Inv;
    MoveKeeps(st, p, if st.procs[p].pc == WantWait then Look(0, false) else Reparent(0));
  }

  lemma LookOnProgress(st: State, p: nat, next: nat, kids: bool)
    requires p < |st.procs| && Progress(st, p, Look(next, kids))
    requires IsChild(st, next, p) ==> st.procs[next].life != Zombie
    ensures Progress(st, p, Look(next + 1, kids || IsChild(st, next, p)))
  {
    if kids {
      var k :| 0 <= k < next && IsChild(st, k, p);
      assert 0 <= k < next + 1 && IsChild(st, k, p);
    } else {
      forall k | 0 <= k < next + 1 && IsChild(st, k, p) ensures k == next {
      }
    }
  }

  lemma LookOnKeeps(st: State, p: nat, st': State)
    requires Inv(st) && LookOnStep(st, p, st')
    ensures Inv(st')
  {
    hide Inv, Progress, NoneDead;
    ProcFacts(st, p);
    var pc := st.procs[p].pc;
    assert pc == Look(pc.next, pc.kids);
    LookOnProgress(st, p, pc.next, pc.kids);
    MoveKeeps(st, p, Look(pc.next + 1, pc.kids || IsChild(st, pc.next, p)));
  }

  lemma LookEndKeeps(st: State, p: nat, st': State)
    requires Inv(st) && LookEndStep(st, p, st')
    ensures Inv(st')
  {
    ProcFacts(st, p);
    hide Inv;
    MoveKeeps(st, p, if !st.procs[p].pc.kids || st.procs[p].killed then Away else Sleep1);
  }

  lemma ReapFailsKeeps(st: State, p: nat, st': State)
    requires Inv(st) && AtZombie(st, p) && st' == Move(st, p, Away)
    ensures Inv(st')
  {
    ProcFacts(st, p);
    hide Inv;
    MoveKeeps(st, p, Away);
  }

  lemma SleepKeeps(st: State, p: nat, st': State)
    requires Inv(st) && SleepStepStep(st, p, st')
    ensures Inv(st')
  {
    ProcFacts(st, p);
    hide Inv;
    var pc := st.procs[p].pc;
    if pc == Sleep3 {
      SetKeeps(st, p, Asleep, st.procs[p].killed);
    } else {
      MoveKeeps(st, p, if pc == Sleep1 then Sleep2 else Sleep3);
    }
  }

  lemma EnterKeeps(st: State, p: nat, pc: Pc, st': State)
    requires Inv(st) && EnterStep(st, p, pc, st') && (pc == WantWait || (pc == WantExit && p != st.init))
    ensures Inv(st')
  {
    ProcFacts(st, p);
    hide Inv;
    SetKeeps(st, p, pc, st.procs[p].killed);
  }

  lemma WakeEndKeeps(st: State, p: nat, st': State)
    requires Inv(st) && WakeEndStep(st, p, st')
    ensures Inv(st')
  {
    hide Inv, NoneDead, NoChildBelow;
    ProcFacts(st, p);
    var pc := st.procs[p].pc;
    MoveKeeps(st, p, if pc.InitWake? then Reparent(pc.next + 1) else Die1);
  }

  lemma AdoptNoneKeeps(st: State, p: nat, st': State)
    requires Inv(st) && AdoptStep(st, p, st') && !IsChild(st, st.procs[p].pc.next, p)
    ensures Inv(st')
  {
    hide Inv, NoneDead;
    ProcFacts(st, p);
    var pc := st.procs[p].pc;
    MoveKeeps(st, p, if pc.next >= |st.procs| then ParentWake(0) else Reparent(pc.next + 1));
  }

  lemma KillKeeps(st: State, p: nat, st': State)
    requires Inv(st) && KillStep(st, p, st')
    ensures Inv(st')
  {
    ProcFacts(st, p);
    if HasLock(st.procs[p].pc) {
      KillHolder(st, p, st');
    } else {
      hide Inv;
      SetKeeps(st, p, if st.procs[p].pc == Asleep then WantWait else st.procs[p].pc, true);
    }
  }

  lemma KillHolder(st: State, p: nat, st': State)
    requires Inv(st) && p < |st.procs| && st.procs[p].life != Unused
    requires st' == st.(procs := st.procs[p := st.procs[p].(killed := true)])
    ensures Inv(st')
  {
    FamilyKept(st, st', p);
    forall q: nat | q < |st'.procs| ensures SleepOk(st', q) {
      assert SleepOk(st, q);
      if NoneDead(st, q) {
        SameNoneDead(st, st', q);
      }
    }
    forall h | 0 <= h < |st'.procs| && HasLock(st'.procs[h].pc) ensures Progress(st', h, st'.procs[h].pc) {
      assert Progress(st, h, st.procs[h].pc) && ParentOk(st, h);
      ProgressKept(st, st', h, st.procs[h].pc);
    }
    assert Mutex(st') && NoLost(st') && Progressing(st');
  }

  // ---- wakeup, adoption, death, reaping and fork ----

  /** The scan of a wakeup moves on past a process that does not sleep on its channel. */
  lemma AdvanceKeeps(st: State, p: nat)
    requires Inv(st) && p < |st.procs| && Scanning(st.procs[p].pc) && st.procs[p].pc.scan < |st.procs|
    requires st.procs[p].pc.ParentWake? ==> st.procs[p].parent.Some?
    requires st.procs[p].pc.scan == Channel(st, p) ==> !Sleepy(st.procs[st.procs[p].pc.scan].pc)
    ensures Inv(Move(st, p, Advance(st.procs[p].pc)))
  {
    ProcFacts(st, p);
    var pc := Advance(st.procs[p].pc);
    var st' := Move(st, p, pc);
    FamilyKept(st, st', p);
    ProgressKept(st, st', p, pc);
    AdvanceNoLost(st, p);
    forall q: nat | q < |st.procs| && q != p ensures !HasLock(st.procs[q].pc) {
    }
    hide Family, NoLost, Progress;
    assert Mutex(st') && Progressing(st');
  }

  lemma AdvanceNoLost(st: State, p: nat)
    requires Inv(st) && p < |st.procs| && Scanning(st.procs[p].pc) && st.procs[p].pc.scan < |st.procs|
    requires st.procs[p].pc.ParentWake? ==> st.procs[p].parent.Some?
    requires st.procs[p].pc.scan == Channel(st, p) ==> !Sleepy(st.procs[st.procs[p].pc.scan].pc)
    ensures NoLost(Move(st, p, Advance(st.procs[p].pc)))
  {
    ProcFacts(st, p);
    hide Family, Progressing;
    var st' := Move(st, p, Advance(st.procs[p].pc));
    forall q: nat | q < |st'.procs| ensures SleepOk(st', q) {
      assert SleepOk(st, q);
      if NoneDead(st, q) {
        SameNoneDead(st, st', q);
      }
    }
  }

  lemma WakeKeeps(st: State, p: nat, st': State)
    requires Inv(st) && WakeStep(st, p, st')
    ensures Inv(st')
  {
    var k, chan := st.procs[p].pc.scan, Channel(st, p);
    ProcFacts(st, p);
    ProcFacts(st, k);
    if k != p && k == chan && st.procs[k].pc == Asleep {
      SetKeeps(st, k, WantWait, st.procs[k].killed);
      var st1 := Set(st, k, WantWait);
      assert st1 == st.(procs := st.procs[k := st.procs[k].(pc := WantWait, killed := st.procs[k].killed)]);
      hide Inv;
      AdvanceKeeps(st1, p);
    } else {
      hide Inv;
      AdvanceKeeps(st, p);
    }
  }

  lemma AdoptFamily(st: State, p: nat, k: nat, st': State)
    requires Family(st) && p < |st.procs| && IsChild(st, k, p) && Adopts(st, p, k, st')
    requires st.procs[p].pc.Reparent?
    ensures Family(st') && k != st.init && k != p
  {
    assert ParentOk(st, k) && ParentOk(st, st.init) && ParentOk(st, p) && LifeOk(st.procs[p]);
    forall q | 0 <= q < |st'.procs| ensures LifeOk(st'.procs[q]) && ParentOk(st', q) {
      assert LifeOk(st.procs[q]) && ParentOk(st, q);
    }
  }

  lemma AdoptKeeps(st: State, p: nat, st': State)
    requires Inv(st) && AdoptStep(st, p, st')
    ensures Inv(st')
  {
    var k := st.procs[p].pc.next;
    if !IsChild(st, k, p) {
      AdoptNoneKeeps(st, p, st');
    } else {
      AdoptFamily(st, p, k, st');
      ProcFacts(st, p);
      AdoptNoLost(st, p, k, st');
      AdoptProgress(st, p, k, st');
      hide Family, NoLost, Progressing;
    }
  }

  /** Children of others stay with them; only init may gain a dead one, and its wakeup is to come. */
  lemma AdoptNoLost(st: State, p: nat, k: nat, st': State)
    requires Mutex(st) && NoLost(st) && p < |st.procs| && st.procs[p].pc == Reparent(k) && p != st.init
    requires IsChild(st, k, p) && k != p && Adopts(st, p, k, st')
    ensures NoLost(st')
  {
    forall q: nat | q < |st'.procs| ensures SleepOk(st', q) {
      assert SleepOk(st, q);
      if q != st.init && NoneDead(st, q) {
        forall j | 0 <= j < |st'.procs| && IsChild(st', j, q) ensures st'.procs[j].life != Zombie {
          assert IsChild(st, j, q);
        }
      }
    }
  }

  lemma AdoptProgress(st: State, p: nat, k: nat, st': State)
    requires Mutex(st) && p < |st.procs| && st.procs[p].pc == Reparent(k) && Progress(st, p, Reparent(k))
    requires IsChild(st, k, p) && k != p && p != st.init && Adopts(st, p, k, st')
    ensures Mutex(st') && Progressing(st')
  {
    forall q: nat | q < |st.procs| && q != p ensures !HasLock(st.procs[q].pc) {
    }
    forall j | 0 <= j < k + 1 ensures !IsChild(st', j, p) {
      assert j < k ==> !IsChild(st, j, p);
    }
  }

  lemma DieKeeps(st: State, p: nat, st': State)
    requires Inv(st) && DieStep(st, p, st')
    ensures Inv(st')
  {
    ProcFacts(st, p);
    if st.procs[p].pc == Die2 {
      hide Inv;
      MoveKeeps(st, p, Die3);
    } else if st.procs[p].pc == Die3 {
      hide Inv;
      SetKeeps(st, p, Dead, st.procs[p].killed);
    } else {
      DieFamily(st, p, st');
      DieNoLost(st, p, st');
      assert Mutex(st') && Progressing(st');
      hide Family, NoLost;
    }
  }

  lemma DieFamily(st: State, p: nat, st': State)
    requires Family(st) && DieStep(st, p, st') && st.procs[p].pc == Die1 && NoChildBelow(st, p, |st.procs|)
    ensures Family(st')
  {
    assert ParentOk(st, p) && LifeOk(st.procs[p]);
    forall q | 0 <= q < |st'.procs| ensures LifeOk(st'.procs[q]) && ParentOk(st', q) {
      assert LifeOk(st.procs[q]) && ParentOk(st, q) && !IsChild(st, q, p);
    }
  }

  lemma DieNoLost(st: State, p: nat, st': State)
    requires Mutex(st) && NoLost(st) && DieStep(st, p, st') && st.procs[p].pc == Die1
    requires ParentAwake(st, p, |st.procs|)
    ensures NoLost(st')
  {
    forall q: nat | q < |st'.procs| ensures SleepOk(st', q) {
      assert SleepOk(st, q);
      if Sleepy(st.procs[q].pc) && NoneDead(st, q) {
        forall j | 0 <= j < |st'.procs| && IsChild(st', j, q) ensures st'.procs[j].life != Zombie {
          assert IsChild(st, j, q);
        }
      }
    }
  }

  lemma ReapFamily(st: State, p: nat, st': State)
    requires Family(st) && ReapStep(st, p, st')
    ensures Family(st') && st.procs[p].pc.next != p
  {
    var k := st.procs[p].pc.next;
    assert ParentOk(st, k) && ParentOk(st, p) && LifeOk(st.procs[p]);
    forall q | 0 <= q < |st'.procs| ensures LifeOk(st'.procs[q]) && ParentOk(st', q) {
      assert LifeOk(st.procs[q]) && ParentOk(st, q);
    }
  }

  lemma ReapKeeps(st: State, p: nat, st': State)
    requires Inv(st) && ReapStep(st, p, st')
    ensures Inv(st')
  {
    ReapFamily(st, p, st');
    ReapNoLost(st, p, st');
    ProcFacts(st, p);
    hide Family, NoLost;
    forall q: nat | q < |st.procs| && q != p ensures !HasLock(st.procs[q].pc) {
    }
    assert Mutex(st') && Progressing(st');
  }

  lemma ReapNoLost(st: State, p: nat, st': State)
    requires Inv(st) && ReapStep(st, p, st')
    ensures NoLost(st')
  {
    ReapFamily(st, p, st');
    ProcFacts(st, p);
    forall q: nat | q < |st'.procs| ensures SleepOk(st', q) {
      assert SleepOk(st, q);
      hide Inv;
      ReapSleepOk(st, p, st', q);
    }
  }

  lemma ReapSleepOk(st: State, p: nat, st': State, q: nat)
    requires ReapStep(st, p, st') && q < |st.procs| && SleepOk(st, q) && st.lock == Some(p)
    requires st.procs[p].pc.next != p
    ensures SleepOk(st', q)
  {
    forall j | 0 <= j < |st'.procs| && IsChild(st', j, q)
      ensures IsChild(st, j, q) && st'.procs[j].life == st.procs[j].life
    {
    }
  }

  lemma ForkFamily(st: State, p: nat, child: nat, st': State)
    requires Family(st) && ForkStep(st, p, child, st')
    ensures Family(st') && child != p
  {
    assert ParentOk(st, p) && ParentOk(st, st.init);
    forall q | 0 <= q < |st'.procs| ensures LifeOk(st'.procs[q]) && ParentOk(st', q) {
      assert LifeOk(st.procs[q]) && ParentOk(st, q);
    }
  }

  lemma ForkKeeps(st: State, p: nat, child: nat, st': State)
    requires Inv(st) && ForkStep(st, p, child, st')
    ensures Inv(st')
  {
    ForkFamily(st, p, child, st');
    ProcFacts(st, child);
    forall q: nat | q < |st'.procs| ensures SleepOk(st', q) {
      assert SleepOk(st, q);
      forall j | 0 <= j < |st'.procs| && j != child && IsChild(st', j, q) ensures IsChild(st, j, q) {
      }
    }
    assert Mutex(st') && NoLost(st') && Progressing(st');
    hide Family, NoLost, Progressing;
  }

  lemma StepKeepsInv(st: State, step: Step, st': State)
    requires Inv(st) && Next(st, step, st')
    ensures Inv(st')
  {
    hide Inv;
    match step
    case Fork(p, child) => ForkKeeps(st, p, child, st');
    case EnterWait(p) => EnterKeeps(st, p, WantWait, st');
    case EnterExit(p) => EnterKeeps(st, p, WantExit, st');
    case Acquire(p) => AcquireKeeps(st, p, st');
    case LookOn(p) => LookOnKeeps(st, p, st');
    case Reap(p) => ReapKeeps(st, p, st');
    case ReapFails(p) => ReapFailsKeeps(st, p, st');
    case LookEnd(p) => LookEndKeeps(st, p, st');
    case SleepStep(p) => SleepKeeps(st, p, st');
    case Kill(p) => KillKeeps(st, p, st');
    case Adopt(p) => AdoptKeeps(st, p, st');
    case Wake(p) => WakeKeeps(st, p, st');
    case WakeEnd(p) => WakeEndKeeps(st, p, st');
    case Die(p) => DieKeeps(st, p, st');
  }

  // ---- runs ----

  ghost predicate Run(states: seq<State>, steps: seq<Step>) {
    && |states| == |steps| + 1 && Init(states[0])
    && forall i :: 0 <= i < |steps| ==> Next(states[i], steps[i], states[i + 1])
  }

  lemma {:induction false} RunKeepsInv(states: seq<State>, steps: seq<Step>, k: nat)
    requires Run(states, steps) && k < |states|
    ensures Inv(states[k])
    decreases k
  {
    if k == 0 {
      InitInv(states[0]);
    } else {
      RunKeepsInv(states, steps, k - 1);
      hide Inv, Next;
      StepKeepsInv(states[k - 1], steps[k - 1], states[k]);
    }
  }

  /** Whenever wait_lock is free, nobody sleeps in wait while a child of its own is a zombie. */
  lemma NoLostWakeups(states: seq<State>, steps: seq<Step>, k: nat, q: nat, child: nat)
    requires Run(states, steps) && k < |states| && states[k].lock == None
    requires q < |states[k].procs| && states[k].procs[q].pc == Asleep
    requires IsChild(states[k], child, q)
    ensures states[k].procs[child].life != Zombie
  {
    RunKeepsInv(states, steps, k);
    ProcFacts(states[k], q);
  }

  /** Everybody but init always has a parent that is alive, so every zombie has somebody to wait for it. */
  lemma NoOrphans(states: seq<State>, steps: seq<Step>, k: nat, p: nat)
    requires Run(states, steps) && k < |states| && p < |states[k].procs| && p != states[k].init
    requires states[k].procs[p].life != Unused
    ensures states[k].procs[p].parent.Some?
    ensures var q := states[k].procs[p].parent.value;
            q < |states[k].procs| && q != p && states[k].procs[q].life == Live
  {
    RunKeepsInv(states, steps, k);
    ProcFacts(states[k], p);
  }

  /** wait gives up exactly when it has been killed or has no child, and otherwise goes to sleep, and then none of
      its children is a zombie. */
  lemma WaitDecides(states: seq<State>, steps: seq<Step>, k: nat)
    requires Run(states, steps) && k < |steps| && steps[k].LookEnd?
    ensures steps[k].p < |states[k].procs| == |states[k + 1].procs|
    ensures var p, st := steps[k].p, states[k];
            var pc' := states[k + 1].procs[p].pc;
            if st.procs[p].killed || (forall c :: 0 <= c < |st.procs| ==> !IsChild(st, c, p)) then pc' == Away
            else pc' == Sleep1 && NoneDead(st, p)
  {
    RunKeepsInv(states, steps, k);
    assert Next(states[k], steps[k], states[k + 1]);
    ProcFacts(states[k], steps[k].p);
    hide Inv, Run;
  }

  // ---- what the operations do, in every run ----

  /** Only fork, reparent and wait change a parent: fork sets the child's to its caller, reparent gives a child of
      the exiting process to init, wait takes it from the child it frees. */
  lemma ParentChanges(states: seq<State>, steps: seq<Step>, k: nat, c: nat)
    requires Run(states, steps) && k < |steps| && c < |states[k].procs|
    ensures |states[k + 1].procs| == |states[k].procs| && states[k + 1].init == states[k].init
    ensures var st, st', step := states[k], states[k + 1], steps[k];
            st'.procs[c].parent != st.procs[c].parent ==>
              || (step.Fork? && step.child == c && st.procs[c].life == Unused && st'.procs[c].parent == Some(step.p))
              || (step.Adopt? && IsChild(st, c, step.p) && step.p < |st.procs| && st.procs[step.p].pc.Reparent? &&
                  st'.procs[c].parent == Some(st.init))
              || (step.Reap? && IsChild(st, c, step.p) && st.procs[c].life == Zombie &&
                  st'.procs[c] == Proc(Unused, None, false, Away))
  {
    assert Next(states[k], steps[k], states[k + 1]);
    RunKeepsInv(states, steps, k);
    ProcFacts(states[k], c);
    hide Run, Inv;
    var step := steps[k];
    if !step.Fork? && !step.Adopt? && !step.Reap? && !step.Die? {
      QuietFamily(states[k], step, states[k + 1]);
      hide Next;
    }
  }

  /** All other steps leave lives and parents alone. */
  lemma QuietFamily(st: State, step: Step, st': State)
    requires Next(st, step, st') && !step.Fork? && !step.Adopt? && !step.Reap? && !step.Die?
    ensures SameFamily(st, st')
  {
  }

  /** Only fork, exit and wait change a life: fork starts an unused one, a process that exits ends its own, and wait
      frees a zombie child of its caller. */
  lemma LifeChanges(states: seq<State>, steps: seq<Step>, k: nat, c: nat)
    requires Run(states, steps) && k < |steps| && c < |states[k].procs|
    ensures |states[k + 1].procs| == |states[k].procs|
    ensures var st, st', step := states[k], states[k + 1], steps[k];
            st'.procs[c].life != st.procs[c].life ==>
              || (step == Fork(step.p, c) && st.procs[c].life == Unused && st'.procs[c].life == Live)
              || (step == Die(c) && st.procs[c].pc == Die1 && st.procs[c].life == Live && st'.procs[c].life == Zombie)
              || (step == Reap(step.p) && IsChild(st, c, step.p) && st.procs[c].life == Zombie &&
                  st'.procs[c].life == Unused)
  {
    RunKeepsInv(states, steps, k);
    assert Next(states[k], steps[k], states[k + 1]);
    ProcFacts(states[k], c);
    hide Run, Inv;
    var step := steps[k];
    if !step.Fork? && !step.Adopt? && !step.Reap? && !step.Die? {
      QuietFamily(states[k], step, states[k + 1]);
      hide Next;
    }
  }

  /** fork makes an unused process a live child of its caller. */
  lemma ForkGives(states: seq<State>, steps: seq<Step>, k: nat, p: nat, c: nat)
    requires Run(states, steps) && k < |steps| && steps[k] == Fork(p, c)
    ensures c < |states[k].procs| == |states[k + 1].procs| && p < |states[k].procs| && p != c
    ensures states[k].procs[c].life == Unused && states[k + 1].procs[c].life == Live
    ensures IsChild(states[k + 1], c, p) && !ExitPc(states[k + 1].procs[p].pc) && !states[k + 1].procs[c].killed
  {
    assert Next(states[k], steps[k], states[k + 1]);
    RunKeepsInv(states, steps, k);
    ProcFacts(states[k], c);
    hide Run, Inv;
  }

  /** A process starts to exit only by calling exit. */
  lemma ExitStarts(st: State, step: Step, st': State, p: nat)
    requires Next(st, step, st') && p < |st.procs| && !ExitPc(st.procs[p].pc) && step != EnterExit(p)
    ensures p < |st'.procs| && !ExitPc(st'.procs[p].pc)
  {
  }

  lemma ChildStep(states: seq<State>, steps: seq<Step>, k: nat, p: nat, c: nat)
    requires Run(states, steps) && k < |steps| && steps[k] != EnterExit(p) && IsChild(states[k], c, p)
    requires p < |states[k].procs| && !ExitPc(states[k].procs[p].pc)
    requires c < |states[k + 1].procs| && states[k + 1].procs[c].life != Unused
    ensures IsChild(states[k + 1], c, p) && p < |states[k + 1].procs| && !ExitPc(states[k + 1].procs[p].pc)
  {
    assert Next(states[k], steps[k], states[k + 1]);
    ParentChanges(states, steps, k, c);
    ExitStarts(states[k], steps[k], states[k + 1], p);
    RunKeepsInv(states, steps, k);
    ProcFacts(states[k], c);
    hide Run, Next, Inv;
  }

  /** From fork on the child is its parent's, until the parent calls exit or the child has been waited for. */
  lemma {:induction false} ChildStays(states: seq<State>, steps: seq<Step>, i: nat, j: nat, p: nat, c: nat)
    requires Run(states, steps) && i < j < |states| && steps[i] == Fork(p, c)
    requires forall k :: i < k < j ==> steps[k] != EnterExit(p)
    requires forall k :: i < k <= j ==> c < |states[k].procs| && states[k].procs[c].life != Unused
    ensures IsChild(states[j], c, p) && p < |states[j].procs| && !ExitPc(states[j].procs[p].pc)
    decreases j
  {
    if j == i + 1 {
      ForkGives(states, steps, i, p, c);
    } else {
      hide Next, IsChild, ExitPc;
      ChildStays(states, steps, i, j - 1, p, c);
      ChildStep(states, steps, j - 1, p, c);
    }
  }

  /** wait that finds an exited child frees it, and it alone, and returns; or, when it cannot copy the status out,
      returns and leaves it. */
  lemma ReapTakes(states: seq<State>, steps: seq<Step>, k: nat)
    requires Run(states, steps) && k < |steps|
    ensures |states[k + 1].procs| == |states[k].procs|
    ensures steps[k].Reap? || steps[k].ReapFails? ==>
            var p, st, st' := steps[k].p, states[k], states[k + 1];
            && p < |st.procs| && st.procs[p].pc.Look? && st'.procs[p].pc == Away && st'.lock == None
            && var c := st.procs[p].pc.next;
            && IsChild(st, c, p) && c != p && st.procs[c].life == Zombie
            && (steps[k].Reap? ==> st'.procs[c] == Proc(Unused, None, false, Away))
            && (steps[k].ReapFails? ==> st'.procs[c] == st.procs[c])
            && forall q :: 0 <= q < |st.procs| && q != p && q != c ==> st'.procs[q] == st.procs[q]
  {
    assert Next(states[k], steps[k], states[k + 1]);
    RunKeepsInv(states, steps, k);
    if steps[k].Reap? || steps[k].ReapFails? {
      ProcFacts(states[k], states[k].procs[steps[k].p].pc.next);
    }
    hide Run, Inv;
  }

  /** kill marks the process and takes it out of its sleep. */
  lemma KillWakes(states: seq<State>, steps: seq<Step>, k: nat, p: nat)
    requires Run(states, steps) && k < |steps| && steps[k] == Kill(p)
    ensures p < |states[k].procs| == |states[k + 1].procs|
    ensures states[k + 1].procs[p].killed && states[k + 1].procs[p].pc != Asleep
    ensures states[k].procs[p].pc == Asleep ==> states[k + 1].procs[p].pc == WantWait
  {
    assert Next(states[k], steps[k], states[k + 1]);
  }

  /** The mark is set by kill only, and cleared only when the process has been waited for. */
  lemma KilledStep(st: State, step: Step, st': State, p: nat)
    requires Next(st, step, st') && p < |st.procs| && st.procs[p].life != Unused
    ensures p < |st'.procs|
    ensures st'.procs[p].killed <==> step == Kill(p) || (st.procs[p].killed && st'.procs[p].life != Unused)
  {
  }

  /** A killed process stays marked until it has been waited for. */
  lemma {:induction false} KilledStays(states: seq<State>, steps: seq<Step>, i: nat, j: nat, p: nat)
    requires Run(states, steps) && i <= j < |states| && p < |states[i].procs| && states[i].procs[p].killed
    requires forall k :: i <= k <= j ==> p < |states[k].procs| && states[k].procs[p].life != Unused
    ensures states[j].procs[p].killed
    decreases j
  {
    hide Next;
    if i < j {
      KilledStays(states, steps, i, j - 1, p);
      KilledStep(states[j - 1], steps[j - 1], states[j], p);
    }
  }

  // ---- nobody with the lock is stuck ----

  ghost predicate Can(st: State, step: Step) {
    exists st' :: Next(st, step, st')
  }

  /** What the code does next for process `p`. */
  function NextStep(st: State, p: nat): Step
    requires p < |st.procs|
  {
    match st.procs[p].pc
    case Look(next, kids) =>
      if next >= |st.procs| then LookEnd(p)
      else if IsChild(st, next, p) && st.procs[next].life == Zombie then Reap(p) else LookOn(p)
    case Reparent(_) => Adopt(p)
    case InitWake(_, scan) => if scan < |st.procs| then Wake(p) else WakeEnd(p)
    case ParentWake(scan) => if scan < |st.procs| then Wake(p) else WakeEnd(p)
    case Die1 => Die(p)
    case Die2 => Die(p)
    case Die3 => Die(p)
    case Sleep1 => SleepStep(p)
    case Sleep2 => SleepStep(p)
    case Sleep3 => SleepStep(p)
    case _ => Acquire(p)
  }

  /** The process whose p->lock `p` needs next, if another one. */
  function Needs(st: State, p: nat): Option<nat>
    requires p < |st.procs|
  {
    match st.procs[p].pc
    case Look(next, _) => if IsChild(st, next, p) then Some(next) else None
    case InitWake(_, scan) => if scan < |st.procs| && scan != p then Some(scan) else None
    case ParentWake(scan) => if scan < |st.procs| && scan != p then Some(scan) else None
    case _ => None
  }

  predicate MustWait(st: State, p: nat)
    requires p < |st.procs|
  {
    Needs(st, p).Some? && Needs(st, p).value < |st.procs| && HasOwn(st.procs[Needs(st, p).value].pc)
  }

  lemma LookCan(st: State, p: nat)
    requires p < |st.procs| && st.procs[p].pc.Look? && !MustWait(st, p)
    ensures Can(st, NextStep(st, p))
  {
    var next, kids := st.procs[p].pc.next, st.procs[p].pc.kids;
    if next >= |st.procs| {
      assert Next(st, LookEnd(p), Move(st, p, if !kids || st.procs[p].killed then Away else Sleep1));
    } else if IsChild(st, next, p) && st.procs[next].life == Zombie {
      var st1 := Move(st, p, Away);
      assert Next(st, Reap(p), st1.(procs := st1.procs[next := Proc(Unused, None, false, Away)]));
    } else {
      assert Next(st, LookOn(p), Move(st, p, Look(next + 1, kids || IsChild(st, next, p))));
    }
  }

  lemma ExitCan(st: State, p: nat)
    requires p < |st.procs| && (st.procs[p].pc.Reparent? || Scanning(st.procs[p].pc)) && !MustWait(st, p)
    requires st.procs[p].parent.Some?
    ensures Can(st, NextStep(st, p))
  {
    var pc := st.procs[p].pc;
    if pc.Reparent? {
      var k := pc.next;
      var st1 := Move(st, p, InitWake(k, 0));
      assert Next(st, Adopt(p), if k >= |st.procs| then Move(st, p, ParentWake(0))
        else if IsChild(st, k, p) then st1.(procs := st1.procs[k := st1.procs[k].(parent := Some(st.init))])
        else Move(st, p, Reparent(k + 1)));
    } else if pc.scan < |st.procs| {
      assert Next(st, Wake(p),
                  Move(if pc.scan == p then st else Woken(st, pc.scan, Channel(st, p)), p, Advance(pc)));
    } else {
      assert Next(st, WakeEnd(p), Move(st, p, if pc.InitWake? then Reparent(pc.next + 1) else Die1));
    }
  }

  lemma RestCan(st: State, p: nat)
    requires p < |st.procs|
    requires var pc := st.procs[p].pc;
             pc == Sleep1 || HasOwn(pc) || pc == Die1 || (st.lock == None && (pc == WantWait || pc == WantExit))
    ensures Can(st, NextStep(st, p))
  {
    var pc := st.procs[p].pc;
    var st' :=
      if pc == Sleep1 then Move(st, p, Sleep2)
      else if pc == Sleep2 then Move(st, p, Sleep3)
      else if pc == Sleep3 then Set(st, p, Asleep)
      else if pc == Die1 then st.(procs := st.procs[p := st.procs[p].(pc := Die2, life := Zombie)])
      else if pc == Die2 then Move(st, p, Die3)
      else if pc == Die3 then Set(st, p, Dead)
      else Move(st, p, if pc == WantWait then Look(0, false) else Reparent(0));
    assert Next(st, NextStep(st, p), st');
  }

  /** In every run the holder of wait_lock can go on as the code says, unless it needs the p->lock of a process
      that is about to be off the processor, and then that one can; and a free wait_lock goes to whoever wants it. */
  lemma NoDeadlock(states: seq<State>, steps: seq<Step>, k: nat, p: nat)
    requires Run(states, steps) && k < |states| && p < |states[k].procs|
    requires states[k].lock == Some(p) ||
             (states[k].lock == None && (states[k].procs[p].pc == WantWait || states[k].procs[p].pc == WantExit))
    ensures if MustWait(states[k], p)
            then Can(states[k], NextStep(states[k], Needs(states[k], p).value))
            else Can(states[k], NextStep(states[k], p))
  {
    var st := states[k];
    RunKeepsInv(states, steps, k);
    ProcFacts(st, p);
    hide Run, Inv, Can, NextStep;
    var pc := st.procs[p].pc;
    if MustWait(st, p) {
      RestCan(st, Needs(st, p).value);
    } else if pc.Look? {
      LookCan(st, p);
    } else if pc.Reparent? || Scanning(pc) {
      ExitCan(st, p);
    } else {
      RestCan(st, p);
    }
  }

  /** exit leaves a zombie without children, whose parent is awake or about to look. */
  ghost predicate Exited(st: State, p: nat) {
    && p < |st.procs| && st.procs[p].life == Zombie && NoChildBelow(st, p, |st.procs|) && st.procs[p].parent.Some?
    && var q := st.procs[p].parent.value; q < |st.procs| && q != p && !Sleepy(st.procs[q].pc)
  }

  lemma ExitLeaves(states: seq<State>, steps: seq<Step>, k: nat, p: nat)
    requires Run(states, steps) && k < |steps| && steps[k] == Die(p) && p < |states[k].procs|
    requires states[k].procs[p].pc == Die1
    ensures Exited(states[k + 1], p)
  {
    assert Next(states[k], steps[k], states[k + 1]);
    RunKeepsInv(states, steps, k);
    hide Run;
    DieLeaves(states[k], p, states[k + 1]);
  }

  lemma DieLeaves(st: State, p: nat, st': State)
    requires Inv(st) && DieStep(st, p, st') && st.procs[p].pc == Die1
    ensures Exited(st', p)
  {
    ProcFacts(st, p);
    hide Inv;
    forall c | 0 <= c < |st'.procs| ensures !IsChild(st', c, p) {
      assert !IsChild(st, c, p);
    }
  }
}
