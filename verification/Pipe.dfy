/** kernel/pipe.c on top of sleep, wakeup and kill of kernel/proc.c: one pipe and any number of processes,
    as a machine that interleaves the steps between lock operations. */
module Pipe {
  import opened Basics

  const PIPESIZE: nat := 512
  const WORD: nat := 0x1_0000_0000   // nread and nwrite are uint

  datatype Role = Reader | Writer    // a Reader sleeps on nread, a Writer on nwrite

  datatype Pc =
    | Out
    | Want(role: Role)               // at acquire(&pi->lock), on entry or at the end of sleep
    | WantClose(end: Role)
    | WTop(dirty: bool)              // pipewrite's loop; dirty: has written since it took the lock
    | WWake(next: nat)               // pipewrite, pipe full: in wakeup(&pi->nread), at process `next`
    | WDone(next: nat)               // pipewrite, after the loop: in wakeup(&pi->nread)
    | RTop                           // piperead's first loop
    | RCopy                          // piperead's copy loop
    | RWake(next: nat)               // piperead: in wakeup(&pi->nwrite)
    | Close(end: Role, next: nat)    // pipeclose: the end is closed, in wakeup for the other side
    | Sleep1(role: Role)             // sleep, at acquire(&p->lock)
    | Sleep2(role: Role)             // holds p->lock and pi->lock
    | Sleep3(role: Role)             // has released pi->lock, state not yet SLEEPING
    | Asleep(role: Role)             // SLEEPING, p->lock released by the scheduler

  datatype State = State(lock: Option<nat>, nread: nat, nwrite: nat, data: seq<nat>, ropen: bool, wopen: bool,
                         procs: seq<Pc>, killed: seq<bool>, sent: seq<nat>, got: nat)

  datatype Step =
    | Enter(p: nat, role: Role)
    | EnterClose(p: nat, end: Role)
    | Acquire(p: nat)
    | WByte(p: nat, byte: nat)
    | WQuit(p: nat)
    | WFull(p: nat)
    | WEnd(p: nat)
    | RSleep(p: nat)
    | RQuit(p: nat)
    | RGo(p: nat)
    | RByte(p: nat)
    | REnd(p: nat)
    | Scan(p: nat)
    | ScanEnd(p: nat)
    | SleepStep(p: nat)
    | Kill(p: nat)

  // ---- the pipe ----

  predicate IsEmpty(st: State) {
    st.nread == st.nwrite
  }

  predicate IsFull(st: State) {
    st.nwrite == (st.nread + PIPESIZE) % WORD
  }

  /** The ring holds the bytes sent and not yet read, in order. */
  ghost predicate Ring(st: State) {
    && |st.data| == PIPESIZE && st.got <= |st.sent| <= st.got + PIPESIZE
    && st.nread == st.got % WORD && st.nwrite == |st.sent| % WORD
    && forall j :: st.got <= j < |st.sent| ==> st.data[j % PIPESIZE] == st.sent[j]
  }

  lemma Wraps(a: nat, b: nat)
    requires a <= b <= a + PIPESIZE
    ensures a % WORD == b % WORD <==> a == b
    ensures b % WORD == (a % WORD + PIPESIZE) % WORD <==> b == a + PIPESIZE
  {
    var q, r := a / WORD, a % WORD;
    var d := b - a;
    assert b == q * WORD + (r + d);
    if r + d < WORD {
      assert b % WORD == r + d;
    } else {
      assert b == (q + 1) * WORD + (r + d - WORD);
      assert b % WORD == r + d - WORD;
    }
  }

  lemma Index(a: nat)
    ensures a % WORD % PIPESIZE == a % PIPESIZE
  {
    var q := a / WORD;
    assert a == PIPESIZE * (q * 0x80_0000) + a % WORD;
    ModPlus(q * 0x80_0000, a % WORD);
  }

  lemma ModPlus(k: nat, r: nat)
    ensures (PIPESIZE * k + r) % PIPESIZE == r % PIPESIZE
  {
  }

  lemma Emptiness(st: State)
    requires Ring(st)
    ensures IsEmpty(st) <==> |st.sent| == st.got
    ensures IsFull(st) <==> |st.sent| == st.got + PIPESIZE
  {
    Wraps(st.got, |st.sent|);
  }

  /** The byte piperead copies out is the oldest one not yet read, also when the counters have wrapped. */
  lemma ReadsInOrder(st: State)
    requires Ring(st) && !IsEmpty(st)
    ensures st.got < |st.sent| && st.data[st.nread % PIPESIZE] == st.sent[st.got]
  {
    Emptiness(st);
    Index(st.got);
  }

  function Wrote(st: State, byte: nat): State
    requires |st.data| == PIPESIZE
  {
    st.(data := st.data[st.nwrite % PIPESIZE := byte], nwrite := (st.nwrite + 1) % WORD, sent := st.sent + [byte])
  }

  lemma WroteRing(st: State, byte: nat)
    requires Ring(st) && !IsFull(st)
    ensures Ring(Wrote(st, byte))
  {
    Emptiness(st);
    Index(|st.sent|);
    var st' := Wrote(st, byte);
    Successor(|st.sent|);
    forall j | st'.got <= j < |st'.sent| ensures st'.data[j % PIPESIZE] == st'.sent[j] {
      if j < |st.sent| {
        Apart(j, |st.sent|);
      }
    }
  }

  lemma Successor(a: nat)
    ensures (a % WORD + 1) % WORD == (a + 1) % WORD
  {
    var q, r := a / WORD, a % WORD;
    assert a + 1 == q * WORD + (r + 1);
    if r + 1 == WORD {
      assert a + 1 == (q + 1) * WORD;
    }
  }

  /** Fewer than PIPESIZE apart, different places in the ring. */
  lemma Apart(j: nat, k: nat)
    requires j < k < j + PIPESIZE
    ensures j % PIPESIZE != k % PIPESIZE
  {
  }

  function Took(st: State): State {
    st.(nread := (st.nread + 1) % WORD, got := st.got + 1)
  }

  lemma TookRing(st: State)
    requires Ring(st) && !IsEmpty(st)
    ensures Ring(Took(st))
  {
    Emptiness(st);
    Successor(st.got);
  }

  // ---- steps ----

  predicate HasLock(pc: Pc) {
    match pc
    case WTop(_) => true
    case WWake(_) => true
    case WDone(_) => true
    case RTop => true
    case RCopy => true
    case RWake(_) => true
    case Close(_, _) => true
    case Sleep1(_) => true
    case Sleep2(_) => true
    case _ => false
  }

  /** Holds its own p->lock. */
  predicate HasOwn(pc: Pc) {
    pc.Sleep2? || pc.Sleep3?
  }

  /** On its way to sleep, or asleep. */
  predicate Sleepy(pc: Pc) {
    pc.Sleep1? || pc.Sleep2? || pc.Sleep3? || pc.Asleep?
  }

  predicate Scanning(pc: Pc) {
    pc.WWake? || pc.WDone? || pc.RWake? || pc.Close?
  }

  /** Whom a wakeup is for. */
  function Wakes(pc: Pc): Role
    requires Scanning(pc)
  {
    match pc
    case WWake(_) => Reader
    case WDone(_) => Reader
    case RWake(_) => Writer
    case Close(end, _) => if end == Writer then Reader else Writer
  }

  function Advance(pc: Pc): Pc
    requires Scanning(pc)
  {
    match pc
    case WWake(k) => WWake(k + 1)
    case WDone(k) => WDone(k + 1)
    case RWake(k) => RWake(k + 1)
    case Close(end, k) => Close(end, k + 1)
  }

  function Set(st: State, p: nat, pc: Pc): State
    requires p < |st.procs|
  {
    st.(procs := st.procs[p := pc])
  }

  /** The two places of a step inside the lock: process `p` is at `pc`. */
  predicate At(st: State, p: nat, pc: Pc) {
    p < |st.procs| && |st.killed| == |st.procs| && st.procs[p] == pc
  }

  predicate Next(st: State, step: Step, st': State) {
    && step.p < |st.procs| && |st.killed| == |st.procs| && |st.data| == PIPESIZE
    && var pc := st.procs[step.p];
    match step
    case Enter(p, role) => pc == Out && st' == Set(st, p, Want(role))
    case EnterClose(p, end) => pc == Out && st' == Set(st, p, WantClose(end))
    case Acquire(p) =>
      && st.lock == None && (pc.Want? || pc.WantClose?)
      && st' == if pc.Want? then Set(st, p, if pc.role == Writer then WTop(false) else RTop).(lock := Some(p))
                else if pc.end == Writer then Set(st, p, Close(Writer, 0)).(lock := Some(p), wopen := false)
                else Set(st, p, Close(Reader, 0)).(lock := Some(p), ropen := false)
    case WByte(p, byte) =>
      pc.WTop? && st.ropen && !st.killed[p] && !IsFull(st) && st' == Set(Wrote(st, byte), p, WTop(true))
    case WQuit(p) => pc.WTop? && (!st.ropen || st.killed[p]) && st' == Set(st, p, Out).(lock := None)
    case WFull(p) => pc.WTop? && st.ropen && !st.killed[p] && IsFull(st) && st' == Set(st, p, WWake(0))
    case WEnd(p) => pc.WTop? && st' == Set(st, p, WDone(0))
    case RSleep(p) => pc == RTop && IsEmpty(st) && st.wopen && !st.killed[p] && st' == Set(st, p, Sleep1(Reader))
    case RQuit(p) =>
      pc == RTop && IsEmpty(st) && st.wopen && st.killed[p] && st' == Set(st, p, Out).(lock := None)
    case RGo(p) => pc == RTop && !(IsEmpty(st) && st.wopen) && st' == Set(st, p, RCopy)
    case RByte(p) => pc == RCopy && !IsEmpty(st) && st' == Took(st)
    case REnd(p) => pc == RCopy && st' == Set(st, p, RWake(0))
    case Scan(p) =>
      && Scanning(pc) && pc.next < |st.procs|
      && var k := pc.next;
      && (k != p ==> !HasOwn(st.procs[k]))
      && st' == if k != p && st.procs[k] == Asleep(Wakes(pc)) then Set(Set(st, k, Want(Wakes(pc))), p, Advance(pc))
                else Set(st, p, Advance(pc))
    case ScanEnd(p) =>
      && Scanning(pc) && pc.next >= |st.procs|
      && st' == if pc.WWake? then Set(st, p, Sleep1(Writer)) else Set(st, p, Out).(lock := None)
    case SleepStep(p) =>
      (pc.Sleep1? || pc.Sleep2? || pc.Sleep3?) &&
      st' == (if pc.Sleep1? then Set(st, p, Sleep2(pc.role))
              else if pc.Sleep2? then Set(st, p, Sleep3(pc.role)).(lock := None)
              else Set(st, p, Asleep(pc.role)))
    case Kill(p) =>
      && !HasOwn(pc)
      && st' == (if pc.Asleep? then Set(st, p, Want(pc.role)) else st).(killed := st.killed[p := true])
  }

  /** A writer that finds itself killed leaves without wakeup, although it has written. */
  predicate DirtyQuit(st: State, step: Step) {
    step.WQuit? && step.p < |st.procs| && st.procs[step.p] == WTop(true)
  }

  // ---- what runs keep ----

  ghost predicate Mutex(st: State) {
    forall p: nat :: p < |st.procs| ==> (HasLock(st.procs[p]) <==> st.lock == Some(p))
  }

  /** What the holder of the lock knows of the pipe. */
  predicate LocalPc(st: State, pc: Pc) {
    && (pc == WTop(true) ==> !IsEmpty(st))
    && (pc.WWake? ==> Reason(st, Writer))
    && (pc.Sleep1? || pc.Sleep2? ==> Reason(st, pc.role))
  }

  ghost predicate Local(st: State) {
    forall p :: 0 <= p < |st.procs| ==> LocalPc(st, st.procs[p])
  }

  /** Why a process sleeps. */
  predicate Reason(st: State, role: Role) {
    if role == Reader then IsEmpty(st) && st.wopen else IsFull(st) && st.ropen
  }

  /** A process at `pc` has yet to pass process `q` with a wakeup for its side. */
  predicate WillWake(pc: Pc, role: Role, q: nat) {
    || (pc == WTop(true) && role == Reader)
    || (pc == RCopy && role == Writer)
    || (Scanning(pc) && Wakes(pc) == role && pc.next <= q)
  }

  predicate Pending(st: State, role: Role, q: nat) {
    st.lock.Some? && st.lock.value < |st.procs| && st.lock.value != q && WillWake(st.procs[st.lock.value], role, q)
  }

  predicate SleepOk(st: State, q: nat) {
    q < |st.procs| && Sleepy(st.procs[q]) ==> Reason(st, st.procs[q].role) || Pending(st, st.procs[q].role, q)
  }

  ghost predicate NoLost(st: State) {
    forall q: nat :: SleepOk(st, q)
  }

  ghost predicate Basic(st: State) {
    |st.killed| == |st.procs| && Ring(st) && Mutex(st) && Local(st)
  }

  ghost predicate Inv(st: State) {
    Basic(st) && NoLost(st)
  }

  predicate Init(st: State) {
    && st.lock == None && st.nread == st.nwrite == st.got == 0 && st.sent == [] && |st.data| == PIPESIZE
    && st.ropen && st.wopen && |st.killed| == |st.procs|
    && forall p :: 0 <= p < |st.procs| ==> st.procs[p] == Out
  }

  /** Only writing and reading a byte changes the ring. */
  lemma RingFields(st: State, step: Step, st': State)
    requires Next(st, step, st') && !step.WByte? && !step.RByte?
    ensures st'.data == st.data && st'.nread == st.nread && st'.nwrite == st.nwrite
    ensures st'.sent == st.sent && st'.got == st.got
  {
  }

  lemma RingWByte(st: State, p: nat, byte: nat, st': State)
    requires Ring(st) && Next(st, WByte(p, byte), st')
    ensures Ring(st')
  {
    hide Ring;
    WroteRing(st, byte);
    RingSame(Wrote(st, byte), st');
  }

  lemma RingSame(st: State, st': State)
    requires Ring(st) && st'.data == st.data && st'.nread == st.nread && st'.nwrite == st.nwrite
    requires st'.sent == st.sent && st'.got == st.got
    ensures Ring(st')
  {
  }

  lemma RingRByte(st: State, p: nat, st': State)
    requires Ring(st) && Next(st, RByte(p), st')
    ensures Ring(st')
  {
    hide Ring;
    TookRing(st);
  }

  lemma RingKept(st: State, step: Step, st': State)
    requires Ring(st) && Next(st, step, st')
    ensures Ring(st')
  {
    hide Ring, Next;
    match step
    case WByte(p, byte) => RingWByte(st, p, byte, st');
    case RByte(p) => RingRByte(st, p, st');
    case _ =>
      RingFields(st, step, st');
      RingSame(st, st');
  }

  /** The lock as process `p` leaves it. */
  function LockAfter(p: nat, pc: Pc): Option<nat> {
    if HasLock(pc) then Some(p) else None
  }

  /** Whoever had a reason or a wakeup coming still has one. */
  predicate HandoffTo(st: State, pc: Pc, st': State, pc': Pc, role: Role, q: nat) {
    Reason(st, role) || WillWake(pc, role, q) ==> Reason(st', role) || (HasLock(pc') && WillWake(pc', role, q))
  }

  ghost predicate Handoff(st: State, pc: Pc, st': State, pc': Pc) {
    forall role: Role, q: nat :: q < |st.procs| ==> HandoffTo(st, pc, st', pc', role, q)
  }

  /** A step inside the lock by its holder `p`. */
  ghost predicate Inside(st: State, p: nat, st': State) {
    && p < |st.procs| && HasLock(st.procs[p]) && |st'.procs| == |st.procs|
    && st'.procs == st.procs[p := st'.procs[p]]
    && st'.lock == LockAfter(p, st'.procs[p]) && st'.killed == st.killed
  }

  lemma InsideBasic(st: State, p: nat, st': State)
    requires Mutex(st) && Inside(st, p, st') && LocalPc(st', st'.procs[p])
    ensures Mutex(st') && Local(st')
  {
    forall q: nat | q < |st.procs| && q != p ensures !HasLock(st.procs[q]) {
    }
  }

  lemma InsideNoLost(st: State, p: nat, st': State)
    requires Mutex(st) && NoLost(st) && Inside(st, p, st') && LocalPc(st', st'.procs[p])
    requires Handoff(st, st.procs[p], st', st'.procs[p])
    requires Sleepy(st'.procs[p]) ==> Reason(st', st'.procs[p].role)
    ensures NoLost(st')
  {
    assert st.lock == Some(p);
    forall q: nat ensures SleepOk(st', q) {
      assert SleepOk(st, q);
      if q < |st.procs| && q != p && Sleepy(st.procs[q]) {
        assert HandoffTo(st, st.procs[p], st', st'.procs[p], st.procs[q].role, q);
      }
    }
  }

  /** A step of a process that neither holds nor takes nor drops the lock. */
  ghost predicate Outside(st: State, p: nat, st': State) {
    && p < |st.procs| && |st'.procs| == |st.procs|
    && (st'.procs[p] == st.procs[p] || (!HasLock(st.procs[p]) && !HasLock(st'.procs[p])))
    && st' == st.(procs := st.procs[p := st'.procs[p]], killed := st'.killed)
    && (Sleepy(st'.procs[p]) ==> Sleepy(st.procs[p]) && st'.procs[p].role == st.procs[p].role)
  }

  lemma OutsideKeeps(st: State, p: nat, st': State)
    requires Mutex(st) && Local(st) && Outside(st, p, st')
    ensures Mutex(st') && Local(st') && (NoLost(st) ==> NoLost(st'))
  {
    assert LocalPc(st', st'.procs[p]);
    assert forall q: nat :: q < |st.procs| && q != p ==> LocalPc(st, st.procs[q]) ==> LocalPc(st', st'.procs[q]);
    if NoLost(st) {
      forall q: nat ensures SleepOk(st', q) {
        assert SleepOk(st, q);
      }
    }
  }

  lemma AcquireNoLost(st: State, p: nat, st': State, q: nat)
    requires SleepOk(st, q) && Next(st, Acquire(p), st')
    ensures SleepOk(st', q)
  {
  }

  lemma AcquireKeeps(st: State, p: nat, st': State)
    requires Mutex(st) && Local(st) && Next(st, Acquire(p), st')
    ensures Mutex(st') && Local(st') && (NoLost(st) ==> NoLost(st'))
  {
    forall q: nat | q < |st.procs| ensures LocalPc(st', st'.procs[q]) {
      assert LocalPc(st, st.procs[q]) && (HasLock(st.procs[q]) <==> st.lock == Some(q));
    }
    forall q: nat | q < |st.procs| ensures HasLock(st'.procs[q]) <==> st'.lock == Some(q) {
      assert HasLock(st.procs[q]) <==> st.lock == Some(q);
    }
    hide Next;
    if NoLost(st) {
      forall q: nat ensures SleepOk(st', q) {
        AcquireNoLost(st, p, st', q);
      }
    }
  }

  lemma ScanBasic(st: State, p: nat, st': State)
    requires Mutex(st) && Local(st) && Next(st, Scan(p), st')
    ensures Mutex(st') && Local(st')
  {
    assert LocalPc(st, st.procs[p]);
    forall q: nat | q < |st.procs| ensures HasLock(st'.procs[q]) == HasLock(st.procs[q]) {
    }
    forall q: nat | q < |st.procs| ensures LocalPc(st', st'.procs[q]) {
      assert LocalPc(st, st.procs[q]);
    }
  }

  /** A round of wakeup: the process it passes does not sleep on this side afterwards. */
  /** What a round of wakeup's loop changes. */
  lemma ScanMoves(st: State, p: nat, st': State, q: nat)
    requires Next(st, Scan(p), st') && q < |st.procs|
    ensures p < |st.procs| && Scanning(st.procs[p]) && st.procs[p].next < |st.procs| && st' == st.(procs := st'.procs)
    ensures |st'.procs| == |st.procs| && st'.procs[p] == Advance(st.procs[p])
    ensures q != p ==> var pc := st.procs[p];
              st'.procs[q] == if pc.next == q && st.procs[q] == Asleep(Wakes(pc)) then Want(Wakes(pc)) else st.procs[q]
  {
    hide HasOwn, HasLock;
  }

  lemma ScanNoLost(st: State, p: nat, st': State, q: nat)
    requires Mutex(st) && SleepOk(st, q) && Next(st, Scan(p), st')
    ensures SleepOk(st', q)
  {
    if q < |st.procs| {
      ScanMoves(st, p, st', q);
      assert HasLock(st.procs[p]);
      assert HasLock(st.procs[q]) <==> st.lock == Some(q);
    }
    hide Mutex, Next;
  }

  lemma ScanKeeps(st: State, p: nat, st': State)
    requires Mutex(st) && Local(st) && Next(st, Scan(p), st')
    ensures Mutex(st') && Local(st') && (NoLost(st) ==> NoLost(st'))
  {
    ScanBasic(st, p, st');
    hide Mutex, Local, Next;
    if NoLost(st) {
      forall q: nat ensures SleepOk(st', q) {
        ScanNoLost(st, p, st', q);
      }
    }
  }

  predicate IsInside(step: Step) {
    step.WByte? || step.WQuit? || step.WFull? || step.WEnd? || step.RSleep? || step.RQuit? || step.RGo? ||
    step.RByte? || step.REnd? || step.ScanEnd?
  }

  lemma InsideStep(st: State, step: Step, st': State)
    requires Basic(st) && Next(st, step, st') && IsInside(step)
    ensures Inside(st, step.p, st') && LocalPc(st', st'.procs[step.p])
  {
    assert LocalPc(st, st.procs[step.p]);
    if step.WByte? {
      WroteRing(st, step.byte);
      Emptiness(st');
    }
  }

  lemma InsideHandoff(st: State, step: Step, st': State)
    requires Basic(st) && Next(st, step, st') && IsInside(step)
    requires !DirtyQuit(st, step)
    ensures Handoff(st, st.procs[step.p], st', st'.procs[step.p])
  {
    var pc, pc' := st.procs[step.p], st'.procs[step.p];
    forall role: Role, q: nat | q < |st.procs| ensures HandoffTo(st, pc, st', pc', role, q) {
    }
  }

  lemma SleepStepKeeps(st: State, p: nat, st': State)
    requires Basic(st) && Next(st, SleepStep(p), st')
    ensures Mutex(st') && Local(st') && (NoLost(st) ==> NoLost(st'))
  {
    var pc := st.procs[p];
    assert LocalPc(st, pc);
    if pc.Sleep3? {
      OutsideKeeps(st, p, st');
    } else {
      InsideBasic(st, p, st');
      if NoLost(st) {
        forall role: Role, q: nat | q < |st.procs| ensures HandoffTo(st, pc, st', st'.procs[p], role, q) {
        }
        InsideNoLost(st, p, st');
      }
    }
  }

  lemma InsideKeeps(st: State, step: Step, st': State)
    requires Basic(st) && Next(st, step, st') && IsInside(step)
    ensures Mutex(st') && Local(st') && (NoLost(st) && !DirtyQuit(st, step) ==> NoLost(st'))
  {
    InsideStep(st, step, st');
    InsideBasic(st, step.p, st');
    if NoLost(st) && !DirtyQuit(st, step) {
      InsideHandoff(st, step, st');
      hide Next, NoLost, Local, Ring;
      InsideNoLost(st, step.p, st');
    }
  }

  /** Every step keeps the ring and the lock in order, and every step but one loses no wakeup. */
  lemma StepKeeps(st: State, step: Step, st': State)
    requires Basic(st) && Next(st, step, st')
    ensures Basic(st') && (NoLost(st) && !DirtyQuit(st, step) ==> NoLost(st'))
  {
    RingKept(st, step, st');
    SizesKept(st, step, st');
    if IsInside(step) {
      hide Next, NoLost, Ring, Mutex, Local;
      InsideKeeps(st, step, st');
    } else {
      match step
      case Acquire(p) =>
        hide Next, NoLost, Ring, Mutex, Local;
        AcquireKeeps(st, p, st');
      case Scan(p) =>
        hide Next, NoLost, Ring, Mutex, Local;
        ScanKeeps(st, p, st');
      case SleepStep(p) =>
        hide Next, NoLost, Ring, Mutex, Local;
        SleepStepKeeps(st, p, st');
      case _ =>
        OutsideStep(st, step, st');
        hide Next, NoLost, Ring, Mutex, Local;
        OutsideKeeps(st, step.p, st');
    }
  }

  lemma OutsideStep(st: State, step: Step, st': State)
    requires Mutex(st) && Next(st, step, st') && (step.Enter? || step.EnterClose? || step.Kill?)
    ensures Outside(st, step.p, st')
  {
  }

  lemma SizesKept(st: State, step: Step, st': State)
    requires Next(st, step, st')
    ensures |st'.killed| == |st'.procs| == |st.procs|
  {
  }

  // ---- runs ----

  lemma InitInv(st: State)
    requires Init(st)
    ensures Inv(st)
  {
  }

  ghost predicate Run(states: seq<State>, steps: seq<Step>) {
    && |states| == |steps| + 1 && Init(states[0])
    && forall i :: 0 <= i < |steps| ==> Next(states[i], steps[i], states[i + 1])
  }

  lemma {:induction false} RunKeeps(states: seq<State>, steps: seq<Step>, k: nat)
    requires Run(states, steps) && k < |states|
    ensures Basic(states[k])
    ensures (forall i :: 0 <= i < k ==> !DirtyQuit(states[i], steps[i])) ==> NoLost(states[k])
    decreases k
  {
    if k == 0 {
      InitInv(states[0]);
    } else {
      RunKeeps(states, steps, k - 1);
      hide Basic, NoLost, Next, DirtyQuit;
      StepKeeps(states[k - 1], steps[k - 1], states[k]);
    }
  }

  /** In every run in which no killed writer leaves with bytes it has just written, whenever the lock is
      free a sleeping reader waits for an empty pipe that may still be written, and a sleeping writer for
      a full pipe that may still be read. */
  lemma NoLostWakeups(states: seq<State>, steps: seq<Step>, k: nat, q: nat)
    requires Run(states, steps) && k < |states| && states[k].lock == None
    requires forall i :: 0 <= i < k ==> !DirtyQuit(states[i], steps[i])
    requires q < |states[k].procs|
    ensures states[k].procs[q] == Asleep(Reader) ==> IsEmpty(states[k]) && states[k].wopen
    ensures states[k].procs[q] == Asleep(Writer) ==> IsFull(states[k]) && states[k].ropen
  {
    RunKeeps(states, steps, k);
    assert SleepOk(states[k], q);
  }

  /** A step loses a wakeup exactly when a killed writer leaves with bytes just written while a reader is
      asleep or about to be. */
  lemma LostExactly(st: State, step: Step, st': State)
    requires Inv(st) && Next(st, step, st')
    ensures NoLost(st') <==>
            !(DirtyQuit(st, step) && exists q ::
                0 <= q < |st.procs| && Sleepy(st.procs[q]) && st.procs[q].role == Reader)
  {
    if !DirtyQuit(st, step) {
      StepKeeps(st, step, st');
    } else {
      var p := step.p;
      assert LocalPc(st, st.procs[p]) && st.lock == Some(p);
      if q :| 0 <= q < |st.procs| && Sleepy(st.procs[q]) && st.procs[q].role == Reader {
        assert st'.procs[q] == st.procs[q];
        assert !SleepOk(st', q);
      } else {
        forall q: nat ensures SleepOk(st', q) {
          assert SleepOk(st, q);
        }
      }
    }
  }

  /** In every run, each byte read is the oldest one written and not yet read, and never more than PIPESIZE
      bytes are under way. */
  lemma FirstInFirstOut(states: seq<State>, steps: seq<Step>, k: nat)
    requires Run(states, steps) && k < |steps| && steps[k].RByte?
    ensures var st := states[k];
            && st.got < |st.sent| <= st.got + PIPESIZE && |st.data| == PIPESIZE
            && st.data[st.nread % PIPESIZE] == st.sent[st.got]
            && states[k + 1].sent == st.sent && states[k + 1].got == st.got + 1
  {
    RunKeeps(states, steps, k);
    assert Next(states[k], steps[k], states[k + 1]);
    ReadsInOrder(states[k]);
  }

  // ---- what the operations do, in every run ----

  /** An end that some process is closing is closed. */
  ghost predicate Shut(st: State) {
    forall q :: 0 <= q < |st.procs| && st.procs[q].Close? ==> !Open(st, st.procs[q].end)
  }

  predicate Open(st: State, end: Role) {
    if end == Writer then st.wopen else st.ropen
  }

  /** An end is closed by pipeclose alone, and stays closed. */
  lemma OpenStep(st: State, step: Step, st': State, end: Role)
    requires Next(st, step, st')
    ensures Open(st', end) ==> Open(st, end)
    ensures Open(st, end) && !Open(st', end) ==>
              step.Acquire? && step.p < |st'.procs| && st'.procs[step.p] == Close(end, 0)
  {
  }

  lemma ShutStep(st: State, step: Step, st': State)
    requires Next(st, step, st') && Shut(st)
    ensures Shut(st')
  {
    forall q | 0 <= q < |st'.procs| && st'.procs[q].Close? ensures !Open(st', st'.procs[q].end) {
      OpenStep(st, step, st', st'.procs[q].end);
    }
  }

  lemma {:induction false} RunShut(states: seq<State>, steps: seq<Step>, k: nat)
    requires Run(states, steps) && k < |states|
    ensures Shut(states[k])
    decreases k
  {
    if k > 0 {
      hide Next, Shut;
      RunShut(states, steps, k - 1);
      ShutStep(states[k - 1], steps[k - 1], states[k]);
    }
  }

  predicate Closing(st: State, q: nat, end: Role) {
    q < |st.procs| && st.procs[q].Close? && st.procs[q].end == end
  }

  ghost predicate HasClosed(states: seq<State>, k: nat, end: Role) {
    exists i: nat, q: nat :: i <= k && i < |states| && Closing(states[i], q, end)
  }

  /** In every run an end of the pipe is closed exactly from the moment some process has closed it. */
  lemma {:induction false} ClosedExactly(states: seq<State>, steps: seq<Step>, k: nat, end: Role)
    requires Run(states, steps) && k < |states|
    ensures !Open(states[k], end) <==> HasClosed(states, k, end)
    decreases k
  {
    RunShut(states, steps, k);
    if k > 0 {
      var st, step, st' := states[k - 1], steps[k - 1], states[k];
      ClosedExactly(states, steps, k - 1, end);
      assert Next(st, step, st');
      OpenStep(st, step, st', end);
      hide Next, Run, Open;
      if HasClosed(states, k - 1, end) {
        var i: nat, q: nat :| i <= k - 1 && i < |states| && Closing(states[i], q, end);
        assert Closing(states[i], q, end);
      }
      if Open(st, end) && !Open(st', end) {
        assert Closing(states[k], step.p, end);
      }
    }
  }

  /** Whoever gets the lock starts what it came for; pipeclose closes its end at once. */
  lemma AcquireLeads(states: seq<State>, steps: seq<Step>, k: nat, p: nat)
    requires Run(states, steps) && k < |steps| && steps[k] == Acquire(p)
    ensures p < |states[k].procs| == |states[k + 1].procs| && states[k].lock == None && states[k + 1].lock == Some(p)
    ensures var pc, st' := states[k].procs[p], states[k + 1];
            && (pc == Want(Writer) ==> st'.procs[p] == WTop(false)) && (pc == Want(Reader) ==> st'.procs[p] == RTop)
            && (pc.WantClose? ==> st'.procs[p] == Close(pc.end, 0) && !Open(st', pc.end))
            && (pc.Want? || pc.WantClose?)
  {
    assert Next(states[k], steps[k], states[k + 1]);
    hide Run;
  }

  /** piperead's first loop: with an empty pipe whose write end is open it sleeps unless killed, and gives up if
      killed; otherwise it goes on to copy, which finds the end of the file if the pipe is empty. */
  lemma ReaderDecides(states: seq<State>, steps: seq<Step>, k: nat, p: nat)
    requires Run(states, steps) && k < |steps| && steps[k].p == p && !steps[k].Kill?
    requires p < |states[k].procs| && states[k].procs[p] == RTop
    ensures p < |states[k + 1].procs| && p < |states[k].killed|
    ensures var st := states[k];
            states[k + 1].procs[p] ==
            if !(IsEmpty(st) && st.wopen) then RCopy else if st.killed[p] then Out else Sleep1(Reader)
    ensures states[k + 1].lock == if states[k + 1].procs[p] == Out then None else states[k].lock
  {
    assert Next(states[k], steps[k], states[k + 1]);
    hide Run;
  }

  /** pipewrite's loop puts its byte in only while the read end is open, it is not killed and the pipe is not full;
      with the read end closed or killed it gives up, and at a full pipe it wakes readers before it sleeps. */
  lemma WriterDecides(states: seq<State>, steps: seq<Step>, k: nat, p: nat)
    requires Run(states, steps) && k < |steps| && steps[k].p == p && !steps[k].Kill? && !steps[k].WEnd?
    requires p < |states[k].procs| && states[k].procs[p].WTop?
    ensures p < |states[k + 1].procs| && p < |states[k].killed|
    ensures var st, st' := states[k], states[k + 1];
            if !st.ropen || st.killed[p] then st'.procs[p] == Out && st'.lock == None && st'.sent == st.sent
            else if IsFull(st) then st'.procs[p] == WWake(0) && st'.sent == st.sent
            else steps[k].WByte? && st'.sent == st.sent + [steps[k].byte] && st'.procs[p] == WTop(true)
  {
    assert Next(states[k], steps[k], states[k + 1]);
    hide Run;
  }

  /** The bytes written are those of the write steps, in order, and only read steps take bytes out. */
  lemma BytesMove(states: seq<State>, steps: seq<Step>, k: nat)
    requires Run(states, steps) && k < |steps|
    ensures states[k + 1].sent == states[k].sent + if steps[k].WByte? then [steps[k].byte] else []
    ensures states[k + 1].got == states[k].got + if steps[k].RByte? then 1 else 0
  {
    assert Next(states[k], steps[k], states[k + 1]);
    hide Run;
    if !steps[k].WByte? && !steps[k].RByte? {
      RingFields(states[k], steps[k], states[k + 1]);
      hide Next;
    }
  }

  /** After its scan a wakeup goes on: pipewrite at a full pipe to sleep, all others out. */
  lemma ScanLeads(states: seq<State>, steps: seq<Step>, k: nat, p: nat)
    requires Run(states, steps) && k < |steps| && steps[k] == ScanEnd(p)
    ensures p < |states[k].procs| == |states[k + 1].procs|
    ensures states[k + 1].procs[p] == if states[k].procs[p].WWake? then Sleep1(Writer) else Out
    ensures states[k + 1].lock == if states[k].procs[p].WWake? then states[k].lock else None
  {
    assert Next(states[k], steps[k], states[k + 1]);
    hide Run;
  }

  /** kill marks the process for good and takes it out of its sleep. */
  lemma KillWakes(states: seq<State>, steps: seq<Step>, k: nat, p: nat)
    requires Run(states, steps) && k < |steps| && steps[k] == Kill(p)
    ensures p < |states[k].procs| == |states[k + 1].procs| == |states[k + 1].killed|
    ensures states[k + 1].killed[p] && !states[k + 1].procs[p].Asleep?
    ensures states[k].procs[p].Asleep? ==> states[k + 1].procs[p] == Want(states[k].procs[p].role)
  {
    assert Next(states[k], steps[k], states[k + 1]);
    hide Run;
  }

  lemma KilledStep(st: State, step: Step, st': State, p: nat)
    requires Next(st, step, st') && p < |st.killed|
    ensures p < |st'.killed| && (st'.killed[p] <==> st.killed[p] || step == Kill(p))
  {
  }

  lemma {:induction false} KilledStays(states: seq<State>, steps: seq<Step>, i: nat, j: nat, p: nat)
    requires Run(states, steps) && i <= j < |states| && p < |states[i].killed| && states[i].killed[p]
    ensures p < |states[j].killed| && states[j].killed[p]
    decreases j
  {
    hide Next;
    if i < j {
      KilledStays(states, steps, i, j - 1, p);
      KilledStep(states[j - 1], steps[j - 1], states[j], p);
    }
  }

  // ---- nobody with the lock is stuck ----

  ghost predicate Can(st: State, step: Step) {
    exists st' :: Next(st, step, st')
  }

  /** What the code does next for process `p`; `byte` is what a writer would write. */
  function NextStep(st: State, p: nat, byte: nat): Step
    requires p < |st.procs| == |st.killed|
  {
    var pc := st.procs[p];
    if pc == RTop then if !(IsEmpty(st) && st.wopen) then RGo(p) else if st.killed[p] then RQuit(p) else RSleep(p)
    else if pc == RCopy then if IsEmpty(st) then REnd(p) else RByte(p)
    else if pc.WTop? then
      if !st.ropen || st.killed[p] then WQuit(p) else if IsFull(st) then WFull(p) else WByte(p, byte)
    else if Scanning(pc) then if pc.next < |st.procs| then Scan(p) else ScanEnd(p)
    else if pc.Want? || pc.WantClose? then Acquire(p)
    else SleepStep(p)
  }

  /** The process whose p->lock the wakeup of `p` needs has it. */
  predicate MustWait(st: State, p: nat) {
    && p < |st.procs| && Scanning(st.procs[p]) && st.procs[p].next < |st.procs| && st.procs[p].next != p
    && HasOwn(st.procs[st.procs[p].next])
  }

  lemma HolderCan(st: State, p: nat, byte: nat)
    requires |st.procs| == |st.killed| && |st.data| == PIPESIZE && p < |st.procs| && !MustWait(st, p)
    requires HasLock(st.procs[p]) || st.procs[p].Sleep3? ||
             (st.lock == None && (st.procs[p].Want? || st.procs[p].WantClose?))
    ensures Can(st, NextStep(st, p, byte))
  {
    var pc := st.procs[p];
    var st' :=
      if pc == RTop then
        if !(IsEmpty(st) && st.wopen) then Set(st, p, RCopy)
        else if st.killed[p] then Set(st, p, Out).(lock := None) else Set(st, p, Sleep1(Reader))
      else if pc == RCopy then if IsEmpty(st) then Set(st, p, RWake(0)) else Took(st)
      else if pc.WTop? then
        if !st.ropen || st.killed[p] then Set(st, p, Out).(lock := None)
        else if IsFull(st) then Set(st, p, WWake(0)) else Set(Wrote(st, byte), p, WTop(true))
      else if Scanning(pc) then
        if pc.next >= |st.procs| then
          if pc.WWake? then Set(st, p, Sleep1(Writer)) else Set(st, p, Out).(lock := None)
        else if pc.next != p && st.procs[pc.next] == Asleep(Wakes(pc)) then
          Set(Set(st, pc.next, Want(Wakes(pc))), p, Advance(pc))
        else Set(st, p, Advance(pc))
      else if pc.Want? then Set(st, p, if pc.role == Writer then WTop(false) else RTop).(lock := Some(p))
      else if pc.WantClose? then
        if pc.end == Writer then Set(st, p, Close(Writer, 0)).(lock := Some(p), wopen := false)
        else Set(st, p, Close(Reader, 0)).(lock := Some(p), ropen := false)
      else if pc.Sleep1? then Set(st, p, Sleep2(pc.role))
      else if pc.Sleep2? then Set(st, p, Sleep3(pc.role)).(lock := None)
      else Set(st, p, Asleep(pc.role));
    assert Next(st, NextStep(st, p, byte), st');
  }

  /** In every run the holder of the lock can go on as the code says, unless its wakeup waits for a process that
      is about to be off the processor, and then that one can; and when the lock is free whoever wants it gets it. */
  lemma NoDeadlock(states: seq<State>, steps: seq<Step>, k: nat, p: nat, byte: nat)
    requires Run(states, steps) && k < |states| && p < |states[k].procs|
    requires states[k].lock == Some(p) ||
             (states[k].lock == None && (states[k].procs[p].Want? || states[k].procs[p].WantClose?))
    ensures |states[k].procs| == |states[k].killed|
    ensures if MustWait(states[k], p)
            then Can(states[k], SleepStep(states[k].procs[p].next))
            else Can(states[k], NextStep(states[k], p, byte))
  {
    var st := states[k];
    RunKeeps(states, steps, k);
    hide Run, Local, Can, NextStep, IsEmpty, IsFull;
    assert |st.data| == PIPESIZE && |st.procs| == |st.killed|;
    hide Ring;
    assert HasLock(st.procs[p]) <==> st.lock == Some(p);
    if MustWait(st, p) {
      var q := st.procs[p].next;
      assert HasLock(st.procs[q]) <==> st.lock == Some(q);
      assert st.procs[q].Sleep3?;
      hide Mutex;
      Sleep3Can(st, q);
    } else {
      hide Mutex;
      HolderCan(st, p, byte);
    }
  }

  lemma Sleep3Can(st: State, q: nat)
    requires |st.procs| == |st.killed| && |st.data| == PIPESIZE && q < |st.procs| && st.procs[q].Sleep3?
    ensures Can(st, SleepStep(q))
  {
    assert Next(st, SleepStep(q), Set(st, q, Asleep(st.procs[q].role)));
  }

  // ---- the lost wakeup happens ----

  ghost predicate Reachable(st: State) {
    exists states: seq<State>, steps: seq<Step> :: Run(states, steps) && states[|steps|] == st
  }

  lemma Start(st: State)
    requires Init(st)
    ensures Reachable(st)
  {
    var none: seq<Step> := [];
    assert Run([st], none) && [st][|none|] == st;
  }

  lemma Reach(st: State, step: Step, st': State)
    requires Reachable(st) && Next(st, step, st')
    ensures Reachable(st')
  {
    var states: seq<State>, steps: seq<Step> :| Run(states, steps) && states[|steps|] == st;
    var states', steps' := states + [st'], steps + [step];
    assert Run(states', steps') && states'[|steps'|] == st';
  }

  function Ring0(): seq<nat> {
    seq(PIPESIZE, _ => 0)
  }

  /** Two processes at a pipe to which nothing, or one byte, has been written. */
  function Scene(lock: Option<nat>, reader: Pc, writer: Pc, wrote: bool, dead: bool): State {
    State(lock, 0, if wrote then 1 else 0, if wrote then Ring0()[0 := 7] else Ring0(), true, true, [reader, writer],
          [false, dead], if wrote then [7] else [], 0)
  }

  lemma ReaderEnters()
    ensures Reachable(Scene(None, Want(Reader), Out, false, false))
  {
    Start(Scene(None, Out, Out, false, false));
    hide Reachable, Run;
    Reach(Scene(None, Out, Out, false, false), Enter(0, Reader), Scene(None, Want(Reader), Out, false, false));
  }

  lemma ReaderFindsNothing()
    ensures Reachable(Scene(Some(0), Sleep1(Reader), Out, false, false))
  {
    ReaderEnters();
    hide Reachable, Run;
    Reach(Scene(None, Want(Reader), Out, false, false), Acquire(0), Scene(Some(0), RTop, Out, false, false));
    Reach(Scene(Some(0), RTop, Out, false, false), RSleep(0), Scene(Some(0), Sleep1(Reader), Out, false, false));
  }

  lemma ReaderSleeps()
    ensures Reachable(Scene(None, Asleep(Reader), Out, false, false))
  {
    ReaderFindsNothing();
    hide Reachable, Run;
    Reach(Scene(Some(0), Sleep1(Reader), Out, false, false), SleepStep(0),
          Scene(Some(0), Sleep2(Reader), Out, false, false));
    Reach(Scene(Some(0), Sleep2(Reader), Out, false, false), SleepStep(0),
          Scene(None, Sleep3(Reader), Out, false, false));
    Reach(Scene(None, Sleep3(Reader), Out, false, false), SleepStep(0),
          Scene(None, Asleep(Reader), Out, false, false));
  }

  lemma WriterWrites()
    ensures Reachable(Scene(Some(1), Asleep(Reader), WTop(true), true, false))
  {
    ReaderSleeps();
    hide Reachable, Run;
    var r := Asleep(Reader);
    Reach(Scene(None, r, Out, false, false), Enter(1, Writer), Scene(None, r, Want(Writer), false, false));
    Reach(Scene(None, r, Want(Writer), false, false), Acquire(1), Scene(Some(1), r, WTop(false), false, false));
    Reach(Scene(Some(1), r, WTop(false), false, false), WByte(1, 7), Scene(Some(1), r, WTop(true), true, false));
  }

  /** A writer killed between its byte and its wakeup leaves a reader asleep at a pipe that is not empty,
      with the lock free and nobody left to wake it. */
  lemma LostHappens()
    ensures exists st :: Reachable(st) && st.lock == None && st.procs == [Asleep(Reader), Out] && !IsEmpty(st)
  {
    WriterWrites();
    hide Reachable, Run;
    var r := Asleep(Reader);
    Reach(Scene(Some(1), r, WTop(true), true, false), Kill(1), Scene(Some(1), r, WTop(true), true, true));
    Reach(Scene(Some(1), r, WTop(true), true, true), WQuit(1), Scene(None, r, Out, true, true));
  }
}
