/** kernel/proc.c: the first-come-first-served scheduler on one processor, with wakeups by interrupts between
    the lock sections of its scan. */
module Fcfs {
  import opened Basics

  datatype ProcState = Unused | Sleeping | Runnable | Running | Zombie
  datatype Proc = Proc(state: ProcState, ticket: nat)   // ticket: queue_location

  /** The processor runs a process, or scans the table; `began` are the processes that were RUNNABLE when the
      scan began, `since` is the queue counter at that time, and `late` says that since then a process has become
      RUNNABLE behind the scan when no process was. */
  datatype Cpu =
    | InProc(p: nat)
    | Scan(next: nat, best: Option<nat>, began: set<nat>, since: nat, late: bool := false)

  datatype State = State(procs: seq<Proc>, counter: nat, cpu: Cpu)

  datatype Step =
    | Fork(c: nat)
    | Yield
    | Block              // sleep
    | Exit
    | Reap(c: nat)
    | Wake(q: nat)       // wakeup or kill, by the running process or by an interrupt
    | Look
    | Dispatch

  function RunnableSet(procs: seq<Proc>): set<nat> {
    set i: nat | i < |procs| && procs[i].state == Runnable
  }

  function StartScan(procs: seq<Proc>, counter: nat): State {
    State(procs, counter, Scan(0, None, RunnableSet(procs), counter))
  }

  /** A process becomes RUNNABLE, with the next ticket. */
  function Queued(st: State, q: nat): State
    requires q < |st.procs|
  {
    st.(procs := st.procs[q := Proc(Runnable, st.counter)], counter := st.counter + 1)
  }

  /** The same for a wakeup, which can come while the scan is under way. */
  function Woken(st: State, q: nat): State
    requires q < |st.procs|
  {
    var st1 := Queued(st, q);
    if st.cpu.Scan? && q < st.cpu.next && RunnableSet(st.procs) == {} then st1.(cpu := st.cpu.(late := true)) else st1
  }

  /** The scan's choice between what it has and process `k`. */
  function Better(procs: seq<Proc>, best: Option<nat>, k: nat): Option<nat>
    requires k < |procs| && (best.Some? ==> best.value < |procs|)
  {
    if procs[k].state == Runnable && (best == None || procs[k].ticket < procs[best.value].ticket) then Some(k) else best
  }

  predicate Next(st: State, step: Step, st': State) {
    match step
    case Fork(c) => st.cpu.InProc? && c < |st.procs| && st.procs[c].state == Unused && st' == Queued(st, c)
    case Yield =>
      && st.cpu.InProc? && st.cpu.p < |st.procs|
      && var st1 := Queued(st, st.cpu.p); st' == StartScan(st1.procs, st1.counter)
    case Block =>
      && st.cpu.InProc? && st.cpu.p < |st.procs|
      && st' == StartScan(st.procs[st.cpu.p := st.procs[st.cpu.p].(state := Sleeping)], st.counter)
    case Exit =>
      && st.cpu.InProc? && st.cpu.p < |st.procs|
      && st' == StartScan(st.procs[st.cpu.p := st.procs[st.cpu.p].(state := Zombie)], st.counter)
    case Reap(c) =>
      && st.cpu.InProc? && c < |st.procs| && st.procs[c].state == Zombie
      && st' == st.(procs := st.procs[c := st.procs[c].(state := Unused)])
    case Wake(q) => q < |st.procs| && st.procs[q].state == Sleeping && st' == Woken(st, q)
    case Look =>
      && st.cpu.Scan? && st.cpu.next < |st.procs| && (st.cpu.best.Some? ==> st.cpu.best.value < |st.procs|)
      && st' == st.(cpu := st.cpu.(next := st.cpu.next + 1, best := Better(st.procs, st.cpu.best, st.cpu.next)))
    case Dispatch =>
      && st.cpu.Scan? && st.cpu.next >= |st.procs|
      && if st.cpu.best.Some? && st.cpu.best.value < |st.procs| && st.procs[st.cpu.best.value].state == Runnable then
           var b := st.cpu.best.value;
           st' == st.(procs := st.procs[b := st.procs[b].(state := Running)], cpu := InProc(b))
         else st' == StartScan(st.procs, st.counter)
  }

  // ---- what every run keeps ----

  ghost predicate Tickets(procs: seq<Proc>, counter: nat) {
    && (forall i :: 0 <= i < |procs| && procs[i].state == Runnable ==> procs[i].ticket < counter)
    && (forall i, j :: 0 <= i < j < |procs| && procs[i].state == Runnable && procs[j].state == Runnable ==>
          procs[i].ticket != procs[j].ticket)
  }

  /** Only the process on the processor is RUNNING. */
  ghost predicate OneRuns(st: State) {
    && (st.cpu.InProc? ==> st.cpu.p < |st.procs|)
    && forall i :: 0 <= i < |st.procs| ==> (st.procs[i].state == Running <==> st.cpu == InProc(i))
  }

  /** The processes that were RUNNABLE when the scan began still are, with tickets below all newer ones, and
      the scan's choice is at least as early as any of them it has passed. */
  ghost predicate ScanOk(st: State) {
    st.cpu.Scan? ==>
      && st.cpu.since <= st.counter
      && (forall i :: i in st.cpu.began ==>
          i < |st.procs| && st.procs[i].state == Runnable && st.procs[i].ticket < st.cpu.since)
      && (forall i: nat :: i < |st.procs| && st.procs[i].state == Runnable && i !in st.cpu.began ==>
            st.cpu.since <= st.procs[i].ticket)
      && (st.cpu.best.Some? ==> st.cpu.best.value < |st.procs| && st.procs[st.cpu.best.value].state == Runnable)
      && (forall i: nat :: i in st.cpu.began && i < st.cpu.next ==>
            st.cpu.best.Some? && st.procs[st.cpu.best.value].ticket <= st.procs[i].ticket)
  }

  predicate IsRunnable(st: State, i: nat) {
    i < |st.procs| && st.procs[i].state == Runnable
  }

  predicate Before(st: State, i: nat, j: nat) {
    i < |st.procs| && j < |st.procs| && st.procs[i].ticket < st.procs[j].ticket
  }

  /** Somebody with an earlier ticket is still ahead of the scan. */
  ghost predicate Covered(st: State, i: nat)
    requires st.cpu.Scan?
  {
    exists r: nat :: st.cpu.next <= r && IsRunnable(st, r) && Before(st, r, i)
  }

  /** Process `i` is the scan's choice, or comes after it, or after somebody ahead of the scan. */
  ghost predicate Accounted(st: State, i: nat)
    requires st.cpu.Scan?
  {
    || (st.cpu.best.Some? && (st.cpu.best.value == i || Before(st, st.cpu.best.value, i)))
    || Covered(st, i)
  }

  /** Nobody behind the scan comes before all it can still choose. */
  ghost predicate NoneLost(st: State)
    requires st.cpu.Scan?
  {
    forall i: nat :: i < st.cpu.next && IsRunnable(st, i) ==> Accounted(st, i)
  }

  /** The earliest of all is behind the scan, and is not its choice. */
  ghost predicate FirstLost(st: State)
    requires st.cpu.Scan?
  {
    exists q: nat :: q < st.cpu.next && IsRunnable(st, q) && st.cpu.best != Some(q) && Earliest(st, q)
  }

  ghost predicate Earliest(st: State, q: nat) {
    forall i: nat :: IsRunnable(st, i) && i != q ==> Before(st, q, i)
  }

  ghost predicate LateOk(st: State) {
    st.cpu.Scan? ==> if st.cpu.late then FirstLost(st) else NoneLost(st)
  }

  ghost predicate Inv(st: State) {
    Tickets(st.procs, st.counter) && OneRuns(st) && ScanOk(st) && LateOk(st)
  }

  /** The first process is RUNNABLE, and the scheduler starts. */
  predicate Init(st: State) {
    && |st.procs| > 0 && st.procs[0] == Proc(Runnable, 1)
    && (forall i :: 0 < i < |st.procs| ==> st.procs[i].state == Unused)
    && st == StartScan(st.procs, 2)
  }

  lemma InitInv(st: State)
    requires Init(st)
    ensures Inv(st)
  {
  }

  lemma QueuedKeeps(st: State, q: nat)
    requires Tickets(st.procs, st.counter) && OneRuns(st) && ScanOk(st)
    requires q < |st.procs| && (st.procs[q].state == Unused || st.procs[q].state == Sleeping)
    ensures var st' := Queued(st, q); Tickets(st'.procs, st'.counter) && OneRuns(st') && ScanOk(st')
  {
  }

  /** A wakeup behind the scan is lost exactly when there is nobody it comes after. */
  lemma WakeLate(st: State, q: nat)
    requires Inv(st) && st.cpu.Scan? && q < |st.procs| && st.procs[q].state == Sleeping
    ensures LateOk(Woken(st, q))
  {
    var st' := Woken(st, q);
    if RunnableSet(st.procs) == {} {
      forall i: nat ensures IsRunnable(st', i) ==> i == q {
        assert i !in RunnableSet(st.procs);
      }
      assert IsRunnable(st', q) && Earliest(st', q);
    } else if st.cpu.late {
      var f: nat :| f < st.cpu.next && IsRunnable(st, f) && st.cpu.best != Some(f) && Earliest(st, f);
      forall i: nat | IsRunnable(st', i) && i != f ensures Before(st', f, i) {
        assert i == q || (IsRunnable(st, i) && Before(st, f, i));
      }
      assert Earliest(st', f);
    } else {
      var some :| some in RunnableSet(st.procs);
      forall i: nat | i < st'.cpu.next && IsRunnable(st', i) ensures Accounted(st', i) {
        WakeAccounts(st, q, i, if i == q then some else i);
      }
    }
  }

  /** Whoever process `j` comes after stays, and a newly woken process comes after all. */
  lemma WakeAccounts(st: State, q: nat, i: nat, j: nat)
    requires Inv(st) && st.cpu.Scan? && !st.cpu.late && q < |st.procs| && st.procs[q].state == Sleeping
    requires RunnableSet(st.procs) != {} && IsRunnable(st, j) && (i == q || i == j) && i < st.cpu.next
    ensures Accounted(Woken(st, q), i)
  {
    var st' := Woken(st, q);
    if j >= st.cpu.next {
      assert IsRunnable(st', j) && Before(st', j, i);
    } else if Covered(st, j) {
      var r: nat :| st.cpu.next <= r && IsRunnable(st, r) && Before(st, r, j);
      assert IsRunnable(st', r) && Before(st', r, i);
    }
  }

  lemma WakeKeeps(st: State, q: nat)
    requires Inv(st) && q < |st.procs| && st.procs[q].state == Sleeping
    ensures Inv(Woken(st, q))
  {
    QueuedKeeps(st, q);
    if st.cpu.Scan? {
      WakeLate(st, q);
    }
  }

  lemma StartKeeps(procs: seq<Proc>, counter: nat)
    requires Tickets(procs, counter) && forall i :: 0 <= i < |procs| ==> procs[i].state != Running
    ensures Inv(StartScan(procs, counter))
  {
  }

  /** The running process leaves the processor. */
  lemma LeaveKeeps(st: State, proc: Proc, counter: nat)
    requires Inv(st) && st.cpu.InProc? && proc.state != Running && st.counter <= counter
    requires proc.state == Runnable ==> st.counter <= proc.ticket < counter
    ensures Inv(StartScan(st.procs[st.cpu.p := proc], counter))
  {
    StartKeeps(st.procs[st.cpu.p := proc], counter);
  }

  lemma LookLate(st: State, st': State)
    requires Inv(st) && Next(st, Look, st')
    ensures LateOk(st')
  {
    var k := st.cpu.next;
    if st.cpu.late {
      var f: nat :| f < k && IsRunnable(st, f) && st.cpu.best != Some(f) && Earliest(st, f);
      assert IsRunnable(st', f) && st'.cpu.best != Some(f);
      forall i: nat | IsRunnable(st', i) && i != f ensures Before(st', f, i) {
        assert IsRunnable(st, i) && Before(st, f, i);
      }
      assert Earliest(st', f);
    } else {
      forall i: nat | i < st'.cpu.next && IsRunnable(st', i) ensures Accounted(st', i) {
        LookAccounts(st, st', i);
      }
    }
  }

  lemma LookAccounts(st: State, st': State, i: nat)
    requires Inv(st) && Next(st, Look, st') && !st.cpu.late && i < st'.cpu.next && IsRunnable(st', i)
    ensures Accounted(st', i)
  {
    assert i < st.cpu.next ==> IsRunnable(st, i) && Accounted(st, i);
    if i < st.cpu.next && Covered(st, i) {
      var r: nat :| st.cpu.next <= r && IsRunnable(st, r) && Before(st, r, i);
      if r > st.cpu.next {
        assert IsRunnable(st', r) && Before(st', r, i);
      }
    }
  }

  lemma LookKeeps(st: State, st': State)
    requires Inv(st) && Next(st, Look, st')
    ensures Inv(st')
  {
    LookLate(st, st');
    forall i: nat | i in st'.cpu.began && i < st'.cpu.next
      ensures st'.cpu.best.Some? && st'.procs[st'.cpu.best.value].ticket <= st'.procs[i].ticket
    {
      assert i < st.cpu.next || i == st.cpu.next;
    }
  }

  lemma DispatchKeeps(st: State, st': State)
    requires Inv(st) && Next(st, Dispatch, st')
    ensures Inv(st')
  {
    if st'.cpu.Scan? {
      StartKeeps(st.procs, st.counter);
    }
  }

  lemma StepKeepsInv(st: State, step: Step, st': State)
    requires Inv(st) && Next(st, step, st')
    ensures Inv(st')
  {
    match step
    case Fork(c) => QueuedKeeps(st, c);
    case Wake(q) => WakeKeeps(st, q);
    case Yield => LeaveKeeps(st, Proc(Runnable, st.counter), st.counter + 1);
    case Block => LeaveKeeps(st, st.procs[st.cpu.p].(state := Sleeping), st.counter);
    case Exit => LeaveKeeps(st, st.procs[st.cpu.p].(state := Zombie), st.counter);
    case Reap(c) =>
    case Look => LookKeeps(st, st');
    case Dispatch => DispatchKeeps(st, st');
  }

  // ---- runs ----

  ghost predicate Run(states: seq<State>, steps: seq<Step>) {
    && |states| == |steps| + 1 && Init(states[0])
    && forall i :: 0 <= i < |steps| ==> Next(states[i], steps[i], states[i + 1])
  }

  lemma {:induction false} RunKeepsInv(states: seq<State>, steps: seq<Step>, k: nat)
    requires Run(states, steps) && k < |states|
    ensures Inv(states[k])
    decreases k
  {
    if k == 0 {
      InitInv(states[0]);
    } else {
      RunKeepsInv(states, steps, k - 1);
      hide Inv, Next;
      StepKeepsInv(states[k - 1], steps[k - 1], states[k]);
    }
  }

  /** In every run, a scan that began with a RUNNABLE process dispatches one, and it is the one with the
      smallest ticket of all that are RUNNABLE by then: it was there when the scan began. */
  lemma EarliestFirst(states: seq<State>, steps: seq<Step>, k: nat)
    requires Run(states, steps) && k < |steps| && steps[k] == Dispatch
    requires states[k].cpu.Scan? && states[k].cpu.began != {}
    ensures states[k + 1].cpu.InProc?
    ensures var st, b := states[k], states[k + 1].cpu.p;
            && b in st.cpu.began && b < |st.procs| && st.procs[b].state == Runnable
            && forall i: nat :: i < |st.procs| && st.procs[i].state == Runnable && i != b ==>
                 st.procs[b].ticket < st.procs[i].ticket
  {
    RunKeepsInv(states, steps, k);
    assert Next(states[k], steps[k], states[k + 1]);
    hide Run;
    DispatchFirst(states[k], states[k + 1]);
  }

  lemma DispatchFirst(st: State, st': State)
    requires Inv(st) && Next(st, Dispatch, st') && st.cpu.began != {}
    ensures st'.cpu.InProc?
    ensures var b := st'.cpu.p;
            && b in st.cpu.began && b < |st.procs| && st.procs[b].state == Runnable
            && st' == st.(procs := st.procs[b := st.procs[b].(state := Running)], cpu := InProc(b))
            && forall i: nat :: i < |st.procs| && st.procs[i].state == Runnable && i != b ==>
                 st.procs[b].ticket < st.procs[i].ticket
  {
    var j :| j in st.cpu.began;
    assert j < st.cpu.next;
  }

  /** In every run, a dispatch takes the process with the smallest ticket of all that are RUNNABLE if and only if
      no process became RUNNABLE behind the scan when no process was. */
  lemma OrderExactly(states: seq<State>, steps: seq<Step>, k: nat)
    requires Run(states, steps) && k < |steps| && steps[k] == Dispatch
    requires states[k].cpu.Scan? && states[k + 1].cpu.InProc?
    ensures Earliest(states[k], states[k + 1].cpu.p) <==> !states[k].cpu.late
  {
    RunKeepsInv(states, steps, k);
    assert Next(states[k], steps[k], states[k + 1]);
    hide Run;
    DispatchExactly(states[k], states[k + 1]);
  }

  lemma DispatchExactly(st: State, st': State)
    requires Inv(st) && Next(st, Dispatch, st') && st'.cpu.InProc?
    ensures Earliest(st, st'.cpu.p) <==> !st.cpu.late
  {
    var b := st'.cpu.p;
    assert IsRunnable(st, b) && st.cpu.best == Some(b);
    if st.cpu.late {
      var q: nat :| q < st.cpu.next && IsRunnable(st, q) && st.cpu.best != Some(q) && Earliest(st, q);
      assert Before(st, q, b);
    } else {
      forall i: nat | IsRunnable(st, i) && i != b ensures Before(st, b, i) {
        assert i < st.cpu.next && !Covered(st, i);
      }
    }
  }

  // ---- nobody waits for more than those ahead of it ----

  /** The processes with an earlier ticket. */
  ghost function Ahead(procs: seq<Proc>, p: nat): set<nat>
    requires p < |procs|
  {
    set i: nat | i < |procs| && procs[i].state == Runnable && procs[i].ticket < procs[p].ticket
  }

  /** `p` is RUNNABLE, and a scan under way has begun with it. */
  predicate Waits(st: State, p: nat) {
    p < |st.procs| && st.procs[p].state == Runnable && (st.cpu.Scan? ==> p in st.cpu.began)
  }

  lemma WaitStep(st: State, step: Step, st': State, p: nat)
    requires Inv(st) && Next(st, step, st') && Waits(st, p) && p < |st'.procs| && st'.procs[p].state == Runnable
    ensures Waits(st', p) && Ahead(st'.procs, p) <= Ahead(st.procs, p)
    ensures step == Dispatch ==> exists b :: b in Ahead(st.procs, p) && b !in Ahead(st'.procs, p)
  {
    if step == Dispatch {
      DispatchFirst(st, st');
      assert st'.cpu.p in Ahead(st.procs, p);
    }
  }

  function Dispatches(steps: seq<Step>): nat {
    if steps == [] then 0 else Dispatches(steps[..|steps| - 1]) + if steps[|steps| - 1] == Dispatch then 1 else 0
  }

  lemma DispatchesNext(steps: seq<Step>, i: nat, j: nat)
    requires i < j <= |steps|
    ensures Dispatches(steps[i..j]) == Dispatches(steps[i..j - 1]) + if steps[j - 1] == Dispatch then 1 else 0
  {
    assert steps[i..j][..j - i - 1] == steps[i..j - 1] && steps[i..j][j - i - 1] == steps[j - 1];
  }

  lemma WaitCount(st: State, step: Step, st': State, p: nat)
    requires Inv(st) && Next(st, step, st') && Waits(st, p) && p < |st'.procs| && st'.procs[p].state == Runnable
    ensures Waits(st', p)
    ensures |Ahead(st'.procs, p)| + (if step == Dispatch then 1 else 0) <= |Ahead(st.procs, p)|
  {
    hide Inv, Next, Ahead;
    WaitStep(st, step, st', p);
    var a, a' := Ahead(st.procs, p), Ahead(st'.procs, p);
    if step == Dispatch {
      var b :| b in a && b !in a';
      SubsetSize(a', a - {b});
    } else {
      SubsetSize(a', a);
    }
  }

  /** In every run, while a process waits, no more processes are dispatched than had an earlier ticket when it
      began to wait. */
  lemma {:induction false} BoundedWaiting(states: seq<State>, steps: seq<Step>, i: nat, j: nat, p: nat)
    requires Run(states, steps) && i <= j < |states| && Waits(states[i], p)
    requires forall k :: i <= k <= j ==> p < |states[k].procs| && states[k].procs[p].state == Runnable
    ensures Waits(states[j], p)
    ensures Dispatches(steps[i..j]) + |Ahead(states[j].procs, p)| <= |Ahead(states[i].procs, p)|
    decreases j
  {
    hide Inv, Next, Ahead, Init, Waits;
    if i == j {
      assert steps[i..j] == [];
    } else {
      BoundedWaiting(states, steps, i, j - 1, p);
      RunKeepsInv(states, steps, j - 1);
      DispatchesNext(steps, i, j);
      hide Dispatches;
      WaitCount(states[j - 1], steps[j - 1], states[j], p);
    }
  }

  /** In every run the tickets of RUNNABLE processes are distinct and have all been handed out. */
  lemma TicketsDistinct(states: seq<State>, steps: seq<Step>, k: nat, i: nat, j: nat)
    requires Run(states, steps) && k < |states| && i < |states[k].procs| && j < |states[k].procs|
    requires states[k].procs[i].state == Runnable && states[k].procs[j].state == Runnable
    ensures states[k].procs[i].ticket < states[k].counter
    ensures i != j ==> states[k].procs[i].ticket != states[k].procs[j].ticket
  {
    RunKeepsInv(states, steps, k);
  }

  // ---- what the calls leave ----

  /** The life of process `i`: the state it is in after a step. */
  function Becomes(st: State, step: Step, i: nat): ProcState
    requires i < |st.procs|
  {
    match step
    case Fork(c) => if c == i then Runnable else st.procs[i].state
    case Yield => if st.cpu == InProc(i) then Runnable else st.procs[i].state
    case Block => if st.cpu == InProc(i) then Sleeping else st.procs[i].state
    case Exit => if st.cpu == InProc(i) then Zombie else st.procs[i].state
    case Reap(c) => if c == i then Unused else st.procs[i].state
    case Wake(q) => if q == i then Runnable else st.procs[i].state
    case Look => st.procs[i].state
    case Dispatch => if st.cpu.Scan? && st.cpu.best == Some(i) then Running else st.procs[i].state
  }

  lemma LifeStep(st: State, step: Step, st': State, i: nat)
    requires Inv(st) && Next(st, step, st') && i < |st.procs|
    ensures |st'.procs| == |st.procs| && st'.procs[i].state == Becomes(st, step, i)
    ensures if st'.procs[i].state == Runnable && st.procs[i].state != Runnable
            then st'.procs[i].ticket == st.counter && st'.counter == st.counter + 1
            else st'.procs[i].ticket == st.procs[i].ticket
    ensures step == Yield || step == Block || step == Exit ==> st'.cpu.Scan? && st'.cpu.next == 0
  {
    hide LateOk, Tickets, RunnableSet;
  }

  /** In every run a process changes state only as its own calls, a wakeup, its parent's wait or the scheduler's
      choice say, and it takes the next ticket exactly when it becomes RUNNABLE. */
  lemma LifeCycle(states: seq<State>, steps: seq<Step>, k: nat, i: nat)
    requires Run(states, steps) && k < |steps| && i < |states[k].procs|
    ensures |states| == |steps| + 1 && |states[k + 1].procs| == |states[k].procs|
    ensures states[k + 1].procs[i].state == Becomes(states[k], steps[k], i)
    ensures if states[k + 1].procs[i].state == Runnable && states[k].procs[i].state != Runnable
            then states[k + 1].procs[i].ticket == states[k].counter && states[k + 1].counter == states[k].counter + 1
            else states[k + 1].procs[i].ticket == states[k].procs[i].ticket
    ensures steps[k] == Yield || steps[k] == Block || steps[k] == Exit ==>
              states[k + 1].cpu.Scan? && states[k + 1].cpu.next == 0
  {
    RunKeepsInv(states, steps, k);
    hide Inv, Next, Becomes;
    LifeStep(states[k], steps[k], states[k + 1], i);
  }

  /** So whoever becomes RUNNABLE comes after all who already are. */
  lemma LastInLine(states: seq<State>, steps: seq<Step>, k: nat, i: nat, j: nat)
    requires Run(states, steps) && k < |steps| && IsRunnable(states[k + 1], i) && !IsRunnable(states[k], i)
    requires IsRunnable(states[k], j) && IsRunnable(states[k + 1], j)
    ensures Before(states[k + 1], j, i)
  {
    RunKeepsInv(states, steps, k);
    hide Inv, Next;
    LineStep(states[k], steps[k], states[k + 1], i, j);
  }

  lemma LineStep(st: State, step: Step, st': State, i: nat, j: nat)
    requires Inv(st) && Next(st, step, st') && IsRunnable(st', i) && !IsRunnable(st, i)
    requires IsRunnable(st, j) && IsRunnable(st', j)
    ensures Before(st', j, i)
  {
    hide LateOk, OneRuns, ScanOk, RunnableSet;
  }

  /** A process that sleeps does so until it is woken, and one that has exited is a zombie until it is reaped. */
  lemma {:induction false} StaysAway(states: seq<State>, steps: seq<Step>, i: nat, j: nat, p: nat)
    requires Run(states, steps) && i <= j < |states| && p < |states[i].procs|
    requires states[i].procs[p].state == Sleeping || states[i].procs[p].state == Zombie
    requires forall k :: i <= k < j ==> steps[k] != Wake(p) && steps[k] != Reap(p)
    ensures p < |states[j].procs| && states[j].procs[p] == states[i].procs[p]
    decreases j
  {
    if i < j {
      hide Next, Inv;
      StaysAway(states, steps, i, j - 1, p);
      RunKeepsInv(states, steps, j - 1);
      AwayStep(states[j - 1], steps[j - 1], states[j], p);
    }
  }

  lemma AwayStep(st: State, step: Step, st': State, p: nat)
    requires Inv(st) && Next(st, step, st') && p < |st.procs|
    requires st.procs[p].state == Sleeping || st.procs[p].state == Zombie
    requires step != Wake(p) && step != Reap(p)
    ensures p < |st'.procs| && st'.procs[p] == st.procs[p]
  {
    hide LateOk, Tickets, RunnableSet;
  }

  /** Under a scan that has begun with `q`, before `p`. */
  predicate InFront(st: State, q: nat, p: nat) {
    st.cpu.Scan? && q in st.cpu.began && IsRunnable(st, q) && IsRunnable(st, p) && Before(st, q, p)
  }

  lemma YieldStep(st: State, st': State, p: nat, q: nat)
    requires Inv(st) && Next(st, Yield, st') && st.cpu == InProc(p) && q != p && IsRunnable(st, q)
    ensures InFront(st', q, p)
  {
    hide LateOk, ScanOk;
  }

  lemma FrontStep(st: State, step: Step, st': State, p: nat, q: nat)
    requires Inv(st) && Next(st, step, st') && InFront(st, q, p)
    ensures step != Dispatch ==> InFront(st', q, p)
    ensures step == Dispatch ==> st'.cpu.InProc? && st'.cpu.p != p
  {
    if step == Dispatch {
      DispatchFirst(st, st');
    }
    hide LateOk, Tickets, RunnableSet;
  }

  lemma {:induction false} FrontStays(states: seq<State>, steps: seq<Step>, i: nat, j: nat, p: nat, q: nat)
    requires Run(states, steps) && i <= j < |states| && InFront(states[i], q, p)
    requires forall k :: i <= k < j ==> steps[k] != Dispatch
    ensures InFront(states[j], q, p)
    decreases j
  {
    if i < j {
      hide Next, Inv, InFront;
      FrontStays(states, steps, i, j - 1, p, q);
      RunKeepsInv(states, steps, j - 1);
      FrontStep(states[j - 1], steps[j - 1], states[j], p, q);
    }
  }

  /** yield gives way: when somebody else is RUNNABLE, the next process dispatched is another one. */
  lemma YieldGivesWay(states: seq<State>, steps: seq<Step>, k: nat, m: nat, p: nat, q: nat)
    requires Run(states, steps) && k < m < |steps| && steps[k] == Yield && states[k].cpu == InProc(p)
    requires q != p && IsRunnable(states[k], q)
    requires steps[m] == Dispatch && forall t :: k < t < m ==> steps[t] != Dispatch
    ensures states[m + 1].cpu.InProc? && states[m + 1].cpu.p != p
  {
    hide Next, Inv, InFront;
    RunKeepsInv(states, steps, k);
    YieldStep(states[k], states[k + 1], p, q);
    FrontStays(states, steps, k + 1, m, p, q);
    RunKeepsInv(states, steps, m);
    FrontStep(states[m], steps[m], states[m + 1], p, q);
  }

  // ---- a scan that began with nobody to run ----

  ghost predicate Reachable(st: State) {
    exists states: seq<State>, steps: seq<Step> :: Run(states, steps) && states[|steps|] == st
  }

  lemma Start(st: State)
    requires Init(st)
    ensures Reachable(st)
  {
    var none: seq<Step> := [];
    assert Run([st], none) && [st][|none|] == st;
  }

  lemma Reach(st: State, step: Step, st': State)
    requires Reachable(st) && Next(st, step, st')
    ensures Reachable(st')
  {
    var states: seq<State>, steps: seq<Step> :| Run(states, steps) && states[|steps|] == st;
    var states', steps' := states + [st'], steps + [step];
    assert Run(states', steps') && states'[|steps'|] == st';
  }

  function Two(a: Proc, b: Proc, counter: nat, cpu: Cpu): State {
    State([a, b], counter, cpu)
  }

  function Began(a: Proc, b: Proc): set<nat> {
    if a.state == Runnable then (if b.state == Runnable then {0, 1} else {0})
    else if b.state == Runnable then {1} else {}
  }

  lemma TwoRunnable(a: Proc, b: Proc, counter: nat)
    ensures StartScan([a, b], counter) == Two(a, b, counter, Scan(0, None, Began(a, b), counter))
  {
    assert RunnableSet([a, b]) == Began(a, b);
  }

  lemma BlockTwo(a: Proc, b: Proc, counter: nat, p: nat)
    requires p < 2 && Reachable(Two(a, b, counter, InProc(p)))
    ensures p == 0 ==> Reachable(StartScan([a.(state := Sleeping), b], counter))
    ensures p == 1 ==> Reachable(StartScan([a, b.(state := Sleeping)], counter))
  {
    hide Reachable, StartScan;
    var st := Two(a, b, counter, InProc(p));
    assert st.procs[p := st.procs[p].(state := Sleeping)] ==
           if p == 0 then [a.(state := Sleeping), b] else [a, b.(state := Sleeping)];
    Reach(st, Block, StartScan(st.procs[p := st.procs[p].(state := Sleeping)], counter));
  }

  lemma LookTwo(a: Proc, b: Proc, counter: nat, best: Option<nat>, began: set<nat>, since: nat)
    requires Reachable(Two(a, b, counter, Scan(0, best, began, since))) && (best.Some? ==> best.value < 2)
    ensures Reachable(Two(a, b, counter, Scan(1, Better([a, b], best, 0), began, since)))
    ensures Reachable(Two(a, b, counter, Scan(2, Better([a, b], Better([a, b], best, 0), 1), began, since)))
  {
    hide Reachable;
    var st1 := Two(a, b, counter, Scan(1, Better([a, b], best, 0), began, since));
    Reach(Two(a, b, counter, Scan(0, best, began, since)), Look, st1);
    Reach(st1, Look, Two(a, b, counter, Scan(2, Better([a, b], Better([a, b], best, 0), 1), began, since)));
  }

  lemma DispatchTwo(a: Proc, b: Proc, counter: nat, p: nat, began: set<nat>, since: nat)
    requires p < 2 && Reachable(Two(a, b, counter, Scan(2, Some(p), began, since)))
    requires (if p == 0 then a else b).state == Runnable
    ensures p == 0 ==> Reachable(Two(a.(state := Running), b, counter, InProc(p)))
    ensures p == 1 ==> Reachable(Two(a, b.(state := Running), counter, InProc(p)))
  {
    hide Reachable;
    var st := Two(a, b, counter, Scan(2, Some(p), began, since));
    assert st.procs[p := st.procs[p].(state := Running)] ==
           if p == 0 then [a.(state := Running), b] else [a, b.(state := Running)];
    Reach(st, Dispatch, st.(procs := st.procs[p := st.procs[p].(state := Running)], cpu := InProc(p)));
  }

  /** The first process runs, forks and sleeps. */
  lemma FirstSleeps()
    ensures Reachable(StartScan([Proc(Sleeping, 1), Proc(Runnable, 2)], 3))
  {
    var a, u, b := Proc(Runnable, 1), Proc(Unused, 0), Proc(Runnable, 2);
    TwoRunnable(a, u, 2);
    Start(StartScan([a, u], 2));
    hide Reachable, StartScan, Init;
    LookTwo(a, u, 2, None, {0}, 2);
    DispatchTwo(a, u, 2, 0, {0}, 2);
    var r := Proc(Running, 1);
    assert [r, u][1 := b] == [r, b];
    Reach(Two(r, u, 2, InProc(0)), Fork(1), Two(r, b, 3, InProc(0)));
    BlockTwo(r, b, 3, 0);
  }

  lemma BothSleep()
    ensures Reachable(StartScan([Proc(Sleeping, 1), Proc(Sleeping, 2)], 3))
  {
    var a, b := Proc(Sleeping, 1), Proc(Runnable, 2);
    FirstSleeps();
    TwoRunnable(a, b, 3);
    hide Reachable, StartScan;
    LookTwo(a, b, 3, None, {1}, 3);
    DispatchTwo(a, b, 3, 1, {1}, 3);
    BlockTwo(a, Proc(Running, 2), 3, 1);
  }

  /** The scan has found nobody when it began, and now chooses process 1, although 0 has an earlier ticket. */
  predicate Overtakes(st: State) {
    && st.cpu == Scan(2, Some(1), {}, 3, true) && |st.procs| == 2 && st.procs[0].state == st.procs[1].state == Runnable
    && st.procs[0].ticket < st.procs[1].ticket
  }

  /** When a scan begins with nobody RUNNABLE, a process woken behind it can be overtaken by one woken later
      ahead of it. */
  lemma OvertakingHappens()
    ensures exists st :: Reachable(st) && Overtakes(st)
  {
    var a, b := Proc(Sleeping, 1), Proc(Sleeping, 2);
    var a', b' := Proc(Runnable, 3), Proc(Runnable, 4);
    BothSleep();
    TwoRunnable(a, b, 3);
    hide Reachable, StartScan;
    LookTwo(a, b, 3, None, {}, 3);
    assert [a, b][0 := a'] == [a', b] && [a', b][1 := b'] == [a', b'];
    assert RunnableSet([a, b]) == {};
    Reach(Two(a, b, 3, Scan(1, None, {}, 3)), Wake(0), Two(a', b, 4, Scan(1, None, {}, 3, true)));
    assert 0 in RunnableSet([a', b]);
    Reach(Two(a', b, 4, Scan(1, None, {}, 3, true)), Wake(1), Two(a', b', 5, Scan(1, None, {}, 3, true)));
    Reach(Two(a', b', 5, Scan(1, None, {}, 3, true)), Look, Two(a', b', 5, Scan(2, Some(1), {}, 3, true)));
    assert Overtakes(Two(a', b', 5, Scan(2, Some(1), {}, 3, true)));
  }
}
