/** begin_op / log_write / end_op as seen under log.lock: which operations may run, what the
    in-memory header holds, and how much log space is still promised to running operations. */
module Admission {
  import opened LogFormat

  /** An operation between its begin_op and its end_op, and the blocks it has added to the log. */
  datatype Op = Op(id: nat, used: nat)

  datatype Gate = Gate(lh: seq<nat>, outstanding: nat, committing: bool, ops: map<nat, Op>, nextId: nat)

  const Fresh := Gate([], 0, false, map[], 0)

  predicate CanBegin(g: Gate) {
    !g.committing && |g.lh| + (g.outstanding + 1) * MAXOPBLOCKS <= LOGSIZE
  }

  /** The panics of log_write, tested before looking for the block in the header. */
  predicate LogWritePanics(g: Gate, nlog: nat) {
    |g.lh| >= LOGSIZE || |g.lh| >= nlog - 1 || g.outstanding < 1
  }

  function Absorb(lh: seq<nat>, b: nat): (r: seq<nat>) {
    if b in lh then lh else lh + [b]
  }

  datatype Step = Begin(t: nat) | Log(t: nat, b: nat) | End(t: nat) | Committed

  /** A client may take the step. `quota` is how many blocks an operation may add. */
  predicate Enabled(g: Gate, s: Step, nlog: nat, quota: nat) {
    match s
    case Begin(t) => t !in g.ops && CanBegin(g)
    case Log(t, b) =>
      t in g.ops && !LogWritePanics(g, nlog) && (b in g.lh || g.ops[t].used < quota)
    case End(t) => t in g.ops && g.outstanding >= 1 && !g.committing
    case Committed => g.committing
  }

  function Next(g: Gate, s: Step): (r: Gate)
    requires match s case Log(t, _) => t in g.ops case End(_) => g.outstanding >= 1 case _ => true
  {
    match s
    case Begin(t) =>
      g.(outstanding := g.outstanding + 1, ops := g.ops[t := Op(g.nextId, 0)], nextId := g.nextId + 1)
    case Log(t, b) =>
      var op := g.ops[t];
      g.(lh := Absorb(g.lh, b),
         ops := if b in g.lh then g.ops else g.ops[t := op.(used := op.used + 1)])
    case End(t) =>
      g.(outstanding := g.outstanding - 1, committing := g.outstanding == 1, ops := g.ops - {t})
    case Committed =>
      g.(lh := [], committing := false)
  }

  /** Space promised but not yet used: every running operation may still add `quota - used`. */
  ghost function Unspent(ops: map<nat, Op>, quota: nat): (u: int) {
    if ops == map[] then 0
    else
      var t :| t in ops;
      quota - ops[t].used + Unspent(ops - {t}, quota)
  }

  lemma {:induction false} UnspentRemove(ops: map<nat, Op>, quota: nat, t: nat)
    requires t in ops
    ensures Unspent(ops, quota) == quota - ops[t].used + Unspent(ops - {t}, quota)
    decreases |ops|
  {
    var u :| u in ops && Unspent(ops, quota) == quota - ops[u].used + Unspent(ops - {u}, quota);
    if u != t {
      assert ops - {u} - {t} == ops - {t} - {u};
      UnspentRemove(ops - {u}, quota, t);
      UnspentRemove(ops - {t}, quota, u);
    }
  }

  lemma UnspentAdd(ops: map<nat, Op>, quota: nat, t: nat, op: Op)
    requires t !in ops
    ensures Unspent(ops[t := op], quota) == Unspent(ops, quota) + quota - op.used
  {
    UnspentRemove(ops[t := op], quota, t);
    assert ops[t := op] - {t} == ops;
  }

  lemma UnspentSpend(ops: map<nat, Op>, quota: nat, t: nat, op: Op)
    requires t in ops && op.used == ops[t].used + 1
    ensures Unspent(ops[t := op], quota) == Unspent(ops, quota) - 1
    ensures |ops[t := op]| == |ops|
  {
    assert ops[t := op].Keys == ops.Keys;
    UnspentRemove(ops[t := op], quota, t);
    UnspentRemove(ops, quota, t);
    assert ops[t := op] - {t} == ops - {t};
  }

  lemma {:induction false} UnspentBounds(ops: map<nat, Op>, quota: nat)
    requires forall t :: t in ops ==> ops[t].used <= quota
    ensures 0 <= Unspent(ops, quota)
    ensures |ops| <= 1 ==> Unspent(ops, quota) <= quota
    ensures |ops| <= 2 ==> Unspent(ops, quota) <= 2 * quota
    decreases |ops|
  {
    if ops != map[] {
      var t :| t in ops && Unspent(ops, quota) == quota - ops[t].used + Unspent(ops - {t}, quota);
      assert |ops - {t}| == |ops| - 1;
      UnspentBounds(ops - {t}, quota);
    }
  }

  /** The invariant of every reachable gate. The last clause is the reservation: log entries plus
      promised space stay within the log. */
  ghost predicate Inv(g: Gate, quota: nat) {
    && g.outstanding == |g.ops|
    && (g.committing ==> g.outstanding == 0)
    && (g.outstanding == 0 && !g.committing ==> g.lh == [])
    && (forall i, j :: 0 <= i < j < |g.lh| ==> g.lh[i] != g.lh[j])
    && (forall t :: t in g.ops ==> g.ops[t].used <= quota && g.ops[t].id < g.nextId)
    && |g.lh| + Unspent(g.ops, quota) <= Peak(quota)
  }

  /** The most blocks a group commit can hold when no operation adds more than `quota`. */
  function Peak(quota: nat): nat {
    MAXOPBLOCKS + 2 * quota
  }

  lemma BeginKeepsInv(g: Gate, t: nat, quota: nat)
    requires quota <= MAXOPBLOCKS && Inv(g, quota) && t !in g.ops && CanBegin(g)
    ensures Inv(Next(g, Begin(t)), quota)
  {
    UnspentBounds(g.ops, quota);
    UnspentAdd(g.ops, quota, t, Op(g.nextId, 0));
    assert g.ops[t := Op(g.nextId, 0)].Keys == g.ops.Keys + {t};
  }

  lemma LogKeepsInv(g: Gate, t: nat, b: nat, quota: nat)
    requires Inv(g, quota) && t in g.ops && (b in g.lh || g.ops[t].used < quota)
    ensures Inv(Next(g, Log(t, b)), quota)
  {
    if b !in g.lh {
      var op := g.ops[t].(used := g.ops[t].used + 1);
      UnspentSpend(g.ops, quota, t, op);
    }
  }

  lemma EndKeepsInv(g: Gate, t: nat, quota: nat)
    requires Inv(g, quota) && t in g.ops && g.outstanding >= 1 && !g.committing
    ensures Inv(Next(g, End(t)), quota)
  {
    UnspentRemove(g.ops, quota, t);
    assert |g.ops - {t}| == |g.ops| - 1;
  }

  lemma StepKeepsInv(g: Gate, s: Step, nlog: nat, quota: nat)
    requires quota <= MAXOPBLOCKS && Inv(g, quota) && Enabled(g, s, nlog, quota)
    ensures Inv(Next(g, s), quota)
  {
    match s
    case Begin(t) => BeginKeepsInv(g, t, quota);
    case Log(t, b) => LogKeepsInv(g, t, b, quota);
    case End(t) => EndKeepsInv(g, t, quota);
    case Committed => assert g.ops == map[];
  }

  ghost predicate Run(gs: seq<Gate>, ss: seq<Step>, nlog: nat, quota: nat) {
    && |gs| == |ss| + 1
    && gs[0] == Fresh
    && forall i :: 0 <= i < |ss| ==> Enabled(gs[i], ss[i], nlog, quota) && gs[i + 1] == Next(gs[i], ss[i])
  }

  lemma {:induction false} RunKeepsInv(gs: seq<Gate>, ss: seq<Step>, nlog: nat, quota: nat, i: nat)
    requires quota <= MAXOPBLOCKS && Run(gs, ss, nlog, quota) && i < |gs|
    ensures Inv(gs[i], quota)
  {
    if i > 0 {
      RunKeepsInv(gs, ss, nlog, quota, i - 1);
      StepKeepsInv(gs[i - 1], ss[i - 1], nlog, quota);
    }
  }

  /** With every operation within MAXOPBLOCKS, the log entries plus all unspent reservations
      never exceed LOGSIZE. */
  lemma ReservationsFit(gs: seq<Gate>, ss: seq<Step>, nlog: nat, i: nat)
    requires Run(gs, ss, nlog, MAXOPBLOCKS) && i < |gs|
    ensures |gs[i].lh| + Unspent(gs[i].ops, MAXOPBLOCKS) <= LOGSIZE
    ensures gs[i].committing ==> gs[i].ops == map[]
  {
    RunKeepsInv(gs, ss, nlog, MAXOPBLOCKS, i);
  }

  /** Gate `g` ends some run. */
  ghost predicate Reachable(g: Gate, nlog: nat, quota: nat) {
    exists gs: seq<Gate>, ss: seq<Step> :: Run(gs, ss, nlog, quota) && gs[|ss|] == g
  }

  lemma ReachableStep(g: Gate, s: Step, nlog: nat, quota: nat)
    requires Reachable(g, nlog, quota) && Enabled(g, s, nlog, quota)
    ensures Reachable(Next(g, s), nlog, quota)
  {
    var gs: seq<Gate>, ss: seq<Step> :| Run(gs, ss, nlog, quota) && gs[|ss|] == g;
    assert Run(gs + [Next(g, s)], ss + [s], nlog, quota);
  }

  /** Operation `t` can be running when its next log_write panics. */
  ghost predicate PanicReachable(g: Gate, nlog: nat, quota: nat) {
    Reachable(g, nlog, quota) && g.ops != map[] && LogWritePanics(g, nlog)
  }

  /** How many header entries make log_write panic. */
  function Limit(nlog: nat): int {
    if nlog - 1 < LOGSIZE then nlog - 1 else LOGSIZE
  }

  /** A schedule that fills the header: operation 0 stays open, short operations fill the first
      MAXOPBLOCKS entries one by one, then operation 1 and operation 0 each add `quota`. */
  function Crowded(n: nat, quota: nat): Gate
    requires n <= Peak(quota)
  {
    var lh := seq(n, i => i);
    if n < MAXOPBLOCKS then
      Gate(lh, 1, false, map[0 := Op(0, 0)], n + 1)
    else
      var used := n - MAXOPBLOCKS;
      Gate(lh, 2, false,
           map[0 := Op(0, if used <= quota then 0 else used - quota),
               1 := Op(MAXOPBLOCKS + 1, if used <= quota then used else quota)], MAXOPBLOCKS + 2)
  }

  lemma CrowdedFills(n: nat, nlog: nat, quota: nat)
    requires 0 < n <= Peak(quota) && n <= Limit(nlog) && 0 < quota <= MAXOPBLOCKS
    requires Reachable(Crowded(n - 1, quota), nlog, quota)
    ensures Reachable(Crowded(n, quota), nlog, quota)
  {
    var g := Crowded(n - 1, quota);
    assert n - 1 !in g.lh;
    assert g.lh + [n - 1] == seq(n, i => i);
    if n <= MAXOPBLOCKS {
      var g1 := Next(g, Begin(1));
      ReachableStep(g, Begin(1), nlog, quota);
      var g2 := Next(g1, Log(1, n - 1));
      ReachableStep(g1, Log(1, n - 1), nlog, quota);
      var g3 := Next(g2, End(1));
      ReachableStep(g2, End(1), nlog, quota);
      assert g3.ops == map[0 := Op(0, 0)];
      if n == MAXOPBLOCKS {
        ReachableStep(g3, Begin(1), nlog, quota);
        assert Next(g3, Begin(1)) == Crowded(n, quota);
      }
    } else {
      var t := if n - MAXOPBLOCKS <= quota then 1 else 0;
      ReachableStep(g, Log(t, n - 1), nlog, quota);
      assert Next(g, Log(t, n - 1)) == Crowded(n, quota);
    }
  }

  lemma {:induction false} CrowdedReachable(n: nat, nlog: nat, quota: nat)
    requires n <= Peak(quota) && n <= Limit(nlog) && 0 < quota <= MAXOPBLOCKS
    ensures Reachable(Crowded(n, quota), nlog, quota)
  {
    if n == 0 {
      var gs: seq<Gate>, ss: seq<Step> := [Fresh], [];
      assert Run(gs, ss, nlog, quota) && gs[|ss|] == Fresh;
      ReachableStep(Fresh, Begin(0), nlog, quota);
      assert Next(Fresh, Begin(0)) == Crowded(0, quota);
    } else {
      CrowdedReachable(n - 1, nlog, quota);
      CrowdedFills(n, nlog, quota);
    }
  }

  /** log_write's "too big a transaction" can be reached exactly when Peak(quota) reaches the
      limit. With the log mkfs lays out (nlog = 30) that means: iff some operation may add the
      full MAXOPBLOCKS; operations that add at most 9 never panic. */
  lemma PanicExactly(nlog: nat, quota: nat)
    requires 0 < quota <= MAXOPBLOCKS && 1 <= nlog
    ensures (exists g :: PanicReachable(g, nlog, quota)) <==> Peak(quota) >= Limit(nlog)
    ensures nlog == LOGSIZE ==> (Peak(quota) >= Limit(nlog) <==> quota == MAXOPBLOCKS)
  {
    if Peak(quota) >= Limit(nlog) {
      CrowdedReachable(Limit(nlog), nlog, quota);
      assert 0 in Crowded(Limit(nlog), quota).ops;
      assert PanicReachable(Crowded(Limit(nlog), quota), nlog, quota);
    }
    forall g | PanicReachable(g, nlog, quota)
      ensures Peak(quota) >= Limit(nlog)
    {
      var gs: seq<Gate>, ss: seq<Step> :| Run(gs, ss, nlog, quota) && gs[|ss|] == g;
      RunKeepsInv(gs, ss, nlog, quota, |ss|);
      UnspentBounds(g.ops, quota);
    }
  }
}
