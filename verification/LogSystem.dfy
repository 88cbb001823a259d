/** The buffer cache, the log and the disk together, one step per lock section or block write,
    with any number of client processes, readers outside transactions, evictions and crashes. */
module LogSystem {
  import opened Basics
  import opened Blocks
  import opened LogFormat
  import A = Admission

  const NBUF := 30
  const ROOTDEV := 1

  datatype Tid = Client(id: nat) | Committer

  /** A cache slot; slots never used have dev 0. `owner` is the holder of the sleep lock. */
  datatype Buf = Buf(dev: nat, blockno: nat, valid: bool, refcnt: nat, owner: Option<Tid>, data: Block)

  /** How far the committing process, or recovery after a boot, has got. */
  datatype Pc =
    | Idle
    | Logging(tail: nat)      // write_log
    | Installing(tail: nat)   // header written, install_trans(0)
    | Done                    // header erased, committing not yet cleared
    | Boot                    // initlog, header not yet read
    | Recovering(tail: nat)   // install_trans(1)

  /** `refs` are the buffer pointers processes hold; `dirty` the buffers whose owner has changed
      them since its last log_write. */
  datatype State = State(
    disk: Disk, bufs: seq<Buf>, refs: set<(Tid, nat)>, dirty: set<nat>, g: A.Gate, pc: Pc)

  datatype Step =
    | BGetHit(t: Tid, i: nat, b: nat)
    | BGetMiss(t: Tid, i: nat, b: nat)
    | BLock(t: Tid, i: nat)
    | BFill(t: Tid, i: nat)
    | BUnlock(t: Tid, i: nat)
    | BDrop(t: Tid, i: nat)
    | Modify(c: nat, i: nat, data: Block)
    | LogWrite(c: nat, i: nat)
    | BeginOp(c: nat)
    | EndOp(c: nat)
    | WriteLogBlock(to: nat, from: nat)
    | WriteHead(i: nat)
    | InstallBlock(from: nat, to: nat)
    | EraseHead(i: nat)
    | FinishCommit
    | ReadHead(i: nat)
    | Crash

  predicate Booting(pc: Pc) {
    pc.Boot? || pc.Recovering?
  }

  predicate Holds(bufs: seq<Buf>, t: Tid, i: nat) {
    i < |bufs| && bufs[i].owner == Some(t) && bufs[i].valid
  }

  predicate Caches(bufs: seq<Buf>, i: nat, b: nat) {
    i < |bufs| && bufs[i].dev == ROOTDEV && bufs[i].blockno == b
  }

  /** Clients stay out of the log area and run only once recovery is over. */
  predicate MayUse(s: State, t: Tid, b: nat, lay: Layout) {
    b < lay.size && (t.Client? ==> lay.Home(b) && !Booting(s.pc))
  }

  predicate Enabled(s: State, st: Step, lay: Layout) {
    match st
    case BGetHit(t, i, b) => Caches(s.bufs, i, b) && MayUse(s, t, b, lay) && (t, i) !in s.refs
    case BGetMiss(t, i, b) =>
      && MayUse(s, t, b, lay)
      && (forall j :: 0 <= j < |s.bufs| ==> !Caches(s.bufs, j, b))
      && i < |s.bufs| && s.bufs[i].refcnt == 0
    case BLock(t, i) => i < |s.bufs| && (t, i) in s.refs && s.bufs[i].owner == None
    case BFill(t, i) =>
      i < |s.bufs| && s.bufs[i].owner == Some(t) && !s.bufs[i].valid && s.bufs[i].blockno < |s.disk|
    case BUnlock(t, i) => Holds(s.bufs, t, i) && i !in s.dirty
    case BDrop(t, i) =>
      i < |s.bufs| && (t, i) in s.refs && s.bufs[i].owner != Some(t) && s.bufs[i].refcnt > 0
    case Modify(c, i, data) => Holds(s.bufs, Client(c), i) && c in s.g.ops
    case LogWrite(c, i) =>
      Holds(s.bufs, Client(c), i) && c in s.g.ops && !A.LogWritePanics(s.g, lay.nlog)
    case BeginOp(c) => s.pc.Idle? && c !in s.g.ops && A.CanBegin(s.g)
    case EndOp(c) =>
      && s.pc.Idle? && c in s.g.ops && s.g.outstanding >= 1
      && (forall i :: 0 <= i < |s.bufs| && i in s.dirty ==> s.bufs[i].owner != Some(Client(c)))
    case WriteLogBlock(to, from) =>
      && s.pc.Logging? && s.pc.tail < |s.g.lh|
      && Holds(s.bufs, Committer, to) && Caches(s.bufs, to, lay.start + 1 + s.pc.tail)
      && Holds(s.bufs, Committer, from) && Caches(s.bufs, from, s.g.lh[s.pc.tail])
      && lay.start + 1 + s.pc.tail < |s.disk|
    case WriteHead(i) =>
      && s.pc == Logging(|s.g.lh|) && |s.g.lh| <= LOGSIZE
      && Holds(s.bufs, Committer, i) && Caches(s.bufs, i, lay.start) && lay.start < |s.disk|
      && (forall k :: 0 <= k < |s.g.lh| ==> s.g.lh[k] < 0x1_0000_0000)
    case InstallBlock(from, to) =>
      && (s.pc.Installing? || s.pc.Recovering?) && s.pc.tail < |s.g.lh|
      && Holds(s.bufs, Committer, from) && Caches(s.bufs, from, lay.start + 1 + s.pc.tail)
      && Holds(s.bufs, Committer, to) && Caches(s.bufs, to, s.g.lh[s.pc.tail])
      && s.bufs[to].refcnt > 0 && s.g.lh[s.pc.tail] < |s.disk|
    case EraseHead(i) =>
      && (s.pc == Installing(|s.g.lh|) || s.pc == Recovering(|s.g.lh|))
      && Holds(s.bufs, Committer, i) && Caches(s.bufs, i, lay.start) && lay.start < |s.disk|
    case FinishCommit => s.pc.Done?
    case ReadHead(i) =>
      s.pc.Boot? && Holds(s.bufs, Committer, i) && Caches(s.bufs, i, lay.start) && HeaderOk(s.bufs[i].data)
    case Crash => true
  }

  /** A buffer's contents replaced by `data`, which is also written to its block. */
  function PutBlock(s: State, i: nat, data: Block): State
    requires i < |s.bufs| && s.bufs[i].blockno < |s.disk|
  {
    s.(disk := s.disk[s.bufs[i].blockno := data], bufs := s.bufs[i := s.bufs[i].(data := data)])
  }

  function Pin(bufs: seq<Buf>, i: nat, delta: int): seq<Buf>
    requires i < |bufs| && bufs[i].refcnt + delta >= 0
  {
    bufs[i := bufs[i].(refcnt := bufs[i].refcnt + delta)]
  }

  const EmptyBuf := Buf(0, 0, false, 0, None, ZeroBlock())

  function Booted(disk: Disk): State {
    State(disk, seq(NBUF, _ => EmptyBuf), {}, {}, A.Fresh, Boot)
  }

  function Next(s: State, st: Step, lay: Layout): (r: State)
    requires Enabled(s, st, lay)
  {
    match st
    case BGetHit(t, i, b) => s.(bufs := Pin(s.bufs, i, 1), refs := s.refs + {(t, i)})
    case BGetMiss(t, i, b) =>
      s.(bufs := s.bufs[i := s.bufs[i].(dev := ROOTDEV, blockno := b, valid := false, refcnt := 1)],
         refs := s.refs + {(t, i)})
    case BLock(t, i) => s.(bufs := s.bufs[i := s.bufs[i].(owner := Some(t))])
    case BFill(t, i) =>
      s.(bufs := s.bufs[i := s.bufs[i].(valid := true, data := s.disk[s.bufs[i].blockno])])
    case BUnlock(t, i) => s.(bufs := s.bufs[i := s.bufs[i].(owner := None)])
    case BDrop(t, i) => s.(bufs := Pin(s.bufs, i, -1), refs := s.refs - {(t, i)})
    case Modify(c, i, data) =>
      s.(bufs := s.bufs[i := s.bufs[i].(data := data)], dirty := s.dirty + {i})
    case LogWrite(c, i) =>
      var b := s.bufs[i].blockno;
      s.(g := A.Next(s.g, A.Log(c, b)), dirty := s.dirty - {i},
         bufs := if b in s.g.lh then s.bufs else Pin(s.bufs, i, 1))
    case BeginOp(c) => s.(g := A.Next(s.g, A.Begin(c)))
    case EndOp(c) =>
      var g := A.Next(s.g, A.End(c));
      s.(g := g, pc := if !g.committing then Idle else if |g.lh| > 0 then Logging(0) else Done)
    case WriteLogBlock(to, from) =>
      PutBlock(s, to, s.bufs[from].data).(pc := Logging(s.pc.tail + 1))
    case WriteHead(i) => PutBlock(s, i, StoreHeader(s.bufs[i].data, s.g.lh)).(pc := Installing(0))
    case InstallBlock(from, to) =>
      var s1 := PutBlock(s, to, s.bufs[from].data);
      if s.pc.Recovering? then s1.(pc := Recovering(s.pc.tail + 1))
      else s1.(bufs := Pin(s1.bufs, to, -1), pc := Installing(s.pc.tail + 1))
    case EraseHead(i) =>
      PutBlock(s, i, StoreHeader(s.bufs[i].data, []))
        .(g := s.g.(lh := []), pc := if s.pc.Recovering? then Idle else Done)
    case FinishCommit => s.(g := A.Next(s.g, A.Committed), pc := Idle)
    case ReadHead(i) => s.(g := s.g.(lh := Header(s.bufs[i].data)), pc := Recovering(0))
    case Crash => Booted(s.disk)
  }

  // ---- the specification: a list of logged writes of which a prefix is durable ----

  /** A logged write; its operation is named by the boot it ran in and its number in that boot. */
  datatype Entry = Entry(op: (nat, nat), blockno: nat, data: Block)

  /** `base` is the file system at first boot. The writes `hist[..durable]` survive any crash. */
  datatype Spec = Spec(base: Disk, hist: seq<Entry>, durable: nat, boots: nat)

  function Replay(base: Disk, hist: seq<Entry>): (d: Disk)
    ensures |d| == |base|
  {
    if hist == [] then base
    else
      var e := hist[|hist| - 1];
      var d := Replay(base, hist[..|hist| - 1]);
      if e.blockno < |d| then d[e.blockno := e.data] else d
  }

  ghost function Latest(a: Spec): Disk {
    Replay(a.base, a.hist)
  }

  ghost function Committed(a: Spec): Disk
    requires a.durable <= |a.hist|
  {
    Replay(a.base, a.hist[..a.durable])
  }

  /** Only log_write, the header write and a crash are visible. */
  ghost function SpecNext(a: Spec, s: State, st: Step, lay: Layout): Spec
    requires Enabled(s, st, lay) && a.durable <= |a.hist|
  {
    match st
    case LogWrite(c, i) =>
      a.(hist := a.hist + [Entry((a.boots, s.g.ops[c].id), s.bufs[i].blockno, s.bufs[i].data)])
    case WriteHead(i) => a.(durable := |a.hist|)
    case Crash => a.(hist := a.hist[..a.durable], boots := a.boots + 1)
    case _ => a
  }

  // ---- the invariant ----

  ghost function RefsTo(refs: set<(Tid, nat)>, i: nat): set<(Tid, nat)> {
    set r | r in refs && r.1 == i
  }

  ghost function Elems(lh: seq<nat>): set<nat> {
    set b | b in lh
  }

  /** Blocks whose home copy is not the latest one. */
  ghost function Unwritten(disk: Disk, lh: seq<nat>, pc: Pc, lay: Layout): set<nat> {
    match pc
    case Boot =>
      if lay.start < |disk| && HeaderOk(disk[lay.start]) then Elems(Header(disk[lay.start])) else {}
    case Installing(tail) => if tail <= |lh| then Elems(lh[tail..]) else {}
    case Recovering(tail) => if tail <= |lh| then Elems(lh[tail..]) else {}
    case _ => Elems(lh)
  }

  /** Blocks log_write has pinned in the cache and install_trans has not yet unpinned. */
  ghost function Pinned(lh: seq<nat>, pc: Pc): set<nat> {
    match pc
    case Boot => {}
    case Recovering(_) => {}
    case Installing(tail) => if tail <= |lh| then Elems(lh[tail..]) else {}
    case _ => Elems(lh)
  }

  /** Every block of the root device has at most one buffer. */
  ghost predicate OneBuffer(bufs: seq<Buf>, lay: Layout) {
    && |bufs| == NBUF
    && (forall i :: 0 <= i < |bufs| && bufs[i].dev == ROOTDEV ==> bufs[i].blockno < lay.size)
    && (forall i, j :: 0 <= i < j < |bufs| && bufs[i].dev == ROOTDEV && bufs[j].dev == ROOTDEV ==>
          bufs[i].blockno != bufs[j].blockno)
  }

  ghost predicate RefsCounted(bufs: seq<Buf>, refs: set<(Tid, nat)>, pinned: set<nat>) {
    forall i :: 0 <= i < |bufs| ==>
      bufs[i].refcnt == |RefsTo(refs, i)|
                      + (if bufs[i].dev == ROOTDEV && bufs[i].blockno in pinned then 1 else 0)
  }

  ghost predicate LocksHeld(bufs: seq<Buf>, refs: set<(Tid, nat)>, lay: Layout) {
    && (forall i :: 0 <= i < |bufs| && bufs[i].owner.Some? ==> (bufs[i].owner.value, i) in refs)
    && (forall t, i :: (t, i) in refs ==>
          i < |bufs| && bufs[i].dev == ROOTDEV && (t.Client? ==> lay.Home(bufs[i].blockno)))
  }

  ghost predicate DirtyOwned(bufs: seq<Buf>, dirty: set<nat>, ops: map<nat, A.Op>) {
    forall i :: i in dirty ==>
      && i < |bufs| && bufs[i].valid && bufs[i].owner.Some?
      && bufs[i].owner.value.Client? && bufs[i].owner.value.id in ops
  }

  ghost predicate PinnedCached(bufs: seq<Buf>, pinned: set<nat>) {
    forall b :: b in pinned ==> exists i: nat :: Caches(bufs, i, b) && bufs[i].valid
  }

  ghost predicate LogBufsClean(bufs: seq<Buf>, disk: Disk, lay: Layout) {
    forall i :: 0 <= i < |bufs| && bufs[i].dev == ROOTDEV && bufs[i].valid && lay.InLog(bufs[i].blockno) ==>
      bufs[i].blockno < |disk| && bufs[i].data == disk[bufs[i].blockno]
  }

  ghost predicate Clean(buf: Buf, stale: set<nat>, lay: Layout) {
    buf.dev == ROOTDEV && buf.valid && lay.Home(buf.blockno) && buf.blockno !in stale
  }

  /** A cached home block that nobody is in the middle of changing holds its latest contents;
      during recovery that is promised only of blocks already installed. */
  ghost predicate HomeBufsLatest(bufs: seq<Buf>, dirty: set<nat>, stale: set<nat>, latest: Disk, lay: Layout) {
    forall i :: 0 <= i < |bufs| && i !in dirty && Clean(bufs[i], stale, lay) ==>
      bufs[i].blockno < |latest| && bufs[i].data == latest[bufs[i].blockno]
  }

  ghost predicate HomesLatest(disk: Disk, unwritten: set<nat>, latest: Disk, lay: Layout) {
    forall b {:trigger lay.Home(b)} :: 0 <= b < lay.size && lay.Home(b) && b !in unwritten ==>
      b < |disk| && b < |latest| && disk[b] == latest[b]
  }

  ghost predicate LogHolds(disk: Disk, lh: seq<nat>, k: nat, latest: Disk, lay: Layout) {
    forall j :: 0 <= j < k && j < |lh| ==>
      lay.start + 1 + j < |disk| && lh[j] < |latest| && disk[lay.start + 1 + j] == latest[lh[j]]
  }

  /** The header names `lh` and the log holds the latest contents of all of it. */
  ghost predicate Replayable(disk: Disk, lh: seq<nat>, latest: Disk, lay: Layout) {
    LogOk(disk, lay) && Header(disk[lay.start]) == lh && LogHolds(disk, lh, |lh|, latest, lay)
  }

  /** The log is empty and the home blocks are the committed ones: nothing uncommitted reached them. */
  ghost predicate Untouched(disk: Disk, committed: Disk, lay: Layout) {
    LogOk(disk, lay) && Header(disk[lay.start]) == [] && SameHome(disk, committed, lay)
  }

  /** What the disk alone promises, phase by phase. */
  ghost predicate OnDisk(disk: Disk, lh: seq<nat>, pc: Pc, latest: Disk, committed: Disk, lay: Layout) {
    && LogOk(disk, lay)
    && lay.Fits(lh)
    && match pc
       case Idle => Untouched(disk, committed, lay)
       case Logging(tail) => tail <= |lh| && Untouched(disk, committed, lay) && LogHolds(disk, lh, tail, latest, lay)
       case Installing(tail) => tail <= |lh| && Replayable(disk, lh, latest, lay) && SameHome(latest, committed, lay)
       case Done => lh == [] && Untouched(disk, committed, lay) && SameHome(latest, committed, lay)
       case Boot => lh == [] && Replayable(disk, Header(disk[lay.start]), latest, lay) &&
           SameHome(latest, committed, lay)
       case Recovering(tail) => tail <= |lh| && Replayable(disk, lh, latest, lay) && SameHome(latest, committed, lay)
  }

  ghost predicate GateOk(g: A.Gate, pc: Pc) {
    && g.outstanding == |g.ops|
    && (g.committing <==> pc.Logging? || pc.Installing? || pc.Done?)
    && (!pc.Idle? ==> g.ops == map[])
    && (forall c :: c in g.ops ==> g.ops[c].id < g.nextId)
  }

  ghost predicate Inv(s: State, a: Spec, lay: Layout) {
    && lay.Valid() && |a.base| == lay.size && a.durable <= |a.hist|
    && InvAt(s, Latest(a), Committed(a), lay)
    && WholeOps(a, s.g)
  }

  /** No operation has some of its writes durable and others not, and a durable operation has
      already called end_op. */
  ghost predicate WholeOps(a: Spec, g: A.Gate)
    requires a.durable <= |a.hist|
  {
    && (forall i :: 0 <= i < |a.hist| ==>
          a.hist[i].op.0 < a.boots || (a.hist[i].op.0 == a.boots && a.hist[i].op.1 < g.nextId))
    && (forall i, j :: 0 <= i < a.durable <= j < |a.hist| ==> a.hist[i].op != a.hist[j].op)
    && (forall i, c :: 0 <= i < a.durable && c in g.ops ==> a.hist[i].op != (a.boots, g.ops[c].id))
  }

  ghost predicate InvAt(s: State, latest: Disk, committed: Disk, lay: Layout) {
    var pinned := Pinned(s.g.lh, s.pc);
    var unwritten := Unwritten(s.disk, s.g.lh, s.pc, lay);
    && |latest| == |committed| == lay.size
    && OneBuffer(s.bufs, lay)
    && RefsCounted(s.bufs, s.refs, pinned)
    && LocksHeld(s.bufs, s.refs, lay)
    && DirtyOwned(s.bufs, s.dirty, s.g.ops)
    && PinnedCached(s.bufs, pinned)
    && LogBufsClean(s.bufs, s.disk, lay)
    && HomeBufsLatest(s.bufs, s.dirty, if Booting(s.pc) then unwritten else {}, latest, lay)
    && HomesLatest(s.disk, unwritten, latest, lay)
    && OnDisk(s.disk, s.g.lh, s.pc, latest, committed, lay)
    && GateOk(s.g, s.pc)
    && (Booting(s.pc) ==> forall t, i :: (t, i) in s.refs ==> t == Committer)
  }

  // ---- cache steps ----

  lemma RefsAdd(refs: set<(Tid, nat)>, t: Tid, i: nat, j: nat)
    requires (t, i) !in refs
    ensures |RefsTo(refs + {(t, i)}, j)| == |RefsTo(refs, j)| + (if j == i then 1 else 0)
  {
    if j == i {
      assert RefsTo(refs + {(t, i)}, i) == RefsTo(refs, i) + {(t, i)};
    } else {
      assert RefsTo(refs + {(t, i)}, j) == RefsTo(refs, j);
    }
  }

  lemma CountedAfterGet(bufs: seq<Buf>, refs: set<(Tid, nat)>, pinned: set<nat>, t: Tid, i: nat)
    requires RefsCounted(bufs, refs, pinned) && i < |bufs| && (t, i) !in refs
    ensures RefsCounted(Pin(bufs, i, 1), refs + {(t, i)}, pinned)
  {
    forall j ensures |RefsTo(refs + {(t, i)}, j)| == |RefsTo(refs, j)| + (if j == i then 1 else 0) {
      RefsAdd(refs, t, i, j);
    }
  }

  lemma GetHitKeeps(s: State, t: Tid, i: nat, b: nat, latest: Disk, committed: Disk, lay: Layout)
    requires lay.Valid() && InvAt(s, latest, committed, lay) && Enabled(s, BGetHit(t, i, b), lay)
    ensures InvAt(Next(s, BGetHit(t, i, b), lay), latest, committed, lay)
  {
    hide RefsCounted, OnDisk, GateOk, HomesLatest;
    var s' := Next(s, BGetHit(t, i, b), lay);
    CountedAfterGet(s.bufs, s.refs, Pinned(s.g.lh, s.pc), t, i);
    assert forall i: nat, b :: Caches(s.bufs, i, b) ==> Caches(s'.bufs, i, b);
  }

  lemma CountedAfterDrop(bufs: seq<Buf>, refs: set<(Tid, nat)>, pinned: set<nat>, t: Tid, i: nat)
    requires RefsCounted(bufs, refs, pinned) && i < |bufs| && (t, i) in refs && bufs[i].refcnt > 0
    ensures RefsCounted(Pin(bufs, i, -1), refs - {(t, i)}, pinned)
  {
    var rest := refs - {(t, i)};
    assert rest + {(t, i)} == refs;
    forall j ensures |RefsTo(refs, j)| == |RefsTo(rest, j)| + (if j == i then 1 else 0) {
      RefsAdd(rest, t, i, j);
    }
  }

  /** A slot with no references is unpinned, unlocked and clean, so it can be recycled. */
  lemma VictimIsFree(s: State, i: nat, latest: Disk, committed: Disk, lay: Layout)
    requires lay.Valid() && InvAt(s, latest, committed, lay) && i < |s.bufs| && s.bufs[i].refcnt == 0
    ensures RefsTo(s.refs, i) == {} && s.bufs[i].owner == None && i !in s.dirty
    ensures s.bufs[i].dev == ROOTDEV ==> s.bufs[i].blockno !in Pinned(s.g.lh, s.pc)
    ensures forall t :: (t, i) !in s.refs
  {
    hide OnDisk, GateOk, HomesLatest, HomeBufsLatest, LogBufsClean, PinnedCached, OneBuffer;
    assert RefsTo(s.refs, i) == {};
    assert forall t :: (t, i) in s.refs ==> (t, i) in RefsTo(s.refs, i);
  }

  lemma CountedAfterRecycle(bufs: seq<Buf>, refs: set<(Tid, nat)>, pinned: set<nat>, t: Tid, i: nat, b: nat, buf: Buf)
    requires RefsCounted(bufs, refs, pinned) && i < |bufs| && RefsTo(refs, i) == {} && (t, i) !in refs
    requires buf.refcnt == 1 && buf.blockno !in pinned
    ensures RefsCounted(bufs[i := buf], refs + {(t, i)}, pinned)
  {
    forall j ensures |RefsTo(refs + {(t, i)}, j)| == |RefsTo(refs, j)| + (if j == i then 1 else 0) {
      RefsAdd(refs, t, i, j);
    }
  }

  lemma PinnedSurvive(bufs: seq<Buf>, pinned: set<nat>, i: nat, b: nat, buf: Buf)
    requires PinnedCached(bufs, pinned) && i < |bufs|
    requires forall j :: 0 <= j < |bufs| ==> !Caches(bufs, j, b)
    requires bufs[i].dev == ROOTDEV ==> bufs[i].blockno !in pinned
    ensures PinnedCached(bufs[i := buf], pinned) && b !in pinned
  {
    var after := bufs[i := buf];
    forall p | p in pinned ensures exists j: nat :: Caches(after, j, p) && after[j].valid {
      var j: nat :| Caches(bufs, j, p) && bufs[j].valid;
      assert Caches(after, j, p);
    }
  }

  lemma RecycleKeepsBufs(s: State, t: Tid, i: nat, b: nat, latest: Disk, committed: Disk, lay: Layout)
    requires lay.Valid() && InvAt(s, latest, committed, lay) && Enabled(s, BGetMiss(t, i, b), lay)
    requires i !in s.dirty
    ensures var s' := Next(s, BGetMiss(t, i, b), lay);
            && OneBuffer(s'.bufs, lay) && LogBufsClean(s'.bufs, s'.disk, lay)
            && HomeBufsLatest(s'.bufs, s.dirty,
                 if Booting(s.pc) then Unwritten(s.disk, s.g.lh, s.pc, lay) else {}, latest, lay)
            && DirtyOwned(s'.bufs, s.dirty, s.g.ops)
  {
    hide RefsCounted, LocksHeld, PinnedCached, OnDisk, GateOk, HomesLatest;
    forall j | 0 <= j < |s.bufs| ensures !(s.bufs[j].dev == ROOTDEV && s.bufs[j].blockno == b) {
      assert !Caches(s.bufs, j, b);
    }
  }

  lemma GetMissKeeps(s: State, t: Tid, i: nat, b: nat, latest: Disk, committed: Disk, lay: Layout)
    requires lay.Valid() && InvAt(s, latest, committed, lay) && Enabled(s, BGetMiss(t, i, b), lay)
    ensures InvAt(Next(s, BGetMiss(t, i, b), lay), latest, committed, lay)
  {
    var s' := Next(s, BGetMiss(t, i, b), lay);
    VictimIsFree(s, i, latest, committed, lay);
    RecycleKeepsBufs(s, t, i, b, latest, committed, lay);
    hide RefsCounted, OnDisk, GateOk, HomesLatest, PinnedCached, OneBuffer, LogBufsClean, HomeBufsLatest, DirtyOwned;
    var pinned := Pinned(s.g.lh, s.pc);
    PinnedSurvive(s.bufs, pinned, i, b, s'.bufs[i]);
    CountedAfterRecycle(s.bufs, s.refs, pinned, t, i, b, s'.bufs[i]);
  }

  lemma OwnerIrrelevant(s: State, i: nat, owner: Option<Tid>, latest: Disk, committed: Disk, lay: Layout)
    requires InvAt(s, latest, committed, lay) && i < |s.bufs|
    ensures var bufs := s.bufs[i := s.bufs[i].(owner := owner)];
            && OneBuffer(bufs, lay) && RefsCounted(bufs, s.refs, Pinned(s.g.lh, s.pc))
            && PinnedCached(bufs, Pinned(s.g.lh, s.pc)) && LogBufsClean(bufs, s.disk, lay)
            && HomeBufsLatest(bufs, s.dirty,
                 if Booting(s.pc) then Unwritten(s.disk, s.g.lh, s.pc, lay) else {}, latest, lay)
  {
    hide OnDisk, GateOk, HomesLatest, LocksHeld, DirtyOwned;
    var bufs := s.bufs[i := s.bufs[i].(owner := owner)];
    assert forall j: nat, b :: Caches(s.bufs, j, b) ==> Caches(bufs, j, b);
  }

  lemma LockKeeps(s: State, t: Tid, i: nat, latest: Disk, committed: Disk, lay: Layout)
    requires lay.Valid() && InvAt(s, latest, committed, lay) && Enabled(s, BLock(t, i), lay)
    ensures InvAt(Next(s, BLock(t, i), lay), latest, committed, lay)
  {
    OwnerIrrelevant(s, i, Next(s, BLock(t, i), lay).bufs[i].owner, latest, committed, lay);
    hide OnDisk, GateOk, HomesLatest, OneBuffer, RefsCounted, PinnedCached, LogBufsClean, HomeBufsLatest;
  }

  lemma UnlockKeeps(s: State, t: Tid, i: nat, latest: Disk, committed: Disk, lay: Layout)
    requires lay.Valid() && InvAt(s, latest, committed, lay) && Enabled(s, BUnlock(t, i), lay)
    ensures InvAt(Next(s, BUnlock(t, i), lay), latest, committed, lay)
  {
    OwnerIrrelevant(s, i, Next(s, BUnlock(t, i), lay).bufs[i].owner, latest, committed, lay);
    hide OnDisk, GateOk, HomesLatest, OneBuffer, RefsCounted, PinnedCached, LogBufsClean, HomeBufsLatest;
  }

  lemma DropKeeps(s: State, t: Tid, i: nat, latest: Disk, committed: Disk, lay: Layout)
    requires lay.Valid() && InvAt(s, latest, committed, lay) && Enabled(s, BDrop(t, i), lay)
    ensures InvAt(Next(s, BDrop(t, i), lay), latest, committed, lay)
  {
    hide RefsCounted, OnDisk, GateOk, HomesLatest;
    var s' := Next(s, BDrop(t, i), lay);
    CountedAfterDrop(s.bufs, s.refs, Pinned(s.g.lh, s.pc), t, i);
    assert forall i: nat, b :: Caches(s.bufs, i, b) ==> Caches(s'.bufs, i, b);
  }

  /** Reading a block from disk gives its latest contents: an unwritten one would still be pinned. */
  lemma FillKeeps(s: State, t: Tid, i: nat, latest: Disk, committed: Disk, lay: Layout)
    requires lay.Valid() && InvAt(s, latest, committed, lay) && Enabled(s, BFill(t, i), lay)
    ensures InvAt(Next(s, BFill(t, i), lay), latest, committed, lay)
  {
    hide OnDisk, GateOk, RefsCounted;
    var b := s.bufs[i].blockno;
    assert s.bufs[i].dev == ROOTDEV;
    assert b !in Pinned(s.g.lh, s.pc);
    FillCounted(s.bufs, s.refs, Pinned(s.g.lh, s.pc), i, s.disk[b]);
    hide PinnedCached;
  }

  lemma FillCounted(bufs: seq<Buf>, refs: set<(Tid, nat)>, pinned: set<nat>, i: nat, data: Block)
    requires i < |bufs| && RefsCounted(bufs, refs, pinned) && PinnedCached(bufs, pinned)
    ensures var bufs' := bufs[i := bufs[i].(valid := true, data := data)];
            RefsCounted(bufs', refs, pinned) && PinnedCached(bufs', pinned)
  {
    var bufs' := bufs[i := bufs[i].(valid := true, data := data)];
    assert forall j: nat, b :: Caches(bufs, j, b) ==> Caches(bufs', j, b);
  }

  // ---- operation steps ----

  lemma DataIrrelevant(s: State, i: nat, data: Block, latest: Disk, committed: Disk, lay: Layout)
    requires InvAt(s, latest, committed, lay) && i < |s.bufs|
    ensures var bufs := s.bufs[i := s.bufs[i].(data := data)];
            && OneBuffer(bufs, lay) && RefsCounted(bufs, s.refs, Pinned(s.g.lh, s.pc))
            && LocksHeld(bufs, s.refs, lay) && DirtyOwned(bufs, s.dirty, s.g.ops)
            && PinnedCached(bufs, Pinned(s.g.lh, s.pc))
  {
    hide OnDisk, GateOk, HomesLatest, LogBufsClean, HomeBufsLatest;
    var bufs := s.bufs[i := s.bufs[i].(data := data)];
    assert forall j: nat, b :: Caches(s.bufs, j, b) ==> Caches(bufs, j, b);
  }

  lemma ModifyKeeps(s: State, c: nat, i: nat, data: Block, latest: Disk, committed: Disk, lay: Layout)
    requires lay.Valid() && InvAt(s, latest, committed, lay) && Enabled(s, Modify(c, i, data), lay)
    ensures InvAt(Next(s, Modify(c, i, data), lay), latest, committed, lay)
  {
    DataIrrelevant(s, i, data, latest, committed, lay);
    hide OnDisk, GateOk, HomesLatest, PinnedCached, RefsCounted, OneBuffer;
    assert (Client(c), i) in s.refs;
  }

  lemma BeginKeeps(s: State, c: nat, latest: Disk, committed: Disk, lay: Layout)
    requires lay.Valid() && InvAt(s, latest, committed, lay) && Enabled(s, BeginOp(c), lay)
    ensures InvAt(Next(s, BeginOp(c), lay), latest, committed, lay)
  {
    hide OnDisk, HomesLatest, RefsCounted, LocksHeld, PinnedCached, LogBufsClean, HomeBufsLatest;
    assert s.g.ops[c := A.Op(s.g.nextId, 0)].Keys == s.g.ops.Keys + {c};
  }

  lemma EndKeeps(s: State, c: nat, latest: Disk, committed: Disk, lay: Layout)
    requires lay.Valid() && InvAt(s, latest, committed, lay) && Enabled(s, EndOp(c), lay)
    ensures InvAt(Next(s, EndOp(c), lay), latest, committed, lay)
  {
    hide RefsCounted, LocksHeld, PinnedCached, LogBufsClean, HomeBufsLatest, OneBuffer, DirtyOwned;
    EndDirty(s.bufs, s.dirty, s.g.ops, c);
    assert |s.g.ops - {c}| == |s.g.ops| - 1;
  }

  lemma EndDirty(bufs: seq<Buf>, dirty: set<nat>, ops: map<nat, A.Op>, c: nat)
    requires DirtyOwned(bufs, dirty, ops)
    requires forall i :: 0 <= i < |bufs| && i in dirty ==> bufs[i].owner != Some(Client(c))
    ensures DirtyOwned(bufs, dirty, ops - {c})
  {
  }

  lemma CountedAfterPin(bufs: seq<Buf>, refs: set<(Tid, nat)>, pinned: set<nat>, i: nat, b: nat, lay: Layout)
    requires RefsCounted(bufs, refs, pinned) && OneBuffer(bufs, lay) && Caches(bufs, i, b) && b !in pinned
    ensures RefsCounted(Pin(bufs, i, 1), refs, pinned + {b})
  {
  }

  lemma CountedAfterUnpin(bufs: seq<Buf>, refs: set<(Tid, nat)>, pinned: set<nat>, i: nat, b: nat, lay: Layout)
    requires RefsCounted(bufs, refs, pinned + {b}) && OneBuffer(bufs, lay) && Caches(bufs, i, b) && b !in pinned
    requires bufs[i].refcnt > 0
    ensures RefsCounted(Pin(bufs, i, -1), refs, pinned)
  {
  }

  lemma ElemsAbsorb(lh: seq<nat>, b: nat)
    ensures Elems(A.Absorb(lh, b)) == Elems(lh) + {b}
  {
  }

  lemma LogWritePins(s: State, c: nat, i: nat, latest: Disk, committed: Disk, lay: Layout)
    requires lay.Valid() && InvAt(s, latest, committed, lay) && Enabled(s, LogWrite(c, i), lay)
    ensures s.pc.Idle? && lay.Home(s.bufs[i].blockno)
    ensures var s' := Next(s, LogWrite(c, i), lay);
            && OneBuffer(s'.bufs, lay) && LocksHeld(s'.bufs, s'.refs, lay) && LogBufsClean(s'.bufs, s'.disk, lay)
            && RefsCounted(s'.bufs, s'.refs, Elems(s'.g.lh)) && PinnedCached(s'.bufs, Elems(s'.g.lh))
  {
    hide HomesLatest, HomeBufsLatest, OnDisk, DirtyOwned;
    var s' := Next(s, LogWrite(c, i), lay);
    var b := s.bufs[i].blockno;
    assert (Client(c), i) in s.refs;
    ElemsAbsorb(s.g.lh, b);
    assert Caches(s.bufs, i, b);
    if b !in s.g.lh {
      CountedAfterPin(s.bufs, s.refs, Elems(s.g.lh), i, b, lay);
    } else {
      assert Elems(s.g.lh) + {b} == Elems(s.g.lh);
    }
    hide RefsCounted;
    assert forall j: nat, p :: Caches(s.bufs, j, p) ==> Caches(s'.bufs, j, p);
  }

  lemma GateLogs(g: A.Gate, c: nat, b: nat)
    requires GateOk(g, Idle) && c in g.ops
    ensures GateOk(A.Next(g, A.Log(c, b)), Idle)
  {
    var op := g.ops[c].(used := g.ops[c].used + 1);
    assert g.ops[c := op].Keys == g.ops.Keys;
  }

  lemma OnDiskLogs(disk: Disk, lh: seq<nat>, b: nat, data: Block, latest: Disk, committed: Disk, lay: Layout)
    requires OnDisk(disk, lh, Idle, latest, committed, lay) && HomesLatest(disk, Elems(lh), latest, lay)
    requires lay.Home(b) && |lh| < LOGSIZE && |lh| < lay.nlog - 1 && |latest| == lay.size
    ensures OnDisk(disk, A.Absorb(lh, b), Idle, latest[b := data], committed, lay)
    ensures HomesLatest(disk, Elems(A.Absorb(lh, b)), latest[b := data], lay)
  {
    ElemsAbsorb(lh, b);
  }

  lemma LogWriteCleans(s: State, c: nat, i: nat, latest: Disk, committed: Disk, lay: Layout)
    requires lay.Valid() && InvAt(s, latest, committed, lay) && Enabled(s, LogWrite(c, i), lay)
    requires s.pc.Idle? && lay.Home(s.bufs[i].blockno)
    ensures var s' := Next(s, LogWrite(c, i), lay);
            && HomeBufsLatest(s'.bufs, s'.dirty, {}, latest[s.bufs[i].blockno := s.bufs[i].data], lay)
            && DirtyOwned(s'.bufs, s'.dirty, s'.g.ops)
  {
    hide RefsCounted, LogBufsClean, PinnedCached, HomesLatest, OnDisk, GateOk;
    assert (Client(c), i) in s.refs;
    hide LocksHeld;
  }

  /** log_write: the buffer's contents become the latest ones and the block stays pinned. */
  lemma LogWriteKeeps(s: State, c: nat, i: nat, latest: Disk, committed: Disk, lay: Layout)
    requires lay.Valid() && InvAt(s, latest, committed, lay) && Enabled(s, LogWrite(c, i), lay)
    ensures s.bufs[i].blockno < |latest| && lay.Home(s.bufs[i].blockno)
    ensures InvAt(Next(s, LogWrite(c, i), lay), latest[s.bufs[i].blockno := s.bufs[i].data], committed, lay)
  {
    LogWritePins(s, c, i, latest, committed, lay);
    LogWriteCleans(s, c, i, latest, committed, lay);
    hide OneBuffer, RefsCounted, LogBufsClean, PinnedCached, HomesLatest, HomeBufsLatest, DirtyOwned, OnDisk, LocksHeld;
    assert !A.LogWritePanics(s.g, lay.nlog);
    GateLogs(s.g, c, s.bufs[i].blockno);
    hide GateOk;
    OnDiskLogs(s.disk, s.g.lh, s.bufs[i].blockno, s.bufs[i].data, latest, committed, lay);
  }

  // ---- commit and recovery steps ----

  /** Writing a block of the log area touches no home block and no home buffer. */
  lemma LogAreaPut(s: State, i: nat, data: Block, stale: set<nat>, latest: Disk, lay: Layout)
    requires lay.Valid() && |s.disk| == lay.size && OneBuffer(s.bufs, lay) && i < |s.bufs|
    requires s.bufs[i].dev == ROOTDEV && lay.InLog(s.bufs[i].blockno)
    requires LogBufsClean(s.bufs, s.disk, lay) && HomeBufsLatest(s.bufs, s.dirty, stale, latest, lay)
    ensures var s' := PutBlock(s, i, data);
            LogBufsClean(s'.bufs, s'.disk, lay) && HomeBufsLatest(s'.bufs, s.dirty, stale, latest, lay)
    ensures SameHome(s.disk, PutBlock(s, i, data).disk, lay)
  {
  }

  lemma HomesFollow(d: Disk, e: Disk, unwritten: set<nat>, latest: Disk, lay: Layout)
    requires SameHome(d, e, lay) && HomesLatest(d, unwritten, latest, lay)
    ensures HomesLatest(e, unwritten, latest, lay)
  {
  }

  /** The committing process reads the latest contents of the blocks it commits. */
  lemma CommitterReads(s: State, i: nat, latest: Disk, committed: Disk, lay: Layout)
    requires InvAt(s, latest, committed, lay) && !Booting(s.pc) && Holds(s.bufs, Committer, i)
    requires s.bufs[i].dev == ROOTDEV && lay.Home(s.bufs[i].blockno)
    ensures s.bufs[i].data == latest[s.bufs[i].blockno]
  {
    hide OneBuffer, RefsCounted, LocksHeld, PinnedCached, LogBufsClean, HomesLatest, OnDisk, GateOk;
    assert Clean(s.bufs[i], {}, lay);
  }

  lemma DiskShape(s: State, latest: Disk, committed: Disk, lay: Layout)
    requires InvAt(s, latest, committed, lay)
    ensures LogOk(s.disk, lay) && lay.Fits(s.g.lh)
  {
    hide OneBuffer, RefsCounted, LocksHeld, PinnedCached, LogBufsClean, HomesLatest, HomeBufsLatest, DirtyOwned;
  }

  lemma WriteLogOnDisk(disk: Disk, lh: seq<nat>, tail: nat, data: Block, latest: Disk, committed: Disk, lay: Layout)
    requires OnDisk(disk, lh, Logging(tail), latest, committed, lay) && tail < |lh|
    requires |latest| == lay.size && data == latest[lh[tail]]
    ensures OnDisk(disk[lay.start + 1 + tail := data], lh, Logging(tail + 1), latest, committed, lay)
  {
  }

  lemma WriteLogKeeps(s: State, to: nat, from: nat, latest: Disk, committed: Disk, lay: Layout)
    requires lay.Valid() && InvAt(s, latest, committed, lay) && Enabled(s, WriteLogBlock(to, from), lay)
    ensures InvAt(Next(s, WriteLogBlock(to, from), lay), latest, committed, lay)
  {
    hide OneBuffer, RefsCounted, LocksHeld, DirtyOwned, PinnedCached, LogBufsClean, HomeBufsLatest, HomesLatest, OnDisk;
    var data := s.bufs[from].data;
    DiskShape(s, latest, committed, lay);
    CommitterReads(s, from, latest, committed, lay);
    DataIrrelevant(s, to, data, latest, committed, lay);
    LogAreaPut(s, to, data, {}, latest, lay);
    HomesFollow(s.disk, PutBlock(s, to, data).disk, Elems(s.g.lh), latest, lay);
    WriteLogOnDisk(s.disk, s.g.lh, s.pc.tail, data, latest, committed, lay);
  }

  lemma ElemsFrom(lh: seq<nat>, tail: nat)
    requires tail < |lh|
    ensures Elems(lh[tail..]) == Elems(lh[tail + 1..]) + {lh[tail]}
  {
    assert lh[tail..] == [lh[tail]] + lh[tail + 1..];
  }

  lemma WriteHeadOnDisk(disk: Disk, lh: seq<nat>, head: Block, latest: Disk, committed: Disk, lay: Layout)
    requires OnDisk(disk, lh, Logging(|lh|), latest, committed, lay) && |latest| == lay.size
    requires HeaderOk(head) && Header(head) == lh
    ensures OnDisk(disk[lay.start := head], lh, Installing(0), latest, latest, lay)
  {
  }

  /** The commit point: from here on the latest contents are the committed ones. */
  lemma WriteHeadKeeps(s: State, i: nat, latest: Disk, committed: Disk, lay: Layout)
    requires lay.Valid() && InvAt(s, latest, committed, lay) && Enabled(s, WriteHead(i), lay)
    ensures InvAt(Next(s, WriteHead(i), lay), latest, latest, lay)
  {
    hide OneBuffer, RefsCounted, LocksHeld, DirtyOwned, PinnedCached, LogBufsClean, HomeBufsLatest, HomesLatest, OnDisk;
    DiskShape(s, latest, committed, lay);
    var head := StoreHeader(s.bufs[i].data, s.g.lh);
    DataIrrelevant(s, i, head, latest, committed, lay);
    LogAreaPut(s, i, head, {}, latest, lay);
    HomesFollow(s.disk, PutBlock(s, i, head).disk, Elems(s.g.lh), latest, lay);
    WriteHeadOnDisk(s.disk, s.g.lh, head, latest, committed, lay);
    assert s.g.lh[0..] == s.g.lh;
  }

  lemma EraseOnDisk(disk: Disk, lh: seq<nat>, pc: Pc, head: Block, latest: Disk, committed: Disk, lay: Layout)
    requires OnDisk(disk, lh, pc, latest, committed, lay) && (pc == Installing(|lh|) || pc == Recovering(|lh|))
    requires HomesLatest(disk, {}, latest, lay) && HeaderOk(head) && Header(head) == [] &&
        |latest| == |committed| == lay.size
    ensures OnDisk(disk[lay.start := head], [], Done, latest, committed, lay)
    ensures OnDisk(disk[lay.start := head], [], Idle, latest, committed, lay)
  {
  }

  lemma EraseKeeps(s: State, i: nat, latest: Disk, committed: Disk, lay: Layout)
    requires lay.Valid() && InvAt(s, latest, committed, lay) && Enabled(s, EraseHead(i), lay)
    ensures InvAt(Next(s, EraseHead(i), lay), latest, committed, lay)
  {
    hide OneBuffer, RefsCounted, LocksHeld, DirtyOwned, PinnedCached, LogBufsClean, HomeBufsLatest, HomesLatest, OnDisk;
    DiskShape(s, latest, committed, lay);
    assert Elems(s.g.lh[|s.g.lh|..]) == {};
    var head := StoreHeader(s.bufs[i].data, []);
    DataIrrelevant(s, i, head, latest, committed, lay);
    LogAreaPut(s, i, head, {}, latest, lay);
    HomesFollow(s.disk, PutBlock(s, i, head).disk, {}, latest, lay);
    EraseOnDisk(s.disk, s.g.lh, s.pc, head, latest, committed, lay);
    assert Elems([]) == {};
  }

  lemma InstallOnDisk(disk: Disk, lh: seq<nat>, tail: nat, latest: Disk, lay: Layout)
    requires lay.Fits(lh) && Replayable(disk, lh, latest, lay) && |latest| == lay.size
    requires tail < |lh| && HomesLatest(disk, Elems(lh[tail..]), latest, lay)
    ensures disk[lay.start + 1 + tail] == latest[lh[tail]]
    ensures var disk' := disk[lh[tail] := latest[lh[tail]]];
            Replayable(disk', lh, latest, lay) && HomesLatest(disk', Elems(lh[tail + 1..]), latest, lay)
  {
    ElemsFrom(lh, tail);
  }

  lemma InstallBufs(s: State, to: nat, data: Block, rest: set<nat>, latest: Disk, lay: Layout)
    requires |s.disk| == |latest| == lay.size && OneBuffer(s.bufs, lay) && to < |s.bufs|
    requires s.bufs[to].dev == ROOTDEV && lay.Home(s.bufs[to].blockno) && data == latest[s.bufs[to].blockno]
    requires LogBufsClean(s.bufs, s.disk, lay)
    requires HomeBufsLatest(s.bufs, s.dirty, rest + {s.bufs[to].blockno}, latest, lay)
          || HomeBufsLatest(s.bufs, s.dirty, rest, latest, lay)
    ensures var s' := PutBlock(s, to, data);
            LogBufsClean(s'.bufs, s'.disk, lay) && HomeBufsLatest(s'.bufs, s.dirty, rest, latest, lay)
  {
    forall i | 0 <= i < |s.bufs| && i != to && Clean(s.bufs[i], rest, lay)
      ensures Clean(s.bufs[i], rest + {s.bufs[to].blockno}, lay)
    {
      if i < to {} else {}
    }
  }

  lemma UnpinIrrelevant(s: State, i: nat, stale: set<nat>, latest: Disk, lay: Layout)
    requires i < |s.bufs| && s.bufs[i].refcnt > 0
    requires OneBuffer(s.bufs, lay) && LocksHeld(s.bufs, s.refs, lay) && DirtyOwned(s.bufs, s.dirty, s.g.ops)
    requires LogBufsClean(s.bufs, s.disk, lay) && HomeBufsLatest(s.bufs, s.dirty, stale, latest, lay)
    ensures var bufs := Pin(s.bufs, i, -1);
            && OneBuffer(bufs, lay) && LocksHeld(bufs, s.refs, lay) && DirtyOwned(bufs, s.dirty, s.g.ops)
            && LogBufsClean(bufs, s.disk, lay) && HomeBufsLatest(bufs, s.dirty, stale, latest, lay)
  {
  }

  lemma InstallCommon(s: State, from: nat, to: nat, latest: Disk, committed: Disk, lay: Layout)
    requires lay.Valid() && InvAt(s, latest, committed, lay) && Enabled(s, InstallBlock(from, to), lay)
    ensures var s1 := PutBlock(s, to, s.bufs[from].data);
            var rest := Elems(s.g.lh[s.pc.tail + 1..]);
            && OneBuffer(s1.bufs, lay) && RefsCounted(s1.bufs, s.refs, Pinned(s.g.lh, s.pc))
            && LocksHeld(s1.bufs, s.refs, lay) && DirtyOwned(s1.bufs, s.dirty, s.g.ops)
            && PinnedCached(s1.bufs, Pinned(s.g.lh, s.pc)) && LogBufsClean(s1.bufs, s1.disk, lay)
            && HomeBufsLatest(s1.bufs, s.dirty, if s.pc.Recovering? then rest else {}, latest, lay)
            && HomesLatest(s1.disk, rest, latest, lay) && s.g.lh[s.pc.tail] !in rest
            && OnDisk(s1.disk, s.g.lh, Next(s, InstallBlock(from, to), lay).pc, latest, committed, lay)
  {
    hide OneBuffer, RefsCounted, LocksHeld, DirtyOwned, PinnedCached, HomeBufsLatest, HomesLatest, Replayable;
    DiskShape(s, latest, committed, lay);
    var tail, lh := s.pc.tail, s.g.lh;
    var data := s.bufs[from].data;
    assert data == s.disk[lay.start + 1 + tail];
    hide LogBufsClean;
    ElemsFrom(lh, tail);
    InstallOnDisk(s.disk, lh, tail, latest, lay);
    DataIrrelevant(s, to, data, latest, committed, lay);
    InstallBufs(s, to, data, if s.pc.Recovering? then Elems(lh[tail + 1..]) else {}, latest, lay);
  }

  lemma InstallUnpins(bufs: seq<Buf>, refs: set<(Tid, nat)>, to: nat, lh: seq<nat>, tail: nat, lay: Layout)
    requires tail < |lh| && lh[tail] !in Elems(lh[tail + 1..])
    requires Caches(bufs, to, lh[tail]) && bufs[to].refcnt > 0 && OneBuffer(bufs, lay)
    requires RefsCounted(bufs, refs, Elems(lh[tail..])) && PinnedCached(bufs, Elems(lh[tail..]))
    ensures RefsCounted(Pin(bufs, to, -1), refs, Elems(lh[tail + 1..]))
    ensures PinnedCached(Pin(bufs, to, -1), Elems(lh[tail + 1..]))
  {
    hide RefsCounted, PinnedCached, OneBuffer;
    var rest := Elems(lh[tail + 1..]);
    ElemsFrom(lh, tail);
    CountedAfterUnpin(bufs, refs, rest, to, lh[tail], lay);
    PinnedUnpinned(bufs, to, Elems(lh[tail..]), rest);
  }

  lemma InstallKeeps(s: State, from: nat, to: nat, latest: Disk, committed: Disk, lay: Layout)
    requires lay.Valid() && InvAt(s, latest, committed, lay) && Enabled(s, InstallBlock(from, to), lay)
    ensures InvAt(Next(s, InstallBlock(from, to), lay), latest, committed, lay)
  {
    hide InvAt;
    if s.pc.Installing? {
      InstallingKeeps(s, from, to, latest, committed, lay);
    } else {
      RecoveringKeeps(s, from, to, latest, committed, lay);
    }
  }

  lemma RecoveringKeeps(s: State, from: nat, to: nat, latest: Disk, committed: Disk, lay: Layout)
    requires lay.Valid() && InvAt(s, latest, committed, lay) && Enabled(s, InstallBlock(from, to), lay) &&
        s.pc.Recovering?
    ensures InvAt(Next(s, InstallBlock(from, to), lay), latest, committed, lay)
  {
    hide OneBuffer, RefsCounted, LocksHeld, DirtyOwned, PinnedCached, HomeBufsLatest, HomesLatest, LogBufsClean, OnDisk;
    InstallCommon(s, from, to, latest, committed, lay);
  }

  lemma InstallingKeeps(s: State, from: nat, to: nat, latest: Disk, committed: Disk, lay: Layout)
    requires lay.Valid() && InvAt(s, latest, committed, lay) && Enabled(s, InstallBlock(from, to), lay) &&
        s.pc.Installing?
    ensures InvAt(Next(s, InstallBlock(from, to), lay), latest, committed, lay)
  {
    hide OneBuffer, RefsCounted, LocksHeld, DirtyOwned, PinnedCached, HomeBufsLatest, HomesLatest, LogBufsClean, OnDisk;
    InstallCommon(s, from, to, latest, committed, lay);
    var s1 := PutBlock(s, to, s.bufs[from].data);
    InstallUnpins(s1.bufs, s.refs, to, s.g.lh, s.pc.tail, lay);
    UnpinIrrelevant(s1, to, {}, latest, lay);
  }

  lemma PinnedUnpinned(bufs: seq<Buf>, i: nat, pinned: set<nat>, fewer: set<nat>)
    requires PinnedCached(bufs, pinned) && fewer <= pinned && i < |bufs| && bufs[i].refcnt > 0
    ensures PinnedCached(Pin(bufs, i, -1), fewer)
  {
    var after := Pin(bufs, i, -1);
    assert forall j: nat, b :: Caches(bufs, j, b) ==> Caches(after, j, b);
  }

  lemma FinishKeeps(s: State, latest: Disk, committed: Disk, lay: Layout)
    requires lay.Valid() && InvAt(s, latest, committed, lay) && Enabled(s, FinishCommit, lay)
    ensures InvAt(Next(s, FinishCommit, lay), latest, committed, lay)
  {
    hide OneBuffer, RefsCounted, LocksHeld, DirtyOwned, PinnedCached, LogBufsClean, HomeBufsLatest, HomesLatest;
  }

  lemma ReadHeadKeeps(s: State, i: nat, latest: Disk, committed: Disk, lay: Layout)
    requires lay.Valid() && InvAt(s, latest, committed, lay) && Enabled(s, ReadHead(i), lay)
    ensures InvAt(Next(s, ReadHead(i), lay), latest, committed, lay)
  {
    hide OneBuffer, RefsCounted, LocksHeld, DirtyOwned, PinnedCached, HomeBufsLatest, HomesLatest;
    var lh := Header(s.bufs[i].data);
    assert lh[0..] == lh;
  }

  lemma CrashUntouched(disk: Disk, committed: Disk, lay: Layout)
    requires Untouched(disk, committed, lay)
    ensures OnDisk(disk, [], Boot, committed, committed, lay)
    ensures HomesLatest(disk, Unwritten(disk, [], Boot, lay), committed, lay)
  {
  }

  lemma CrashReplayable(disk: Disk, unwritten: set<nat>, latest: Disk, committed: Disk, lay: Layout)
    requires LogOk(disk, lay) && Replayable(disk, Header(disk[lay.start]), latest, lay) &&
        SameHome(latest, committed, lay)
    requires unwritten <= Elems(Header(disk[lay.start])) && HomesLatest(disk, unwritten, latest, lay)
    ensures OnDisk(disk, [], Boot, committed, committed, lay)
    ensures HomesLatest(disk, Unwritten(disk, [], Boot, lay), committed, lay)
  {
  }

  lemma BootedOk(disk: Disk, committed: Disk, lay: Layout)
    requires lay.Valid() && |committed| == lay.size && OnDisk(disk, [], Boot, committed, committed, lay)
    requires HomesLatest(disk, Unwritten(disk, [], Boot, lay), committed, lay)
    ensures InvAt(Booted(disk), committed, committed, lay)
  {
    hide OnDisk, HomesLatest;
    assert forall i :: RefsTo({}, i) == {};
  }

  /** After a crash the file system to be recovered is the committed one. */
  lemma CrashKeeps(s: State, latest: Disk, committed: Disk, lay: Layout)
    requires lay.Valid() && InvAt(s, latest, committed, lay)
    ensures InvAt(Booted(s.disk), committed, committed, lay)
  {
    hide OneBuffer, RefsCounted, LocksHeld, DirtyOwned, PinnedCached, LogBufsClean, HomeBufsLatest, HomesLatest, GateOk;
    DiskShape(s, latest, committed, lay);
    if Booting(s.pc) || s.pc.Installing? {
      CrashReplayable(s.disk, Unwritten(s.disk, s.g.lh, s.pc, lay), latest, committed, lay);
    } else {
      CrashUntouched(s.disk, committed, lay);
    }
    BootedOk(s.disk, committed, lay);
  }

  // ---- every step, every run ----

  lemma QuietStepKeeps(s: State, st: Step, latest: Disk, committed: Disk, lay: Layout)
    requires lay.Valid() && InvAt(s, latest, committed, lay) && Enabled(s, st, lay)
    requires !st.LogWrite? && !st.WriteHead? && !st.Crash?
    ensures InvAt(Next(s, st, lay), latest, committed, lay)
  {
    hide InvAt, Enabled, Next;
    match st
    case BGetHit(t, i, b) => GetHitKeeps(s, t, i, b, latest, committed, lay);
    case BGetMiss(t, i, b) => GetMissKeeps(s, t, i, b, latest, committed, lay);
    case BLock(t, i) => LockKeeps(s, t, i, latest, committed, lay);
    case BFill(t, i) => FillKeeps(s, t, i, latest, committed, lay);
    case BUnlock(t, i) => UnlockKeeps(s, t, i, latest, committed, lay);
    case BDrop(t, i) => DropKeeps(s, t, i, latest, committed, lay);
    case Modify(c, i, data) => ModifyKeeps(s, c, i, data, latest, committed, lay);
    case BeginOp(c) => BeginKeeps(s, c, latest, committed, lay);
    case EndOp(c) => EndKeeps(s, c, latest, committed, lay);
    case WriteLogBlock(to, from) => WriteLogKeeps(s, to, from, latest, committed, lay);
    case InstallBlock(from, to) => InstallKeeps(s, from, to, latest, committed, lay);
    case EraseHead(i) => EraseKeeps(s, i, latest, committed, lay);
    case FinishCommit => FinishKeeps(s, latest, committed, lay);
    case ReadHead(i) => ReadHeadKeeps(s, i, latest, committed, lay);
  }

  lemma {:induction false} WholeOpsKept(s: State, st: Step, a: Spec, lay: Layout)
    requires Inv(s, a, lay) && Enabled(s, st, lay)
    ensures WholeOps(SpecNext(a, s, st, lay), Next(s, st, lay).g)
  {
    hide OneBuffer, RefsCounted, LocksHeld, DirtyOwned, PinnedCached, LogBufsClean, HomeBufsLatest, HomesLatest, OnDisk;
  }

  lemma ReplayMore(base: Disk, hist: seq<Entry>, e: Entry)
    ensures var d := Replay(base, hist);
            Replay(base, hist + [e]) == if e.blockno < |d| then d[e.blockno := e.data] else d
  {
    assert (hist + [e])[..|hist|] == hist;
  }

  /** What a step makes of the latest and the committed file system. */
  lemma {:induction false} SpecStepDisks(s: State, st: Step, a: Spec, lay: Layout)
    requires Enabled(s, st, lay) && a.durable <= |a.hist|
    ensures var a' := SpecNext(a, s, st, lay);
            && a'.base == a.base && a'.durable <= |a'.hist| && a.hist[..a.durable] <= a'.hist[..a'.durable]
            && (st.LogWrite? && s.bufs[st.i].blockno < |a.base| ==>
                  Latest(a') == Latest(a)[s.bufs[st.i].blockno := s.bufs[st.i].data])
            && (!st.LogWrite? ==> Latest(a') == if st.Crash? then Committed(a) else Latest(a))
            && Committed(a') == if st.WriteHead? then Latest(a) else Committed(a)
  {
    hide Enabled, Replay;
    var a' := SpecNext(a, s, st, lay);
    if st.LogWrite? {
      assert a'.hist[..a.durable] == a.hist[..a.durable];
      ReplayMore(a.base, a.hist, a'.hist[|a.hist|]);
    } else if st.WriteHead? {
      assert a'.hist[..a'.durable] == a.hist;
    } else if st.Crash? {
      assert a'.hist[..a'.durable] == a'.hist;
    }
  }

  /** Every step of the machine is a step of the specification. */
  lemma {:induction false} StepRefines(s: State, st: Step, a: Spec, lay: Layout)
    requires Inv(s, a, lay) && Enabled(s, st, lay)
    ensures Inv(Next(s, st, lay), SpecNext(a, s, st, lay), lay)
  {
    WholeOpsKept(s, st, a, lay);
    SpecStepDisks(s, st, a, lay);
    hide WholeOps, InvAt, SpecNext, Latest, Committed;
    match st
    case LogWrite(c, i) => LogWriteKeeps(s, c, i, Latest(a), Committed(a), lay);
    case WriteHead(i) => WriteHeadKeeps(s, i, Latest(a), Committed(a), lay);
    case Crash => CrashKeeps(s, Latest(a), Committed(a), lay);
    case _ => QuietStepKeeps(s, st, Latest(a), Committed(a), lay);
  }

  /** A run from the first boot of a disk with an empty log. */
  ghost predicate Run(ss: seq<State>, sts: seq<Step>, lay: Layout) {
    && |ss| == |sts| + 1 && lay.Valid()
    && ss[0] == Booted(ss[0].disk) && LogOk(ss[0].disk, lay) && Header(ss[0].disk[lay.start]) == []
    && forall k :: 0 <= k < |sts| ==> Enabled(ss[k], sts[k], lay) && ss[k + 1] == Next(ss[k], sts[k], lay)
  }

  ghost function SpecAt(ss: seq<State>, sts: seq<Step>, lay: Layout, k: nat): (a: Spec)
    requires Run(ss, sts, lay) && k < |ss|
    ensures a.durable <= |a.hist|
  {
    if k == 0 then Spec(ss[0].disk, [], 0, 0)
    else SpecNext(SpecAt(ss, sts, lay, k - 1), ss[k - 1], sts[k - 1], lay)
  }

  lemma StartRefines(disk: Disk, lay: Layout)
    requires LogOk(disk, lay) && Header(disk[lay.start]) == []
    ensures Inv(Booted(disk), Spec(disk, [], 0, 0), lay)
  {
    CrashUntouched(disk, disk, lay);
    BootedOk(disk, disk, lay);
    hide InvAt, Booted;
  }

  lemma {:induction false} RunRefines(ss: seq<State>, sts: seq<Step>, lay: Layout, k: nat)
    requires Run(ss, sts, lay) && k < |ss|
    ensures Inv(ss[k], SpecAt(ss, sts, lay, k), lay)
  {
    hide Inv, SpecNext, Next, Enabled, Booted, LogOk;
    if k == 0 {
      StartRefines(ss[0].disk, lay);
    } else {
      RunRefines(ss, sts, lay, k - 1);
      StepRefines(ss[k - 1], sts[k - 1], SpecAt(ss, sts, lay, k - 1), lay);
    }
  }

  lemma ReplayRecovers(disk: Disk, unwritten: set<nat>, latest: Disk, committed: Disk, lay: Layout)
    requires LogOk(disk, lay) && Replayable(disk, Header(disk[lay.start]), latest, lay)
    requires SameHome(latest, committed, lay) && HomesLatest(disk, unwritten, latest, lay)
    requires unwritten <= Elems(Header(disk[lay.start]))
    ensures SameHome(Recovered(disk, lay), committed, lay)
  {
    InstalledIs(disk, lay, Header(disk[lay.start]), committed);
  }

  lemma UntouchedRecovers(disk: Disk, committed: Disk, lay: Layout)
    requires Untouched(disk, committed, lay)
    ensures SameHome(Recovered(disk, lay), committed, lay)
  {
    InstalledIs(disk, lay, [], committed);
  }

  lemma RecoveredIsCommitted(s: State, latest: Disk, committed: Disk, lay: Layout)
    requires lay.Valid() && InvAt(s, latest, committed, lay)
    ensures LogOk(s.disk, lay) && SameHome(Recovered(s.disk, lay), committed, lay)
  {
    hide OneBuffer, RefsCounted, LocksHeld, DirtyOwned, PinnedCached, LogBufsClean, HomeBufsLatest, HomesLatest;
    hide GateOk, Untouched, SameHome;
    DiskShape(s, latest, committed, lay);
    if Booting(s.pc) || s.pc.Installing? {
      ReplayRecovers(s.disk, Unwritten(s.disk, s.g.lh, s.pc, lay), latest, committed, lay);
    } else {
      UntouchedRecovers(s.disk, committed, lay);
    }
  }

  /** Crash atomicity. At every moment of every run -- including any number of earlier crashes,
      also during recovery -- recovery from the disk as it is yields exactly the durable writes,
      and these are all the writes of some operations and none of the others. */
  lemma CrashAtomicity(ss: seq<State>, sts: seq<Step>, lay: Layout, k: nat)
    requires Run(ss, sts, lay) && k < |ss|
    ensures LogOk(ss[k].disk, lay)
    ensures var a := SpecAt(ss, sts, lay, k);
            && SameHome(Recovered(ss[k].disk, lay), Committed(a), lay)
            && (forall i, j :: 0 <= i < a.durable <= j < |a.hist| ==> a.hist[i].op != a.hist[j].op)
  {
    RunRefines(ss, sts, lay, k);
    var a := SpecAt(ss, sts, lay, k);
    RecoveredIsCommitted(ss[k], Latest(a), Committed(a), lay);
  }

  /** Durable writes stay durable, in order, through every later step and crash. */
  lemma {:induction false} DurableForever(ss: seq<State>, sts: seq<Step>, lay: Layout, j: nat, k: nat)
    requires Run(ss, sts, lay) && j <= k < |ss|
    ensures var a, b := SpecAt(ss, sts, lay, j), SpecAt(ss, sts, lay, k);
            a.base == b.base && a.hist[..a.durable] <= b.hist[..b.durable]
    decreases k
  {
    hide SpecNext, Enabled, Next;
    if j < k {
      DurableForever(ss, sts, lay, j, k - 1);
      SpecStepDisks(ss[k - 1], sts[k - 1], SpecAt(ss, sts, lay, k - 1), lay);
    }
  }

  /** A buffer that its holder has changed and not yet logged stays as it is. */
  predicate Changed(s: State, c: nat, i: nat, b: nat, data: Block) {
    Holds(s.bufs, Client(c), i) && i in s.dirty && s.bufs[i].blockno == b && s.bufs[i].data == data
  }

  lemma ChangedStays(s: State, st: Step, lay: Layout, c: nat, i: nat, b: nat, data: Block)
    requires Enabled(s, st, lay) && Changed(s, c, i, b, data) && !st.Crash?
    requires s.bufs[i].refcnt > 0 && !(st.Modify? && st.i == i) && !(st.LogWrite? && st.i == i)
    ensures Changed(Next(s, st, lay), c, i, b, data)
  {
  }

  lemma {:induction false} ChangedSince(ss: seq<State>, sts: seq<Step>, lay: Layout, j: nat, k: nat,
                                        c: nat, i: nat, b: nat, data: Block)
    requires Run(ss, sts, lay) && j <= k < |ss| && Changed(ss[j], c, i, b, data)
    requires forall m :: j <= m < k ==>
               !sts[m].Crash? && !(sts[m].Modify? && sts[m].i == i) && !(sts[m].LogWrite? && sts[m].i == i)
    ensures Changed(ss[k], c, i, b, data)
    decreases k
  {
    hide Changed, Next, Enabled;
    if j < k {
      ChangedSince(ss, sts, lay, j, k - 1, c, i, b, data);
      ChangedHeld(ss, sts, lay, k - 1, c, i, b, data);
      ChangedStays(ss[k - 1], sts[k - 1], lay, c, i, b, data);
    }
  }

  lemma ChangedHeld(ss: seq<State>, sts: seq<Step>, lay: Layout, k: nat, c: nat, i: nat, b: nat, data: Block)
    requires Run(ss, sts, lay) && k < |ss| && Changed(ss[k], c, i, b, data)
    ensures i < |ss[k].bufs| && ss[k].bufs[i].refcnt > 0
  {
    RunRefines(ss, sts, lay, k);
    GuardsFollow(ss, sts, lay, k);
    var a := SpecAt(ss, sts, lay, k);
    hide Run;
    assert LocksHeld(ss[k].bufs, ss[k].refs, lay);
  }

  /** What a client puts in a buffer is what its next log_write of that buffer logs, as a write of its operation,
      whatever others do in between. */
  lemma LogsWhatWasWritten(ss: seq<State>, sts: seq<Step>, lay: Layout, j: nat, k: nat, c: nat, i: nat, data: Block)
    requires Run(ss, sts, lay) && j < k < |sts| && sts[j] == Modify(c, i, data) && sts[k] == LogWrite(c, i)
    requires forall m :: j < m < k ==>
               !sts[m].Crash? && !(sts[m].Modify? && sts[m].i == i) && !(sts[m].LogWrite? && sts[m].i == i)
    ensures i < |ss[j].bufs| && c in ss[k].g.ops
    ensures var a := SpecAt(ss, sts, lay, k);
            SpecAt(ss, sts, lay, k + 1) ==
            a.(hist := a.hist + [Entry((a.boots, ss[k].g.ops[c].id), ss[j].bufs[i].blockno, data)])
  {
    assert Enabled(ss[j], sts[j], lay) && ss[j + 1] == Next(ss[j], sts[j], lay);
    var b := ss[j].bufs[i].blockno;
    assert Changed(ss[j + 1], c, i, b, data);
    ChangedSince(ss, sts, lay, j + 1, k, c, i, b, data);
    assert Enabled(ss[k], sts[k], lay);
  }

  /** What has been logged and not committed is named in the header, and without a running operation nothing is
      left to commit. */
  ghost predicate Pending(a: Spec, g: A.Gate, pc: Pc) {
    && (!pc.Logging? && (pc.Idle? ==> g.lh == []) ==> a.durable == |a.hist|)
    && (pc.Idle? && g.ops == map[] ==> g.lh == [])
  }

  lemma PendingStep(s: State, st: Step, a: Spec, lay: Layout)
    requires Inv(s, a, lay) && Pending(a, s.g, s.pc) && Enabled(s, st, lay)
    ensures Pending(SpecNext(a, s, st, lay), Next(s, st, lay).g, Next(s, st, lay).pc)
  {
    PhaseFacts(s, Latest(a), Committed(a), lay);
    hide InvAt, WholeOps, Latest, Committed, Enabled, Next, SpecNext, Pending, GateOk;
    if IsBufferStep(st) {
      BufferStepFields(s, st, a, lay);
    } else {
      LogStepPending(s, st, a, lay);
    }
  }

  predicate IsBufferStep(st: Step) {
    st.BGetHit? || st.BGetMiss? || st.BLock? || st.BFill? || st.BUnlock? || st.BDrop? || st.Modify?
  }

  lemma BufferStepFields(s: State, st: Step, a: Spec, lay: Layout)
    requires Enabled(s, st, lay) && IsBufferStep(st) && a.durable <= |a.hist|
    ensures Next(s, st, lay).g == s.g && Next(s, st, lay).pc == s.pc && SpecNext(a, s, st, lay) == a
  {
  }

  lemma LogStepPending(s: State, st: Step, a: Spec, lay: Layout)
    requires GateOk(s.g, s.pc) && (s.pc.Done? ==> s.g.lh == []) && a.durable <= |a.hist|
    requires Pending(a, s.g, s.pc) && Enabled(s, st, lay) && !IsBufferStep(st)
    ensures Pending(SpecNext(a, s, st, lay), Next(s, st, lay).g, Next(s, st, lay).pc)
  {
    match st
    case EndOp(c) => LastEnds(s.g, c);
    case LogWrite(c, i) =>
      assert s.bufs[i].blockno in A.Absorb(s.g.lh, s.bufs[i].blockno);
      assert c in A.Next(s.g, A.Log(c, s.bufs[i].blockno)).ops;
    case _ =>
  }

  lemma PhaseFacts(s: State, latest: Disk, committed: Disk, lay: Layout)
    requires InvAt(s, latest, committed, lay)
    ensures GateOk(s.g, s.pc) && (s.pc.Done? ==> s.g.lh == [])
  {
  }

  /** end_op finds `outstanding` 0 exactly if it ends the only operation. */
  lemma LastEnds(g: A.Gate, c: nat)
    requires g.outstanding == |g.ops| && c in g.ops
    ensures g.outstanding == 1 <==> g.ops - {c} == map[]
  {
    assert |g.ops - {c}| == |g.ops| - 1;
    assert |g.ops - {c}| == 0 <==> g.ops - {c} == map[];
  }

  lemma {:induction false} RunPending(ss: seq<State>, sts: seq<Step>, lay: Layout, k: nat)
    requires Run(ss, sts, lay) && k < |ss|
    ensures Pending(SpecAt(ss, sts, lay, k), ss[k].g, ss[k].pc)
  {
    hide Inv, SpecNext, Next, Enabled, LogOk;
    if k > 0 {
      hide Pending;
      RunPending(ss, sts, lay, k - 1);
      RunRefines(ss, sts, lay, k - 1);
      PendingStep(ss[k - 1], sts[k - 1], SpecAt(ss, sts, lay, k - 1), lay);
    }
  }

  /** The last end_op commits: whenever no operation runs and nobody commits, everything logged so far is durable
      and in its home block. */
  lemma IdleIsDurable(ss: seq<State>, sts: seq<Step>, lay: Layout, k: nat)
    requires Run(ss, sts, lay) && k < |ss| && ss[k].pc.Idle? && ss[k].g.ops == map[]
    ensures var a := SpecAt(ss, sts, lay, k);
            a.durable == |a.hist| && SameHome(ss[k].disk, Latest(a), lay)
  {
    RunPending(ss, sts, lay, k);
    NoEarlyInstall(ss, sts, lay, k);
    var a := SpecAt(ss, sts, lay, k);
    assert a.hist[..a.durable] == a.hist;
  }

  /** Cache agreement. Once recovery is over, whoever holds a buffer of a home block sees the
      contents last logged for it, except for its own changes not yet logged; and no other
      buffer holds that block. */
  lemma ReadersSeeLatest(ss: seq<State>, sts: seq<Step>, lay: Layout, k: nat, t: Tid, i: nat)
    requires Run(ss, sts, lay) && k < |ss| && !Booting(ss[k].pc)
    requires Holds(ss[k].bufs, t, i) && lay.Home(ss[k].bufs[i].blockno)
    ensures var s, a := ss[k], SpecAt(ss, sts, lay, k);
            var b := s.bufs[i].blockno;
            && (i !in s.dirty ==> b < |Latest(a)| && s.bufs[i].data == Latest(a)[b])
            && (i in s.dirty ==> t.Client? && t.id in s.g.ops)
            && (forall j :: 0 <= j < |s.bufs| && j != i ==> !Caches(s.bufs, j, b))
  {
    RunRefines(ss, sts, lay, k);
    var s := ss[k];
    hide OnDisk, HomesLatest, GateOk, PinnedCached, RefsCounted, LogBufsClean, WholeOps;
    assert (t, i) in s.refs;
    assert Clean(s.bufs[i], {}, lay);
  }

  /** Until the header is written the home blocks on disk are the committed ones; afterwards every
      block still to be installed is pinned in the cache. */
  lemma NoEarlyInstall(ss: seq<State>, sts: seq<Step>, lay: Layout, k: nat)
    requires Run(ss, sts, lay) && k < |ss|
    ensures var s, a := ss[k], SpecAt(ss, sts, lay, k);
            && (s.pc.Idle? || s.pc.Logging? || s.pc.Done? ==> SameHome(s.disk, Committed(a), lay))
            && (forall b :: b in Pinned(s.g.lh, s.pc) ==>
                  exists i: nat :: Caches(s.bufs, i, b) && s.bufs[i].valid && s.bufs[i].refcnt > 0)
            && (s.g.committing ==> s.g.ops == map[])
            && (forall i, j :: 0 <= i < j < |s.g.lh| ==> s.g.lh[i] != s.g.lh[j])
  {
    RunRefines(ss, sts, lay, k);
    hide HomesLatest, HomeBufsLatest, LogBufsClean, LocksHeld, DirtyOwned, WholeOps;
  }

  /** In every run begin_op lets an operation in exactly when no commit is under way and the log, 30 blocks, has
      room for ten blocks of it beside ten of every operation that runs and all that is logged already. */
  lemma AdmitsExactly(ss: seq<State>, sts: seq<Step>, lay: Layout, k: nat, c: nat)
    requires Run(ss, sts, lay) && k < |ss| && c !in ss[k].g.ops
    ensures Enabled(ss[k], BeginOp(c), lay) <==> ss[k].pc.Idle? && |ss[k].g.lh| + 10 * (|ss[k].g.ops| + 1) <= 30
    ensures Enabled(ss[k], BeginOp(c), lay) ==> var g, g' := ss[k].g, Next(ss[k], BeginOp(c), lay).g;
              g'.ops.Keys == g.ops.Keys + {c} && g'.lh == g.lh
  {
    hide Run, HomesLatest, HomeBufsLatest, LogBufsClean, LocksHeld, DirtyOwned, WholeOps, OnDisk, PinnedCached,
      RefsCounted, Latest, Committed, SpecAt;
    RunRefines(ss, sts, lay, k);
  }

  /** The machine's well-formedness guards never cut off a step the source would take. */
  lemma GuardsFollow(ss: seq<State>, sts: seq<Step>, lay: Layout, k: nat)
    requires Run(ss, sts, lay) && k < |ss|
    ensures var s := ss[k];
            && LogOk(s.disk, lay) && lay.Fits(s.g.lh)
            && (forall t, i :: (t, i) in s.refs ==> i < |s.bufs| && s.bufs[i].refcnt > 0)
            && (forall i :: 0 <= i < |s.bufs| && s.bufs[i].dev == ROOTDEV ==> s.bufs[i].blockno < |s.disk|)
            && (s.g.ops != map[] ==> s.g.outstanding >= 1)
            && (forall i: nat :: Caches(s.bufs, i, lay.start) && s.bufs[i].valid ==> HeaderOk(s.bufs[i].data))
  {
    RunRefines(ss, sts, lay, k);
    var s, a := ss[k], SpecAt(ss, sts, lay, k);
    hide HomesLatest, HomeBufsLatest, PinnedCached, DirtyOwned, WholeOps, OnDisk, Run, Latest, Committed;
    DiskShape(s, Latest(a), Committed(a), lay);
    forall t, i | (t, i) in s.refs ensures i < |s.bufs| && s.bufs[i].refcnt > 0 {
      assert (t, i) in RefsTo(s.refs, i);
    }
  }
}
