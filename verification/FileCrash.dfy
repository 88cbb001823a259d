/** filewrite on the log: what a crash at any moment of a write leaves of the file system. Each chunk of the write
    is one operation of the log. */
module FileCrash {
  import opened Blocks
  import opened FsSpec
  import opened FsContent
  import opened FileSystem
  import L = LogFormat
  import S = LogSystem

  // ---- the file system does not depend on the blocks before the inodes ----

  ghost predicate SameFrom(d: Disk, e: Disk, start: nat) {
    |d| == |e| && forall b :: start <= b < |d| ==> d[b] == e[b]
  }

  lemma SlotFrame(d: Disk, e: Disk, inodes: seq<Inode>, owner: Owner, sb: Super, i: nat, k: nat)
    requires FsOk(d, inodes, owner, sb) && SameFrom(d, e, sb.inodestart) && i < |inodes|
    ensures SlotAt(e, inodes[i], k) == SlotAt(d, inodes[i], k)
  {
    assert OwnedBy(owner, SlotAt(d, inodes[i], NDIRECT), i, NDIRECT);
    var ind := inodes[i].addrs[NDIRECT];
    assert ind in owner ==> Named(d, inodes, owner[ind], ind, sb);
  }

  lemma OwnsFrame(d: Disk, e: Disk, inodes: seq<Inode>, owner: Owner, sb: Super)
    requires FsOk(d, inodes, owner, sb) && SameFrom(d, e, sb.inodestart)
    ensures Owns(e, inodes, owner, sb)
  {
    forall i, k {:trigger SlotAt(e, inodes[i], k)} | 0 <= i < |inodes| && 0 <= k < NSLOTS
      ensures OwnedBy(owner, SlotAt(e, inodes[i], k), i, k)
    {
      SlotFrame(d, e, inodes, owner, sb, i, k);
      assert OwnedBy(owner, SlotAt(d, inodes[i], k), i, k);
    }
    forall b | b in owner ensures Named(e, inodes, owner[b], b, sb) {
      assert Named(d, inodes, owner[b], b, sb);
      SlotFrame(d, e, inodes, owner, sb, owner[b].0, owner[b].1);
    }
  }

  lemma FsFrame(d: Disk, e: Disk, inodes: seq<Inode>, owner: Owner, sb: Super)
    requires FsOk(d, inodes, owner, sb) && SameFrom(d, e, sb.inodestart)
    ensures FsOk(e, inodes, owner, sb)
  {
    OwnsFrame(d, e, inodes, owner, sb);
    forall b: nat {:trigger BitOf(e, sb, b)} | b < sb.size && sb.BBlock(b) < |e|
        ensures BitOf(e, sb, b) == BitOf(d, sb, b) {
      BitmapArea(sb, b);
    }
  }

  lemma ReadsFrame(d: Disk, e: Disk, inodes: seq<Inode>, owner: Owner, sb: Super, i: nat, c: seq<Byte>)
    requires FsOk(d, inodes, owner, sb) && SameFrom(d, e, sb.inodestart) && i < |inodes| && Reads(d, inodes[i], c)
    ensures Reads(e, inodes[i], c)
  {
    forall p: nat {:trigger Holds(e, inodes[i], p, c[p])} | p < |c| ensures Holds(e, inodes[i], p, c[p]) {
      assert Holds(d, inodes[i], p, c[p]);
      var k := FileSlot(p / BSIZE);
      SlotFrame(d, e, inodes, owner, sb, i, k);
      MappedIsOwned(d, inodes, owner, sb, i, p / BSIZE);
    }
  }

  lemma SyncedFrame(d: Disk, e: Disk, inodes: seq<Inode>, sb: Super)
    requires Shape(d, inodes, sb) && SameFrom(d, e, sb.inodestart) && Synced(d, inodes, sb)
    ensures Synced(e, inodes, sb)
  {
    hide LoadInode;
    forall j | 0 <= j < |inodes| ensures sb.IBlock(j) < |e| && DiskInode(e, sb, j) == inodes[j] {
      InodeArea(sb, j);
    }
  }

  lemma OthersFrame(job: Job, d: Disk, e: Disk, inodes: seq<Inode>, owner: Owner)
    requires FsOk(d, inodes, owner, job.sb) && SameFrom(d, e, job.sb.inodestart)
    requires OthersSame(job.disk, job.inodes, job.owner, d, inodes, owner, job.inum)
    ensures OthersSame(job.disk, job.inodes, job.owner, e, inodes, owner, job.inum)
  {
    forall c {:trigger c in job.owner} | c in job.owner && job.owner[c].0 != job.inum ensures e[c] == d[c] {
      assert c in owner && Named(d, inodes, owner[c], c, job.sb);
    }
  }

  lemma ReachedFrame(job: Job, d: Disk, e: Disk, inodes: seq<Inode>, owner: Owner, done: nat)
    requires Reached(job, d, inodes, owner, done) && SameFrom(d, e, job.sb.inodestart) && Synced(d, inodes, job.sb)
    ensures Reached(job, e, inodes, owner, done) && Synced(e, inodes, job.sb)
  {
    hide Sofar;
    FsFrame(d, e, inodes, owner, job.sb);
    ReadsFrame(d, e, inodes, owner, job.sb, job.inum, Sofar(job.c, job.off, job.data, done));
    SyncedFrame(d, e, inodes, job.sb);
    OthersFrame(job, d, e, inodes, owner);
  }

  // ---- operations of the log ----

  /** The log_writes `ws` as writes of one operation. */
  function Tagged(op: (nat, nat), ws: seq<Write>): seq<S.Entry> {
    seq(|ws|, i requires 0 <= i < |ws| => S.Entry(op, ws[i].b, ws[i].data))
  }

  lemma {:induction false} ReplayTagged(base: Disk, hist: seq<S.Entry>, op: (nat, nat), ws: seq<Write>)
    ensures S.Replay(base, hist + Tagged(op, ws)) == Apply(S.Replay(base, hist), ws)
    decreases |ws|
  {
    if ws == [] {
      assert hist + Tagged(op, ws) == hist;
    } else {
      var n := |ws| - 1;
      var all := hist + Tagged(op, ws);
      ReplayTagged(base, hist, op, ws[..n]);
      assert all[..|all| - 1] == hist + Tagged(op, ws[..n]);
      assert all[|all| - 1] == S.Entry(op, ws[n].b, ws[n].data);
    }
  }

  lemma {:induction false} ApplySame(d: Disk, e: Disk, start: nat, ws: seq<Write>)
    requires SameFrom(d, e, start)
    ensures SameFrom(Apply(d, ws), Apply(e, ws), start)
    decreases |ws|
  {
    if ws != [] {
      ApplySame(d, e, start, ws[..|ws| - 1]);
    }
  }

  /** What the first `n` transactions log, transaction `k` as operation `ops[k]`. */
  function Logged(ops: seq<(nat, nat)>, chunks: seq<Chunk>, n: nat): seq<S.Entry>
    requires n <= |ops| == |chunks|
  {
    if n == 0 then [] else Logged(ops, chunks, n - 1) + Tagged(ops[n - 1], chunks[n - 1].writes)
  }

  lemma {:induction false} LoggedPrefix(ops: seq<(nat, nat)>, chunks: seq<Chunk>, j: nat, n: nat)
    requires j <= n <= |ops| == |chunks|
    ensures Logged(ops, chunks, j) <= Logged(ops, chunks, n)
    decreases n
  {
    if j < n {
      LoggedPrefix(ops, chunks, j, n - 1);
    }
  }

  lemma LinkDisk(job: Job, chunks: seq<Chunk>, n: nat)
    requires History(job, chunks) && n < |chunks|
    ensures DiskAt(job, chunks, n + 1) == Apply(DiskAt(job, chunks, n), chunks[n].writes)
  {
    assert Link(job, chunks, n);
  }

  lemma LoggedNext(hist: seq<S.Entry>, ops: seq<(nat, nat)>, chunks: seq<Chunk>, n: nat)
    requires n < |ops| == |chunks|
    ensures hist + Logged(ops, chunks, n + 1) == (hist + Logged(ops, chunks, n)) + Tagged(ops[n], chunks[n].writes)
  {
  }

  /** Replaying them leads to the disk after the first `n` transactions. */
  lemma {:induction false} LoggedLeads(job: Job, chunks: seq<Chunk>, ops: seq<(nat, nat)>, base: Disk,
                                       hist: seq<S.Entry>, n: nat)
    requires n <= |ops| == |chunks| && History(job, chunks)
    requires SameFrom(S.Replay(base, hist), job.disk, job.sb.inodestart)
    ensures SameFrom(S.Replay(base, hist + Logged(ops, chunks, n)), DiskAt(job, chunks, n), job.sb.inodestart)
    decreases n
  {
    if n == 0 {
      assert hist + Logged(ops, chunks, n) == hist;
    } else {
      hide History, SameFrom, Apply, Logged, Tagged, DiskAt, S.Replay;
      LoggedLeads(job, chunks, ops, base, hist, n - 1);
      var before, ws := hist + Logged(ops, chunks, n - 1), chunks[n - 1].writes;
      LinkDisk(job, chunks, n - 1);
      LoggedNext(hist, ops, chunks, n - 1);
      ReplayTagged(base, before, ops[n - 1], ws);
      ApplySame(S.Replay(base, before), DiskAt(job, chunks, n - 1), job.sb.inodestart, ws);
    }
  }

  /** Since history `hist` the log has seen the transactions `chunks`, and the writes `rest` of one more operation
      that has not called end_op. */
  ghost predicate Performs(a: S.Spec, g: S.A.Gate, hist: seq<S.Entry>, ops: seq<(nat, nat)>, chunks: seq<Chunk>,
                           rest: seq<S.Entry>)
  {
    && |ops| == |chunks| && a.hist == hist + Logged(ops, chunks, |chunks|) + rest
    && (forall i :: 0 <= i < |rest| ==> Active(a, g, rest[i].op))
    && (forall i, j :: 0 <= i < j < |rest| ==> rest[i].op == rest[j].op)
  }

  ghost predicate Active(a: S.Spec, g: S.A.Gate, op: (nat, nat)) {
    exists c :: c in g.ops && op == (a.boots, g.ops[c].id)
  }

  /** Where the writes of the first `n` transactions end. */
  function EndOf(hist: seq<S.Entry>, ops: seq<(nat, nat)>, chunks: seq<Chunk>, n: nat): nat
    requires n <= |ops| == |chunks|
  {
    |hist| + |Logged(ops, chunks, n)|
  }

  /** The writes of an operation that has not ended are not durable. */
  lemma RestLater(a: S.Spec, g: S.A.Gate, hist: seq<S.Entry>, ops: seq<(nat, nat)>, chunks: seq<Chunk>,
                  rest: seq<S.Entry>)
    requires Performs(a, g, hist, ops, chunks, rest) && a.durable <= |a.hist| && S.WholeOps(a, g)
    ensures a.durable <= EndOf(hist, ops, chunks, |chunks|)
  {
    var end := EndOf(hist, ops, chunks, |chunks|);
    if rest != [] {
      assert a.hist[end] == rest[0];
      var c :| c in g.ops && rest[0].op == (a.boots, g.ops[c].id);
    }
  }

  lemma OpAt(all: seq<S.Entry>, hist: seq<S.Entry>, ops: seq<(nat, nat)>, chunks: seq<Chunk>, rest: seq<S.Entry>,
             n: nat, i: nat)
    requires n < |ops| == |chunks| && all == hist + Logged(ops, chunks, |chunks|) + rest
    requires EndOf(hist, ops, chunks, n) <= i < EndOf(hist, ops, chunks, n + 1)
    ensures i < |all| && all[i].op == ops[n]
  {
    var log := Logged(ops, chunks, n + 1);
    assert log == Logged(ops, chunks, n) + Tagged(ops[n], chunks[n].writes);
    LoggedPrefix(ops, chunks, n + 1, |chunks|);
    assert log[i - |hist|].op == ops[n];
    hide Logged;
  }

  /** Inside a transaction all writes belong to one operation, so the durable ones do not end there. */
  lemma NotInside(a: S.Spec, g: S.A.Gate, hist: seq<S.Entry>, ops: seq<(nat, nat)>, chunks: seq<Chunk>,
                  rest: seq<S.Entry>, n: nat, i: nat)
    requires Performs(a, g, hist, ops, chunks, rest) && n < |chunks| && a.durable <= |a.hist| && S.WholeOps(a, g)
    requires EndOf(hist, ops, chunks, n) < i < EndOf(hist, ops, chunks, n + 1)
    ensures a.durable != i
  {
    hide Logged, EndOf;
    OpAt(a.hist, hist, ops, chunks, rest, n, i - 1);
    OpAt(a.hist, hist, ops, chunks, rest, n, i);
  }

  /** What is durable ends where a transaction ends. */
  lemma DurableEnds(a: S.Spec, g: S.A.Gate, hist: seq<S.Entry>, ops: seq<(nat, nat)>, chunks: seq<Chunk>,
                    rest: seq<S.Entry>) returns (n: nat)
    requires Performs(a, g, hist, ops, chunks, rest) && |hist| <= a.durable <= |a.hist| && S.WholeOps(a, g)
    ensures n <= |chunks| && a.durable == EndOf(hist, ops, chunks, n)
    ensures a.durable == |a.hist| ==> n == |chunks|
  {
    RestLater(a, g, hist, ops, chunks, rest);
    hide S.WholeOps;
    n := |chunks|;
    while a.durable < EndOf(hist, ops, chunks, n)
      invariant n <= |chunks| && a.durable <= EndOf(hist, ops, chunks, n)
      invariant n < |chunks| ==> a.durable < EndOf(hist, ops, chunks, |chunks|)
      decreases n
    {
      if EndOf(hist, ops, chunks, n - 1) < a.durable {
        NotInside(a, g, hist, ops, chunks, rest, n - 1, a.durable);
      }
      n := n - 1;
    }
  }

  // ---- the theorem ----

  /** The log lies before the inodes. */
  ghost predicate Laid(lay: L.Layout, sb: Super) {
    lay.size == sb.size && lay.start + lay.nlog <= sb.inodestart
  }

  lemma HomeSame(d: Disk, e: Disk, lay: L.Layout, sb: Super)
    requires Laid(lay, sb) && L.SameHome(d, e, lay)
    ensures SameFrom(d, e, sb.inodestart)
  {
    forall b | sb.inodestart <= b < |d| ensures d[b] == e[b] {
      assert lay.Home(b);
    }
  }

  /** The bytes written after the first `n` transactions. */
  function DoneAt(chunks: seq<Chunk>, n: nat): nat
    requires n <= |chunks|
  {
    if n == 0 then 0 else chunks[n - 1].done
  }

  /** A disk with the inodes it holds is a sound file system on which the first `done` bytes have been written, and
      all other files are as before. */
  ghost predicate Survives(job: Job, disk: Disk, done: nat) {
    exists inodes: seq<Inode>, owner: Owner :: SurvivesAs(job, disk, done, inodes, owner)
  }

  ghost predicate SurvivesAs(job: Job, disk: Disk, done: nat, inodes: seq<Inode>, owner: Owner) {
    && |inodes| == job.sb.ninodes && Synced(disk, inodes, job.sb) && FsOk(disk, inodes, owner, job.sb)
    && job.inum < |inodes| == |job.inodes| && done <= |job.data|
    && Reads(disk, inodes[job.inum], Sofar(job.c, job.off, job.data, done))
    && forall j: nat, c :: j < |inodes| && j != job.inum && Reads(job.disk, job.inodes[j], c) ==>
        Reads(disk, inodes[j], c)
  }

  /** filewrite starts on a sound file system. */
  ghost predicate Starts(job: Job) {
    && FsOk(job.disk, job.inodes, job.owner, job.sb) && Synced(job.disk, job.inodes, job.sb)
    && job.inum < |job.inodes| && Reads(job.disk, job.inodes[job.inum], job.c)
  }

  lemma ReachedSurvives(job: Job, disk: Disk, inodes: seq<Inode>, owner: Owner, done: nat)
    requires Starts(job) && Reached(job, disk, inodes, owner, done) && Synced(disk, inodes, job.sb)
    ensures Survives(job, disk, done)
  {
    hide Synced, Sofar;
    forall j: nat, c | j < |inodes| && j != job.inum && Reads(job.disk, job.inodes[j], c)
        ensures Reads(disk, inodes[j], c) {
      OthersRead(job.disk, job.inodes, job.owner, disk, inodes, owner, job.sb, job.inum, j, c);
    }
    assert SurvivesAs(job, disk, done, inodes, owner);
  }

  /** So does every disk that agrees with it from the inodes on. */
  lemma DiskSurvives(job: Job, chunks: seq<Chunk>, n: nat, disk: Disk)
    requires Starts(job) && History(job, chunks) && n <= |chunks|
    requires SameFrom(disk, DiskAt(job, chunks, n), job.sb.inodestart)
    ensures Survives(job, disk, DoneAt(chunks, n))
  {
    hide SameFrom, Synced, Reads, FsOk, Sofar, OthersSame, Survives;
    SameBack(disk, DiskAt(job, chunks, n), job.sb.inodestart);
    if n == 0 {
      ReachedStart(job);
      ReachedFrame(job, job.disk, disk, job.inodes, job.owner, 0);
      ReachedSurvives(job, disk, job.inodes, job.owner, 0);
    } else {
      var t := chunks[n - 1];
      assert Link(job, chunks, n - 1);
      ReachedFrame(job, t.disk, disk, t.inodes, t.owner, t.done);
      ReachedSurvives(job, disk, t.inodes, t.owner, t.done);
    }
  }

  lemma SameBack(d: Disk, e: Disk, start: nat)
    requires SameFrom(d, e, start)
    ensures SameFrom(e, d, start)
  {
  }

  lemma SameTwice(d: Disk, e: Disk, f: Disk, start: nat)
    requires SameFrom(d, e, start) && SameFrom(e, f, start)
    ensures SameFrom(d, f, start)
  {
  }

  /** The log is in the middle of a filewrite that began at time `i`, when everything logged was durable. */
  ghost predicate Writing(ss: seq<S.State>, sts: seq<S.Step>, lay: L.Layout, i: nat, k: nat, job: Job,
                          ops: seq<(nat, nat)>, chunks: seq<Chunk>, rest: seq<S.Entry>)
  {
    && S.Run(ss, sts, lay) && i <= k < |ss| && Laid(lay, job.sb)
    && Starts(job) && History(job, chunks)
    && var a := S.SpecAt(ss, sts, lay, i);
       && a.durable == |a.hist| && L.SameHome(S.Latest(a), job.disk, lay)
       && Performs(S.SpecAt(ss, sts, lay, k), ss[k].g, a.hist, ops, chunks, rest)
  }

  lemma DurableDisk(a: S.Spec, hist: seq<S.Entry>, ops: seq<(nat, nat)>, chunks: seq<Chunk>, rest: seq<S.Entry>, n: nat)
    requires n <= |ops| == |chunks| && a.hist == hist + Logged(ops, chunks, |chunks|) + rest
    requires a.durable == EndOf(hist, ops, chunks, n)
    ensures a.durable <= |a.hist| && a.hist[..a.durable] == hist + Logged(ops, chunks, n)
  {
    LoggedPrefix(ops, chunks, n, |chunks|);
  }

  /** What the log promises at time `k`. */
  lemma LogFacts(ss: seq<S.State>, sts: seq<S.Step>, lay: L.Layout, i: nat, k: nat, job: Job,
                 ops: seq<(nat, nat)>, chunks: seq<Chunk>, rest: seq<S.Entry>)
    returns (a: S.Spec, a0: S.Spec, d: Disk)
    requires Writing(ss, sts, lay, i, k, job, ops, chunks, rest)
    ensures S.Run(ss, sts, lay) && i <= k < |ss| && L.LogOk(ss[k].disk, lay)
    ensures a == S.SpecAt(ss, sts, lay, k) && a0 == S.SpecAt(ss, sts, lay, i) && d == L.Recovered(ss[k].disk, lay)
    ensures Performs(a, ss[k].g, a0.hist, ops, chunks, rest) && S.WholeOps(a, ss[k].g)
    ensures |a0.hist| <= a.durable <= |a.hist| && a.base == a0.base
    ensures L.SameHome(d, S.Committed(a), lay) && L.SameHome(S.Latest(a0), job.disk, lay) && Laid(lay, job.sb)
    ensures Starts(job) && History(job, chunks)
  {
    a, a0 := S.SpecAt(ss, sts, lay, k), S.SpecAt(ss, sts, lay, i);
    hide Performs, Starts, History, S.InvAt, S.WholeOps, S.Committed, S.Latest, L.SameHome, L.Recovered, S.SpecAt;
    S.RunRefines(ss, sts, lay, k);
    S.CrashAtomicity(ss, sts, lay, k);
    S.DurableForever(ss, sts, lay, i, k);
    d := L.Recovered(ss[k].disk, lay);
  }

  lemma CommittedSurvives(a: S.Spec, a0: S.Spec, lay: L.Layout, job: Job, ops: seq<(nat, nat)>, chunks: seq<Chunk>,
                          rest: seq<S.Entry>, n: nat, d: Disk)
    requires n <= |ops| == |chunks| && a.hist == a0.hist + Logged(ops, chunks, |chunks|) + rest && a.base == a0.base
    requires a.durable == EndOf(a0.hist, ops, chunks, n) && a.durable <= |a.hist|
    requires L.SameHome(d, S.Committed(a), lay) && L.SameHome(S.Latest(a0), job.disk, lay) && Laid(lay, job.sb)
    requires Starts(job) && History(job, chunks)
    ensures Survives(job, d, DoneAt(chunks, n))
  {
    hide Starts, Survives, Logged, History, SameFrom, L.SameHome, S.Replay, Laid;
    DurableDisk(a, a0.hist, ops, chunks, rest, n);
    HomeSame(d, S.Committed(a), lay, job.sb);
    HomeSame(S.Latest(a0), job.disk, lay, job.sb);
    LoggedLeads(job, chunks, ops, a.base, a0.hist, n);
    SameTwice(d, S.Committed(a), DiskAt(job, chunks, n), job.sb.inodestart);
    DiskSurvives(job, chunks, n, d);
  }

  /** Whenever the machine crashes, before, during or after the commits, recovery finds a sound file system that
      holds the old contents overwritten by the chunks of some of the transactions, in order and whole, and all
      other files as before; and once the last end_op has committed, by all of them. */
  lemma CrashDuringWrite(ss: seq<S.State>, sts: seq<S.Step>, lay: L.Layout, i: nat, k: nat, job: Job,
                         ops: seq<(nat, nat)>, chunks: seq<Chunk>, rest: seq<S.Entry>)
    requires Writing(ss, sts, lay, i, k, job, ops, chunks, rest)
    ensures L.LogOk(ss[k].disk, lay)
    ensures exists n :: 0 <= n <= |chunks| && Survives(job, L.Recovered(ss[k].disk, lay), DoneAt(chunks, n))
    ensures ss[k].pc.Idle? && ss[k].g.ops == map[] ==>
            Survives(job, L.Recovered(ss[k].disk, lay), DoneAt(chunks, |chunks|))
  {
    hide S.WholeOps, S.Run, S.SpecAt, L.LogOk, L.Recovered, Starts, Survives, History, Writing, Logged;
    var a, a0, d := LogFacts(ss, sts, lay, i, k, job, ops, chunks, rest);
    var n := DurableEnds(a, ss[k].g, a0.hist, ops, chunks, rest);
    CommittedSurvives(a, a0, lay, job, ops, chunks, rest, n, d);
    if ss[k].pc.Idle? && ss[k].g.ops == map[] {
      S.IdleIsDurable(ss, sts, lay, k);
    }
  }
}
