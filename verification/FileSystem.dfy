/** kernel/fs.c over the disk that the cache and the log present: block allocation, bmap, itrunc,
    readi and writei, and filewrite's splitting of a write into transactions. */
module FileSystem {
  import opened Basics
  import opened Blocks
  import opened FsSpec
  import opened FsContent
  import L = LogFormat
  import A = Admission

  /** writei's result: bytes written, the error return -1, or a panic. */
  datatype WriteResult = Wrote(n: nat) | Refused | Panicked

  /** With one bitmap block a filewrite transaction logs at most 7 blocks. That is within
      MAXOPBLOCKS, and operations of that size never make log_write panic on the log mkfs makes. */
  lemma ChunksFitTheLog(sb: Super, size: nat)
    requires sb.datastart == sb.bmapstart + 1 && size <= TxnBound(sb)
    ensures size <= 7 < L.MAXOPBLOCKS
    ensures !exists g :: A.PanicReachable(g, L.LOGSIZE, 7)
  {
    MapBlocksSize(sb, 1);
    A.PanicExactly(L.LOGSIZE, 7);
  }

  /** The next chunk of `n` remaining bytes: what fits in a transaction beside the inode, the
      indirect block and two blocks of slop, at two logged blocks per block written. */
  function ChunkSize(n: nat): (m: nat)
    ensures m <= n && m <= 3 * BSIZE && (n > 0 ==> m > 0)
  {
    var max := (L.MAXOPBLOCKS - 1 - 1 - 2) / 2 * BSIZE;
    if n > max then max else n
  }

  /** One log_write. */
  datatype Write = Write(b: nat, data: Block)

  /** The disk after some log_writes. */
  function Apply(disk: Disk, ws: seq<Write>): (r: Disk)
    ensures |r| == |disk|
  {
    if ws == [] then disk
    else
      var w, r := ws[|ws| - 1], Apply(disk, ws[..|ws| - 1]);
      if w.b < |r| then r[w.b := w.data] else r
  }

  ghost function BlocksOf(ws: seq<Write>): set<nat> {
    set w | w in ws :: w.b
  }

  /** The disk as the log presents it, and the log_writes since begin_op that have led to it. */
  datatype Txn = Txn(start: Disk, writes: seq<Write>, disk: Disk, logged: set<nat>)

  ghost predicate Follows(t: Txn) {
    t.disk == Apply(t.start, t.writes) && t.logged == BlocksOf(t.writes)
  }

  type Tx = t: Txn | Follows(t) witness Txn([], [], [], {})

  lemma TxMeans(t: Tx)
    ensures t.disk == Apply(t.start, t.writes) && t.logged == BlocksOf(t.writes)
  {
  }

  /** begin_op. */
  function Begin(disk: Disk): Tx {
    Txn(disk, [], disk, {})
  }

  lemma {:induction false} ApplyNext(disk: Disk, ws: seq<Write>, w: Write)
    requires w.b < |disk|
    ensures Apply(disk, ws + [w]) == Apply(disk, ws)[w.b := w.data]
  {
    assert (ws + [w])[..|ws|] == ws;
  }

  lemma BlocksNext(ws: seq<Write>, w: Write)
    ensures BlocksOf(ws + [w]) == BlocksOf(ws) + {w.b}
  {
    forall x | x in BlocksOf(ws) ensures x in BlocksOf(ws + [w]) {
      var v :| v in ws && v.b == x;
      assert v in ws + [w];
    }
    assert w in ws + [w];
  }

  // ---- the transactions of a filewrite ----

  /** A filewrite and the file system it starts from. */
  datatype Job = Job(sb: Super, inum: nat, off: nat, data: seq<Byte>, c: seq<Byte>,
                     disk: Disk, inodes: seq<Inode>, owner: Owner)

  /** What one transaction logs, and the file system it leaves, with `done` bytes written. */
  datatype Chunk = Chunk(writes: seq<Write>, disk: Disk, inodes: seq<Inode>, owner: Owner, done: nat)

  /** A file system that has the first `done` bytes written and is otherwise as at the start. */
  ghost predicate Reached(job: Job, disk: Disk, inodes: seq<Inode>, owner: Owner, done: nat) {
    && FsOk(disk, inodes, owner, job.sb) && job.inum < |inodes| && done <= |job.data|
    && Reads(disk, inodes[job.inum], Sofar(job.c, job.off, job.data, done))
    && OthersSame(job.disk, job.inodes, job.owner, disk, inodes, owner, job.inum)
    && (Synced(job.disk, job.inodes, job.sb) ==> Synced(disk, inodes, job.sb))
  }

  /** A transaction leads from disk `before` to such a file system and fits in the log. */
  ghost predicate ChunkOk(job: Job, before: Disk, t: Chunk) {
    && Reached(job, t.disk, t.inodes, t.owner, t.done)
    && t.disk == Apply(before, t.writes) && |BlocksOf(t.writes)| <= TxnBound(job.sb)
  }

  /** The disk after the first `k` transactions. */
  function DiskAt(job: Job, chunks: seq<Chunk>, k: nat): Disk
    requires k <= |chunks|
  {
    if k == 0 then job.disk else chunks[k - 1].disk
  }

  /** The transactions follow each other, and all but the last write a whole chunk. */
  ghost predicate History(job: Job, chunks: seq<Chunk>) {
    forall k: nat :: k < |chunks| ==> Link(job, chunks, k)
  }

  ghost predicate Link(job: Job, chunks: seq<Chunk>, k: nat)
    requires k < |chunks|
  {
    && ChunkOk(job, DiskAt(job, chunks, k), chunks[k])
    && (k + 1 < |chunks| ==> Whole(chunks[k].done, k + 1))
  }

  /** `done` bytes are `k` chunks. */
  predicate Whole(done: nat, k: nat) {
    done == k * (3 * BSIZE)
  }

  lemma HistoryNext(job: Job, chunks: seq<Chunk>, t: Chunk)
    requires History(job, chunks) && ChunkOk(job, DiskAt(job, chunks, |chunks|), t)
    requires |chunks| > 0 ==> Whole(chunks[|chunks| - 1].done, |chunks|)
    ensures History(job, chunks + [t])
  {
    hide ChunkOk, Whole;
    var chunks' := chunks + [t];
    forall k: nat | k < |chunks'| ensures Link(job, chunks', k) {
      if k < |chunks| {
        assert Link(job, chunks, k);
      }
    }
  }

  lemma ReachedStart(job: Job)
    requires FsOk(job.disk, job.inodes, job.owner, job.sb) && job.inum < |job.inodes|
    requires Reads(job.disk, job.inodes[job.inum], job.c)
    ensures Reached(job, job.disk, job.inodes, job.owner, 0)
  {
    SofarStart(job.c, job.off, job.data);
    OwnedAreData(job.disk, job.inodes, job.owner, job.sb, 0, 0, 0);
    hide Sofar, Reads;
  }

  lemma ReachedNext(job: Job, d1: Disk, i1: seq<Inode>, o1: Owner, done1: nat,
                    disk: Disk, inodes: seq<Inode>, owner: Owner, done: nat)
    requires Reached(job, d1, i1, o1, done1) && OthersSame(d1, i1, o1, disk, inodes, owner, job.inum)
    requires FsOk(disk, inodes, owner, job.sb) && job.inum < |inodes| && done <= |job.data|
    requires Reads(disk, inodes[job.inum], Sofar(job.c, job.off, job.data, done))
    requires Synced(d1, i1, job.sb) ==> Synced(disk, inodes, job.sb)
    ensures Reached(job, disk, inodes, owner, done)
  {
    hide FsOk, Reads, Sofar, Synced, OthersSame;
    OthersSameTwice(job.disk, job.inodes, job.owner, d1, i1, o1, disk, inodes, owner, job.inum);
  }

  /** filewrite after some transactions. */
  ghost predicate Doing(job: Job, chunks: seq<Chunk>, disk: Disk, inodes: seq<Inode>, owner: Owner, done: nat) {
    && History(job, chunks) && Reached(job, disk, inodes, owner, done)
    && disk == DiskAt(job, chunks, |chunks|) && done == if chunks == [] then 0 else chunks[|chunks| - 1].done
  }

  lemma DoingStart(job: Job)
    requires FsOk(job.disk, job.inodes, job.owner, job.sb) && job.inum < |job.inodes|
    requires Reads(job.disk, job.inodes[job.inum], job.c)
    ensures Doing(job, [], job.disk, job.inodes, job.owner, 0) && Whole(0, 0)
  {
    hide FsOk, Reads, Reached;
    ReachedStart(job);
  }

  lemma DoingMeans(job: Job, chunks: seq<Chunk>, disk: Disk, inodes: seq<Inode>, owner: Owner, done: nat)
    requires Doing(job, chunks, disk, inodes, owner, done)
    ensures History(job, chunks) && FsOk(disk, inodes, owner, job.sb) && job.inum < |inodes| && done <= |job.data|
    ensures Reads(disk, inodes[job.inum], Sofar(job.c, job.off, job.data, done))
  {
    hide History;
  }

  lemma DoingNext(job: Job, chunks: seq<Chunk>, d1: Disk, i1: seq<Inode>, o1: Owner, done: nat, t: Chunk)
    requires Doing(job, chunks, d1, i1, o1, done) && Whole(done, |chunks|) && ChunkOk(job, d1, t)
    ensures Doing(job, chunks + [t], t.disk, t.inodes, t.owner, t.done)
  {
    hide Reached, History, Whole;
    HistoryNext(job, chunks, t);
  }

  /** What a turn of filewrite's loop adds. */
  lemma TurnDone(job: Job, chunks: seq<Chunk>, d1: Disk, i1: seq<Inode>, o1: Owner, done1: nat,
                 t: Tx, inodes: seq<Inode>, owner: Owner, done: nat)
    requires Doing(job, chunks, d1, i1, o1, done1) && Whole(done1, |chunks|)
    requires t.start == d1 && |t.logged| <= TxnBound(job.sb) && OthersSame(d1, i1, o1, t.disk, inodes, owner, job.inum)
    requires FsOk(t.disk, inodes, owner, job.sb) && job.inum < |inodes| && done <= |job.data|
    requires Reads(t.disk, inodes[job.inum], Sofar(job.c, job.off, job.data, done))
    requires Synced(d1, i1, job.sb) ==> Synced(t.disk, inodes, job.sb)
    ensures Doing(job, chunks + [Chunk(t.writes, t.disk, inodes, owner, done)], t.disk, inodes, owner, done)
  {
    hide FsOk, Reads, Sofar, TxnBound, OthersSame, Synced, Whole, Apply, BlocksOf, History, DiskAt;
    TxMeans(t);
    ReachedNext(job, d1, i1, o1, done1, t.disk, inodes, owner, done);
    DoingNext(job, chunks, d1, i1, o1, done1, Chunk(t.writes, t.disk, inodes, owner, done));
  }

  /** After a whole chunk there is either nothing left or a whole number of chunks written. */
  lemma WholeNext(total: nat, done: nat, k: nat)
    requires done < total && Whole(done, k)
    ensures done + ChunkSize(total - done) <= total
    ensures done + ChunkSize(total - done) < total ==> Whole(done + ChunkSize(total - done), k + 1)
  {
  }

  class Fs {
    const sb: Super
    var inodes: seq<Inode>   // in-memory inodes, by inode number
    var tx: Tx
    ghost var owner: Owner

    ghost predicate Ok()
      reads this
    {
      FsOk(tx.disk, inodes, owner, sb)
    }

    method LogWrite(b: nat, data: Block)
      requires b < |tx.disk|
      modifies this`tx
      ensures tx.disk == old(tx.disk)[b := data] && tx.logged == old(tx.logged) + {b}
      ensures tx.start == old(tx.start)
    {
      ApplyNext(tx.start, tx.writes, Write(b, data));
      BlocksNext(tx.writes, Write(b, data));
      tx := Txn(tx.start, tx.writes + [Write(b, data)], tx.disk[b := data], tx.logged + {b});
    }

    /** The first block whose bit is clear, marked and zeroed; None is the panic "out of blocks". */
    method Balloc() returns (r: Option<nat>)
      requires sb.Valid() && |tx.disk| == sb.size
      modifies this`tx
      ensures r.None? ==> tx.disk == old(tx.disk) && tx.logged == old(tx.logged)
      ensures r.None? ==> AllMarked(tx.disk, sb, sb.size)
      ensures r.Some? ==>
        && r.value < sb.size && sb.BBlock(r.value) < |old(tx.disk)| && !BitOf(old(tx.disk), sb, r.value)
        && AllMarked(old(tx.disk), sb, r.value)
        && tx.disk == Allocated(old(tx.disk), sb, r.value)
        && tx.logged == old(tx.logged) + {sb.BBlock(r.value), r.value}
      ensures tx.start == old(tx.start)
    {
      hide AllMarked, Allocated, Follows;
      var b := 0;
      NoneBelow(tx.disk, sb);
      while b < sb.size
        invariant b % BPB == 0 && tx == old(tx)
        invariant AllMarked(tx.disk, sb, b)
      {
        BitmapArea(sb, b);
        var n := if sb.size - b < BPB then sb.size - b else BPB;
        var bi := FirstClear(tx.disk[sb.BBlock(b)], n);
        AllMarkedMore(tx.disk, sb, b, bi);
        if bi < n {
          TakeBlock(b, bi);
          return Some(b + bi);
        }
        b := b + BPB;
      }
      AllMarkedUp(tx.disk, sb, b);
      return None;
    }

    /** Mark block b + bi, whose bit is number `bi` of its bitmap block, and zero it. */
    method TakeBlock(b: nat, bi: nat)
      requires sb.Valid() && |tx.disk| == sb.size && b % BPB == 0 && bi < BPB && b + bi < sb.size
      modifies this`tx
      ensures sb.BBlock(b + bi) < |old(tx.disk)| && tx.disk == Allocated(old(tx.disk), sb, b + bi)
      ensures tx.logged == old(tx.logged) + {sb.BBlock(b + bi), b + bi}
      ensures tx.start == old(tx.start)
    {
      assert (b + bi) / BPB == b / BPB && (b + bi) % BPB == bi;
      BitmapArea(sb, b);
      hide SetBit, ZeroBlock;
      var bb := sb.BBlock(b);
      LogWrite(bb, SetBit(tx.disk[bb], bi, true));
      LogWrite(b + bi, ZeroBlock());
    }

    /** The first clear bit among the first `n` of a bitmap block, or `n`. */
    static method FirstClear(bp: Block, n: nat) returns (bi: nat)
      requires n <= BPB
      ensures bi <= n && (bi < n ==> !Bit(bp, bi))
      ensures forall k: nat :: k < bi ==> Bit(bp, k)
    {
      bi := 0;
      while bi < n && Bit(bp, bi)
        invariant 0 <= bi <= n
        invariant forall k: nat :: k < bi ==> Bit(bp, k)
      {
        bi := bi + 1;
      }
    }

    /** false is the panic "freeing free block". */
    method Bfree(b: nat) returns (ok: bool)
      requires sb.Valid() && |tx.disk| == sb.size && b < sb.size
      modifies this`tx
      ensures sb.BBlock(b) < |old(tx.disk)| && ok == BitOf(old(tx.disk), sb, b)
      ensures tx.disk == (if ok then Freed(old(tx.disk), sb, b) else old(tx.disk))
      ensures tx.logged == (if ok then old(tx.logged) + {sb.BBlock(b)} else old(tx.logged))
    {
      BitmapArea(sb, b);
      var bb := sb.BBlock(b);
      ok := Bit(tx.disk[bb], b % BPB);
      if ok {
        LogWrite(bb, SetBit(tx.disk[bb], b % BPB, false));
      }
    }

    /** `ip->addrs[k]`, allocated if it is zero. */
    method BmapAddr(inum: nat, k: nat) returns (r: Option<nat>)
      requires Ok() && inum < |inodes| && k <= NDIRECT
      modifies this`tx, this`inodes, this`owner
      ensures r.Some? ==>
        && Ok() && r.value in owner && owner[r.value] == (inum, k) && r.value == SlotAt(tx.disk, inodes[inum], k)
        && 0 < r.value < |tx.disk|
        && Grows(old(tx.disk), old(owner), tx.disk, owner, sb, inum)
        && inodes == old(inodes)[inum := WithAddr(old(inodes)[inum], k, r.value)]
        && (old(inodes)[inum].addrs[k] != 0 ==> r.value == old(inodes)[inum].addrs[k])
        && Indirect(old(inodes)[inum]) <= Indirect(inodes[inum])
        && tx.logged <= old(tx.logged) + MapBlocks(sb) + {r.value}
      ensures r.Some? && r.value in old(owner) ==>
        tx.disk == old(tx.disk) && inodes == old(inodes) && owner == old(owner) && tx.logged == old(tx.logged)
      ensures r.Some? && r.value !in old(owner) ==> tx.disk[r.value] == ZeroBlock()
      ensures old(inodes)[inum].addrs[k] != 0 ==> r.Some? && r.value in old(owner)
      ensures r.None? ==> AllMarked(tx.disk, sb, sb.size)
      ensures tx.start == old(tx.start)
    {
      hide Follows;
      var addr := inodes[inum].addrs[k];
      assert OwnedBy(owner, SlotAt(tx.disk, inodes[inum], k), inum, k);
      if addr != 0 {
        assert WithAddr(inodes[inum], k, addr) == inodes[inum];
        return Some(addr);
      }
      r := Balloc();
      if r.Some? {
        DirectGrows(old(tx.disk), inodes, owner, sb, inum, k, r.value);
        inodes := inodes[inum := WithAddr(inodes[inum], k, r.value)];
        owner := owner[r.value := (inum, k)];
        hide FsOk, Grows;
      }
    }

    /** Entry `j` of the indirect block, allocated if it is zero. */
    method BmapEntry(inum: nat, j: nat) returns (r: Option<nat>)
      requires Ok() && inum < |inodes| && j < NINDIRECT && inodes[inum].addrs[NDIRECT] != 0
      modifies this`tx, this`owner
      ensures r.Some? ==>
        && Ok() && r.value in owner && owner[r.value] == (inum, NDIRECT + 1 + j)
        && r.value == SlotAt(tx.disk, inodes[inum], NDIRECT + 1 + j)
        && Grows(old(tx.disk), old(owner), tx.disk, owner, sb, inum)
        && tx.logged <= old(tx.logged) + MapBlocks(sb) + {r.value, inodes[inum].addrs[NDIRECT]}
      ensures r.Some? && r.value in old(owner) ==>
        tx.disk == old(tx.disk) && owner == old(owner) && tx.logged == old(tx.logged)
      ensures r.Some? && r.value !in old(owner) ==> tx.disk[r.value] == ZeroBlock()
      ensures SlotAt(old(tx.disk), inodes[inum], NDIRECT + 1 + j) != 0 ==> r.Some? && r.value in old(owner)
      ensures r.None? ==> AllMarked(tx.disk, sb, sb.size)
      ensures tx.start == old(tx.start)
    {
      hide Follows;
      var ind := inodes[inum].addrs[NDIRECT];
      assert OwnedBy(owner, SlotAt(tx.disk, inodes[inum], NDIRECT), inum, NDIRECT);
      assert OwnedBy(owner, SlotAt(tx.disk, inodes[inum], NDIRECT + 1 + j), inum, NDIRECT + 1 + j);
      var addr := GetWord(tx.disk[ind], j);
      if addr != 0 {
        return Some(addr);
      }
      r := Balloc();
      if r.Some? {
        IndirectGrows(old(tx.disk), inodes, owner, sb, inum, j, r.value);
        owner := owner[r.value := (inum, NDIRECT + 1 + j)];
        LogWrite(ind, SetWord(tx.disk[ind], j, r.value));
        hide FsOk, Grows;
      }
    }

    /** Load the indirect block, allocating it if necessary, then its entry `j`. */
    method BmapIndirect(inum: nat, j: nat) returns (r: Option<nat>)
      requires Ok() && inum < |inodes| && j < NINDIRECT
      modifies this`tx, this`inodes, this`owner
      ensures r.Some? ==>
        && Ok() && r.value in owner && owner[r.value] == (inum, NDIRECT + 1 + j)
        && SlotAt(tx.disk, inodes[inum], NDIRECT + 1 + j) == r.value
        && Grows(old(tx.disk), old(owner), tx.disk, owner, sb, inum)
        && inodes == old(inodes)[inum := old(inodes)[inum].(addrs := inodes[inum].addrs)]
        && Indirect(old(inodes)[inum]) <= Indirect(inodes[inum])
        && tx.logged <= old(tx.logged) + MapBlocks(sb) + {r.value} + Indirect(inodes[inum])
      ensures r.Some? && r.value in old(owner) ==>
        tx.disk == old(tx.disk) && inodes == old(inodes) && owner == old(owner) && tx.logged == old(tx.logged)
      ensures r.Some? && r.value !in old(owner) ==> tx.disk[r.value] == ZeroBlock()
      ensures SlotAt(old(tx.disk), old(inodes)[inum], NDIRECT + 1 + j) != 0 ==> r.Some? && r.value in old(owner)
      ensures r.None? ==> AllMarked(tx.disk, sb, sb.size)
      ensures tx.start == old(tx.start)
    {
      hide Follows;
      assert InodeOk(inodes[inum]);
      assert SlotAt(tx.disk, inodes[inum], NDIRECT + 1 + j) != 0 ==> inodes[inum].addrs[NDIRECT] != 0;
      hide FsOk, SlotAt, AllMarked;
      var ind := BmapAddr(inum, NDIRECT);
      if ind.None? {
        return None;
      }
      assert inodes[inum].addrs[NDIRECT] == ind.value && |inodes| == |old(inodes)|;
      ghost var d1, o1, i1 := tx.disk, owner, inodes;
      if ind.value !in old(owner) {
        FreshIndirectEmpty(tx.disk, inodes, owner, sb, inum, j);
      }
      r := BmapEntry(inum, j);
      if r.Some? {
        GrowsTwice(old(tx.disk), old(owner), d1, o1, tx.disk, owner, sb, inum);
        if r.value in old(owner) {
          assert r.value in o1 && o1[r.value] == owner[r.value];
          assert ind.value in old(owner);
        }
      }
    }

    /** The disk block of block `bn` of the file, allocated if it is not there yet; None is a
        panic. A block already there is found without changing anything. */
    method Bmap(inum: nat, bn: nat) returns (r: Option<nat>)
      requires Ok() && inum < |inodes|
      modifies this`tx, this`inodes, this`owner
      ensures bn >= MAXFILE ==> r.None?
      ensures r.None? ==> bn >= MAXFILE || AllMarked(tx.disk, sb, sb.size)
      ensures r.Some? ==>
        && Ok() && r.value in owner && owner[r.value] == (inum, FileSlot(bn))
        && SlotAt(tx.disk, inodes[inum], FileSlot(bn)) == r.value
        && Grows(old(tx.disk), old(owner), tx.disk, owner, sb, inum)
        && inodes == old(inodes)[inum := old(inodes)[inum].(addrs := inodes[inum].addrs)]
        && Indirect(old(inodes)[inum]) <= Indirect(inodes[inum])
        && tx.logged <= old(tx.logged) + MapBlocks(sb) + {r.value} + Indirect(inodes[inum])
      ensures r.Some? && r.value in old(owner) ==>
        tx.disk == old(tx.disk) && inodes == old(inodes) && owner == old(owner) && tx.logged == old(tx.logged)
      ensures r.Some? && r.value !in old(owner) ==> tx.disk[r.value] == ZeroBlock()
      ensures bn < MAXFILE && SlotAt(old(tx.disk), old(inodes)[inum], FileSlot(bn)) != 0 ==>
        r.Some? && r.value in old(owner)
      ensures tx.start == old(tx.start)
    {
      hide FsOk, SlotAt, Grows, Indirect, MapBlocks, AllMarked;
      SlotAddrs(tx.disk, inodes, owner, sb, inum, bn);
      if bn < NDIRECT {
        r := BmapAddr(inum, bn);
      } else if bn - NDIRECT < NINDIRECT {
        assert FileSlot(bn) == NDIRECT + 1 + (bn - NDIRECT);
        r := BmapIndirect(inum, bn - NDIRECT);
      } else {
        return None;
      }
    }

    method Iupdate(inum: nat)
      requires Ok() && inum < |inodes|
      modifies this`tx
      ensures Ok() && sb.IBlock(inum) < |tx.disk| == |old(tx.disk)| && tx.logged == old(tx.logged) + {sb.IBlock(inum)}
      ensures forall x :: 0 <= x < |tx.disk| && x != sb.IBlock(inum) ==> tx.disk[x] == old(tx.disk)[x]
      ensures forall c {:trigger c in owner} :: c in owner ==> c < |tx.disk| && tx.disk[c] == old(tx.disk)[c]
      ensures OnlyInode(old(tx.disk), tx.disk, inodes, sb, inum)
      ensures tx.start == old(tx.start)
    {
      AddrsFit(tx.disk, inodes, owner, sb, inum);
      IupdateOk(tx.disk, inodes, owner, sb, inum);
      assert sb.bmapstart < sb.datastart;
      hide FsOk, StoreInode, OnlyInode;
      var ib := sb.IBlock(inum);
      LogWrite(ib, StoreInode(tx.disk[ib], inum % IPB, inodes[inum]));
    }

    /** One round of writei: find the block, then copy `m` bytes into it unless the copy fails;
        None is a panic. */
    method WriteBlock(inum: nat, off: nat, data: seq<Byte>, tot: nat, m: nat, copied: bool, ghost c: seq<Byte>)
      returns (r: Option<nat>)
      requires Ok() && inum < |inodes| && Written(tx.disk, inodes[inum], c, off, data, tot)
      requires tot + m <= |data| && off + tot + m <= MAXFILE * BSIZE && 0 < m <= BSIZE - (off + tot) % BSIZE
      modifies this`tx, this`inodes, this`owner
      ensures r.Some? ==>
        && Progress(old(tx.disk), old(inodes), old(owner), tx.disk, inodes, owner, sb, inum, c, off, data,
                    if copied then tot + m else tot)
        && inum < |inodes| && LogsWithin(old(tx.logged), tx.logged, sb, {r.value}, old(inodes)[inum], inodes[inum])
      ensures r.None? ==> AllMarked(tx.disk, sb, sb.size)
      ensures tx.start == old(tx.start)
    {
      hide Follows;
      assert InodeOk(inodes[inum]);
      hide FsOk, Written, OwnedKept, SlotAt, OthersKept, MetaKept, AllMarked;
      r := Bmap(inum, (off + tot) / BSIZE);
      if r.Some? {
        var a := r.value;
        var at := (off + tot) % BSIZE;
        ghost var d1, o1 := tx.disk, owner;
        if copied {
          assert FileSlot((off + tot) / BSIZE) != NDIRECT;
          DataNotIndirect(tx.disk, inodes, owner, sb, a);
          WriteRound(old(tx.disk), old(inodes), old(owner), tx.disk, inodes, owner, sb, inum, a, c, off, data, tot, m);
          var block := Splice(tx.disk[a], at, data[tot..tot + m]);
          DataWriteOk(tx.disk, inodes, owner, sb, a, block);
          MetaAfterData(old(tx.disk), old(owner), d1, o1, sb, inum, a, block);
          LogWrite(a, block);
        } else {
          GrowsKeepsWritten(old(tx.disk), old(inodes), old(owner), tx.disk, inodes, owner, sb, inum, c, off, data, tot);
          GrowsKeepsOthers(old(tx.disk), old(owner), tx.disk, owner, inum);
        }
      }
    }

    /** The end of writei: grow the size if the write went past it and write the inode back. */
    method FinishWrite(inum: nat, off: nat, data: seq<Byte>, tot: nat, ghost c: seq<Byte>)
      requires Ok() && inum < |inodes| && Written(tx.disk, inodes[inum], c, off, data, tot) && inodes[inum].size == |c|
      modifies this`tx, this`inodes
      ensures Ok() && Reads(tx.disk, inodes[inum], Overwrite(c, off, data, tot))
      ensures inodes == old(inodes)[inum := old(inodes)[inum].(size := inodes[inum].size)]
      ensures OthersKept(old(tx.disk), owner, tx.disk, owner, inum) &&
          OnlyInode(old(tx.disk), tx.disk, inodes, sb, inum)
      ensures tx.logged == old(tx.logged) + {sb.IBlock(inum)}
      ensures tx.start == old(tx.start)
    {
      hide SlotAt, Owns, Marked;
      var size := if off + tot > inodes[inum].size then off + tot else inodes[inum].size;
      AddrsDecide(tx.disk, inodes, owner, sb, inum, inodes[inum].(size := size));
      inodes := inodes[inum := inodes[inum].(size := size)];
      Iupdate(inum);
      hide FsOk, Holds;
      GrowsKeepsWritten(old(tx.disk), old(inodes), owner, tx.disk, inodes, owner, sb, inum, c, off, data, tot);
      WriteEnds(tx.disk, inodes[inum], c, off, data, tot);
    }

    /** The loop of writei, block by block until all is written or a copy fails. */
    method WriteBlocks(inum: nat, off: nat, data: seq<Byte>, readable: nat, ghost c: seq<Byte>)
      returns (tot: nat, panic: bool, ghost touched: set<nat>)
      requires Ok() && inum < |inodes| && Reads(tx.disk, inodes[inum], c)
      requires off <= |c| && off + |data| <= MAXFILE * BSIZE
      modifies this`tx, this`inodes, this`owner
      ensures !panic ==>
        && tot <= |data|
        && Progress(old(tx.disk), old(inodes), old(owner), tx.disk, inodes, owner, sb, inum, c, off, data, tot)
        && (tot == |data| || tot <= readable < tot + BSIZE) && (readable >= |data| ==> tot == |data|)
        && inum < |inodes| && LogsWithin(old(tx.logged), tx.logged, sb, touched, old(inodes)[inum], inodes[inum])
        && |touched| <= Touched(off, |data|)
      ensures panic ==> AllMarked(tx.disk, sb, sb.size)
      ensures tx.start == old(tx.start)
    {
      hide Follows;
      touched := {};
      panic := false;
      var n := |data|;
      assert InodeOk(inodes[inum]);
      ProgressStarts(tx.disk, inodes, owner, sb, inum, c, off, data);
      var copied := true;
      tot := 0;
      hide FsOk, Progress, LogsWithin, AllMarked, Written;
      while tot < n && copied
        invariant BetweenRounds(off, n, tot) && tot <= readable && tx.start == old(tx.start)
        invariant !copied ==> tot < n && readable < tot + BSIZE && readable < n
        invariant Progress(old(tx.disk), old(inodes), old(owner), tx.disk, inodes, owner, sb, inum, c, off, data, tot)
        invariant inum < |inodes| && LogsWithin(old(tx.logged), tx.logged, sb, touched, old(inodes)[inum], inodes[inum])
        invariant |touched| <= (if copied then Touched(off, tot) else Touched(off, n))
        decreases n - tot, copied
      {
        var m := if n - tot < BSIZE - (off + tot) % BSIZE then n - tot else BSIZE - (off + tot) % BSIZE;
        NextRound(off, n, tot, m);
        hide BetweenRounds, Touched;
        copied := tot + m <= readable;
        ProgressMeans(old(tx.disk), old(inodes), old(owner), tx.disk, inodes, owner, sb, inum, c, off, data, tot);
        ghost var d1, i1, o1, l1 := tx.disk, inodes, owner, tx.logged;
        var a := WriteBlock(inum, off, data, tot, m, copied, c);
        if a.None? {
          panic := true;
          return;
        }
        ProgressTwice(old(tx.disk), old(inodes), old(owner), d1, i1, o1, tx.disk, inodes, owner, sb, inum, c, off, data,
                      tot, if copied then tot + m else tot);
        LogsTwice(old(tx.logged), l1, tx.logged, sb, touched, {a.value}, old(inodes)[inum], i1[inum], inodes[inum]);
        touched := touched + {a.value};
        if copied {
          tot := tot + m;
        }
      }
    }

    /** Write `data` at `off`. The user memory it comes from can be read up to byte `readable`; a
        copy that goes beyond fails as a whole. `touched` are the data blocks it logs. */
    method Writei(inum: nat, off: nat, data: seq<Byte>, readable: nat, ghost c: seq<Byte>)
      returns (r: WriteResult, ghost touched: set<nat>)
      requires Ok() && inum < |inodes| && Reads(tx.disk, inodes[inum], c)
      requires off < 0x1_0000_0000 && |data| < 0x1_0000_0000
      modifies this
      ensures r.Refused? <==> off > |c| || off + |data| > MAXFILE * BSIZE
      ensures r.Refused? ==>
        tx.disk == old(tx.disk) && inodes == old(inodes) && owner == old(owner) && tx.logged == old(tx.logged)
      ensures r.Wrote? ==>
        && Ok() && r.n <= |data| && off <= |c| && Reads(tx.disk, inodes[inum], Overwrite(c, off, data, r.n))
        && inodes == old(inodes)[inum := old(inodes)[inum].(addrs := inodes[inum].addrs, size := inodes[inum].size)]
        && OthersKept(old(tx.disk), old(owner), tx.disk, owner, inum) &&
            OnlyInode(old(tx.disk), tx.disk, inodes, sb, inum)
        && (r.n == |data| || r.n <= readable < r.n + BSIZE) && (readable >= |data| ==> r.n == |data|)
        && |touched| <= Touched(off, |data|)
        && tx.logged <= old(tx.logged) + MapBlocks(sb) + touched + Indirect(inodes[inum]) + {sb.IBlock(inum)}
      ensures r.Panicked? ==> AllMarked(tx.disk, sb, sb.size)
      ensures tx.start == old(tx.start)
    {
      hide Follows;
      touched := {};
      var n := |data|;
      if off > inodes[inum].size || (off + n) % 0x1_0000_0000 < off {
        return Refused, touched;
      }
      if (off + n) % 0x1_0000_0000 > MAXFILE * BSIZE {
        return Refused, touched;
      }
      assert sb.Valid() && |inodes| == sb.ninodes;
      hide FsOk, Written, Reads, OthersKept, MetaKept, OnlyInode, Touched, Indirect, AllMarked;
      var tot, panic;
      tot, panic, touched := WriteBlocks(inum, off, data, readable, c);
      if panic {
        return Panicked, touched;
      }
      ghost var d1, o1 := tx.disk, owner;
      FinishWrite(inum, off, data, tot, c);
      OthersKeptTwice(old(tx.disk), old(owner), d1, o1, tx.disk, owner, inum);
      OnlyInodeSince(old(tx.disk), d1, tx.disk, inodes, sb, inum);
      return Wrote(tot), touched;
    }

    /** bfree of the block in slot `k` of the inode, whose slots [lo, hi) are already given up. It
        never panics. */
    method Release(inum: nat, k: nat, b: nat, ghost lo: nat, ghost hi: nat) returns (ok: bool)
      requires Shape(tx.disk, inodes, sb) && OwnsBut(tx.disk, inodes, owner, sb, inum, lo, hi) &&
          Marked(tx.disk, owner, {}, sb)
      requires inum < |inodes| && k < NSLOTS && lo <= hi && (k == hi || k + 1 == lo) && !(lo <= NDIRECT < hi)
      requires b == SlotAt(tx.disk, inodes[inum], k) != 0
      modifies this`tx, this`owner
      ensures ok && Shape(tx.disk, inodes, sb) && Marked(tx.disk, owner, {}, sb)
      ensures OwnsBut(tx.disk, inodes, owner, sb, inum, if k == hi then lo else k, if k == hi then k + 1 else hi)
      ensures b in old(owner) && old(owner)[b] == (inum, k)
      ensures owner == old(owner) - {b} && forall c :: c in owner ==> owner[c] != (inum, k)
      ensures forall c {:trigger c in old(owner)} :: c in old(owner) ==> c < |tx.disk| && tx.disk[c] == old(tx.disk)[c]
      ensures Shrinks(old(tx.disk), old(owner), tx.disk, owner, sb, inum) && tx.logged <= old(tx.logged) + MapBlocks(sb)
    {
      hide Follows;
      FreeSlot(tx.disk, inodes, owner, sb, inum, lo, hi, k);
      OwnedAreData(tx.disk, inodes, owner, sb, inum, lo, hi);
      FreeShrinks(tx.disk, owner, sb, b, inum);
      hide OwnsBut, Marked, Shrinks, SlotAt, Freed;
      ok := Bfree(b);
      owner := owner - {b};
    }

    /** Give back a direct block. */
    method FreeDirect(inum: nat, k: nat) returns (ok: bool)
      requires Ok() && inum < |inodes| && k < NDIRECT
      modifies this`tx, this`inodes, this`owner
      ensures ok && Ok() && |inodes| == |old(inodes)| &&
          inodes == old(inodes)[inum := WithAddr(old(inodes)[inum], k, 0)]
      ensures Shrinks(old(tx.disk), old(owner), tx.disk, owner, sb, inum) && tx.logged <= old(tx.logged) + MapBlocks(sb)
    {
      var b := inodes[inum].addrs[k];
      assert OwnsBut(tx.disk, inodes, owner, sb, inum, k, k);
      if b == 0 {
        assert WithAddr(inodes[inum], k, 0) == inodes[inum];
        ShrinksRefl(tx.disk, inodes, owner, sb, inum, k, k);
        return true;
      }
      assert SlotAt(tx.disk, inodes[inum], k) == b;
      ok := Release(inum, k, b, k, k);
      OwnsAfterClear(tx.disk, inodes, owner, sb, inum, k);
      inodes := inodes[inum := WithAddr(inodes[inum], k, 0)];
      hide OwnsBut, Marked, Shrinks, SlotAt;
    }

    method FreeEntry(inum: nat, j: nat) returns (ok: bool)
      requires j < NINDIRECT && EntriesFreed(tx.disk, inodes, owner, sb, inum, j)
      modifies this`tx, this`owner
      ensures ok && EntriesFreed(tx.disk, inodes, owner, sb, inum, j + 1) &&
          Shrinks(old(tx.disk), old(owner), tx.disk, owner, sb, inum)
      ensures tx.logged <= old(tx.logged) + MapBlocks(sb)
      ensures tx.disk[inodes[inum].addrs[NDIRECT]] == old(tx.disk)[inodes[inum].addrs[NDIRECT]]
    {
      hide Follows;
      hide OwnsBut, Marked, Shrinks, SlotAt;
      EntrySlot(tx.disk, inodes, sb, inum, j);
      var b := GetWord(tx.disk[inodes[inum].addrs[NDIRECT]], j);
      ok := true;
      if b != 0 {
        ok := Release(inum, NDIRECT + 1 + j, b, NDIRECT + 1, NDIRECT + 1 + j);
      } else {
        SkipSlot(tx.disk, inodes, owner, sb, inum, NDIRECT + 1, NDIRECT + 1 + j);
        ShrinksRefl(tx.disk, inodes, owner, sb, inum, NDIRECT + 1, NDIRECT + 1 + j);
      }
    }

    /** Give back every block the indirect block names. */
    method FreeEntries(inum: nat) returns (ok: bool)
      requires EntriesFreed(tx.disk, inodes, owner, sb, inum, 0)
      modifies this`tx, this`owner
      ensures ok && EntriesFreed(tx.disk, inodes, owner, sb, inum, NINDIRECT) &&
          Shrinks(old(tx.disk), old(owner), tx.disk, owner, sb, inum)
      ensures tx.logged <= old(tx.logged) + MapBlocks(sb)
    {
      hide Follows, EntriesFreed, Shrinks, MapBlocks;
      ok := true;
      var j := 0;
      EntriesRefl(tx.disk, inodes, owner, sb, inum, 0);
      while j < NINDIRECT
        invariant 0 <= j <= NINDIRECT && ok && EntriesFreed(tx.disk, inodes, owner, sb, inum, j)
        invariant Shrinks(old(tx.disk), old(owner), tx.disk, owner, sb, inum) &&
            tx.logged <= old(tx.logged) + MapBlocks(sb)
      {
        ghost var d1, o1 := tx.disk, owner;
        ok := FreeEntry(inum, j);
        ShrinksTwice(old(tx.disk), old(owner), d1, o1, tx.disk, owner, sb, inum);
        j := j + 1;
      }
    }

    /** Give back the entries of the indirect block, then the indirect block itself. */
    method FreeIndirect(inum: nat) returns (ok: bool)
      requires Ok() && inum < |inodes| && inodes[inum].addrs[NDIRECT] != 0
      modifies this`tx, this`inodes, this`owner
      ensures ok && Ok() && |inodes| == |old(inodes)| &&
          inodes == old(inodes)[inum := WithAddr(old(inodes)[inum], NDIRECT, 0)]
      ensures Shrinks(old(tx.disk), old(owner), tx.disk, owner, sb, inum) && tx.logged <= old(tx.logged) + MapBlocks(sb)
    {
      hide Follows;
      var ind := inodes[inum].addrs[NDIRECT];
      EntriesStart(tx.disk, inodes, owner, sb, inum);
      hide FsOk, OwnsBut, Marked, Shrinks, SlotAt;
      ok := FreeEntries(inum);
      ghost var d1, o1 := tx.disk, owner;
      EntrySlot(tx.disk, inodes, sb, inum, 0);
      ok := Release(inum, NDIRECT, ind, NDIRECT + 1, NSLOTS);
      ShrinksTwice(old(tx.disk), old(owner), d1, o1, tx.disk, owner, sb, inum);
      EntriesEnd(tx.disk, inodes, owner, sb, inum);
      inodes := inodes[inum := WithAddr(inodes[inum], NDIRECT, 0)];
    }

    /** Discard the contents of an inode: all its blocks, and only they, become free, and bfree
        never meets a free block (ok is always true). */
    method Itrunc(inum: nat) returns (ok: bool)
      requires Ok() && inum < |inodes|
      modifies this
      ensures ok && Ok() && |inodes| == |old(inodes)| && Reads(tx.disk, inodes[inum], [])
      ensures inodes == old(inodes)[inum := Inode(old(inodes)[inum].meta, 0, seq(NDIRECT + 1, _ => 0))]
      ensures OthersKept(old(tx.disk), old(owner), tx.disk, owner, inum) &&
          OnlyInode(old(tx.disk), tx.disk, inodes, sb, inum)
      ensures forall c {:trigger c in owner} :: c in owner <==> c in old(owner) && old(owner)[c].0 != inum
      ensures tx.logged <= old(tx.logged) + MapBlocks(sb) + {sb.IBlock(inum)}
    {
      hide Follows;
      assert InodeOk(inodes[inum]) && sb.Valid() && |inodes| == sb.ninodes;
      assert OwnsBut(tx.disk, inodes, owner, sb, inum, 0, 0);
      ShrinksRefl(tx.disk, inodes, owner, sb, inum, 0, 0);
      hide FsOk, Shrinks, OthersKept, MetaKept, SlotAt, OnlyInode;
      var k := 0;
      while k < NDIRECT
        invariant 0 <= k <= NDIRECT && Ok() && |inodes| == |old(inodes)| && |inodes[inum].addrs| == NDIRECT + 1
        invariant inodes == old(inodes)[inum := old(inodes)[inum].(addrs := inodes[inum].addrs)]
        invariant forall l :: 0 <= l < k ==> inodes[inum].addrs[l] == 0
        invariant Shrinks(old(tx.disk), old(owner), tx.disk, owner, sb, inum) &&
            tx.logged <= old(tx.logged) + MapBlocks(sb)
      {
        ghost var d1, o1 := tx.disk, owner;
        ok := FreeDirect(inum, k);
        ShrinksTwice(old(tx.disk), old(owner), d1, o1, tx.disk, owner, sb, inum);
        k := k + 1;
      }
      if inodes[inum].addrs[NDIRECT] != 0 {
        ghost var d1, o1 := tx.disk, owner;
        ok := FreeIndirect(inum);
        ShrinksTwice(old(tx.disk), old(owner), d1, o1, tx.disk, owner, sb, inum);
      }
      EmptyOwnsNothing(tx.disk, inodes, owner, sb, inum);
      AddrsDecide(tx.disk, inodes, owner, sb, inum, inodes[inum].(size := 0));
      inodes := inodes[inum := inodes[inum].(size := 0)];
      assert inodes[inum].addrs == seq(NDIRECT + 1, _ => 0);
      ghost var d1 := tx.disk;
      Iupdate(inum);
      TruncDone(old(tx.disk), old(owner), d1, tx.disk, owner, inodes, sb, inum);
      ok := true;
    }

    /** iput of the last reference to an inode without links: its blocks are given back and it is free on
        disk; no other file and no other inode changes. */
    method FreeInode(inum: nat) returns (ok: bool)
      requires Ok() && inum < |inodes|
      modifies this
      ensures ok && Ok() && |inodes| == |old(inodes)| && inum < sb.ninodes
      ensures forall i :: 0 <= i < |inodes| && i != inum ==> inodes[i] == old(inodes)[i]
      ensures IsFree(inodes[inum]) && Reads(tx.disk, inodes[inum], [])
      ensures OthersKept(old(tx.disk), old(owner), tx.disk, owner, inum) &&
          OnlyInode(old(tx.disk), tx.disk, inodes, sb, inum)
      ensures forall c {:trigger c in owner} :: c in owner <==> c in old(owner) && old(owner)[c].0 != inum
      ensures tx.logged <= old(tx.logged) + MapBlocks(sb) + {sb.IBlock(inum)}
    {
      hide FsOk, OthersKept, OnlyInode, WithoutType, IsFree;
      ok := Itrunc(inum);
      ghost var d1, inodes1 := tx.disk, inodes;
      UntypedOk(tx.disk, inodes, owner, sb, inum);
      inodes := inodes[inum := WithoutType(inodes[inum])];
      Iupdate(inum);
      OnlyInodeTwice(old(tx.disk), d1, tx.disk, inodes1, inodes, sb, inum);
      OthersKeptStill(old(tx.disk), old(owner), d1, tx.disk, owner, inum);
    }

    /** One round of readi: `m` bytes of the file at `cur`, all in one block. */
    method ReadBlock(inum: nat, cur: nat, m: nat, ghost c: seq<Byte>) returns (bytes: seq<Byte>)
      requires Ok() && inum < |inodes| && Reads(tx.disk, inodes[inum], c)
      requires cur + m <= |c| && 0 < m <= BSIZE - cur % BSIZE
      modifies this`tx, this`inodes, this`owner
      ensures tx.disk == old(tx.disk) && inodes == old(inodes) && owner == old(owner) && tx.logged == old(tx.logged)
      ensures bytes == c[cur..cur + m]
    {
      ReadsMapped(tx.disk, inodes[inum], c, cur);
      hide FsOk, Reads, SlotAt;
      var a := Bmap(inum, cur / BSIZE);
      ReadRound(tx.disk, inodes[inum], c, cur, m, a.value);
      bytes := tx.disk[a.value].bytes[cur % BSIZE..cur % BSIZE + m];
    }

    /** Read up to `n` bytes at `off` into user memory that can be written up to byte `writable`.
        The result is -1 exactly when the clipped range does not fit there; nothing is allocated
        or logged. */
    method Readi(inum: nat, off: nat, n: nat, writable: nat, ghost c: seq<Byte>) returns (r: int, dst: seq<Byte>)
      requires Ok() && inum < |inodes| && Reads(tx.disk, inodes[inum], c)
      requires off < 0x1_0000_0000 && n < 0x1_0000_0000
      modifies this`tx, this`inodes, this`owner
      ensures tx.disk == old(tx.disk) && inodes == old(inodes) && owner == old(owner) && tx.logged == old(tx.logged)
      ensures off > |c| || off + n >= 0x1_0000_0000 ==> r == 0 && dst == []
      ensures off <= |c| && off + n < 0x1_0000_0000 ==>
        var m := if off + n > |c| then |c| - off else n;
        if m <= writable then r == m && dst == c[off..off + m] else r == -1 && |dst| <= m && dst == c[off..off + |dst|]
    {
      hide Follows;
      hide FsOk, Reads;
      ReadsSize(tx.disk, inodes[inum], c);
      if off > inodes[inum].size || (off + n) % 0x1_0000_0000 < off {
        return 0, [];
      }
      var len := if off + n > inodes[inum].size then inodes[inum].size - off else n;
      var tot := 0;
      dst := [];
      while tot < len
        invariant 0 <= tot <= len && (tot == 0 || tot <= writable) && dst == c[off..off + tot]
        invariant tx.disk == old(tx.disk) && inodes == old(inodes) && owner == old(owner) && tx.logged == old(tx.logged)
      {
        var at := (off + tot) % BSIZE;
        var m := if len - tot < BSIZE - at then len - tot else BSIZE - at;
        var bytes := ReadBlock(inum, off + tot, m, c);
        if tot + m > writable {
          return -1, dst;
        }
        assert c[off..off + tot] + c[off + tot..off + tot + m] == c[off..off + (tot + m)];
        dst := dst + bytes;
        tot := tot + m;
      }
      return tot, dst;
    }

    /** begin_op, writei of one chunk of filewrite, end_op. */
    method WriteChunk(inum: nat, off: nat, data: seq<Byte>, readable: nat, ghost c: seq<Byte>)
      returns (r: WriteResult)
      requires Ok() && inum < |inodes| && Reads(tx.disk, inodes[inum], c)
      requires off < 0x1_0000_0000 && |data| <= 3 * BSIZE
      modifies this
      ensures r.Refused? <==> off > |c| || off + |data| > MAXFILE * BSIZE
      ensures r.Refused? ==> Ok() && inum < |inodes| && Reads(tx.disk, inodes[inum], c)
      ensures r.Wrote? ==>
        && Ok() && inum < |inodes| && r.n <= |data| && off <= |c| &&
            Reads(tx.disk, inodes[inum], Sofar(c, off, data, r.n))
        && (readable >= |data| ==> r.n == |data|)
      ensures !r.Panicked? ==> |tx.logged| <= TxnBound(sb) && tx.start == old(tx.disk)
      ensures !r.Panicked? ==> OthersSame(old(tx.disk), old(inodes), old(owner), tx.disk, inodes, owner, inum)
      ensures !r.Panicked? && Synced(old(tx.disk), old(inodes), sb) ==> Synced(tx.disk, inodes, sb)
      ensures r.Panicked? ==> AllMarked(tx.disk, sb, sb.size)
    {
      hide Follows;
      tx := Begin(tx.disk);
      ghost var touched;
      r, touched := Writei(inum, off, data, readable, c);
      if r.Wrote? {
        ChunkTouches(off, |data|);
        assert InodeOk(inodes[inum]);
        hide FsOk, Reads, OthersKept, OnlyInode, Touched, Synced;
        UnionSize(tx.logged, MapBlocks(sb), touched, Indirect(inodes[inum]), {sb.IBlock(inum)});
        if Synced(old(tx.disk), old(inodes), sb) {
          SyncedAfter(old(tx.disk), old(inodes), tx.disk, inodes, sb, inum);
        }
      }
    }

    /** One turn of filewrite's loop: the next chunk as one transaction; `more` if all of it was
        written. */
    method WriteNext(inum: nat, off: nat, data: seq<Byte>, done: nat, readable: nat, ghost c: seq<Byte>)
      returns (n: nat, more: bool, panic: bool)
      requires Ok() && inum < |inodes| && done < |data| && Reads(tx.disk, inodes[inum], Sofar(c, off, data, done))
      requires off < 0x1_0000_0000 && (done == 0 || (off <= |c| && off + done <= MAXFILE * BSIZE))
      modifies this
      ensures panic ==> n == 0 && !more
      ensures done + n <= |data| && (n == 0 || (off <= |c| && off + done + n <= MAXFILE * BSIZE))
      ensures more ==> 0 < n == ChunkSize(|data| - done)
      ensures !panic ==> Ok() && inum < |inodes| && Reads(tx.disk, inodes[inum], Sofar(c, off, data, done + n))
      ensures !panic && !more ==> done + n < |data| && !WriteFits(off, data, readable, c)
      ensures !panic ==> |tx.logged| <= TxnBound(sb) && tx.start == old(tx.disk)
      ensures !panic ==> OthersSame(old(tx.disk), old(inodes), old(owner), tx.disk, inodes, owner, inum)
      ensures !panic && Synced(old(tx.disk), old(inodes), sb) ==> Synced(tx.disk, inodes, sb)
      ensures panic ==> AllMarked(tx.disk, sb, sb.size)
    {
      hide FsOk, Reads, Sofar, TxnBound, ChunkSize, OthersSame, AllMarked, Synced;
      var n1 := ChunkSize(|data| - done);
      var chunk := data[done..done + n1];
      var left := if readable > done then readable - done else 0;
      ghost var now := Sofar(c, off, data, done);
      if off <= |c| {
        SofarSize(c, off, data, done);
      } else {
        SofarPast(c, off, data, done);
      }
      var r := WriteChunk(inum, off + done, chunk, left, now);
      match r {
        case Panicked => n, more, panic := 0, false, true;
        case Refused => n, more, panic := 0, false, false;
        case Wrote(m) =>
          SofarNext(c, off, data, done, chunk, m);
          n, more, panic := m, m == n1, false;
      }
    }

    /** The same, as a transaction of the filewrite `job`. */
    method WriteTurn(inum: nat, off: nat, data: seq<Byte>, done: nat, readable: nat,
                     ghost job: Job, ghost chunks: seq<Chunk>)
      returns (n: nat, more: bool, panic: bool, ghost chunk: Chunk)
      requires Doing(job, chunks, tx.disk, inodes, owner, done) && done < |data| && Whole(done, |chunks|)
      requires job.sb == sb && job.inum == inum && job.off == off && job.data == data
      requires off < 0x1_0000_0000 && (done == 0 || (off <= |job.c| && off + done <= MAXFILE * BSIZE))
      modifies this
      ensures panic ==> n == 0 && !more && AllMarked(tx.disk, sb, sb.size)
      ensures done + n <= |data| && (n == 0 || (off <= |job.c| && off + done + n <= MAXFILE * BSIZE))
      ensures more ==> 0 < n == ChunkSize(|data| - done)
      ensures !panic ==> Doing(job, chunks + [chunk], tx.disk, inodes, owner, done + n)
      ensures !panic && !more ==> done + n < |data| && !WriteFits(off, data, readable, job.c)
    {
      hide Follows, FsOk, Reads, Sofar, TxnBound, WriteFits, OthersSame, AllMarked, Synced, Doing, ChunkSize, Whole;
      DoingMeans(job, chunks, tx.disk, inodes, owner, done);
      ghost var d1, i1, o1 := tx.disk, inodes, owner;
      n, more, panic := WriteNext(inum, off, data, done, readable, job.c);
      chunk := Chunk(tx.writes, tx.disk, inodes, owner, done + n);
      if !panic {
        TurnDone(job, chunks, d1, i1, o1, done, tx, inodes, owner, done + n);
      }
    }

    /** filewrite on an inode: one transaction per chunk, all of them in `chunks`. */
    method Filewrite(inum: nat, off: nat, data: seq<Byte>, readable: nat, ghost c: seq<Byte>)
      returns (r: WriteResult, done: nat, ghost chunks: seq<Chunk>)
      requires Ok() && inum < |inodes| && Reads(tx.disk, inodes[inum], c) && off < 0x1_0000_0000
      modifies this
      ensures var job := Job(sb, inum, off, data, c, old(tx.disk), old(inodes), old(owner));
              if r.Panicked? then History(job, chunks) && AllMarked(tx.disk, sb, sb.size)
              else Doing(job, chunks, tx.disk, inodes, owner, done)
      ensures !r.Panicked? ==>
        && (off <= |c| || done == 0)
        && (if done == |data| then r == Wrote(|data|) else r == Refused)
        && (WriteFits(off, data, readable, c) ==> done == |data|)
    {
      hide Follows, FsOk, Reads, WriteFits, AllMarked, Doing, History, ChunkSize, Whole;
      ghost var job := Job(sb, inum, off, data, c, tx.disk, inodes, owner);
      done := 0;
      chunks := [];
      DoingStart(job);
      var more, panic := true, false;
      while done < |data| && more
        invariant done <= |data| && (done == 0 || (off <= |c| && off + done <= MAXFILE * BSIZE))
        invariant if panic then !more && History(job, chunks) && AllMarked(tx.disk, sb, sb.size)
                  else Doing(job, chunks, tx.disk, inodes, owner, done)
        invariant !more && !panic ==> done < |data| && !WriteFits(off, data, readable, c)
        invariant more && done < |data| ==> Whole(done, |chunks|)
        decreases |data| - done, more
      {
        var n;
        ghost var chunk;
        DoingMeans(job, chunks, tx.disk, inodes, owner, done);
        n, more, panic, chunk := WriteTurn(inum, off, data, done, readable, job, chunks);
        WholeNext(|data|, done, |chunks|);
        if !panic {
          chunks := chunks + [chunk];
        }
        done := done + n;
      }
      r := if panic then Panicked else if done == |data| then Wrote(|data|) else Refused;
    }
  }
}
