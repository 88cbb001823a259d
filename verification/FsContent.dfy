/** File contents byte by byte: what allocating a block, writing part of a block and rewriting an
    inode do to the bytes of every file. */
module FsContent {
  import opened Basics
  import opened Blocks
  import opened FsSpec

  /** Block `b` with `bytes` written at offset `at`. */
  function Splice(b: Block, at: nat, bytes: seq<Byte>): (r: Block)
    requires at + |bytes| <= BSIZE
    ensures forall k {:trigger r.bytes[k]} :: 0 <= k < BSIZE ==>
      r.bytes[k] == if at <= k < at + |bytes| then bytes[k - at] else b.bytes[k]
  {
    Block(b.bytes[..at] + bytes + b.bytes[at + |bytes|..])
  }

  /** The slot of a mapped block is owned by the file. */
  lemma MappedIsOwned(disk: Disk, inodes: seq<Inode>, owner: Owner, sb: Super, i: nat, bn: nat)
    requires FsOk(disk, inodes, owner, sb) && i < |inodes| && bn < MAXFILE
    ensures var b := SlotAt(disk, inodes[i], FileSlot(bn));
            b == 0 || (b in owner && owner[b] == (i, FileSlot(bn)) && b < |disk|)
  {
    var b := SlotAt(disk, inodes[i], FileSlot(bn));
    assert OwnedBy(owner, b, i, FileSlot(bn));
    if b != 0 {
      assert Named(disk, inodes, owner[b], b, sb);
    }
  }

  /** Adding blocks to a file leaves the bytes it already has where they are. */
  lemma BytesGrow(disk: Disk, inodes: seq<Inode>, owner: Owner, disk': Disk, inodes': seq<Inode>, owner': Owner,
                  sb: Super, i: nat, p: nat)
    requires FsOk(disk, inodes, owner, sb) && FsOk(disk', inodes', owner', sb) && i < |inodes| && i < |inodes'|
    requires OwnedKept(disk, owner, disk', owner', i) && p / BSIZE < MAXFILE
    requires SlotAt(disk, inodes[i], FileSlot(p / BSIZE)) != 0
    ensures SlotAt(disk', inodes'[i], FileSlot(p / BSIZE)) == SlotAt(disk, inodes[i], FileSlot(p / BSIZE))
    ensures ByteAt(disk', inodes'[i], p) == ByteAt(disk, inodes[i], p)
  {
    var slot := FileSlot(p / BSIZE);
    var b := SlotAt(disk, inodes[i], slot);
    MappedIsOwned(disk, inodes, owner, sb, i, p / BSIZE);
    assert Named(disk', inodes', owner'[b], b, sb);
  }

  /** Rewriting the block of block number `bn` changes only the bytes of that block. */
  lemma BytesSplice(disk: Disk, inodes: seq<Inode>, owner: Owner, sb: Super, i: nat, bn: nat, a: nat, data: Block,
                    p: nat)
    requires FsOk(disk, inodes, owner, sb) && i < |inodes| && bn < MAXFILE && p / BSIZE < MAXFILE
    requires a in owner && owner[a] == (i, FileSlot(bn)) && a < |disk|
    ensures SlotAt(disk[a := data], inodes[i], FileSlot(p / BSIZE)) == SlotAt(disk, inodes[i], FileSlot(p / BSIZE))
    ensures ByteAt(disk[a := data], inodes[i], p)
         == if p / BSIZE == bn then data.bytes[p % BSIZE] else ByteAt(disk, inodes[i], p)
  {
    assert Named(disk, inodes, owner[a], a, sb);
    DataNotIndirect(disk, inodes, owner, sb, a);
    SlotsUnchanged(disk, inodes, a, data, i, FileSlot(p / BSIZE));
    MappedIsOwned(disk, inodes, owner, sb, i, p / BSIZE);
    hide FsOk, SlotAt, NotIndirect;
    assert FileSlot(p / BSIZE) == FileSlot(bn) <==> p / BSIZE == bn;
  }

  /** Byte `p` of the file is there and has value `v`. */
  ghost predicate Holds(disk: Disk, ip: Inode, p: nat, v: Byte) {
    0 < SlotAt(disk, ip, FileSlot(p / BSIZE)) < |disk| && ByteAt(disk, ip, p) == v
  }

  function Longer(a: nat, b: nat): nat {
    if a < b then b else a
  }

  /** Byte `p` once `tot` bytes of `data` have been written at `off` over contents `c`. */
  function Overlay(c: seq<Byte>, off: nat, data: seq<Byte>, tot: nat, p: nat): Byte
    requires tot <= |data| && off <= |c| && p < Longer(|c|, off + tot)
  {
    if off <= p < off + tot then data[p - off] else c[p]
  }

  /** The file while a write is in progress. */
  ghost predicate Written(disk: Disk, ip: Inode, c: seq<Byte>, off: nat, data: seq<Byte>, tot: nat) {
    && tot <= |data| && off <= |c| && off + tot <= MAXFILE * BSIZE && |c| <= MAXFILE * BSIZE
    && forall p: nat {:trigger Overlay(c, off, data, tot, p)} :: p < Longer(|c|, off + tot) ==>
         Holds(disk, ip, p, Overlay(c, off, data, tot, p))
  }

  /** One byte of one round of writei's loop: bmap gave block `a`, into which `m` bytes are copied. */
  lemma ByteRound(disk: Disk, inodes: seq<Inode>, owner: Owner, disk1: Disk, inodes1: seq<Inode>, owner1: Owner,
                  sb: Super, i: nat, a: nat, c: seq<Byte>, off: nat, data: seq<Byte>, tot: nat, m: nat, p: nat)
    requires FsOk(disk, inodes, owner, sb) && FsOk(disk1, inodes1, owner1, sb) && i < |inodes| && i < |inodes1|
    requires OwnedKept(disk, owner, disk1, owner1, i) && Written(disk, inodes[i], c, off, data, tot)
    requires tot + m <= |data| && off + tot + m <= MAXFILE * BSIZE && 0 < m <= BSIZE - (off + tot) % BSIZE
    requires a in owner1 && owner1[a] == (i, FileSlot((off + tot) / BSIZE)) && a < |disk1|
    requires p < Longer(|c|, off + tot + m)
    ensures var disk2 := disk1[a := Splice(disk1[a], (off + tot) % BSIZE, data[tot..tot + m])];
            Holds(disk2, inodes1[i], p, Overlay(c, off, data, tot + m, p))
  {
    var cur := off + tot;
    var bn := cur / BSIZE;
    var block := Splice(disk1[a], cur % BSIZE, data[tot..tot + m]);
    assert Named(disk1, inodes1, owner1[a], a, sb) && |disk1| == |disk| && a > 0;
    BytesSplice(disk1, inodes1, owner1, sb, i, bn, a, block, p);
    hide FsOk, SlotAt, ByteAt, OwnedKept;
    if p < Longer(|c|, cur) {
      assert Holds(disk, inodes[i], p, Overlay(c, off, data, tot, p));
      BytesGrow(disk, inodes, owner, disk1, inodes1, owner1, sb, i, p);
      if p / BSIZE == bn {
        SameBlock(cur, p, m);
        assert SlotAt(disk1, inodes1[i], FileSlot(bn)) == a;
        BlockByte(disk1, inodes1[i], a, p);
      }
    } else {
      SameBlock(cur, p, m);
    }
  }

  /** Which byte of the block is which byte of the file. */
  lemma SameBlock(cur: nat, p: nat, m: nat)
    requires m <= BSIZE - cur % BSIZE
    ensures cur <= p < cur + m ==> p / BSIZE == cur / BSIZE && p % BSIZE == cur % BSIZE + (p - cur)
    ensures p / BSIZE == cur / BSIZE ==> (cur <= p < cur + m <==> cur % BSIZE <= p % BSIZE < cur % BSIZE + m)
  {
  }

  lemma BlockByte(disk: Disk, ip: Inode, a: nat, p: nat)
    requires SlotAt(disk, ip, FileSlot(p / BSIZE)) == a < |disk|
    ensures ByteAt(disk, ip, p) == disk[a].bytes[p % BSIZE]
  {
  }

  /** One round of writei's loop on the whole file. */
  lemma WriteRound(disk: Disk, inodes: seq<Inode>, owner: Owner, disk1: Disk, inodes1: seq<Inode>, owner1: Owner,
                   sb: Super, i: nat, a: nat, c: seq<Byte>, off: nat, data: seq<Byte>, tot: nat, m: nat)
    requires FsOk(disk, inodes, owner, sb) && FsOk(disk1, inodes1, owner1, sb) && i < |inodes| && i < |inodes1|
    requires OwnedKept(disk, owner, disk1, owner1, i) && Written(disk, inodes[i], c, off, data, tot)
    requires tot + m <= |data| && off + tot + m <= MAXFILE * BSIZE && 0 < m <= BSIZE - (off + tot) % BSIZE
    requires a in owner1 && owner1[a] == (i, FileSlot((off + tot) / BSIZE)) && a < |disk1|
    ensures var disk2 := disk1[a := Splice(disk1[a], (off + tot) % BSIZE, data[tot..tot + m])];
            Written(disk2, inodes1[i], c, off, data, tot + m)
  {
    var disk2 := disk1[a := Splice(disk1[a], (off + tot) % BSIZE, data[tot..tot + m])];
    hide FsOk, OwnedKept, Splice, Holds;
    forall p: nat {:trigger Overlay(c, off, data, tot + m, p)} | p < Longer(|c|, off + tot + m)
      ensures Holds(disk2, inodes1[i], p, Overlay(c, off, data, tot + m, p))
    {
      ByteRound(disk, inodes, owner, disk1, inodes1, owner1, sb, i, a, c, off, data, tot, m, p);
    }
  }

  /** A block allocated by a round whose copy fails changes none of the file's bytes. */
  lemma GrowsKeepsWritten(disk: Disk, inodes: seq<Inode>, owner: Owner, disk1: Disk, inodes1: seq<Inode>, owner1: Owner,
                          sb: Super, i: nat, c: seq<Byte>, off: nat, data: seq<Byte>, tot: nat)
    requires FsOk(disk, inodes, owner, sb) && FsOk(disk1, inodes1, owner1, sb) && i < |inodes| && i < |inodes1|
    requires OwnedKept(disk, owner, disk1, owner1, i) && Written(disk, inodes[i], c, off, data, tot)
    ensures Written(disk1, inodes1[i], c, off, data, tot)
  {
    assert |disk1| == |disk|;
    hide FsOk, OwnedKept, SlotAt, ByteAt;
    forall p: nat {:trigger Overlay(c, off, data, tot, p)} | p < Longer(|c|, off + tot)
      ensures Holds(disk1, inodes1[i], p, Overlay(c, off, data, tot, p))
    {
      assert Holds(disk, inodes[i], p, Overlay(c, off, data, tot, p));
      BytesGrow(disk, inodes, owner, disk1, inodes1, owner1, sb, i, p);
    }
  }

  // ---- whole files ----

  /** File `ip` has contents `c`; in particular it has no holes. */
  ghost predicate Reads(disk: Disk, ip: Inode, c: seq<Byte>) {
    && |c| == ip.size <= MAXFILE * BSIZE
    && forall p: nat {:trigger Holds(disk, ip, p, c[p])} :: p < |c| ==> Holds(disk, ip, p, c[p])
  }

  lemma ReadsSize(disk: Disk, ip: Inode, c: seq<Byte>)
    requires Reads(disk, ip, c)
    ensures |c| == ip.size <= MAXFILE * BSIZE
  {
  }

  /** A file has at most one contents. */
  lemma ReadsUnique(disk: Disk, ip: Inode, c: seq<Byte>, d: seq<Byte>)
    requires Reads(disk, ip, c) && Reads(disk, ip, d)
    ensures c == d
  {
    forall p: nat | p < |c| ensures c[p] == d[p] {
      assert Holds(disk, ip, p, c[p]) && Holds(disk, ip, p, d[p]);
    }
  }

  /** Contents `c` after `tot` bytes of `data` are written at `off`. */
  function Overwrite(c: seq<Byte>, off: nat, data: seq<Byte>, tot: nat): (r: seq<Byte>)
    requires tot <= |data| && off <= |c|
    ensures |r| == Longer(|c|, off + tot)
    ensures forall p: nat {:trigger r[p]} :: p < |r| ==> r[p] == Overlay(c, off, data, tot, p)
  {
    c[..off] + data[..tot] + (if off + tot < |c| then c[off + tot..] else [])
  }

  lemma WriteStarts(disk: Disk, ip: Inode, c: seq<Byte>, off: nat, data: seq<Byte>)
    requires Reads(disk, ip, c) && off <= |c|
    ensures Written(disk, ip, c, off, data, 0)
  {
    hide Holds;
    forall p: nat {:trigger Overlay(c, off, data, 0, p)} | p < |c|
      ensures Holds(disk, ip, p, Overlay(c, off, data, 0, p))
    {
      assert Holds(disk, ip, p, c[p]);
    }
  }

  lemma WriteEnds(disk: Disk, ip: Inode, c: seq<Byte>, off: nat, data: seq<Byte>, tot: nat)
    requires Written(disk, ip, c, off, data, tot) && ip.size == Longer(|c|, off + tot)
    ensures Reads(disk, ip, Overwrite(c, off, data, tot))
  {
    hide Holds;
    var r := Overwrite(c, off, data, tot);
    forall p: nat {:trigger Holds(disk, ip, p, r[p])} | p < |r| ensures Holds(disk, ip, p, r[p]) {
      assert r[p] == Overlay(c, off, data, tot, p);
    }
  }

  /** Other files keep their contents when their blocks are kept. */
  lemma OthersRead(disk: Disk, inodes: seq<Inode>, owner: Owner, disk': Disk, inodes': seq<Inode>, owner': Owner,
                   sb: Super, i: nat, j: nat, c: seq<Byte>)
    requires FsOk(disk, inodes, owner, sb) && FsOk(disk', inodes', owner', sb) &&
        OthersKept(disk, owner, disk', owner', i)
    requires j < |inodes| && j < |inodes'| && j != i && inodes'[j] == inodes[j] && Reads(disk, inodes[j], c)
    ensures Reads(disk', inodes'[j], c)
  {
    forall p: nat {:trigger Holds(disk', inodes'[j], p, c[p])} | p < |c| ensures Holds(disk', inodes'[j], p, c[p]) {
      assert Holds(disk, inodes[j], p, c[p]);
      var b := SlotAt(disk, inodes[j], FileSlot(p / BSIZE));
      MappedIsOwned(disk, inodes, owner, sb, j, p / BSIZE);
      assert Named(disk', inodes', owner'[b], b, sb);
    }
  }

  // ---- how many blocks a write touches ----

  /** Number of file blocks that hold bytes off .. off + n - 1. */
  function Touched(off: nat, n: nat): nat {
    if n == 0 then 0 else (off + n - 1) / BSIZE - off / BSIZE + 1
  }

  /** Where writei is between rounds: at its start, or at a block boundary, or done. */
  ghost predicate BetweenRounds(off: nat, n: nat, tot: nat) {
    tot <= n && (tot == 0 || tot == n || (off + tot) % BSIZE == 0)
  }

  lemma NextRound(off: nat, n: nat, tot: nat, m: nat)
    requires BetweenRounds(off, n, tot) && tot < n
    requires m == if n - tot < BSIZE - (off + tot) % BSIZE then n - tot else BSIZE - (off + tot) % BSIZE
    ensures 0 < m && BetweenRounds(off, n, tot + m) && Touched(off, tot + m) == Touched(off, tot) + 1
    ensures Touched(off, tot) + 1 <= Touched(off, n)
  {
  }

  /** writei has gone from one file system to another with `tot` bytes written: inode `i` may have new addresses,
      and nobody else's blocks and no inode on disk have changed. */
  ghost predicate Progress(d0: Disk, i0: seq<Inode>, o0: Owner, disk: Disk, inodes: seq<Inode>, owner: Owner, sb: Super,
                           i: nat, c: seq<Byte>, off: nat, data: seq<Byte>, tot: nat)
  {
    && FsOk(disk, inodes, owner, sb) && i < |inodes| == |i0| && Written(disk, inodes[i], c, off, data, tot)
    && inodes == i0[i := i0[i].(addrs := inodes[i].addrs)]
    && OthersKept(d0, o0, disk, owner, i) && MetaKept(d0, disk, sb)
  }

  lemma ProgressTwice(d0: Disk, i0: seq<Inode>, o0: Owner, d1: Disk, i1: seq<Inode>, o1: Owner,
                      d2: Disk, i2: seq<Inode>, o2: Owner, sb: Super, i: nat,
                      c: seq<Byte>, off: nat, data: seq<Byte>, tot1: nat, tot2: nat)
    requires Progress(d0, i0, o0, d1, i1, o1, sb, i, c, off, data, tot1)
    requires Progress(d1, i1, o1, d2, i2, o2, sb, i, c, off, data, tot2)
    ensures Progress(d0, i0, o0, d2, i2, o2, sb, i, c, off, data, tot2)
  {
    hide FsOk, Written, OthersKept, MetaKept;
    OthersKeptTwice(d0, o0, d1, o1, d2, o2, i);
    MetaKeptTwice(d0, d1, d2, sb);
  }

  lemma ProgressStarts(disk: Disk, inodes: seq<Inode>, owner: Owner, sb: Super, i: nat,
                       c: seq<Byte>, off: nat, data: seq<Byte>)
    requires FsOk(disk, inodes, owner, sb) && i < |inodes| && Reads(disk, inodes[i], c) && off <= |c|
    ensures Progress(disk, inodes, owner, disk, inodes, owner, sb, i, c, off, data, 0)
  {
    OwnedAreData(disk, inodes, owner, sb, 0, 0, 0);
    WriteStarts(disk, inodes[i], c, off, data);
    assert inodes == inodes[i := inodes[i].(addrs := inodes[i].addrs)];
  }

  lemma ProgressMeans(d0: Disk, i0: seq<Inode>, o0: Owner, disk: Disk, inodes: seq<Inode>, owner: Owner, sb: Super,
                      i: nat, c: seq<Byte>, off: nat, data: seq<Byte>, tot: nat)
    requires Progress(d0, i0, o0, disk, inodes, owner, sb, i, c, off, data, tot)
    ensures FsOk(disk, inodes, owner, sb) && i < |inodes| == |i0| && Written(disk, inodes[i], c, off, data, tot)
    ensures InodeOk(inodes[i]) && inodes[i].size == i0[i].size
  {
  }

  /** Only `touched`, bitmap blocks and the indirect block of the file have been logged, and the file keeps its
      indirect block. */
  ghost predicate LogsWithin(logged0: set<nat>, logged: set<nat>, sb: Super, touched: set<nat>, ip0: Inode, ip: Inode) {
    && |ip0.addrs| == |ip.addrs| == NDIRECT + 1 && Indirect(ip0) <= Indirect(ip)
    && logged <= logged0 + MapBlocks(sb) + touched + Indirect(ip)
  }

  lemma LogsTwice(l0: set<nat>, l1: set<nat>, l2: set<nat>, sb: Super, t1: set<nat>, t2: set<nat>,
                  ip0: Inode, ip1: Inode, ip2: Inode)
    requires LogsWithin(l0, l1, sb, t1, ip0, ip1) && LogsWithin(l1, l2, sb, t2, ip1, ip2)
    ensures LogsWithin(l0, l2, sb, t1 + t2, ip0, ip2)
  {
    hide MapBlocks, Indirect;
  }

  /** A chunk of filewrite covers at most four blocks. */
  lemma ChunkTouches(off: nat, n: nat)
    requires n <= 3 * BSIZE
    ensures Touched(off, n) <= 4
  {
  }

  lemma GrowsKeepsOthers(disk: Disk, owner: Owner, disk': Disk, owner': Owner, i: nat)
    requires OwnedKept(disk, owner, disk', owner', i)
    ensures OthersKept(disk, owner, disk', owner', i)
  {
  }

  /** After bmap (disk to disk1) and a write to the file's own data block `a`. */
  lemma MetaAfterData(disk: Disk, owner: Owner, disk1: Disk, owner1: Owner, sb: Super, i: nat, a: nat, data: Block)
    requires Grows(disk, owner, disk1, owner1, sb, i) && sb.bmapstart <= sb.datastart
    requires a in owner1 && owner1[a].0 == i && a < |disk1| && sb.Data(a)
    ensures OthersKept(disk, owner, disk1[a := data], owner1, i) && MetaKept(disk, disk1[a := data], sb)
  {
  }

  // ---- reading and chunking ----

  /** The part of block `a` that readi copies in one round is the next part of the contents. */
  lemma ReadRound(disk: Disk, ip: Inode, c: seq<Byte>, cur: nat, m: nat, a: nat)
    requires Reads(disk, ip, c) && cur + m <= |c| && 0 < m <= BSIZE - cur % BSIZE
    requires a == SlotAt(disk, ip, FileSlot(cur / BSIZE)) < |disk|
    ensures cur % BSIZE + m <= BSIZE
    ensures disk[a].bytes[cur % BSIZE..cur % BSIZE + m] == c[cur..cur + m]
  {
    hide SlotAt;
    var got, want := disk[a].bytes[cur % BSIZE..cur % BSIZE + m], c[cur..cur + m];
    forall k | 0 <= k < m ensures got[k] == want[k] {
      SameBlock(cur, cur + k, m);
      assert Holds(disk, ip, cur + k, c[cur + k]);
    }
  }

  /** A byte inside the file has a block. */
  lemma ReadsMapped(disk: Disk, ip: Inode, c: seq<Byte>, cur: nat)
    requires Reads(disk, ip, c) && cur < |c|
    ensures cur / BSIZE < MAXFILE && 0 < SlotAt(disk, ip, FileSlot(cur / BSIZE)) < |disk|
  {
    assert Holds(disk, ip, cur, c[cur]);
  }

  /** Contents of the file after `done` bytes of a filewrite; an offset past the end writes nothing. */
  ghost function Sofar(c: seq<Byte>, off: nat, data: seq<Byte>, done: nat): seq<Byte>
    requires done <= |data|
  {
    if off <= |c| then Overwrite(c, off, data, done) else c
  }

  /** A filewrite that lies within the largest file, starts inside the file and reads good memory. */
  ghost predicate WriteFits(off: nat, data: seq<Byte>, readable: nat, c: seq<Byte>) {
    off <= |c| && off + |data| <= MAXFILE * BSIZE && |data| <= readable
  }

  lemma SofarSize(c: seq<Byte>, off: nat, data: seq<Byte>, done: nat)
    requires off <= |c| && done <= |data|
    ensures |Sofar(c, off, data, done)| == Longer(|c|, off + done)
  {
  }

  lemma SofarPast(c: seq<Byte>, off: nat, data: seq<Byte>, done: nat)
    requires off > |c| && done <= |data|
    ensures |Sofar(c, off, data, done)| < off
  {
  }

  lemma SofarStart(c: seq<Byte>, off: nat, data: seq<Byte>)
    ensures Sofar(c, off, data, 0) == c
  {
  }

  /** Writing a prefix and then the next chunk is writing the longer prefix. */
  lemma SofarNext(c: seq<Byte>, off: nat, data: seq<Byte>, i: nat, chunk: seq<Byte>, tot: nat)
    requires off <= |c| && i + |chunk| <= |data| && chunk == data[i..i + |chunk|] && tot <= |chunk|
    ensures Sofar(Sofar(c, off, data, i), off + i, chunk, tot) == Sofar(c, off, data, i + tot)
  {
    var d := Overwrite(c, off, data, i);
    var e := Overwrite(d, off + i, chunk, tot);
    var f := Overwrite(c, off, data, i + tot);
    hide Overwrite;
    forall p: nat | p < |f| ensures e[p] == f[p] {
      assert f[p] == Overlay(c, off, data, i + tot, p);
      assert e[p] == Overlay(d, off + i, chunk, tot, p);
      if !(off + i <= p < off + i + tot) {
        assert d[p] == Overlay(c, off, data, i, p);
      }
    }
  }

  lemma {:induction false} MapBlocksSize(sb: Super, n: nat)
    requires sb.bmapstart + n == sb.datastart
    ensures |MapBlocks(sb)| == n
    decreases n
  {
    if n == 0 {
      assert MapBlocks(sb) == {};
    } else {
      var sb' := sb.(datastart := sb.datastart - 1);
      MapBlocksSize(sb', n - 1);
      assert MapBlocks(sb) == MapBlocks(sb') + {sb.datastart - 1};
    }
  }

  /** Most blocks a transaction of at most four data blocks logs. */
  ghost function TxnBound(sb: Super): nat {
    4 + 2 + |MapBlocks(sb)|
  }

  /** A union of four small sets. */
  lemma UnionSize(s: set<nat>, a: set<nat>, b: set<nat>, c: set<nat>, d: set<nat>)
    requires s <= a + b + c + d
    ensures |s| <= |a| + |b| + |c| + |d|
  {
    SubsetSize(s, a + b + c + d);
    assert |a + b + c + d| <= |a + b + c| + |d|;
    assert |a + b + c| <= |a + b| + |c|;
    assert |a + b| <= |a| + |b|;
  }
}
