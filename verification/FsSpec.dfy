/** On-disk file system: the block bitmap, inodes with direct and indirect blocks, and who owns
    which block. The disk here is the one the cache and the log present to the file system. */
module FsSpec {
  import opened Blocks

  type Disk = seq<Block>


  const NDIRECT := 12
  const NINDIRECT := 256
  const MAXFILE := NDIRECT + NINDIRECT
  const IPB := 16
  const WORDS_PER_INODE := 16

  /** Address slots of an inode: the direct blocks, the indirect block, then its entries. */
  const NSLOTS := NDIRECT + 1 + NINDIRECT

  datatype Super = Super(size: nat, ninodes: nat, inodestart: nat, bmapstart: nat, datastart: nat) {
    ghost predicate Valid() {
      && 0 < inodestart < bmapstart < datastart <= size < 0x1_0000_0000
      && ninodes <= (bmapstart - inodestart) * IPB
      && size <= (datastart - bmapstart) * BPB
    }

    function BBlock(b: nat): nat {
      b / BPB + bmapstart
    }

    function IBlock(inum: nat): nat {
      inum / IPB + inodestart
    }

    predicate InMap(b: nat) {
      bmapstart <= b < datastart
    }

    predicate Data(b: nat) {
      datastart <= b < size
    }
  }

  /** `meta` is type, major, minor and nlink, packed in two words. */
  datatype Inode = Inode(meta: seq<nat>, size: nat, addrs: seq<nat>)

  ghost predicate InodeOk(ip: Inode) {
    && |ip.meta| == 2 && |ip.addrs| == NDIRECT + 1
    && (forall k :: 0 <= k < 2 ==> ip.meta[k] < 0x1_0000_0000)
    && ip.size <= MAXFILE * BSIZE
  }

  predicate BitOf(disk: Disk, sb: Super, b: nat)
    requires sb.BBlock(b) < |disk|
  {
    Bit(disk[sb.BBlock(b)], b % BPB)
  }

  /** The block named by slot `k`, 0 if none. */
  function SlotAt(disk: Disk, ip: Inode, k: nat): (b: nat) {
    if |ip.addrs| != NDIRECT + 1 || k >= NSLOTS then 0
    else if k <= NDIRECT then ip.addrs[k]
    else if 0 < ip.addrs[NDIRECT] < |disk| then GetWord(disk[ip.addrs[NDIRECT]], k - NDIRECT - 1)
    else 0
  }

  /** The slot that holds the address of block number `bn` of a file. */
  function FileSlot(bn: nat): nat {
    if bn < NDIRECT then bn else bn + 1
  }

  // ---- ownership ----

  type Owner = map<nat, (nat, nat)>   // block to (inode number, slot)

  /** Every owned block is a data block named by its owner's slot, and every slot that names a
      block owns it -- except the slots of inode `gone` in [lo, hi), which are being freed. So no
      block is named twice, and none is owned without being named. */
  ghost predicate OwnsBut(disk: Disk, inodes: seq<Inode>, owner: Owner, sb: Super, gone: nat, lo: nat, hi: nat) {
    && (forall b :: b in owner ==> Named(disk, inodes, owner[b], b, sb))
    && (forall i, k {:trigger SlotAt(disk, inodes[i], k)} :: 0 <= i < |inodes| && 0 <= k < NSLOTS ==>
          (i == gone && lo <= k < hi) || OwnedBy(owner, SlotAt(disk, inodes[i], k), i, k))
  }

  ghost predicate OwnedBy(owner: Owner, b: nat, i: nat, k: nat) {
    b == 0 || (b in owner && owner[b] == (i, k))
  }

  ghost predicate Named(disk: Disk, inodes: seq<Inode>, slot: (nat, nat), b: nat, sb: Super) {
    sb.Data(b) && slot.0 < |inodes| && slot.1 < NSLOTS && SlotAt(disk, inodes[slot.0], slot.1) == b
  }

  ghost predicate Owns(disk: Disk, inodes: seq<Inode>, owner: Owner, sb: Super) {
    OwnsBut(disk, inodes, owner, sb, 0, 0, 0)
  }

  /** A bitmap bit is set exactly for metadata blocks, owned blocks and the blocks in `extra`. */
  ghost predicate Marked(disk: Disk, owner: Owner, extra: set<nat>, sb: Super) {
    forall b: nat {:trigger BitOf(disk, sb, b)} :: b < sb.size && sb.BBlock(b) < |disk| ==>
      (BitOf(disk, sb, b) <==> b < sb.datastart || b in owner || b in extra)
  }

  ghost predicate Shape(disk: Disk, inodes: seq<Inode>, sb: Super) {
    && sb.Valid() && |disk| == sb.size && |inodes| == sb.ninodes
    && (forall i :: 0 <= i < |inodes| ==> InodeOk(inodes[i]))
  }

  /** Nobody's indirect block is `b`, so writing `b` changes no address. */
  ghost predicate NotIndirect(inodes: seq<Inode>, b: nat) {
    forall i :: 0 <= i < |inodes| && |inodes[i].addrs| == NDIRECT + 1 ==> inodes[i].addrs[NDIRECT] != b
  }

  lemma SlotsUnchanged(disk: Disk, inodes: seq<Inode>, b: nat, data: Block, i: nat, k: nat)
    requires b < |disk| && i < |inodes| && NotIndirect(inodes, b)
    ensures SlotAt(disk[b := data], inodes[i], k) == SlotAt(disk, inodes[i], k)
  {
  }

  lemma OwnsAfterWrite(disk: Disk, inodes: seq<Inode>, owner: Owner, sb: Super, b: nat, data: Block,
                       gone: nat, lo: nat, hi: nat)
    requires OwnsBut(disk, inodes, owner, sb, gone, lo, hi) && b < |disk| && NotIndirect(inodes, b)
    ensures OwnsBut(disk[b := data], inodes, owner, sb, gone, lo, hi)
  {
    var disk' := disk[b := data];
    forall i, k {:trigger SlotAt(disk', inodes[i], k)} | 0 <= i < |inodes| && 0 <= k < NSLOTS
      ensures SlotAt(disk', inodes[i], k) == SlotAt(disk, inodes[i], k)
    {
      SlotsUnchanged(disk, inodes, b, data, i, k);
    }
    forall c | c in owner ensures Named(disk', inodes, owner[c], c, sb) {
      assert Named(disk, inodes, owner[c], c, sb);
    }
  }

  lemma BitmapArea(sb: Super, b: nat)
    requires sb.Valid() && b < sb.size
    ensures sb.bmapstart <= sb.BBlock(b) < sb.datastart
  {
    assert b / BPB < sb.datastart - sb.bmapstart;
  }

  lemma MarkedAfterWrite(disk: Disk, owner: Owner, extra: set<nat>, sb: Super, b: nat, data: Block)
    requires sb.Valid() && |disk| == sb.size && Marked(disk, owner, extra, sb) && b < |disk|
    requires b < sb.bmapstart || sb.datastart <= b
    ensures Marked(disk[b := data], owner, extra, sb)
  {
    var disk' := disk[b := data];
    forall c: nat {:trigger BitOf(disk', sb, c)} | c < sb.size ensures BitOf(disk', sb, c) == BitOf(disk, sb, c) {
      BitmapArea(sb, c);
    }
  }

  /** Blocks outside the data area, and data blocks that are not owned as an indirect block, are
      nobody's indirect block. */
  lemma NotIndirectBlock(disk: Disk, inodes: seq<Inode>, owner: Owner, sb: Super, b: nat, gone: nat, lo: nat, hi: nat)
    requires OwnsBut(disk, inodes, owner, sb, gone, lo, hi) && !(lo <= NDIRECT < hi) && b != 0
    requires b !in owner || owner[b].1 != NDIRECT
    ensures NotIndirect(inodes, b)
  {
    forall i | 0 <= i < |inodes| && |inodes[i].addrs| == NDIRECT + 1 ensures inodes[i].addrs[NDIRECT] != b {
      assert SlotAt(disk, inodes[i], NDIRECT) == inodes[i].addrs[NDIRECT];
    }
  }

  // ---- contents ----

  function ByteAt(disk: Disk, ip: Inode, p: nat): Byte {
    var b := SlotAt(disk, ip, FileSlot(p / BSIZE));
    if b < |disk| then disk[b].bytes[p % BSIZE] else 0
  }

  /** Byte `p` of a file: in the block its direct address or the word of its indirect block names. */
  lemma ByteOfFile(disk: Disk, ip: Inode, p: nat, b: nat)
    requires |ip.addrs| == 13 && b < |disk|
    requires p < 12 * 1024 ==> ip.addrs[p / 1024] == b
    requires p >= 12 * 1024 ==> p < 268 * 1024 && 0 < ip.addrs[12] < |disk|
    requires p >= 12 * 1024 ==> GetWord(disk[ip.addrs[12]], p / 1024 - 12) == b
    ensures ByteAt(disk, ip, p) == disk[b].bytes[p % 1024]
  {
  }

  // ---- inodes on disk ----

  function InodeWords(ip: Inode): (ws: seq<nat>) {
    ip.meta + [ip.size] + ip.addrs
  }

  function StoreInode(b: Block, slot: nat, ip: Inode): Block
    requires slot < IPB && |InodeWords(ip)| == WORDS_PER_INODE
    requires forall k :: 0 <= k < WORDS_PER_INODE ==> InodeWords(ip)[k] < 0x1_0000_0000
  {
    StoreWords(b, slot * WORDS_PER_INODE, InodeWords(ip))
  }

  function LoadInode(b: Block, slot: nat): Inode
    requires slot < IPB
  {
    var ws := LoadWords(b, slot * WORDS_PER_INODE, WORDS_PER_INODE);
    Inode(ws[..2], ws[2], ws[3..])
  }

  /** Where the fields of an inode lie in its block: 64 bytes an inode, little-endian, the size behind the four
      short fields and then the thirteen addresses. */
  lemma InodeLayout(b: Block, slot: nat, k: nat)
    requires slot < IPB && k <= NDIRECT
    ensures var ip, at, ad := LoadInode(b, slot), 64 * slot + 8, 64 * slot + 12 + 4 * k;
            && |ip.meta| == 2 && |ip.addrs| == 13
            && ip.size == LittleEndian(b.bytes[at..at + 4]) && ip.addrs[k] == LittleEndian(b.bytes[ad..ad + 4])
  {
    hide GetWord, LittleEndian, LoadWords;
    var at := slot * WORDS_PER_INODE;
    assert at == 16 * slot;
    var ws := LoadWords(b, at, WORDS_PER_INODE);
    assert ws[2] == GetWord(b, at + 2);
    assert ws[3..][k] == ws[3 + k] == GetWord(b, at + (3 + k));
    WordBytes(b, at + 2);
    WordBytes(b, at + (3 + k));
  }

  /** iupdate and ilock agree on the layout: an inode is read back as written and its neighbours
      in the block are not touched. */
  lemma InodeRoundTrip(b: Block, slot: nat, ip: Inode, other: nat)
    requires slot < IPB && other < IPB && InodeOk(ip)
    requires forall k :: 0 <= k <= NDIRECT ==> ip.addrs[k] < 0x1_0000_0000
    ensures |InodeWords(ip)| == WORDS_PER_INODE
    ensures forall k :: 0 <= k < WORDS_PER_INODE ==> InodeWords(ip)[k] < 0x1_0000_0000
    ensures LoadInode(StoreInode(b, slot, ip), other) == if other == slot then ip else LoadInode(b, other)
  {
    var ws := InodeWords(ip);
    assert forall k :: 0 <= k < WORDS_PER_INODE ==>
      ws[k] == if k < 2 then ip.meta[k] else if k == 2 then ip.size else ip.addrs[k - 3];
    var r := StoreInode(b, slot, ip);
    var at := other * WORDS_PER_INODE;
    var got, was := LoadWords(r, at, WORDS_PER_INODE), LoadWords(b, at, WORDS_PER_INODE);
    hide LoadWords, StoreWords;
    forall k | 0 <= k < WORDS_PER_INODE ensures got[k] == if other == slot then ws[k] else was[k] {
      assert got[k] == GetWord(r, at + k);
    }
    if other == slot {
      assert got[..2] == ip.meta && got[3..] == ip.addrs;
    } else {
      assert got == was;
    }
  }

  // ---- allocation ----

  /** No block below `n` is free. */
  ghost predicate AllMarked(disk: Disk, sb: Super, n: nat) {
    forall c: nat {:trigger BitOf(disk, sb, c)} :: c < n && c < sb.size && sb.BBlock(c) < |disk| ==> BitOf(disk, sb, c)
  }

  /** Scanning one more bitmap block: its first `bi` bits are set. */
  lemma AllMarkedMore(disk: Disk, sb: Super, b: nat, bi: nat)
    requires AllMarked(disk, sb, b) && b % BPB == 0 && bi <= BPB && sb.BBlock(b) < |disk|
    requires forall k: nat :: k < bi ==> Bit(disk[sb.BBlock(b)], k)
    ensures bi < BPB ==> (b + bi) / BPB == b / BPB && (b + bi) % BPB == bi
    ensures AllMarked(disk, sb, b + bi)
    ensures bi + b >= sb.size ==> AllMarked(disk, sb, b + BPB)
  {
    forall c: nat {:trigger BitOf(disk, sb, c)} | b <= c < b + bi ensures sb.BBlock(c) < |disk| && BitOf(disk, sb, c) {
      assert c / BPB == b / BPB && c % BPB == c - b;
    }
  }

  lemma NoneBelow(disk: Disk, sb: Super)
    ensures AllMarked(disk, sb, 0)
  {
  }

  lemma AllMarkedUp(disk: Disk, sb: Super, b: nat)
    requires AllMarked(disk, sb, b) && sb.size <= b
    ensures AllMarked(disk, sb, sb.size)
  {
  }

  /** balloc's effect: the bit of `b` set, then the block zeroed. */
  function Allocated(disk: Disk, sb: Super, b: nat): Disk
    requires sb.BBlock(b) < |disk| && b < |disk|
  {
    disk[sb.BBlock(b) := SetBit(disk[sb.BBlock(b)], b % BPB, true)][b := ZeroBlock()]
  }

  function Freed(disk: Disk, sb: Super, b: nat): Disk
    requires sb.BBlock(b) < |disk|
  {
    disk[sb.BBlock(b) := SetBit(disk[sb.BBlock(b)], b % BPB, false)]
  }

  lemma BitPut(disk: Disk, sb: Super, b: nat, on: bool, c: nat)
    requires sb.Valid() && |disk| == sb.size && b < sb.size && c < sb.size
    ensures sb.BBlock(b) < |disk| && sb.BBlock(c) < |disk|
    ensures BitOf(disk[sb.BBlock(b) := SetBit(disk[sb.BBlock(b)], b % BPB, on)], sb, c)
         == if c == b then on else BitOf(disk, sb, c)
  {
    BitmapArea(sb, b);
    BitmapArea(sb, c);
    assert b == b / BPB * BPB + b % BPB && c == c / BPB * BPB + c % BPB;
  }

  /** A clear bit belongs to an unowned data block. */
  lemma FreeBlock(disk: Disk, owner: Owner, sb: Super, b: nat)
    requires sb.Valid() && |disk| == sb.size && Marked(disk, owner, {}, sb) && b < sb.size && sb.BBlock(b) < |disk|
    requires !BitOf(disk, sb, b)
    ensures sb.Data(b) && b !in owner
  {
  }

  lemma MarkedAfterAlloc(disk: Disk, owner: Owner, sb: Super, b: nat)
    requires sb.Valid() && |disk| == sb.size && Marked(disk, owner, {}, sb)
    requires sb.Data(b) && sb.BBlock(b) < |disk|
    ensures Marked(Allocated(disk, sb, b), owner, {b}, sb)
  {
    var disk1 := disk[sb.BBlock(b) := SetBit(disk[sb.BBlock(b)], b % BPB, true)];
    forall c: nat {:trigger BitOf(disk1, sb, c)} | c < sb.size
      ensures sb.BBlock(c) < |disk| && BitOf(disk1, sb, c) == if c == b then true else BitOf(disk, sb, c)
    {
      BitPut(disk, sb, b, true, c);
    }
    MarkedAfterWrite(disk1, owner, {b}, sb, b, ZeroBlock());
  }

  lemma MarkedAfterFree(disk: Disk, owner: Owner, sb: Super, b: nat)
    requires sb.Valid() && |disk| == sb.size && Marked(disk, owner, {}, sb)
    requires sb.Data(b) && sb.BBlock(b) < |disk|
    ensures Marked(Freed(disk, sb, b), owner - {b}, {}, sb)
  {
    var disk1 := Freed(disk, sb, b);
    forall c: nat {:trigger BitOf(disk1, sb, c)} | c < sb.size
      ensures sb.BBlock(c) < |disk| && BitOf(disk1, sb, c) == if c == b then false else BitOf(disk, sb, c)
    {
      BitPut(disk, sb, b, false, c);
    }
  }

  lemma OwnsAfterAlloc(disk: Disk, inodes: seq<Inode>, owner: Owner, sb: Super, b: nat)
    requires sb.Valid() && |disk| == sb.size && Owns(disk, inodes, owner, sb)
    requires sb.Data(b) && b !in owner && sb.BBlock(b) < |disk|
    ensures Owns(Allocated(disk, sb, b), inodes, owner, sb)
  {
    var bb := sb.BBlock(b);
    BitmapArea(sb, b);
    assert bb !in owner;
    NotIndirectBlock(disk, inodes, owner, sb, bb, 0, 0, 0);
    NotIndirectBlock(disk, inodes, owner, sb, b, 0, 0, 0);
    var disk1 := disk[bb := SetBit(disk[bb], b % BPB, true)];
    OwnsAfterWrite(disk, inodes, owner, sb, bb, disk1[bb], 0, 0, 0);
    OwnsAfterWrite(disk1, inodes, owner, sb, b, ZeroBlock(), 0, 0, 0);
  }

  lemma ZeroWords(j: nat)
    requires j < NWORDS
    ensures GetWord(ZeroBlock(), j) == 0
  {
  }

  function WithAddr(ip: Inode, k: nat, b: nat): Inode
    requires k < |ip.addrs|
  {
    ip.(addrs := ip.addrs[k := b])
  }

  /** If a fresh block `b` has been put in the empty slot `k` of inode `i` and every other slot is
      as before, ownership extends to `b`. */
  lemma OwnsAfterSlot(disk: Disk, inodes: seq<Inode>, owner: Owner, disk': Disk, inodes': seq<Inode>, sb: Super,
                      i: nat, k: nat, b: nat)
    requires Owns(disk, inodes, owner, sb) && i < |inodes| == |inodes'| && k < NSLOTS && sb.Data(b) && b !in owner &&
        0 < sb.datastart
    requires SlotAt(disk, inodes[i], k) == 0
    requires forall l, m {:trigger SlotAt(disk', inodes'[l], m)} :: 0 <= l < |inodes| && 0 <= m < NSLOTS ==>
      SlotAt(disk', inodes'[l], m) == if l == i && m == k then b else SlotAt(disk, inodes[l], m)
    ensures Owns(disk', inodes', owner[b := (i, k)], sb)
  {
    hide SlotAt;
    var owner' := owner[b := (i, k)];
    forall c | c in owner' ensures Named(disk', inodes', owner'[c], c, sb) {
      if c != b {
        assert Named(disk, inodes, owner[c], c, sb);
      }
    }
    forall l, m {:trigger SlotAt(disk', inodes'[l], m)} | 0 <= l < |inodes'| && 0 <= m < NSLOTS
      ensures OwnedBy(owner', SlotAt(disk', inodes'[l], m), l, m)
    {
      assert OwnedBy(owner, SlotAt(disk, inodes[l], m), l, m);
    }
  }

  /** Recording a fresh block in a direct slot, or a fresh zeroed block as the indirect block. */
  lemma OwnsAfterDirect(disk: Disk, inodes: seq<Inode>, owner: Owner, sb: Super, i: nat, k: nat, b: nat)
    requires Shape(disk, inodes, sb) && Owns(disk, inodes, owner, sb) && i < |inodes| && k <= NDIRECT
    requires inodes[i].addrs[k] == 0 && sb.Data(b) && b !in owner && disk[b] == ZeroBlock()
    ensures Owns(disk, inodes[i := WithAddr(inodes[i], k, b)], owner[b := (i, k)], sb)
  {
    var ip := WithAddr(inodes[i], k, b);
    var inodes' := inodes[i := ip];
    hide OwnsBut, ZeroBlock;
    forall l, m {:trigger SlotAt(disk, inodes'[l], m)} | 0 <= l < |inodes| && 0 <= m < NSLOTS
      ensures SlotAt(disk, inodes'[l], m) == if l == i && m == k then b else SlotAt(disk, inodes[l], m)
    {
      if m > NDIRECT {
        ZeroWords(m - NDIRECT - 1);
      }
    }
    assert SlotAt(disk, inodes[i], k) == 0;
    OwnsAfterSlot(disk, inodes, owner, disk, inodes', sb, i, k, b);
  }

  lemma SlotAfterEntry(disk: Disk, inodes: seq<Inode>, owner: Owner, sb: Super, i: nat, j: nat, b: nat, l: nat, m: nat)
    requires Shape(disk, inodes, sb) && Owns(disk, inodes, owner, sb) && i < |inodes| && j < NINDIRECT
    requires b < 0x1_0000_0000 && 0 < inodes[i].addrs[NDIRECT] < |disk| && l < |inodes| && m < NSLOTS
    ensures var ind := inodes[i].addrs[NDIRECT];
            var disk' := disk[ind := SetWord(disk[ind], j, b)];
            SlotAt(disk', inodes[l], m) == if l == i && m == NDIRECT + 1 + j then b else SlotAt(disk, inodes[l], m)
  {
    assert SlotAt(disk, inodes[i], NDIRECT) == inodes[i].addrs[NDIRECT];
    assert SlotAt(disk, inodes[l], NDIRECT) == inodes[l].addrs[NDIRECT];
  }

  /** Recording a fresh block in an entry of the indirect block. */
  lemma OwnsAfterIndirect(disk: Disk, inodes: seq<Inode>, owner: Owner, sb: Super, i: nat, j: nat, b: nat)
    requires Shape(disk, inodes, sb) && Owns(disk, inodes, owner, sb) && i < |inodes| && j < NINDIRECT
    requires sb.Data(b) && b !in owner
    requires var ind := inodes[i].addrs[NDIRECT];
             0 < ind < |disk| && GetWord(disk[ind], j) == 0
    ensures var ind := inodes[i].addrs[NDIRECT];
            Owns(disk[ind := SetWord(disk[ind], j, b)], inodes, owner[b := (i, NDIRECT + 1 + j)], sb)
  {
    var ind := inodes[i].addrs[NDIRECT];
    var disk' := disk[ind := SetWord(disk[ind], j, b)];
    assert SlotAt(disk, inodes[i], NDIRECT + 1 + j) == 0;
    hide SlotAt, OwnsBut;
    forall l, m {:trigger SlotAt(disk', inodes[l], m)} | 0 <= l < |inodes| && 0 <= m < NSLOTS
      ensures SlotAt(disk', inodes[l], m) == if l == i && m == NDIRECT + 1 + j then b else SlotAt(disk, inodes[l], m)
    {
      SlotAfterEntry(disk, inodes, owner, sb, i, j, b, l, m);
    }
    OwnsAfterSlot(disk, inodes, owner, disk', inodes, sb, i, NDIRECT + 1 + j, b);
  }

  // ---- truncation ----

  lemma OwnsAfterBitmap(disk: Disk, inodes: seq<Inode>, owner: Owner, sb: Super, b: nat, gone: nat, lo: nat, hi: nat)
    requires sb.Valid() && |disk| == sb.size && b < sb.size && OwnsBut(disk, inodes, owner, sb, gone, lo, hi)
    requires !(lo <= NDIRECT < hi)
    ensures sb.BBlock(b) < |disk| && OwnsBut(Freed(disk, sb, b), inodes, owner, sb, gone, lo, hi)
  {
    BitmapArea(sb, b);
    var bb := sb.BBlock(b);
    assert bb !in owner;
    NotIndirectBlock(disk, inodes, owner, sb, bb, gone, lo, hi);
    OwnsAfterWrite(disk, inodes, owner, sb, bb, Freed(disk, sb, b)[bb], gone, lo, hi);
  }

  /** Giving up the block in slot `k` of inode `i`, next to the exempt slots [lo, hi): the block
      leaves the owner map and the slot is exempt from now on. */
  lemma OwnsAfterDrop(disk: Disk, inodes: seq<Inode>, owner: Owner, sb: Super, i: nat, lo: nat, hi: nat, k: nat)
    requires OwnsBut(disk, inodes, owner, sb, i, lo, hi) && i < |inodes| && k < NSLOTS && (k == hi || k + 1 == lo)
    requires lo <= hi
    ensures var b := SlotAt(disk, inodes[i], k);
            var lo', hi' := if k == hi then lo else k, if k == hi then k + 1 else hi;
            && OwnsBut(disk, inodes, owner - {b}, sb, i, lo', hi')
            && (forall c :: c in owner - {b} ==> owner[c] != (i, k))
  {
    var b := SlotAt(disk, inodes[i], k);
    var owner' := owner - {b};
    var lo', hi' := if k == hi then lo else k, if k == hi then k + 1 else hi;
    assert OwnedBy(owner, b, i, k);
    assert forall c :: c in owner ==> Named(disk, inodes, owner[c], c, sb);
    hide SlotAt;
    forall j, m {:trigger SlotAt(disk, inodes[j], m)} | 0 <= j < |inodes| && 0 <= m < NSLOTS
      ensures (j == i && lo' <= m < hi') || OwnedBy(owner', SlotAt(disk, inodes[j], m), j, m)
    {
      if !(j == i && lo' <= m < hi') {
        assert OwnedBy(owner, SlotAt(disk, inodes[j], m), j, m);
      }
    }
  }

  /** bfree of the block in slot `k` of inode `i` finds its bit set, and afterwards only the slot
      itself still names the block. */
  lemma FreeSlot(disk: Disk, inodes: seq<Inode>, owner: Owner, sb: Super, i: nat, lo: nat, hi: nat, k: nat)
    requires Shape(disk, inodes, sb) && OwnsBut(disk, inodes, owner, sb, i, lo, hi) && Marked(disk, owner, {}, sb)
    requires i < |inodes| && k < NSLOTS && lo <= hi && (k == hi || k + 1 == lo) && !(lo <= NDIRECT < hi)
    requires SlotAt(disk, inodes[i], k) != 0
    ensures var b := SlotAt(disk, inodes[i], k);
            var lo', hi' := if k == hi then lo else k, if k == hi then k + 1 else hi;
            && sb.Data(b) && sb.BBlock(b) < |disk| && BitOf(disk, sb, b) && b in owner && owner[b] == (i, k)
            && Marked(Freed(disk, sb, b), owner - {b}, {}, sb)
            && OwnsBut(Freed(disk, sb, b), inodes, owner - {b}, sb, i, lo', hi')
            && (forall c :: c in owner - {b} ==> owner[c] != (i, k))
            && (forall c {:trigger c in owner} :: c in owner ==> c < |disk| && Freed(disk, sb, b)[c] == disk[c])
  {
    var b := SlotAt(disk, inodes[i], k);
    assert OwnedBy(owner, b, i, k);
    BitmapArea(sb, b);
    assert forall c :: c in owner ==> sb.Data(c);
    OwnsAfterBitmap(disk, inodes, owner, sb, b, i, lo, hi);
    MarkedAfterFree(disk, owner, sb, b);
    NotIndirectBlock(disk, inodes, owner, sb, sb.BBlock(b), i, lo, hi);
    SlotsUnchanged(disk, inodes, sb.BBlock(b), Freed(disk, sb, b)[sb.BBlock(b)], i, k);
    hide Marked;
    OwnsAfterDrop(Freed(disk, sb, b), inodes, owner, sb, i, lo, hi, k);
  }

  /** Clearing address `k`, whose block has been given up; with `k` the indirect block all its
      entries go at once. */
  lemma OwnsAfterClear(disk: Disk, inodes: seq<Inode>, owner: Owner, sb: Super, i: nat, k: nat)
    requires i < |inodes| && InodeOk(inodes[i]) && k <= NDIRECT
    requires OwnsBut(disk, inodes, owner, sb, i, k, if k == NDIRECT then NSLOTS else k + 1)
    requires forall b :: b in owner ==> owner[b].0 != i || (owner[b].1 != k && (k == NDIRECT ==> owner[b].1 < NDIRECT))
    ensures Owns(disk, inodes[i := WithAddr(inodes[i], k, 0)], owner, sb)
  {
    var ip := WithAddr(inodes[i], k, 0);
    var inodes' := inodes[i := ip];
    forall m: nat {:trigger SlotAt(disk, ip, m)} | m < NSLOTS
      ensures SlotAt(disk, ip, m) == if m == k || (k == NDIRECT && m > k) then 0 else SlotAt(disk, inodes[i], m)
    {
    }
    forall c | c in owner ensures Named(disk, inodes', owner[c], c, sb) {
      assert Named(disk, inodes, owner[c], c, sb);
    }
    forall j, m {:trigger SlotAt(disk, inodes'[j], m)} | 0 <= j < |inodes'| && 0 <= m < NSLOTS
      ensures OwnedBy(owner, SlotAt(disk, inodes'[j], m), j, m)
    {
      assert SlotAt(disk, inodes[j], m) == SlotAt(disk, inodes[j], m);
    }
  }

  // ---- the invariant and its frame ----

  ghost predicate FsOk(disk: Disk, inodes: seq<Inode>, owner: Owner, sb: Super) {
    Shape(disk, inodes, sb) && Owns(disk, inodes, owner, sb) && Marked(disk, owner, {}, sb)
  }

  lemma SlotAddrs(disk: Disk, inodes: seq<Inode>, owner: Owner, sb: Super, i: nat, bn: nat)
    requires FsOk(disk, inodes, owner, sb) && i < |inodes|
    ensures InodeOk(inodes[i]) && (bn < NDIRECT ==> SlotAt(disk, inodes[i], bn) == inodes[i].addrs[bn])
  {
  }

  /** The blocks before the bitmap are the same on both disks. */
  ghost predicate MetaKept(disk: Disk, disk': Disk, sb: Super) {
    |disk| == |disk'| && forall x :: 0 <= x < |disk| && x < sb.bmapstart ==> disk'[x] == disk[x]
  }

  /** Blocks may have been added to inode `i`; everything already owned stays owned and unchanged,
      except that `i`'s indirect block may have new entries. */
  ghost predicate Grows(disk: Disk, owner: Owner, disk': Disk, owner': Owner, sb: Super, i: nat) {
    MetaKept(disk, disk', sb) && OwnedKept(disk, owner, disk', owner', i)
  }

  ghost predicate OwnedKept(disk: Disk, owner: Owner, disk': Disk, owner': Owner, i: nat) {
    |disk| == |disk'| && forall c {:trigger c in owner} :: c in owner ==>
      && c in owner' && owner'[c] == owner[c] && c < |disk|
      && (owner[c] != (i, NDIRECT) ==> disk'[c] == disk[c])
  }

  lemma GrowsTwice(d0: Disk, o0: Owner, d1: Disk, o1: Owner, d2: Disk, o2: Owner, sb: Super, i: nat)
    requires Grows(d0, o0, d1, o1, sb, i) && Grows(d1, o1, d2, o2, sb, i)
    ensures Grows(d0, o0, d2, o2, sb, i)
  {
  }

  /** The blocks of all inodes but `i` are still theirs, with the same contents. */
  ghost predicate OthersKept(disk: Disk, owner: Owner, disk': Disk, owner': Owner, i: nat) {
    |disk| == |disk'| && forall c {:trigger c in owner} :: c in owner && owner[c].0 != i ==>
      c in owner' && owner'[c] == owner[c] && c < |disk| && disk'[c] == disk[c]
  }

  lemma MetaKeptTwice(d0: Disk, d1: Disk, d2: Disk, sb: Super)
    requires MetaKept(d0, d1, sb) && MetaKept(d1, d2, sb)
    ensures MetaKept(d0, d2, sb)
  {
  }

  lemma OthersKeptTwice(d0: Disk, o0: Owner, d1: Disk, o1: Owner, d2: Disk, o2: Owner, i: nat)
    requires OthersKept(d0, o0, d1, o1, i) && OthersKept(d1, o1, d2, o2, i)
    ensures OthersKept(d0, o0, d2, o2, i)
  {
  }

  /** All other inodes, and the blocks they own with their contents, are as they were. */
  ghost predicate OthersSame(disk: Disk, inodes: seq<Inode>, owner: Owner,
                             disk': Disk, inodes': seq<Inode>, owner': Owner, i: nat) {
    && OthersKept(disk, owner, disk', owner', i) && |inodes'| == |inodes|
    && forall j :: 0 <= j < |inodes| && j != i ==> inodes'[j] == inodes[j]
  }

  lemma OthersSameTwice(d0: Disk, i0: seq<Inode>, o0: Owner, d1: Disk, i1: seq<Inode>, o1: Owner,
                        d2: Disk, i2: seq<Inode>, o2: Owner, i: nat)
    requires OthersSame(d0, i0, o0, d1, i1, o1, i) && OthersSame(d1, i1, o1, d2, i2, o2, i)
    ensures OthersSame(d0, i0, o0, d2, i2, o2, i)
  {
    OthersKeptTwice(d0, o0, d1, o1, d2, o2, i);
  }

  /** The indirect block of an inode, if it has one. */
  function Indirect(ip: Inode): set<nat>
    requires |ip.addrs| == NDIRECT + 1
  {
    if ip.addrs[NDIRECT] == 0 then {} else {ip.addrs[NDIRECT]}
  }

  function MapBlocks(sb: Super): set<nat> {
    set b: nat | b < sb.datastart && sb.InMap(b)
  }

  /** Allocating a free block touches no owned block and nothing before the bitmap. */
  lemma AllocKeeps(disk: Disk, inodes: seq<Inode>, owner: Owner, sb: Super, b: nat)
    requires FsOk(disk, inodes, owner, sb)
    requires b < sb.size && sb.BBlock(b) < |disk| && !BitOf(disk, sb, b)
    ensures sb.BBlock(b) in MapBlocks(sb) && b !in owner && sb.Data(b)
    ensures var disk' := Allocated(disk, sb, b);
            && |disk'| == |disk| && MetaKept(disk, disk', sb) && disk'[b] == ZeroBlock()
            && (forall c {:trigger c in owner} :: c in owner ==> sb.Data(c) && disk'[c] == disk[c])
            && Owns(disk', inodes, owner, sb) && Marked(disk', owner, {b}, sb)
  {
    FreeBlock(disk, owner, sb, b);
    BitmapArea(sb, b);
    MarkedAfterAlloc(disk, owner, sb, b);
    OwnsAfterAlloc(disk, inodes, owner, sb, b);
    assert forall c :: c in owner ==> sb.Data(c) && c != b;
  }

  /** Allocate block `b` for a direct slot, or as the indirect block. */
  lemma DirectGrows(disk: Disk, inodes: seq<Inode>, owner: Owner, sb: Super, i: nat, k: nat, b: nat)
    requires FsOk(disk, inodes, owner, sb) && i < |inodes| && k <= NDIRECT && inodes[i].addrs[k] == 0
    requires b < sb.size && sb.BBlock(b) < |disk| && !BitOf(disk, sb, b)
    ensures sb.BBlock(b) in MapBlocks(sb) && b !in owner && sb.Data(b)
    ensures var disk' := Allocated(disk, sb, b);
            && FsOk(disk', inodes[i := WithAddr(inodes[i], k, b)], owner[b := (i, k)], sb)
            && Grows(disk, owner, disk', owner[b := (i, k)], sb, i) && disk'[b] == ZeroBlock()
  {
    AllocKeeps(disk, inodes, owner, sb, b);
    assert Marked(Allocated(disk, sb, b), owner[b := (i, k)], {}, sb);
    hide Marked, OwnsBut, SlotAt, Allocated;
    OwnsAfterDirect(Allocated(disk, sb, b), inodes, owner, sb, i, k, b);
  }

  /** Allocate block `b` for entry `j` of the indirect block. */
  lemma IndirectGrows(disk: Disk, inodes: seq<Inode>, owner: Owner, sb: Super, i: nat, j: nat, b: nat)
    requires FsOk(disk, inodes, owner, sb) && i < |inodes| && j < NINDIRECT
    requires b < sb.size && sb.BBlock(b) < |disk| && !BitOf(disk, sb, b)
    requires var ind := inodes[i].addrs[NDIRECT];
             0 < ind < |disk| && GetWord(disk[ind], j) == 0
    ensures sb.BBlock(b) in MapBlocks(sb) && b !in owner && sb.Data(b)
    ensures var ind := inodes[i].addrs[NDIRECT];
            var disk1 := Allocated(disk, sb, b);
            var disk' := disk1[ind := SetWord(disk[ind], j, b)];
            && disk1[ind] == disk[ind] && ind in owner && owner[ind] == (i, NDIRECT) && ind != b
            && FsOk(disk', inodes, owner[b := (i, NDIRECT + 1 + j)], sb)
            && Grows(disk, owner, disk', owner[b := (i, NDIRECT + 1 + j)], sb, i) && disk'[b] == ZeroBlock()
  {
    var ind := inodes[i].addrs[NDIRECT];
    var disk1 := Allocated(disk, sb, b);
    var owner' := owner[b := (i, NDIRECT + 1 + j)];
    assert OwnedBy(owner, SlotAt(disk, inodes[i], NDIRECT), i, NDIRECT);
    AllocKeeps(disk, inodes, owner, sb, b);
    assert Marked(disk1, owner', {}, sb);
    hide Marked, OwnsBut, SlotAt, Allocated, SetWord;
    OwnsAfterIndirect(disk1, inodes, owner, sb, i, j, b);
    MarkedAfterWrite(disk1, owner', {}, sb, ind, SetWord(disk[ind], j, b));
  }

  /** A zeroed indirect block has no entries. */
  lemma FreshIndirectEmpty(disk: Disk, inodes: seq<Inode>, owner: Owner, sb: Super, i: nat, j: nat)
    requires FsOk(disk, inodes, owner, sb) && i < |inodes| && j < NINDIRECT
    requires inodes[i].addrs[NDIRECT] < |disk| && disk[inodes[i].addrs[NDIRECT]] == ZeroBlock()
    ensures forall c :: c in owner ==> owner[c] != (i, NDIRECT + 1 + j)
  {
    ZeroWords(j);
    assert SlotAt(disk, inodes[i], NDIRECT + 1 + j) == 0;
    forall c | c in owner ensures owner[c] != (i, NDIRECT + 1 + j) {
      assert Named(disk, inodes, owner[c], c, sb);
    }
  }

  lemma DataNotIndirect(disk: Disk, inodes: seq<Inode>, owner: Owner, sb: Super, b: nat)
    requires FsOk(disk, inodes, owner, sb) && b in owner && owner[b].1 != NDIRECT
    ensures NotIndirect(inodes, b) && sb.Data(b) && b < |disk| && sb.bmapstart < sb.datastart
  {
    hide SlotAt, Marked;
    assert sb.Data(b);
    NotIndirectBlock(disk, inodes, owner, sb, b, 0, 0, 0);
  }

  /** A file's own data block may be rewritten. */
  lemma DataWriteOk(disk: Disk, inodes: seq<Inode>, owner: Owner, sb: Super, b: nat, data: Block)
    requires FsOk(disk, inodes, owner, sb) && b in owner && owner[b].1 != NDIRECT
    ensures b < |disk| && FsOk(disk[b := data], inodes, owner, sb)
  {
    DataNotIndirect(disk, inodes, owner, sb, b);
    hide SlotAt, NotIndirect, OwnsBut, Marked;
    OwnsAfterWrite(disk, inodes, owner, sb, b, data, 0, 0, 0);
    MarkedAfterWrite(disk, owner, {}, sb, b, data);
  }

  /** So may a metadata block outside the bitmap. */
  lemma MetaWriteOk(disk: Disk, inodes: seq<Inode>, owner: Owner, sb: Super, b: nat, data: Block)
    requires FsOk(disk, inodes, owner, sb) && 0 < b < sb.bmapstart
    ensures b < |disk| && FsOk(disk[b := data], inodes, owner, sb)
  {
    assert b !in owner;
    NotIndirectBlock(disk, inodes, owner, sb, b, 0, 0, 0);
    OwnsAfterWrite(disk, inodes, owner, sb, b, data, 0, 0, 0);
    MarkedAfterWrite(disk, owner, {}, sb, b, data);
  }

  // ---- writing inodes back ----

  function DiskInode(disk: Disk, sb: Super, i: nat): Inode
    requires sb.IBlock(i) < |disk|
  {
    LoadInode(disk[sb.IBlock(i)], i % IPB)
  }

  lemma InodeArea(sb: Super, i: nat)
    requires sb.Valid() && i < sb.ninodes
    ensures 0 < sb.IBlock(i) < sb.bmapstart < sb.size
  {
    assert i / IPB < sb.bmapstart - sb.inodestart;
  }

  lemma AddrsFit(disk: Disk, inodes: seq<Inode>, owner: Owner, sb: Super, i: nat)
    requires FsOk(disk, inodes, owner, sb) && i < |inodes|
    ensures forall k :: 0 <= k <= NDIRECT ==> inodes[i].addrs[k] < 0x1_0000_0000
    ensures |InodeWords(inodes[i])| == WORDS_PER_INODE
    ensures forall k :: 0 <= k < WORDS_PER_INODE ==> InodeWords(inodes[i])[k] < 0x1_0000_0000
  {
    forall k | 0 <= k <= NDIRECT ensures inodes[i].addrs[k] < 0x1_0000_0000 {
      assert OwnedBy(owner, SlotAt(disk, inodes[i], k), i, k);
    }
    hide FsOk;
    InodeRoundTrip(ZeroBlock(), 0, inodes[i], 0);
  }

  /** On the new disk inode `i` is the one in memory; the other inodes on disk are as before. */
  ghost predicate OnlyInode(disk: Disk, disk': Disk, inodes: seq<Inode>, sb: Super, i: nat) {
    forall j :: 0 <= j < |inodes| ==> InodeIs(disk, disk', inodes, sb, i, j)
  }

  ghost predicate InodeIs(disk: Disk, disk': Disk, inodes: seq<Inode>, sb: Super, i: nat, j: nat)
    requires j < |inodes|
  {
    && sb.IBlock(j) < |disk| && sb.IBlock(j) < |disk'|
    && DiskInode(disk', sb, j) == if j == i then inodes[j] else DiskInode(disk, sb, j)
  }

  /** The inodes in memory are those on disk. */
  ghost predicate Synced(disk: Disk, inodes: seq<Inode>, sb: Super) {
    forall j :: 0 <= j < |inodes| ==> sb.IBlock(j) < |disk| && DiskInode(disk, sb, j) == inodes[j]
  }

  lemma SyncedAfter(disk: Disk, inodes: seq<Inode>, disk': Disk, inodes': seq<Inode>, sb: Super, i: nat)
    requires Synced(disk, inodes, sb) && OnlyInode(disk, disk', inodes', sb, i) && |inodes'| == |inodes|
    requires forall j :: 0 <= j < |inodes| && j != i ==> inodes'[j] == inodes[j]
    ensures Synced(disk', inodes', sb)
  {
    hide DiskInode;
    forall j | 0 <= j < |inodes'| ensures sb.IBlock(j) < |disk'| && DiskInode(disk', sb, j) == inodes'[j] {
      assert InodeIs(disk, disk', inodes', sb, i, j);
    }
  }

  lemma OnlyInodeSince(d0: Disk, d1: Disk, d2: Disk, inodes: seq<Inode>, sb: Super, i: nat)
    requires sb.Valid() && |inodes| == sb.ninodes && MetaKept(d0, d1, sb) && OnlyInode(d1, d2, inodes, sb, i)
    ensures OnlyInode(d0, d2, inodes, sb, i)
  {
    hide LoadInode;
    forall j | 0 <= j < |inodes| ensures InodeIs(d0, d2, inodes, sb, i, j) {
      assert InodeIs(d1, d2, inodes, sb, i, j);
      InodeArea(sb, j);
    }
  }

  lemma StoredInode(disk: Disk, sb: Super, ip: Inode, i: nat, j: nat)
    requires sb.Valid() && |disk| == sb.size && i < sb.ninodes && j < sb.ninodes && InodeOk(ip)
    requires forall k :: 0 <= k <= NDIRECT ==> ip.addrs[k] < 0x1_0000_0000
    ensures |InodeWords(ip)| == WORDS_PER_INODE
    ensures forall k :: 0 <= k < WORDS_PER_INODE ==> InodeWords(ip)[k] < 0x1_0000_0000
    ensures sb.IBlock(i) < |disk| && sb.IBlock(j) < |disk|
    ensures var disk' := disk[sb.IBlock(i) := StoreInode(disk[sb.IBlock(i)], i % IPB, ip)];
            DiskInode(disk', sb, j) == if j == i then ip else DiskInode(disk, sb, j)
  {
    hide StoreInode, LoadInode;
    InodeArea(sb, i);
    InodeArea(sb, j);
    InodeRoundTrip(disk[sb.IBlock(i)], i % IPB, ip, j % IPB);
    assert i == i / IPB * IPB + i % IPB && j == j / IPB * IPB + j % IPB;
  }

  /** iupdate: the inode on disk becomes the one in memory, the others stay, and no file changes. */
  lemma IupdateOk(disk: Disk, inodes: seq<Inode>, owner: Owner, sb: Super, i: nat)
    requires FsOk(disk, inodes, owner, sb) && i < |inodes|
    requires |InodeWords(inodes[i])| == WORDS_PER_INODE
    requires forall k :: 0 <= k < WORDS_PER_INODE ==> InodeWords(inodes[i])[k] < 0x1_0000_0000
    requires forall k :: 0 <= k <= NDIRECT ==> inodes[i].addrs[k] < 0x1_0000_0000
    ensures 0 < sb.IBlock(i) < sb.bmapstart < |disk|
    ensures forall c {:trigger c in owner} :: c in owner ==> sb.Data(c) && c < |disk|
    ensures var disk' := disk[sb.IBlock(i) := StoreInode(disk[sb.IBlock(i)], i % IPB, inodes[i])];
            FsOk(disk', inodes, owner, sb) && OnlyInode(disk, disk', inodes, sb, i)
  {
    InodeArea(sb, i);
    var ib := sb.IBlock(i);
    var block := StoreInode(disk[ib], i % IPB, inodes[i]);
    MetaWriteOk(disk, inodes, owner, sb, ib, block);
    assert forall c :: c in owner ==> sb.Data(c);
    hide OwnsBut, Marked, SlotAt, StoreInode, LoadInode, DiskInode;
    var disk' := disk[ib := block];
    forall j | 0 <= j < |inodes|
      ensures InodeIs(disk, disk', inodes, sb, i, j)
    {
      StoredInode(disk, sb, inodes[i], i, j);
    }
    assert OnlyInode(disk, disk', inodes, sb, i);
  }

  /** Addresses decide ownership; the rest of an inode does not. */
  lemma AddrsDecide(disk: Disk, inodes: seq<Inode>, owner: Owner, sb: Super, i: nat, ip: Inode)
    requires FsOk(disk, inodes, owner, sb) && i < |inodes| && InodeOk(ip) && ip.addrs == inodes[i].addrs
    ensures FsOk(disk, inodes[i := ip], owner, sb)
  {
    var inodes' := inodes[i := ip];
    forall l, m {:trigger SlotAt(disk, inodes'[l], m)} | 0 <= l < |inodes| && 0 <= m < NSLOTS
      ensures SlotAt(disk, inodes'[l], m) == SlotAt(disk, inodes[l], m)
    {
    }
    hide SlotAt, Marked;
    forall c | c in owner ensures Named(disk, inodes', owner[c], c, sb) {
      assert Named(disk, inodes, owner[c], c, sb);
    }
    forall l, m {:trigger SlotAt(disk, inodes'[l], m)} | 0 <= l < |inodes'| && 0 <= m < NSLOTS
      ensures OwnedBy(owner, SlotAt(disk, inodes'[l], m), l, m)
    {
      assert OwnedBy(owner, SlotAt(disk, inodes[l], m), l, m);
    }
  }

  /** Blocks may only have been taken from inode `i`; the others keep theirs. */
  ghost predicate Shrinks(disk: Disk, owner: Owner, disk': Disk, owner': Owner, sb: Super, i: nat) {
    && OthersKept(disk, owner, disk', owner', i) && MetaKept(disk, disk', sb)
    && forall c {:trigger c in owner'} :: c in owner' ==> c in owner && owner'[c] == owner[c]
  }

  lemma ShrinksTwice(d0: Disk, o0: Owner, d1: Disk, o1: Owner, d2: Disk, o2: Owner, sb: Super, i: nat)
    requires Shrinks(d0, o0, d1, o1, sb, i) && Shrinks(d1, o1, d2, o2, sb, i)
    ensures Shrinks(d0, o0, d2, o2, sb, i)
  {
    OthersKeptTwice(d0, o0, d1, o1, d2, o2, i);
    MetaKeptTwice(d0, d1, d2, sb);
    hide OthersKept, MetaKept;
  }

  /** Freeing the block of one slot of `i`. */
  lemma FreeShrinks(disk: Disk, owner: Owner, sb: Super, b: nat, i: nat)
    requires sb.Valid() && |disk| == sb.size && b in owner && owner[b].0 == i && sb.Data(b)
    requires forall c {:trigger c in owner} :: c in owner ==> sb.Data(c)
    ensures sb.BBlock(b) < |disk| && sb.BBlock(b) in MapBlocks(sb)
    ensures Shrinks(disk, owner, Freed(disk, sb, b), owner - {b}, sb, i)
  {
    BitmapArea(sb, b);
  }

  lemma OwnedAreData(disk: Disk, inodes: seq<Inode>, owner: Owner, sb: Super, gone: nat, lo: nat, hi: nat)
    requires OwnsBut(disk, inodes, owner, sb, gone, lo, hi)
    ensures forall c {:trigger c in owner} :: c in owner ==> sb.Data(c) && owner[c].1 < NSLOTS
  {
  }

  /** An inode without addresses owns nothing. */
  lemma EmptyOwnsNothing(disk: Disk, inodes: seq<Inode>, owner: Owner, sb: Super, i: nat)
    requires FsOk(disk, inodes, owner, sb) && i < |inodes| && forall k :: 0 <= k <= NDIRECT ==> inodes[i].addrs[k] == 0
    ensures forall c {:trigger c in owner} :: c in owner ==> owner[c].0 != i
  {
    forall c {:trigger c in owner} | c in owner ensures owner[c].0 != i {
      assert Named(disk, inodes, owner[c], c, sb);
    }
  }

  lemma EntrySlot(disk: Disk, inodes: seq<Inode>, sb: Super, i: nat, j: nat)
    requires Shape(disk, inodes, sb) && i < |inodes| && j < NINDIRECT && 0 < inodes[i].addrs[NDIRECT] < |disk|
    ensures SlotAt(disk, inodes[i], NDIRECT + 1 + j) == GetWord(disk[inodes[i].addrs[NDIRECT]], j)
    ensures SlotAt(disk, inodes[i], NDIRECT) == inodes[i].addrs[NDIRECT]
  {
  }

  /** An empty slot needs no freeing: it can be counted among the exempt ones. */
  lemma SkipSlot(disk: Disk, inodes: seq<Inode>, owner: Owner, sb: Super, i: nat, lo: nat, k: nat)
    requires OwnsBut(disk, inodes, owner, sb, i, lo, k) && i < |inodes| && lo <= k < NSLOTS && 0 < sb.datastart
    requires SlotAt(disk, inodes[i], k) == 0
    ensures OwnsBut(disk, inodes, owner, sb, i, lo, k + 1) && forall c :: c in owner ==> owner[c] != (i, k)
  {
    OwnsAfterDrop(disk, inodes, owner, sb, i, lo, k, k);
    assert 0 !in owner;
    assert owner - {0} == owner;
  }

  /** The blocks named by the first `j` entries of inode `i`'s indirect block have been given up. */
  ghost predicate EntriesFreed(disk: Disk, inodes: seq<Inode>, owner: Owner, sb: Super, i: nat, j: nat) {
    && Shape(disk, inodes, sb) && Marked(disk, owner, {}, sb) && i < |inodes|
    && OwnsBut(disk, inodes, owner, sb, i, NDIRECT + 1, NDIRECT + 1 + j)
    && (forall c {:trigger c in owner} :: c in owner && owner[c].0 == i ==> !(NDIRECT < owner[c].1 < NDIRECT + 1 + j))
    && var ind := inodes[i].addrs[NDIRECT];
       0 < ind < |disk| && ind in owner && owner[ind] == (i, NDIRECT)
  }

  lemma EntriesRefl(disk: Disk, inodes: seq<Inode>, owner: Owner, sb: Super, i: nat, j: nat)
    requires EntriesFreed(disk, inodes, owner, sb, i, j)
    ensures Shrinks(disk, owner, disk, owner, sb, i)
  {
    ShrinksRefl(disk, inodes, owner, sb, i, NDIRECT + 1, NDIRECT + 1 + j);
  }

  lemma EntriesStart(disk: Disk, inodes: seq<Inode>, owner: Owner, sb: Super, i: nat)
    requires FsOk(disk, inodes, owner, sb) && i < |inodes| && inodes[i].addrs[NDIRECT] != 0
    ensures EntriesFreed(disk, inodes, owner, sb, i, 0)
  {
    assert OwnedBy(owner, SlotAt(disk, inodes[i], NDIRECT), i, NDIRECT);
    OwnedAreData(disk, inodes, owner, sb, 0, 0, 0);
  }

  /** With all entries and the indirect block given up, its address can be cleared. */
  lemma EntriesEnd(disk: Disk, inodes: seq<Inode>, owner: Owner, sb: Super, i: nat)
    requires Shape(disk, inodes, sb) && Marked(disk, owner, {}, sb) && i < |inodes|
    requires OwnsBut(disk, inodes, owner, sb, i, NDIRECT, NSLOTS)
    requires forall c {:trigger c in owner} :: c in owner && owner[c].0 == i ==> !(NDIRECT < owner[c].1 < NSLOTS)
    requires forall c :: c in owner ==> owner[c] != (i, NDIRECT)
    ensures FsOk(disk, inodes[i := WithAddr(inodes[i], NDIRECT, 0)], owner, sb)
  {
    OwnedAreData(disk, inodes, owner, sb, i, NDIRECT, NSLOTS);
    hide OwnsBut, Marked, SlotAt;
    OwnsAfterClear(disk, inodes, owner, sb, i, NDIRECT);
  }

  lemma ShrinksRefl(disk: Disk, inodes: seq<Inode>, owner: Owner, sb: Super, i: nat, lo: nat, hi: nat)
    requires Shape(disk, inodes, sb) && OwnsBut(disk, inodes, owner, sb, i, lo, hi)
    ensures Shrinks(disk, owner, disk, owner, sb, i)
  {
    OwnedAreData(disk, inodes, owner, sb, i, lo, hi);
  }

  /** The frame of a truncation, once the inode has been written back. */
  lemma TruncDone(d0: Disk, o0: Owner, d1: Disk, d2: Disk, o1: Owner, inodes: seq<Inode>, sb: Super, i: nat)
    requires sb.Valid() && |inodes| == sb.ninodes && |d1| == |d2|
    requires Shrinks(d0, o0, d1, o1, sb, i) && OnlyInode(d1, d2, inodes, sb, i)
    requires forall c {:trigger c in o1} :: c in o1 ==> o1[c].0 != i && c < |d2| && d2[c] == d1[c]
    ensures OthersKept(d0, o0, d2, o1, i) && OnlyInode(d0, d2, inodes, sb, i)
    ensures forall c {:trigger c in o1} :: c in o1 <==> c in o0 && o0[c].0 != i
  {
    OnlyInodeSince(d0, d1, d2, inodes, sb, i);
    hide OnlyInode;
  }

  // ---- freeing an inode ----

  /** `ip->type = 0`: the type is the low half of the first word. */
  function WithoutType(ip: Inode): Inode {
    if |ip.meta| == 2 then ip.(meta := [ip.meta[0] / 0x1_0000 * 0x1_0000, ip.meta[1]]) else ip
  }

  predicate IsFree(ip: Inode) {
    |ip.meta| == 2 && ip.meta[0] % 0x1_0000 == 0
  }

  lemma UntypedOk(disk: Disk, inodes: seq<Inode>, owner: Owner, sb: Super, i: nat)
    requires FsOk(disk, inodes, owner, sb) && i < |inodes|
    ensures sb.Valid() && |inodes| == sb.ninodes
    ensures var ip := WithoutType(inodes[i]);
            IsFree(ip) && ip.size == inodes[i].size && FsOk(disk, inodes[i := ip], owner, sb)
  {
    assert InodeOk(inodes[i]);
    AddrsDecide(disk, inodes, owner, sb, i, WithoutType(inodes[i]));
    hide Owns, Marked;
  }

  /** Two writes of inode `i`, as seen from before both. */
  lemma OnlyInodeTwice(d0: Disk, d1: Disk, d2: Disk, inodes1: seq<Inode>, inodes2: seq<Inode>, sb: Super, i: nat)
    requires OnlyInode(d0, d1, inodes1, sb, i) && OnlyInode(d1, d2, inodes2, sb, i) && |inodes1| == |inodes2|
    ensures OnlyInode(d0, d2, inodes2, sb, i)
  {
    hide DiskInode;
    forall j | 0 <= j < |inodes2| ensures InodeIs(d0, d2, inodes2, sb, i, j) {
      assert InodeIs(d0, d1, inodes1, sb, i, j) && InodeIs(d1, d2, inodes2, sb, i, j);
    }
  }

  lemma OthersKeptStill(d0: Disk, o0: Owner, d1: Disk, d2: Disk, o1: Owner, i: nat)
    requires OthersKept(d0, o0, d1, o1, i) && |d2| == |d1|
    requires forall c {:trigger c in o1} :: c in o1 ==> c < |d2| && d2[c] == d1[c]
    ensures OthersKept(d0, o0, d2, o1, i)
  {
  }
}
