/** The on-disk redo log: a header block naming home blocks, followed by their new contents. */
module LogFormat {
  import opened Blocks

  const MAXOPBLOCKS := 10
  const LOGSIZE := 30

  type Disk = seq<Block>

  /** Where the log lives: a header at `start`, then `nlog - 1` content blocks. */
  datatype Layout = Layout(start: nat, nlog: nat, size: nat) {
    ghost predicate Valid() {
      1 <= nlog && start + nlog <= size <= 0x1_0000_0000
    }

    predicate InLog(b: nat) {
      start <= b < start + nlog
    }

    predicate Home(b: nat) {
      b < size && !InLog(b)
    }

    /** A list of home blocks that fits in the log and in the header. */
    ghost predicate Fits(lh: seq<nat>) {
      && |lh| <= LOGSIZE
      && |lh| <= nlog - 1
      && (forall i :: 0 <= i < |lh| ==> Home(lh[i]))
      && (forall i, j :: 0 <= i < j < |lh| ==> lh[i] != lh[j])
    }
  }

  /** The count and the block numbers stored in a header block. */
  predicate HeaderOk(b: Block) {
    GetWord(b, 0) <= LOGSIZE
  }

  function Header(b: Block): (lh: seq<nat>)
    requires HeaderOk(b)
  {
    LoadWords(b, 1, GetWord(b, 0))
  }

  /** Header block `b` after `write_head`: the words past the last entry keep their old value. */
  function StoreHeader(b: Block, lh: seq<nat>): (r: Block)
    requires |lh| <= LOGSIZE
    requires forall i :: 0 <= i < |lh| ==> lh[i] < 0x1_0000_0000
    ensures HeaderOk(r) && Header(r) == lh
    ensures forall j: nat :: |lh| < j < NWORDS ==> GetWord(r, j) == GetWord(b, j)
  {
    StoreWords(SetWord(b, 0, |lh|), 1, lh)
  }

  /** Where the header keeps its count and its entries: 32-bit little-endian words from the start of the block. */
  lemma HeaderLayout(b: Block, k: nat)
    requires HeaderOk(b)
    ensures |Header(b)| == LittleEndian(b.bytes[0..4])
    ensures k < |Header(b)| ==> Header(b)[k] == LittleEndian(b.bytes[4 + 4 * k..8 + 4 * k])
  {
    hide LittleEndian;
    WordBytes(b, 0);
    if k < |Header(b)| {
      WordBytes(b, 1 + k);
    }
  }

  /** The disk once the first `k` logged blocks have been copied to their homes. */
  function Installed(d: Disk, lay: Layout, lh: seq<nat>, k: nat): (r: Disk)
    requires lay.Valid() && lay.Fits(lh) && |d| == lay.size && k <= |lh|
    ensures |r| == |d|
    ensures forall j {:trigger lh[j]} :: 0 <= j < k ==> r[lh[j]] == d[lay.start + 1 + j]
    ensures forall b {:trigger r[b]} :: 0 <= b < |d| && b !in lh[..k] ==> r[b] == d[b]
  {
    if k == 0 then d
    else
      var r := Installed(d, lay, lh, k - 1);
      assert lh[..k] == lh[..k - 1] + [lh[k - 1]];
      r[lh[k - 1] := d[lay.start + k]]
  }

  ghost predicate LogOk(d: Disk, lay: Layout) {
    lay.Valid() && |d| == lay.size && HeaderOk(d[lay.start]) && lay.Fits(Header(d[lay.start]))
  }

  /** What the file system reads after recovery from a crash that left disk `d`. */
  function Recovered(d: Disk, lay: Layout): (r: Disk)
    requires LogOk(d, lay)
    ensures |r| == |d|
  {
    Installed(d, lay, Header(d[lay.start]), |Header(d[lay.start])|)
  }

  /** The two disks hold the same file system; their logs may differ. */
  ghost predicate SameHome(d: Disk, e: Disk, lay: Layout) {
    |d| == |e| == lay.size && forall b {:trigger lay.Home(b)} :: 0 <= b < lay.size && lay.Home(b) ==> d[b] == e[b]
  }

  /** If the log holds `target`'s contents of the blocks in `lh` and all other home blocks are
      `target`'s, installing the whole log yields `target`. */
  lemma {:induction false} InstalledIs(d: Disk, lay: Layout, lh: seq<nat>, target: Disk)
    requires lay.Valid() && lay.Fits(lh) && |d| == |target| == lay.size
    requires forall j :: 0 <= j < |lh| ==> d[lay.start + 1 + j] == target[lh[j]]
    requires forall b {:trigger lay.Home(b)} :: 0 <= b < lay.size && lay.Home(b) && b !in lh ==> d[b] == target[b]
    ensures SameHome(Installed(d, lay, lh, |lh|), target, lay)
  {
    var r := Installed(d, lay, lh, |lh|);
    assert lh[..|lh|] == lh;
    hide Installed;
    forall b | 0 <= b < lay.size && lay.Home(b) ensures r[b] == target[b] {
      if b in lh {
        var j :| 0 <= j < |lh| && lh[j] == b;
        assert r[lh[j]] == d[lay.start + 1 + j];
      }
    }
  }
}
