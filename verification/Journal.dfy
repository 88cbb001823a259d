/** kernel/log.c run by one process: the loops that write the log, the header and the home blocks,
    with a record of every disk image a crash could leave behind. */
module Journal {
  import opened Blocks
  import opened LogFormat
  import A = Admission

  type Cache = map<nat, Block>

  /** Cached blocks agree with the disk, except possibly those in `lh`. */
  ghost predicate Agree(disk: Disk, cache: Cache, lay: Layout, lh: seq<nat>) {
    && lay.Valid() && |disk| == lay.size && lay.Fits(lh)
    && forall b {:trigger b in cache} :: b in cache ==> b < lay.size && (b in lh || cache[b] == disk[b])
  }

  /** The home blocks read as file system `fs`, through the cache. */
  ghost predicate Shows(disk: Disk, cache: Cache, lay: Layout, fs: Disk) {
    |disk| == |fs| == lay.size &&
    forall b {:trigger lay.Home(b)} :: 0 <= b < lay.size && lay.Home(b) ==>
      Cached(disk, cache, b) == fs[b]
  }

  /** The log area holds `fs`'s contents of the first `k` blocks of `lh`. */
  ghost predicate Logged(disk: Disk, lay: Layout, lh: seq<nat>, k: nat, fs: Disk) {
    forall j {:trigger lh[j]} :: 0 <= j < k && j < |lh| ==>
      lay.start + 1 + j < |disk| && lh[j] < |fs| && disk[lay.start + 1 + j] == fs[lh[j]]
  }

  /** The log is empty and the home blocks on disk are those of `fs`. */
  ghost predicate Quiet(disk: Disk, lay: Layout, fs: Disk) {
    LogOk(disk, lay) && Header(disk[lay.start]) == [] && SameHome(disk, fs, lay)
  }

  /** The header names `lh`, the log holds `fs`'s contents of it, and the home blocks outside
      `lh[k..]` are `fs`'s already. */
  ghost predicate Installing(disk: Disk, lay: Layout, lh: seq<nat>, k: nat, fs: Disk) {
    && LogOk(disk, lay) && Header(disk[lay.start]) == lh && |fs| == lay.size && k <= |lh|
    && Logged(disk, lay, lh, |lh|, fs)
    && forall b {:trigger lay.Home(b)} :: 0 <= b < lay.size && lay.Home(b) && b !in lh[k..] ==> disk[b] == fs[b]
  }

  ghost predicate RecoversTo(image: Disk, lay: Layout, fs: Disk) {
    LogOk(image, lay) && SameHome(Recovered(image, lay), fs, lay)
  }

  /** Every image from number `lo` on recovers to `fs`. */
  ghost predicate RecoverTo(images: seq<Disk>, lo: nat, lay: Layout, fs: Disk) {
    forall k {:trigger images[k]} :: lo <= k < |images| ==> RecoversTo(images[k], lay, fs)
  }

  lemma QuietRecovers(disk: Disk, lay: Layout, fs: Disk)
    requires Quiet(disk, lay, fs)
    ensures RecoversTo(disk, lay, fs)
  {
    InstalledIs(disk, lay, [], fs);
  }

  lemma InstallingRecovers(disk: Disk, lay: Layout, lh: seq<nat>, k: nat, fs: Disk)
    requires Installing(disk, lay, lh, k, fs)
    ensures RecoversTo(disk, lay, fs)
  {
    InstalledIs(disk, lay, lh, fs);
  }

  /** Writing the copy of `lh[k]` into the log changes nothing a user or a recovery would see. */
  lemma LogBlockWritten(disk: Disk, cache: Cache, lay: Layout, lh: seq<nat>, k: nat, before: Disk, fs: Disk)
    requires Agree(disk, cache, lay, lh) && Shows(disk, cache, lay, fs) && Quiet(disk, lay, before)
    requires k < |lh| && Logged(disk, lay, lh, k, fs)
    ensures var b := lay.start + 1 + k;
            var data := fs[lh[k]];
            && Agree(disk[b := data], cache[b := data], lay, lh) && Shows(disk[b := data], cache[b := data], lay, fs)
            && Quiet(disk[b := data], lay, before) && Logged(disk[b := data], lay, lh, k + 1, fs)
  {
  }

  function Cached(disk: Disk, cache: Cache, b: nat): Block
    requires b < |disk|
  {
    if b in cache then cache[b] else disk[b]
  }

  lemma Reading(disk: Disk, cache: Cache, lay: Layout, lh: seq<nat>, b: nat, fs: Disk)
    requires Agree(disk, cache, lay, lh) && b < lay.size
    ensures var data := Cached(disk, cache, b);
            && Agree(disk, cache[b := data], lay, lh)
            && (lay.InLog(b) ==> data == disk[b])
            && (Shows(disk, cache, lay, fs) ==>
                  Shows(disk, cache[b := data], lay, fs) && (lay.Home(b) ==> data == fs[b]))
  {
  }

  /** One round of write_log on the disk and the cache. */
  lemma LogRound(disk: Disk, cache: Cache, lay: Layout, lh: seq<nat>, k: nat, before: Disk, fs: Disk)
    requires Agree(disk, cache, lay, lh) && Shows(disk, cache, lay, fs) && Quiet(disk, lay, before)
    requires k < |lh| && Logged(disk, lay, lh, k, fs)
    ensures var log, home := lay.start + 1 + k, lh[k];
            && log < |disk| && home < |disk|
            && var c1 := cache[log := Cached(disk, cache, log)];
               var c2 := c1[home := Cached(disk, c1, home)];
               var disk', c3 := disk[log := c2[home]], c2[log := c2[home]];
               && Agree(disk', c3, lay, lh) && Shows(disk', c3, lay, fs)
               && Quiet(disk', lay, before) && Logged(disk', lay, lh, k + 1, fs)
  {
    var log, home := lay.start + 1 + k, lh[k];
    assert lay.Home(home) && lay.InLog(log) && log < |disk| == lay.size;
    var c1 := cache[log := Cached(disk, cache, log)];
    var c2 := c1[home := Cached(disk, c1, home)];
    hide Agree, Shows, Logged, Quiet;
    Reading(disk, cache, lay, lh, log, fs);
    Reading(disk, c1, lay, lh, home, fs);
    LogBlockWritten(disk, c2, lay, lh, k, before, fs);
  }

  lemma HeadWritten(disk: Disk, cache: Cache, lay: Layout, lh: seq<nat>, head: Block, before: Disk, fs: Disk)
    requires Agree(disk, cache, lay, lh) && Shows(disk, cache, lay, fs) && Quiet(disk, lay, before)
    requires Logged(disk, lay, lh, |lh|, fs) && HeaderOk(head) && Header(head) == lh
    ensures var s := lay.start;
            && Agree(disk[s := head], cache[s := head], lay, lh) && Shows(disk[s := head], cache[s := head], lay, fs)
            && Installing(disk[s := head], lay, lh, 0, fs)
  {
    assert lh[0..] == lh;
  }

  lemma BlockInstalled(disk: Disk, cache: Cache, lay: Layout, lh: seq<nat>, k: nat, fs: Disk)
    requires Installing(disk, lay, lh, k, fs) && k < |lh| && Agree(disk, cache, lay, lh[k..])
    ensures var b, data := lh[k], fs[lh[k]];
            && disk[lay.start + 1 + k] == data && lay.Home(b)
            && Agree(disk[b := data], cache[b := data], lay, lh[k + 1..])
            && Installing(disk[b := data], lay, lh, k + 1, fs)
  {
    assert lh[k..] == [lh[k]] + lh[k + 1..];
  }

  lemma InstallingPlaces(disk: Disk, lay: Layout, lh: seq<nat>, k: nat, fs: Disk)
    requires Installing(disk, lay, lh, k, fs) && k < |lh|
    ensures lay.Home(lh[k]) && lay.InLog(lay.start + 1 + k) && lay.start + 1 + k < |disk| == lay.size &&
        lh[k] < lay.size
  {
  }

  /** One round of install_trans on the disk and the cache. */
  lemma InstallRound(disk: Disk, cache: Cache, lay: Layout, lh: seq<nat>, k: nat, fs: Disk)
    requires Installing(disk, lay, lh, k, fs) && k < |lh| && Agree(disk, cache, lay, lh[k..])
    ensures var log, home := lay.start + 1 + k, lh[k];
            && log < |disk| && home < |disk|
            && var c1 := cache[log := Cached(disk, cache, log)];
               var c2 := c1[home := Cached(disk, c1, home)];
               && Agree(disk[home := c1[log]], c2[home := c1[log]], lay, lh[k + 1..])
               && Installing(disk[home := c1[log]], lay, lh, k + 1, fs)
  {
    hide Agree, Installing, Shows;
    InstallingPlaces(disk, lay, lh, k, fs);
    var log, home := lay.start + 1 + k, lh[k];
    var c1 := cache[log := Cached(disk, cache, log)];
    var c2 := c1[home := Cached(disk, c1, home)];
    Reading(disk, cache, lay, lh[k..], log, fs);
    Reading(disk, c1, lay, lh[k..], home, fs);
    BlockInstalled(disk, c2, lay, lh, k, fs);
  }

  lemma LogErased(disk: Disk, cache: Cache, lay: Layout, lh: seq<nat>, head: Block, fs: Disk)
    requires Agree(disk, cache, lay, []) && Installing(disk, lay, lh, |lh|, fs) && HeaderOk(head) && Header(head) == []
    ensures var s := lay.start;
            && Agree(disk[s := head], cache[s := head], lay, []) && Shows(disk[s := head], cache[s := head], lay, fs)
            && Quiet(disk[s := head], lay, fs)
  {
  }

  /** Right after read_head, install_trans can start on what the log describes. */
  lemma RecoveryStarts(disk: Disk, cache: Cache, lay: Layout)
    requires Agree(disk, cache, lay, []) && LogOk(disk, lay)
    ensures var lh := Header(disk[lay.start]);
            Installing(disk, lay, lh, 0, Recovered(disk, lay)) && Agree(disk, cache, lay, lh)
  {
    var lh := Header(disk[lay.start]);
    assert lh[0..] == lh[..|lh|] == lh;
  }

  lemma OneMoreImage(images: seq<Disk>, lo: nat, image: Disk, lay: Layout, fs: Disk)
    requires RecoverTo(images, lo, lay, fs) && RecoversTo(image, lay, fs)
    ensures RecoverTo(images + [image], lo, lay, fs)
  {
    hide RecoversTo;
  }

  lemma AgreeIsQuiet(disk: Disk, cache: Cache, lay: Layout, before: Disk, fs: Disk)
    requires Agree(disk, cache, lay, []) && Shows(disk, cache, lay, fs) && Quiet(disk, lay, before)
    ensures Quiet(disk, lay, fs)
  {
  }

  lemma AgreeLog(disk: Disk, cache: Cache, lay: Layout, lh: seq<nat>)
    requires Agree(disk, cache, lay, lh)
    ensures lay.start < |disk| && |lh| <= LOGSIZE && forall i :: 0 <= i < |lh| ==> lh[i] < 0x1_0000_0000
  {
  }

  class Log {
    const lay: Layout
    var disk: Disk
    var cache: Cache
    var lh: seq<nat>
    ghost var images: seq<Disk>   // the disk after each block write, oldest first

    method Bread(b: nat) returns (data: Block)
      requires b < |disk|
      modifies this`cache
      ensures data == Cached(disk, old(cache), b) && cache == old(cache)[b := data]
    {
      if b !in cache {
        cache := cache[b := disk[b]];
      }
      data := cache[b];
    }

    method Bwrite(b: nat, data: Block)
      requires b < |disk|
      modifies this`cache, this`disk, this`images
      ensures disk == old(disk)[b := data] && cache == old(cache)[b := data]
      ensures images == old(images) + [disk]
    {
      cache := cache[b := data];
      disk := disk[b := data];
      images := images + [disk];
    }

    /** log_write of a home block whose buffer now holds `data`. */
    method LogWrite(b: nat, data: Block, ghost fs: Disk) returns (panic: bool)
      requires Agree(disk, cache, lay, lh) && Shows(disk, cache, lay, fs) && lay.Home(b)
      modifies this`cache, this`lh
      ensures panic <==> |old(lh)| >= LOGSIZE || |old(lh)| >= lay.nlog - 1
      ensures panic ==> cache == old(cache) && lh == old(lh)
      ensures !panic ==>
        lh == A.Absorb(old(lh), b) && Agree(disk, cache, lay, lh) && Shows(disk, cache, lay, fs[b := data])
    {
      if |lh| >= LOGSIZE || |lh| >= lay.nlog - 1 {
        return true;
      }
      panic := false;
      var i := 0;
      while i < |lh| && lh[i] != b
        invariant 0 <= i <= |lh|
        invariant b !in lh[..i]
      {
        i := i + 1;
      }
      if i == |lh| {
        lh := lh + [b];
      } else {
        lh := lh[i := b];
        assert lh == old(lh);
      }
      assert b in lh;
      cache := cache[b := data];
    }

    /** One round of write_log. */
    method CopyToLog(tail: nat, ghost before: Disk, ghost fs: Disk)
      requires Agree(disk, cache, lay, lh) && Shows(disk, cache, lay, fs) && Quiet(disk, lay, before)
      requires tail < |lh| && Logged(disk, lay, lh, tail, fs)
      modifies this`cache, this`disk, this`images
      ensures Agree(disk, cache, lay, lh) && Shows(disk, cache, lay, fs) && Quiet(disk, lay, before)
      ensures Logged(disk, lay, lh, tail + 1, fs) && images == old(images) + [disk]
    {
      LogRound(disk, cache, lay, lh, tail, before, fs);
      hide Agree, Shows, Logged, Quiet;
      var to := Bread(lay.start + 1 + tail);
      var from := Bread(lh[tail]);
      to := from;
      Bwrite(lay.start + 1 + tail, to);
    }

    /** Copy modified blocks from the cache to the log: until the header is written a crash still
        recovers the file system `before` the transaction. */
    method WriteLog(ghost before: Disk, ghost fs: Disk)
      requires Agree(disk, cache, lay, lh) && Shows(disk, cache, lay, fs) && Quiet(disk, lay, before)
      modifies this`cache, this`disk, this`images
      ensures Agree(disk, cache, lay, lh) && Shows(disk, cache, lay, fs) && Quiet(disk, lay, before)
      ensures Logged(disk, lay, lh, |lh|, fs)
      ensures |images| == |old(images)| + |lh| && old(images) <= images
      ensures RecoverTo(images, |old(images)|, lay, before)
    {
      assert Logged(disk, lay, lh, 0, fs) && RecoverTo(images, |images|, lay, before);
      hide Agree, Shows, Logged, Quiet, RecoverTo, RecoversTo;
      var tail := 0;
      while tail < |lh|
        invariant 0 <= tail <= |lh|
        invariant Agree(disk, cache, lay, lh) && Shows(disk, cache, lay, fs) && Quiet(disk, lay, before)
        invariant Logged(disk, lay, lh, tail, fs)
        invariant |images| == |old(images)| + tail && old(images) <= images
        invariant RecoverTo(images, |old(images)|, lay, before)
      {
        ghost var written := images;
        CopyToLog(tail, before, fs);
        QuietRecovers(disk, lay, before);
        OneMoreImage(written, |old(images)|, disk, lay, before);
        tail := tail + 1;
      }
    }

    method WriteHead()
      requires Agree(disk, cache, lay, lh)
      modifies this`cache, this`disk, this`images
      ensures |disk| == |old(disk)| && HeaderOk(disk[lay.start]) && Header(disk[lay.start]) == lh
      ensures disk == old(disk)[lay.start := disk[lay.start]] && cache == old(cache)[lay.start := disk[lay.start]]
      ensures images == old(images) + [disk]
    {
      AgreeLog(disk, cache, lay, lh);
      hide StoreHeader, Agree, Header, HeaderOk;
      var buf := Bread(lay.start);
      var hb := EncodeHead(buf);
      Bwrite(lay.start, hb);
    }

    method EncodeHead(buf: Block) returns (hb: Block)
      requires |lh| <= LOGSIZE && forall i :: 0 <= i < |lh| ==> lh[i] < 0x1_0000_0000
      ensures hb == StoreHeader(buf, lh)
    {
      hide SetWord, Header;
      var head := SetWord(buf, 0, |lh|);
      hb := head;
      var i := 0;
      while i < |lh|
        invariant 0 <= i <= |lh|
        invariant hb == StoreWords(head, 1, lh[..i])
      {
        hb := SetWord(hb, i + 1, lh[i]);
        i := i + 1;
        assert lh[..i][..i - 1] == lh[..i - 1];
      }
      assert lh[..i] == lh;
    }

    /** One round of install_trans. */
    method CopyHome(tail: nat, ghost fs: Disk)
      requires Installing(disk, lay, lh, tail, fs) && tail < |lh| && Agree(disk, cache, lay, lh[tail..])
      modifies this`cache, this`disk, this`images
      ensures Installing(disk, lay, lh, tail + 1, fs) && Agree(disk, cache, lay, lh[tail + 1..])
      ensures images == old(images) + [disk]
    {
      InstallRound(disk, cache, lay, lh, tail, fs);
      hide Agree, Installing;
      var lbuf := Bread(lay.start + 1 + tail);
      var dbuf := Bread(lh[tail]);
      dbuf := lbuf;
      Bwrite(lh[tail], dbuf);
    }

    /** Copy committed blocks from the log to their homes. Every image on the way still recovers
        to the same file system, because the header stays and the log blocks are not touched. */
    method InstallTrans(ghost fs: Disk)
      requires Installing(disk, lay, lh, 0, fs) && Agree(disk, cache, lay, lh)
      modifies this`cache, this`disk, this`images
      ensures Installing(disk, lay, lh, |lh|, fs) && Agree(disk, cache, lay, [])
      ensures |images| == |old(images)| + |lh| && old(images) <= images
      ensures RecoverTo(images, |old(images)|, lay, fs)
    {
      assert lh[0..] == lh && RecoverTo(images, |images|, lay, fs);
      hide Agree, Installing, RecoverTo, RecoversTo;
      var tail := 0;
      while tail < |lh|
        invariant 0 <= tail <= |lh|
        invariant Installing(disk, lay, lh, tail, fs) && Agree(disk, cache, lay, lh[tail..])
        invariant |images| == |old(images)| + tail && old(images) <= images
        invariant RecoverTo(images, |old(images)|, lay, fs)
      {
        ghost var written := images;
        CopyHome(tail, fs);
        tail := tail + 1;
        InstallingRecovers(disk, lay, lh, tail, fs);
        OneMoreImage(written, |old(images)|, disk, lay, fs);
      }
      assert lh[tail..] == [];
    }

    method ReadHead()
      requires Agree(disk, cache, lay, []) && LogOk(disk, lay)
      modifies this`cache, this`lh
      ensures Agree(disk, cache, lay, []) && lh == Header(disk[lay.start])
    {
      var buf := Bread(lay.start);
      var n := GetWord(buf, 0);
      lh := [];
      ghost var c := cache;
      var i := 0;
      while i < n
        invariant 0 <= i <= n && cache == c
        invariant lh == Header(buf)[..i]
      {
        lh := lh + [GetWord(buf, i + 1)];
        i := i + 1;
      }
    }

    /** Group commit. The images before the header write recover to the old file system, the header
        write and everything after it to the new one. */
    method Commit(ghost before: Disk, ghost fs: Disk)
      requires Agree(disk, cache, lay, lh) && Shows(disk, cache, lay, fs) && Quiet(disk, lay, before)
      modifies this
      ensures lh == [] && Agree(disk, cache, lay, []) && Shows(disk, cache, lay, fs) && Quiet(disk, lay, fs)
      ensures old(images) <= images
      ensures var point := |old(images)| + |old(lh)|;
              && point <= |images| && RecoverTo(images[..point], |old(images)|, lay, before)
              && RecoverTo(images, point, lay, fs)
    {
      if |lh| > 0 {
        WriteLog(before, fs);
        PublishHead(before, fs);
        InstallTrans(fs);
        EraseHead(fs);
      } else {
        AgreeIsQuiet(disk, cache, lay, before, fs);
      }
    }

    /** The header write that commits. */
    method PublishHead(ghost before: Disk, ghost fs: Disk)
      requires Agree(disk, cache, lay, lh) && Shows(disk, cache, lay, fs) && Quiet(disk, lay, before)
      requires Logged(disk, lay, lh, |lh|, fs)
      modifies this`cache, this`disk, this`images
      ensures Agree(disk, cache, lay, lh) && Installing(disk, lay, lh, 0, fs)
      ensures images == old(images) + [disk] && RecoversTo(disk, lay, fs)
    {
      hide Shows, Logged, Quiet, RecoversTo, Installing;
      ghost var d, c := disk, cache;
      WriteHead();
      HeadWritten(d, c, lay, lh, disk[lay.start], before, fs);
      InstallingRecovers(disk, lay, lh, 0, fs);
    }

    /** `log.lh.n = 0; write_head()` after every block is installed. */
    method EraseHead(ghost fs: Disk)
      requires Installing(disk, lay, lh, |lh|, fs) && Agree(disk, cache, lay, [])
      modifies this
      ensures lh == [] && Agree(disk, cache, lay, []) && Shows(disk, cache, lay, fs) && Quiet(disk, lay, fs)
      ensures images == old(images) + [disk] && RecoversTo(disk, lay, fs)
    {
      ghost var d, c, h := disk, cache, lh;
      lh := [];
      WriteHead();
      hide Shows, Quiet, RecoversTo, Installing;
      LogErased(d, c, lay, h, disk[lay.start], fs);
      QuietRecovers(disk, lay, fs);
    }

    /** Recovery after a crash: whatever prefix of its writes reaches the disk before the next
        crash, recovering again yields the same file system. */
    method Recover()
      requires Agree(disk, cache, lay, []) && LogOk(disk, lay)
      modifies this
      ensures lh == [] && Agree(disk, cache, lay, [])
      ensures Shows(disk, cache, lay, Recovered(old(disk), lay)) && Quiet(disk, lay, Recovered(old(disk), lay))
      ensures old(images) <= images && RecoverTo(images, |old(images)|, lay, Recovered(old(disk), lay))
    {
      hide Agree, Shows, Quiet, Recovered, RecoverTo, RecoversTo, Installing;
      ReadHead();
      RecoveryStarts(disk, cache, lay);
      ghost var fs := Recovered(disk, lay);
      InstallTrans(fs);
      ghost var written := images;
      EraseHead(fs);
      OneMoreImage(written, |old(images)|, disk, lay, fs);
    }
  }
}
