/** kernel/virtio_disk.c: virtio_disk_rw and virtio_disk_intr against a device that takes requests in order
    and completes them in any order. A step is what happens under vdisk_lock, or one move of the device. */
module VirtioRing {
  import opened Basics
  import opened Virtio

  const T_IN: nat := 0    // VIRTIO_BLK_T_IN, read the disk
  const T_OUT: nat := 1   // VIRTIO_BLK_T_OUT, write the disk

  datatype Cmd = Cmd(kind: nat, sector: nat)
  datatype Info = Info(b: Option<nat>, status: nat)

  /** The contents of a block, or of a buffer: two sectors. */
  datatype Content = Content(low: nat, high: nat)

  datatype Buf = Buf(disk: bool, blockno: nat, data: Content)

  /** Where a request is: in the avail ring, at the device, in the used ring, or seen by the interrupt. */
  datatype Stage = Posted | AtDevice | Done | Seen

  datatype Req = Req(buf: nat, write: bool, blockno: nat, mid: nat, last: nat, stage: Stage)

  /** The shared memory and the driver's own variables; and, to talk about them, the requests by head
      descriptor, the heads waiting in each ring, and how many were ever taken from each ring. */
  datatype State = State(free: seq<bool>, desc: seq<Desc>, ops: seq<Cmd>, info: seq<Info>,
                         avail: seq<nat>, availIdx: nat, devIdx: nat,
                         used: seq<nat>, usedIdx: nat, seenIdx: nat,
                         bufs: map<nat, Buf>, platter: seq<nat>,   // the disk, by sector
                         reqs: map<nat, Req>, avq: seq<nat>, taken: nat, uq: seq<nat>, seen: nat)

  datatype Step =
    | Submit(b: nat, write: bool, h: nat, mid: nat, last: nat)
    | DevTake
    | DevDone(h: nat)
    | Intr
    | Finish(h: nat)
    | Change(b: nat, data: Content)   // by the holder of b's lock, outside virtio_disk_rw

  predicate Sized(st: State) {
    |st.free| == |st.desc| == |st.ops| == |st.info| == |st.avail| == |st.used| == NUM
  }

  function Bump(idx: nat): nat {
    (idx + 1) % WORD
  }

  /** virtio_disk_rw up to its sleep, when three descriptors are free. */
  predicate SubmitStep(st: State, b: nat, write: bool, h: nat, mid: nat, last: nat, st': State) {
    && Sized(st) && b in st.bufs && !st.bufs[b].disk && st.bufs[b].blockno * 2 + 1 < |st.platter|
    && (forall g :: g in st.reqs ==> st.reqs[g].buf != b)   // the caller holds b's lock
    && FirstThree(st.free, h, mid, last)
    && st' == Submitted(st, b, write, h, mid, last)
  }

  function Submitted(st: State, b: nat, write: bool, h: nat, mid: nat, last: nat): State
    requires Sized(st) && b in st.bufs && h < NUM && mid < NUM && last < NUM
  {
    st.(free := st.free[h := false][mid := false][last := false],
        desc := st.desc[h := Desc(Op(h), true, false, mid)][mid := Desc(Data(b), true, !write, last)]
                       [last := Desc(Status(h), false, true, 0)],
        ops := st.ops[h := Cmd(if write then T_OUT else T_IN, st.bufs[b].blockno * 2)],
        info := st.info[h := Info(Some(b), 0xff)],
        avail := st.avail[st.availIdx % NUM := h], availIdx := Bump(st.availIdx),
        bufs := st.bufs[b := st.bufs[b].(disk := true)],
        reqs := st.reqs[h := Req(b, write, st.bufs[b].blockno, mid, last, Posted)], avq := st.avq + [h])
  }

  function AtStage(reqs: map<nat, Req>, h: nat, stage: Stage): map<nat, Req> {
    if h in reqs then reqs[h := reqs[h].(stage := stage)] else reqs
  }

  /** The device takes the next head from the avail ring. */
  predicate DevTakeStep(st: State, st': State) {
    && Sized(st) && st.devIdx != st.availIdx && |st.avq| > 0
    && st' == st.(devIdx := Bump(st.devIdx), taken := st.taken + 1, avq := st.avq[1..],
                  reqs := AtStage(st.reqs, st.avail[st.devIdx % NUM], AtDevice))
  }

  /** What the device demands of the chain that starts at `h`: a command it reads, data it reads for a write to the
      disk and writes for a read, and a status byte it writes. */
  predicate ChainOk(st: State, h: nat)
    requires Sized(st)
  {
    && h < NUM && st.desc[h].addr.Op? && st.desc[h].addr.index < NUM && st.desc[h].more && !st.desc[h].write
    && var cmd := st.ops[st.desc[h].addr.index];
    && (cmd.kind == T_OUT || cmd.kind == T_IN) && cmd.sector + 1 < |st.platter|
    && st.desc[h].next < NUM
    && var data := st.desc[st.desc[h].next];
    && data.addr.Data? && data.addr.buf in st.bufs && data.more && (data.write <==> cmd.kind == T_IN)
    && data.next < NUM
    && var status := st.desc[data.next];
    && status.addr.Status? && status.addr.index < NUM && status.write && !status.more
  }

  /** Two sectors from `sector` on go from buffer `b` to the disk or from the disk to `b`, and status byte `i` is 0. */
  function Transferred(st: State, i: nat, b: nat, out: bool, sector: nat): State
    requires Sized(st) && i < NUM && b in st.bufs && sector + 1 < |st.platter|
  {
    var data := st.bufs[b].data;
    var st1 := st.(info := st.info[i := st.info[i].(status := 0)]);
    if out then st1.(platter := st.platter[sector := data.low][sector + 1 := data.high])
    else st1.(bufs := st.bufs[b := st.bufs[b].(data := Content(st.platter[sector], st.platter[sector + 1]))])
  }

  /** The transfer the chain at `h` asks for. */
  function Followed(st: State, h: nat): State
    requires Sized(st) && ChainOk(st, h)
  {
    var cmd, data := st.ops[st.desc[h].addr.index], st.desc[st.desc[h].next];
    Transferred(st, st.desc[data.next].addr.index, data.addr.buf, cmd.kind == T_OUT, cmd.sector)
  }

  /** The device completes a request it has, any one, and puts its head into the used ring. */
  predicate DevDoneStep(st: State, h: nat, st': State) {
    && Sized(st) && h in st.reqs && st.reqs[h].stage == AtDevice && ChainOk(st, h)
    && st' == Followed(st, h).(used := st.used[st.usedIdx % NUM := h], usedIdx := Bump(st.usedIdx),
                               uq := st.uq + [h], reqs := AtStage(st.reqs, h, Done))
  }

  /** Whoever holds the lock of a buffer that is not under way changes its contents. */
  predicate ChangeStep(st: State, b: nat, data: Content, st': State) {
    && b in st.bufs && (forall g :: g in st.reqs ==> st.reqs[g].buf != b)
    && st' == st.(bufs := st.bufs[b := st.bufs[b].(data := data)])
  }

  /** A round of virtio_disk_intr's loop. */
  predicate IntrStep(st: State, st': State) {
    && Sized(st) && st.seenIdx != st.usedIdx && |st.uq| > 0
    && var id := st.used[st.seenIdx % NUM];
    && id < NUM && st.info[id].status == 0 && st.info[id].b.Some? && st.info[id].b.value in st.bufs
    && var b := st.info[id].b.value;
    st' == st.(bufs := st.bufs[b := st.bufs[b].(disk := false)], seenIdx := Bump(st.seenIdx), seen := st.seen + 1,
               uq := st.uq[1..], reqs := AtStage(st.reqs, id, Seen))
  }

  /** The end of virtio_disk_rw, once b->disk is 0: the chain is freed. */
  predicate FinishStep(st: State, h: nat, st': State) {
    && Sized(st) && h in st.reqs && st.reqs[h].buf in st.bufs && !st.bufs[st.reqs[h].buf].disk
    && var r := st.reqs[h];
    && h < NUM && r.mid < NUM && r.last < NUM
    && st' == st.(info := st.info[h := st.info[h].(b := None)],
                  free := st.free[h := true][r.mid := true][r.last := true],
                  desc := st.desc[h := NO_DESC][r.mid := NO_DESC][r.last := NO_DESC],
                  reqs := st.reqs - {h})
  }

  predicate Next(st: State, step: Step, st': State) {
    match step
    case Submit(b, write, h, mid, last) => SubmitStep(st, b, write, h, mid, last, st')
    case DevTake => DevTakeStep(st, st')
    case DevDone(h) => DevDoneStep(st, h, st')
    case Intr => IntrStep(st, st')
    case Finish(h) => FinishStep(st, h, st')
    case Change(b, data) => ChangeStep(st, b, data, st')
  }

  // ---- what every run keeps ----

  predicate Uses(h: nat, r: Req, i: nat) {
    i == h || i == r.mid || i == r.last
  }

  /** The three descriptors of a request spell it for the device. */
  predicate Chained(free: seq<bool>, desc: seq<Desc>, h: nat, r: Req)
    requires |free| == |desc| == NUM
  {
    && h < NUM && r.mid < NUM && r.last < NUM && h != r.mid && h != r.last && r.mid != r.last
    && !free[h] && !free[r.mid] && !free[r.last]
    && desc[h] == Desc(Op(h), true, false, r.mid)
    && desc[r.mid] == Desc(Data(r.buf), true, !r.write, r.last)
    && desc[r.last] == Desc(Status(h), false, true, 0)
  }

  predicate Separate(h: nat, r: Req, g: nat, q: Req) {
    !Uses(h, r, g) && !Uses(h, r, q.mid) && !Uses(h, r, q.last)
  }

  ghost predicate AllChained(free: seq<bool>, desc: seq<Desc>, reqs: map<nat, Req>) {
    |free| == |desc| == NUM && forall h :: h in reqs ==> Chained(free, desc, h, reqs[h])
  }

  ghost predicate AllSeparate(reqs: map<nat, Req>) {
    forall h, g :: h in reqs && g in reqs && h != g ==> Separate(h, reqs[h], g, reqs[g])
  }

  ghost predicate AllThere(free: seq<bool>, desc: seq<Desc>, reqs: map<nat, Req>) {
    |free| == |desc| == NUM &&
    forall i :: 0 <= i < NUM ==> if free[i] then desc[i] == NO_DESC else InChain(reqs, i)
  }

  /** Every descriptor is free and empty, or in exactly one chain. */
  ghost predicate Chains(free: seq<bool>, desc: seq<Desc>, reqs: map<nat, Req>) {
    AllChained(free, desc, reqs) && AllSeparate(reqs) && AllThere(free, desc, reqs)
  }

  ghost predicate InChain(reqs: map<nat, Req>, i: nat) {
    exists h :: h in reqs && Uses(h, reqs[h], i)
  }

  /** What the driver notes of a request, for the device and for the interrupt. */
  predicate Noted(ops: seq<Cmd>, info: seq<Info>, h: nat, r: Req)
    requires |ops| == |info| == NUM
  {
    && h < NUM && info[h].b == Some(r.buf) && ops[h] == Cmd(if r.write then T_OUT else T_IN, r.blockno * 2)
    && info[h].status == if r.stage == Done || r.stage == Seen then 0 else 0xff
  }

  ghost predicate Notes(ops: seq<Cmd>, info: seq<Info>, reqs: map<nat, Req>) {
    |ops| == |info| == NUM && forall h :: h in reqs ==> Noted(ops, info, h, reqs[h])
  }

  /** b->disk is set exactly while b's request has not been seen; a buffer has one request. */
  ghost predicate Buffers(bufs: map<nat, Buf>, reqs: map<nat, Req>) {
    && (forall h :: h in reqs ==> Flagged(bufs, reqs[h]))
    && (forall h, g :: h in reqs && g in reqs && h != g ==> reqs[h].buf != reqs[g].buf)
    && (forall b :: b in bufs && bufs[b].disk ==> HasReq(reqs, b))
  }

  predicate Flagged(bufs: map<nat, Buf>, r: Req) {
    r.buf in bufs && bufs[r.buf].blockno == r.blockno && (bufs[r.buf].disk <==> r.stage != Seen)
  }

  ghost predicate HasReq(reqs: map<nat, Req>, b: nat) {
    exists h :: h in reqs && reqs[h].buf == b
  }

  /** A ring holds the waiting heads in order, from the reader's index to the writer's. */
  ghost predicate Ring(ring: seq<nat>, readIdx: nat, writeIdx: nat, queue: seq<nat>, count: nat) {
    && |ring| == NUM && |queue| <= NUM
    && readIdx == count % WORD && writeIdx == (count + |queue|) % WORD
    && forall i :: 0 <= i < |queue| ==> ring[(count + i) % NUM] == queue[i]
  }

  /** A queue holds exactly the requests of a stage, each once. */
  ghost predicate Queued(reqs: map<nat, Req>, queue: seq<nat>, stage: Stage) {
    && (forall i :: 0 <= i < |queue| ==> queue[i] in reqs && reqs[queue[i]].stage == stage)
    && (forall i, j :: 0 <= i < j < |queue| ==> queue[i] != queue[j])
    && (forall h :: h in reqs && reqs[h].stage == stage ==> h in queue)
  }

  ghost predicate Inv(st: State) {
    && Sized(st) && Chains(st.free, st.desc, st.reqs) && Notes(st.ops, st.info, st.reqs) && Buffers(st.bufs, st.reqs)
    && Ring(st.avail, st.devIdx, st.availIdx, st.avq, st.taken) && Queued(st.reqs, st.avq, Posted)
    && Ring(st.used, st.seenIdx, st.usedIdx, st.uq, st.seen) && Queued(st.reqs, st.uq, Done)
    && forall h :: h in st.reqs ==> st.reqs[h].blockno * 2 + 1 < |st.platter|
  }

  predicate Init(st: State) {
    && Sized(st) && st.reqs == map[] && st.avq == [] && st.uq == [] && st.taken == 0 && st.seen == 0
    && st.availIdx == st.devIdx == st.usedIdx == st.seenIdx == 0
    && (forall i :: 0 <= i < NUM ==> st.free[i] && st.desc[i] == NO_DESC)
    && forall b :: b in st.bufs ==> !st.bufs[b].disk
  }

  lemma InitInv(st: State)
    requires Init(st)
    ensures Inv(st)
  {
  }

  // ---- at most NUM / 3 requests ----

  ghost function ChainSet(h: nat, r: Req): set<nat> {
    {h, r.mid, r.last}
  }

  lemma ChainSize(free: seq<bool>, desc: seq<Desc>, h: nat, r: Req)
    requires |free| == |desc| == NUM && Chained(free, desc, h, r)
    ensures |ChainSet(h, r)| == 3 && forall i :: i in ChainSet(h, r) ==> i < NUM
  {
    assert |{h}| == 1 && |{h} + {r.mid}| == 2 && ChainSet(h, r) == {h} + {r.mid} + {r.last};
  }

  lemma SeparateSets(h: nat, r: Req, g: nat, q: Req)
    requires Separate(h, r, g, q)
    ensures ChainSet(h, r) !! ChainSet(g, q)
  {
  }

  lemma ChainsApart(free: seq<bool>, desc: seq<Desc>, reqs: map<nat, Req>, h: nat, g: nat)
    requires Chains(free, desc, reqs) && h in reqs && g in reqs && h != g
    ensures ChainSet(h, reqs[h]) !! ChainSet(g, reqs[g])
  {
    hide ChainSet, Separate, Chained, InChain;
    SeparateSets(h, reqs[h], g, reqs[g]);
  }

  /** Three chains would need nine descriptors. */
  lemma NoThreeChains(free: seq<bool>, desc: seq<Desc>, reqs: map<nat, Req>, a: nat, b: nat, c: nat)
    requires Chains(free, desc, reqs) && a in reqs && b in reqs && c in reqs
    ensures a == b || a == c || b == c
  {
    hide Chains, ChainSet, Chained;
    if a != b && a != c && b != c {
      ChainHas(free, desc, reqs, a);
      ChainHas(free, desc, reqs, b);
      ChainHas(free, desc, reqs, c);
      ChainSize(free, desc, a, reqs[a]);
      ChainSize(free, desc, b, reqs[b]);
      ChainSize(free, desc, c, reqs[c]);
      ChainsApart(free, desc, reqs, a, b);
      ChainsApart(free, desc, reqs, a, c);
      ChainsApart(free, desc, reqs, b, c);
      NineIsTooMany(ChainSet(a, reqs[a]), ChainSet(b, reqs[b]), ChainSet(c, reqs[c]));
    }
  }

  lemma NineIsTooMany(a: set<nat>, b: set<nat>, c: set<nat>)
    requires |a| == 3 && |b| == 3 && |c| == 3 && a !! b && a !! c && b !! c
    ensures !(forall x :: x in a || x in b || x in c ==> x < NUM)
  {
    var all: set<nat> := {0, 1, 2, 3, 4, 5, 6, 7};
    assert |a + b| == 6 && |a + b + c| == 9;
    if forall x :: x in a || x in b || x in c ==> x < NUM {
      assert a + b + c <= all;
      SubsetSize(a + b + c, all);
    }
  }

  /** So neither ring ever holds more than two heads. */
  lemma QueueShort(st: State, queue: seq<nat>, stage: Stage)
    requires Chains(st.free, st.desc, st.reqs) && Queued(st.reqs, queue, stage)
    ensures |queue| <= 2
  {
    if |queue| >= 3 {
      NoThreeChains(st.free, st.desc, st.reqs, queue[0], queue[1], queue[2]);
    }
  }

  // ---- the rings ----

  lemma Index(a: nat)
    ensures a % WORD % NUM == a % NUM
  {
    assert a == NUM * (a / WORD * 0x2000) + a % WORD;
    ModPlus(a / WORD * 0x2000, a % WORD);
  }

  lemma ModPlus(k: nat, r: nat)
    ensures (NUM * k + r) % NUM == r % NUM
  {
  }

  lemma Successor(a: nat)
    ensures Bump(a % WORD) == (a + 1) % WORD
  {
    var q, r := a / WORD, a % WORD;
    assert a + 1 == q * WORD + (r + 1);
    if r + 1 == WORD {
      assert a + 1 == (q + 1) * WORD;
    }
  }

  lemma Behind(a: nat, d: nat)
    requires d < WORD
    ensures a % WORD == (a + d) % WORD <==> d == 0
  {
    var q, r := a / WORD, a % WORD;
    assert a + d == q * WORD + (r + d);
    if r + d < WORD {
      assert (a + d) % WORD == r + d;
    } else {
      assert a + d == (q + 1) * WORD + (r + d - WORD);
      assert (a + d) % WORD == r + d - WORD;
    }
  }

  lemma Places(j: nat, k: nat)
    requires j < k < j + NUM
    ensures j % NUM != k % NUM
  {
  }

  /** Writing the next entry overwrites no entry that is still waiting. */
  lemma RingPush(ring: seq<nat>, readIdx: nat, writeIdx: nat, queue: seq<nat>, count: nat, h: nat)
    requires Ring(ring, readIdx, writeIdx, queue, count) && |queue| < NUM
    ensures Ring(ring[writeIdx % NUM := h], readIdx, Bump(writeIdx), queue + [h], count)
  {
    Index(count + |queue|);
    Successor(count + |queue|);
    var ring' := ring[writeIdx % NUM := h];
    forall i | 0 <= i < |queue| ensures ring'[(count + i) % NUM] == queue[i] {
      Places(count + i, count + |queue|);
    }
  }

  /** The entry read is the oldest waiting one. */
  lemma RingPop(ring: seq<nat>, readIdx: nat, writeIdx: nat, queue: seq<nat>, count: nat)
    requires Ring(ring, readIdx, writeIdx, queue, count) && |queue| > 0
    ensures ring[readIdx % NUM] == queue[0] && Ring(ring, Bump(readIdx), writeIdx, queue[1..], count + 1)
  {
    Index(count);
    Successor(count);
    assert ring[(count + 0) % NUM] == queue[0];
    forall i | 0 <= i < |queue[1..]| ensures ring[(count + 1 + i) % NUM] == queue[1..][i] {
      assert ring[(count + (i + 1)) % NUM] == queue[i + 1];
    }
  }

  /** The indices differ exactly when something waits, also after they have wrapped. */
  lemma RingEmpty(ring: seq<nat>, readIdx: nat, writeIdx: nat, queue: seq<nat>, count: nat)
    requires Ring(ring, readIdx, writeIdx, queue, count)
    ensures readIdx == writeIdx <==> queue == []
  {
    Behind(count, |queue|);
  }

  // ---- a request changes stage ----

  lemma StageThere(free: seq<bool>, desc: seq<Desc>, reqs: map<nat, Req>, h: nat, stage: Stage)
    requires AllThere(free, desc, reqs)
    ensures AllThere(free, desc, AtStage(reqs, h, stage))
  {
    var reqs' := AtStage(reqs, h, stage);
    forall i | 0 <= i < NUM && !free[i] ensures InChain(reqs', i) {
      assert InChain(reqs, i);
      var g :| g in reqs && Uses(g, reqs[g], i);
      assert g in reqs' && Uses(g, reqs'[g], i);
    }
  }

  lemma StageChained(free: seq<bool>, desc: seq<Desc>, reqs: map<nat, Req>, h: nat, stage: Stage)
    requires AllChained(free, desc, reqs)
    ensures AllChained(free, desc, AtStage(reqs, h, stage))
  {
    var reqs' := AtStage(reqs, h, stage);
    forall g | g in reqs' ensures Chained(free, desc, g, reqs'[g]) {
      assert Chained(free, desc, g, reqs[g]);
    }
  }

  lemma StageSeparate(reqs: map<nat, Req>, h: nat, stage: Stage)
    requires AllSeparate(reqs)
    ensures AllSeparate(AtStage(reqs, h, stage))
  {
    var reqs' := AtStage(reqs, h, stage);
    forall g, k | g in reqs' && k in reqs' && g != k ensures Separate(g, reqs'[g], k, reqs'[k]) {
      assert Separate(g, reqs[g], k, reqs[k]);
    }
  }

  lemma StageChains(free: seq<bool>, desc: seq<Desc>, reqs: map<nat, Req>, h: nat, stage: Stage)
    requires Chains(free, desc, reqs)
    ensures Chains(free, desc, AtStage(reqs, h, stage))
  {
    hide AllChained, AllSeparate, AllThere;
    StageChained(free, desc, reqs, h, stage);
    StageSeparate(reqs, h, stage);
    StageThere(free, desc, reqs, h, stage);
  }

  lemma QueueKept(reqs: map<nat, Req>, queue: seq<nat>, stage: Stage, h: nat, stage': Stage)
    requires Queued(reqs, queue, stage) && h in reqs && reqs[h].stage != stage && stage' != stage
    ensures Queued(AtStage(reqs, h, stage'), queue, stage)
  {
  }

  lemma QueueLeft(reqs: map<nat, Req>, queue: seq<nat>, stage: Stage, stage': Stage)
    requires Queued(reqs, queue, stage) && |queue| > 0 && stage' != stage
    ensures queue[0] in reqs && Queued(AtStage(reqs, queue[0], stage'), queue[1..], stage)
  {
    var reqs' := AtStage(reqs, queue[0], stage');
    forall h | h in reqs' && reqs'[h].stage == stage ensures h in queue[1..] {
      assert h in queue;
      var i :| 0 <= i < |queue| && queue[i] == h;
      assert queue[1..][i - 1] == h;
    }
  }

  lemma QueueJoined(reqs: map<nat, Req>, queue: seq<nat>, stage: Stage, h: nat)
    requires Queued(reqs, queue, stage) && h in reqs && reqs[h].stage != stage
    ensures Queued(AtStage(reqs, h, stage), queue + [h], stage)
  {
    assert h !in queue;
  }

  lemma StageBuffers(bufs: map<nat, Buf>, reqs: map<nat, Req>, h: nat, stage: Stage, bufs': map<nat, Buf>)
    requires Buffers(bufs, reqs) && h in reqs
    requires bufs'.Keys == bufs.Keys && reqs[h].buf in bufs
    requires forall b :: b in bufs ==>
               && bufs'[b].blockno == bufs[b].blockno
               && bufs'[b].disk == if b == reqs[h].buf then stage != Seen else bufs[b].disk
    ensures Buffers(bufs', AtStage(reqs, h, stage))
  {
    var reqs' := AtStage(reqs, h, stage);
    forall g | g in reqs' ensures Flagged(bufs', reqs'[g]) {
      assert Flagged(bufs, reqs[g]) && Flagged(bufs, reqs[h]);
    }
    forall b | b in bufs' && bufs'[b].disk ensures HasReq(reqs', b) {
      if b == reqs[h].buf {
        assert reqs'[h].buf == b;
      } else {
        var g :| g in reqs && reqs[g].buf == b;
        assert reqs'[g].buf == b;
      }
    }
  }

  // ---- the steps ----

  lemma DevTakeKeeps(st: State, st': State)
    requires Inv(st) && DevTakeStep(st, st')
    ensures Inv(st')
  {
    hide Chains, Buffers, Ring, Queued;
    RingPop(st.avail, st.devIdx, st.availIdx, st.avq, st.taken);
    var h := st.avq[0];
    QueueLeft(st.reqs, st.avq, Posted, AtDevice);
    QueueHas(st.reqs, st.avq, Posted);
    StageChains(st.free, st.desc, st.reqs, h, AtDevice);
    QueueKept(st.reqs, st.uq, Done, h, AtDevice);
    BufferHas(st.bufs, st.reqs, h);
    StageBuffers(st.bufs, st.reqs, h, AtDevice, st.bufs);
  }

  lemma QueueHas(reqs: map<nat, Req>, queue: seq<nat>, stage: Stage)
    requires Queued(reqs, queue, stage) && |queue| > 0
    ensures queue[0] in reqs && reqs[queue[0]].stage == stage
  {
  }

  lemma BufferHas(bufs: map<nat, Buf>, reqs: map<nat, Req>, h: nat)
    requires Buffers(bufs, reqs) && h in reqs
    ensures Flagged(bufs, reqs[h])
    ensures reqs[h].stage != Seen ==> bufs == bufs[reqs[h].buf := bufs[reqs[h].buf].(disk := true)]
  {
  }

  lemma ChainHas(free: seq<bool>, desc: seq<Desc>, reqs: map<nat, Req>, h: nat)
    requires Chains(free, desc, reqs) && h in reqs
    ensures |free| == |desc| == NUM && Chained(free, desc, h, reqs[h])
  {
  }

  lemma DevDoneKeeps(st: State, h: nat, st': State)
    requires Inv(st) && DevDoneStep(st, h, st')
    ensures Inv(st')
  {
    hide Chains, Buffers, Ring, Queued, Followed, ChainOk;
    QueueShort(st, st.uq, Done);
    RingPush(st.used, st.seenIdx, st.usedIdx, st.uq, st.seen, h);
    QueueJoined(st.reqs, st.uq, Done, h);
    QueueKept(st.reqs, st.avq, Posted, h, Done);
    StageChains(st.free, st.desc, st.reqs, h, Done);
    BufferHas(st.bufs, st.reqs, h);
    TransferIs(st, h);
    StageBuffers(st.bufs, st.reqs, h, Done, st'.bufs);
  }

  /** The chain of a request spells that request for the device. */
  lemma ChainSpells(st: State, h: nat, r: Req)
    requires Sized(st) && Chained(st.free, st.desc, h, r) && Noted(st.ops, st.info, h, r) && Flagged(st.bufs, r)
    requires r.blockno * 2 + 1 < |st.platter|
    ensures ChainOk(st, h) && Followed(st, h) == Transferred(st, h, r.buf, r.write, r.blockno * 2)
  {
    hide Transferred;
  }

  lemma RequestIs(st: State, h: nat)
    requires Inv(st) && h in st.reqs
    ensures var r := st.reqs[h];
            && Sized(st) && Chained(st.free, st.desc, h, r) && Noted(st.ops, st.info, h, r) && Flagged(st.bufs, r)
            && r.blockno * 2 + 1 < |st.platter|
  {
    hide Chains, Buffers, Ring, Queued, Chained, Noted, Flagged;
    ChainHas(st.free, st.desc, st.reqs, h);
    BufferHas(st.bufs, st.reqs, h);
  }

  lemma TransferIs(st: State, h: nat)
    requires Inv(st) && h in st.reqs
    ensures var r := st.reqs[h];
            && Sized(st) && ChainOk(st, h) && h < NUM && Flagged(st.bufs, r) && r.blockno * 2 + 1 < |st.platter|
            && Followed(st, h) == Transferred(st, h, r.buf, r.write, r.blockno * 2)
  {
    hide Inv, ChainOk, Followed, Transferred;
    RequestIs(st, h);
    ChainSpells(st, h, st.reqs[h]);
  }

  lemma ChangeKeeps(st: State, b: nat, data: Content, st': State)
    requires Inv(st) && ChangeStep(st, b, data, st')
    ensures Inv(st')
  {
    hide Chains, Ring, Queued, Notes;
    forall g | g in st.reqs ensures Flagged(st'.bufs, st.reqs[g]) {
      assert Flagged(st.bufs, st.reqs[g]);
    }
  }

  /** What the interrupt reads names a completed request, and its buffer. */
  lemma IntrFinds(st: State)
    requires Inv(st) && |st.uq| > 0
    ensures var id := st.used[st.seenIdx % NUM];
            && id == st.uq[0] && id in st.reqs && st.reqs[id].stage == Done && id < NUM
            && st.info[id].b == Some(st.reqs[id].buf) && st.info[id].status == 0
  {
    hide Chains, Buffers, Ring, Queued;
    RingPop(st.used, st.seenIdx, st.usedIdx, st.uq, st.seen);
    QueueHas(st.reqs, st.uq, Done);
    assert Noted(st.ops, st.info, st.uq[0], st.reqs[st.uq[0]]);
  }

  lemma IntrKeeps(st: State, st': State)
    requires Inv(st) && IntrStep(st, st')
    ensures Inv(st')
  {
    hide Chains, Buffers, Ring, Queued;
    IntrFinds(st);
    RingPop(st.used, st.seenIdx, st.usedIdx, st.uq, st.seen);
    var h := st.uq[0];
    QueueLeft(st.reqs, st.uq, Done, Seen);
    QueueKept(st.reqs, st.avq, Posted, h, Seen);
    StageChains(st.free, st.desc, st.reqs, h, Seen);
    StageBuffers(st.bufs, st.reqs, h, Seen, st'.bufs);
  }

  // ---- submitting and finishing ----

  lemma ThreeFree(free: seq<bool>, h: nat, mid: nat, last: nat)
    requires |free| == NUM && FirstThree(free, h, mid, last)
    ensures h < NUM && mid < NUM && last < NUM && free[h] && free[mid] && free[last]
    ensures h != mid && h != last && mid != last
  {
  }

  ghost function FreeAll(free: seq<bool>, h: nat, r: Req, to: bool): (s: seq<bool>)
    requires |free| == NUM && h < NUM && r.mid < NUM && r.last < NUM
    ensures |s| == NUM
  {
    free[h := to][r.mid := to][r.last := to]
  }

  function NewDesc(desc: seq<Desc>, h: nat, r: Req): (s: seq<Desc>)
    requires |desc| == NUM && h < NUM && r.mid < NUM && r.last < NUM
    ensures |s| == NUM
  {
    desc[h := Desc(Op(h), true, false, r.mid)][r.mid := Desc(Data(r.buf), true, !r.write, r.last)]
        [r.last := Desc(Status(h), false, true, 0)]
  }

  function NoDesc(desc: seq<Desc>, h: nat, r: Req): (s: seq<Desc>)
    requires |desc| == NUM && h < NUM && r.mid < NUM && r.last < NUM
    ensures |s| == NUM
  {
    desc[h := NO_DESC][r.mid := NO_DESC][r.last := NO_DESC]
  }

  /** Three free descriptors. */
  predicate Spare(free: seq<bool>, h: nat, r: Req) {
    && |free| == NUM && h < NUM && r.mid < NUM && r.last < NUM && free[h] && free[r.mid] && free[r.last]
    && h != r.mid && h != r.last && r.mid != r.last
  }

  /** A chain in use keeps clear of spare descriptors. */
  lemma SpareApart(free: seq<bool>, desc: seq<Desc>, h: nat, r: Req, g: nat, q: Req)
    requires Spare(free, h, r) && |desc| == NUM && Chained(free, desc, g, q)
    ensures Separate(h, r, g, q) && Separate(g, q, h, r) && g != h
    ensures Chained(FreeAll(free, h, r, false), NewDesc(desc, h, r), g, q)
  {
  }

  lemma GainChained(free: seq<bool>, desc: seq<Desc>, reqs: map<nat, Req>, h: nat, r: Req)
    requires AllChained(free, desc, reqs) && AllSeparate(reqs) && Spare(free, h, r)
    ensures h !in reqs && AllChained(FreeAll(free, h, r, false), NewDesc(desc, h, r), reqs[h := r])
    ensures AllSeparate(reqs[h := r])
  {
    hide FreeAll, NewDesc, Separate, Chained;
    forall g | g in reqs
      ensures g != h && Chained(FreeAll(free, h, r, false), NewDesc(desc, h, r), g, reqs[g])
      ensures Separate(h, r, g, reqs[g]) && Separate(g, reqs[g], h, r)
    {
      SpareApart(free, desc, h, r, g, reqs[g]);
    }
    NewChained(free, desc, h, r);
  }

  lemma NewChained(free: seq<bool>, desc: seq<Desc>, h: nat, r: Req)
    requires Spare(free, h, r) && |desc| == NUM
    ensures Chained(FreeAll(free, h, r, false), NewDesc(desc, h, r), h, r)
  {
  }

  lemma GainThere(free: seq<bool>, desc: seq<Desc>, reqs: map<nat, Req>, h: nat, r: Req)
    requires AllThere(free, desc, reqs) && Spare(free, h, r) && h !in reqs
    ensures AllThere(FreeAll(free, h, r, false), NewDesc(desc, h, r), reqs[h := r])
  {
    var free', desc', reqs' := FreeAll(free, h, r, false), NewDesc(desc, h, r), reqs[h := r];
    forall i | 0 <= i < NUM ensures if free'[i] then desc'[i] == NO_DESC else InChain(reqs', i) {
      if free[i] {
        assert !Uses(h, r, i) ==> free'[i] && desc'[i] == desc[i];
        assert Uses(h, r, i) ==> Uses(h, reqs'[h], i);
      } else {
        assert InChain(reqs, i);
        var g :| g in reqs && Uses(g, reqs[g], i);
        assert g in reqs' && Uses(g, reqs'[g], i);
      }
    }
  }

  /** Three free descriptors become a chain. */
  lemma ChainsGain(free: seq<bool>, desc: seq<Desc>, reqs: map<nat, Req>, h: nat, r: Req)
    requires Chains(free, desc, reqs) && Spare(free, h, r)
    ensures h !in reqs && Chains(FreeAll(free, h, r, false), NewDesc(desc, h, r), reqs[h := r])
  {
    hide AllChained, AllSeparate, AllThere, Spare;
    GainChained(free, desc, reqs, h, r);
    GainThere(free, desc, reqs, h, r);
  }

  lemma LoseOne(free: seq<bool>, desc: seq<Desc>, h: nat, r: Req, g: nat, q: Req)
    requires |free| == |desc| == NUM && Chained(free, desc, h, r) && Chained(free, desc, g, q) && Separate(h, r, g, q)
    ensures Chained(FreeAll(free, h, r, true), NoDesc(desc, h, r), g, q)
  {
  }

  lemma LoseThere(free: seq<bool>, desc: seq<Desc>, reqs: map<nat, Req>, h: nat)
    requires AllThere(free, desc, reqs) && h in reqs && Chained(free, desc, h, reqs[h])
    ensures AllThere(FreeAll(free, h, reqs[h], true), NoDesc(desc, h, reqs[h]), reqs - {h})
  {
    var r := reqs[h];
    var free', desc', reqs' := FreeAll(free, h, r, true), NoDesc(desc, h, r), reqs - {h};
    forall i | 0 <= i < NUM ensures if free'[i] then desc'[i] == NO_DESC else InChain(reqs', i) {
      if !free'[i] {
        assert !free[i] && !Uses(h, r, i);
        assert InChain(reqs, i);
        var g :| g in reqs && Uses(g, reqs[g], i);
        assert g in reqs' && Uses(g, reqs'[g], i);
      }
    }
  }

  /** A chain's descriptors become free again. */
  lemma ChainsLose(free: seq<bool>, desc: seq<Desc>, reqs: map<nat, Req>, h: nat)
    requires Chains(free, desc, reqs) && h in reqs
    ensures |free| == |desc| == NUM && Chained(free, desc, h, reqs[h])
    ensures Chains(FreeAll(free, h, reqs[h], true), NoDesc(desc, h, reqs[h]), reqs - {h})
  {
    var r := reqs[h];
    assert Chained(free, desc, h, r);
    hide AllThere;
    LoseThere(free, desc, reqs, h);
    var free', desc', reqs' := FreeAll(free, h, r, true), NoDesc(desc, h, r), reqs - {h};
    assert AllSeparate(reqs') by {
      hide Separate, AllChained, FreeAll, NoDesc;
    }
    hide FreeAll, NoDesc, Separate;
    forall g | g in reqs' ensures Chained(free', desc', g, reqs'[g]) {
      LoseOne(free, desc, h, r, g, reqs[g]);
    }
  }

  lemma QueueGain(reqs: map<nat, Req>, queue: seq<nat>, stage: Stage, h: nat, r: Req)
    requires Queued(reqs, queue, stage) && h !in reqs
    ensures Queued(reqs[h := r], if r.stage == stage then queue + [h] else queue, stage)
  {
    assert h !in queue;
  }

  lemma QueueLose(reqs: map<nat, Req>, queue: seq<nat>, stage: Stage, h: nat)
    requires Queued(reqs, queue, stage) && h in reqs && reqs[h].stage != stage
    ensures Queued(reqs - {h}, queue, stage)
  {
  }

  lemma BuffersGain(bufs: map<nat, Buf>, reqs: map<nat, Req>, h: nat, r: Req)
    requires Buffers(bufs, reqs) && h !in reqs && r.buf in bufs && bufs[r.buf].blockno == r.blockno && r.stage != Seen
    requires forall g :: g in reqs ==> reqs[g].buf != r.buf
    ensures Buffers(bufs[r.buf := bufs[r.buf].(disk := true)], reqs[h := r])
  {
    var bufs', reqs' := bufs[r.buf := bufs[r.buf].(disk := true)], reqs[h := r];
    forall g | g in reqs' ensures Flagged(bufs', reqs'[g]) {
      if g != h {
        assert Flagged(bufs, reqs[g]);
      }
    }
    forall b | b in bufs' && bufs'[b].disk ensures HasReq(reqs', b) {
      if b == r.buf {
        assert reqs'[h].buf == b;
      } else {
        var g :| g in reqs && reqs[g].buf == b;
        assert reqs'[g].buf == b;
      }
    }
  }

  lemma BuffersLose(bufs: map<nat, Buf>, reqs: map<nat, Req>, h: nat)
    requires Buffers(bufs, reqs) && h in reqs && !bufs[reqs[h].buf].disk
    ensures Buffers(bufs, reqs - {h})
  {
    forall b | b in bufs && bufs[b].disk ensures HasReq(reqs - {h}, b) {
      var g :| g in reqs && reqs[g].buf == b;
      assert g in reqs - {h};
    }
    forall g | g in reqs - {h} ensures Flagged(bufs, (reqs - {h})[g]) {
      assert Flagged(bufs, reqs[g]);
    }
  }

  lemma SubmitKeeps(st: State, b: nat, write: bool, h: nat, mid: nat, last: nat, st': State)
    requires Inv(st) && SubmitStep(st, b, write, h, mid, last, st')
    ensures Inv(st')
  {
    hide Chains, Buffers, Ring, Queued, FirstThree;
    ThreeFree(st.free, h, mid, last);
    var r := Req(b, write, st.bufs[b].blockno, mid, last, Posted);
    ChainsGain(st.free, st.desc, st.reqs, h, r);
    QueueShort(st, st.avq, Posted);
    RingPush(st.avail, st.devIdx, st.availIdx, st.avq, st.taken, h);
    QueueGain(st.reqs, st.avq, Posted, h, r);
    QueueGain(st.reqs, st.uq, Done, h, r);
    BuffersGain(st.bufs, st.reqs, h, r);
    assert Notes(st'.ops, st'.info, st'.reqs);
  }

  /** virtio_disk_rw goes on only when the device has completed its request; the descriptors that free_chain
      then follows are the three of this request, none of them free. */
  lemma FinishIsDone(st: State, h: nat)
    requires Inv(st) && h in st.reqs
    ensures st.reqs[h].buf in st.bufs && (!st.bufs[st.reqs[h].buf].disk <==> st.reqs[h].stage == Seen)
    ensures IsChain(st.desc, st.free, [h, st.reqs[h].mid, st.reqs[h].last])
  {
    hide Chains, Buffers, Ring, Queued, Notes, Chained, IsChain;
    BufferHas(st.bufs, st.reqs, h);
    ChainHas(st.free, st.desc, st.reqs, h);
    ChainedIsChain(st.free, st.desc, h, st.reqs[h]);
  }

  lemma ChainedIsChain(free: seq<bool>, desc: seq<Desc>, h: nat, r: Req)
    requires |free| == |desc| == NUM && Chained(free, desc, h, r)
    ensures IsChain(desc, free, [h, r.mid, r.last])
  {
  }

  lemma FinishKeeps(st: State, h: nat, st': State)
    requires Inv(st) && FinishStep(st, h, st')
    ensures Inv(st')
  {
    hide Chains, Buffers, Ring, Queued;
    BufferHas(st.bufs, st.reqs, h);
    ChainsLose(st.free, st.desc, st.reqs, h);
    QueueLose(st.reqs, st.avq, Posted, h);
    QueueLose(st.reqs, st.uq, Done, h);
    BuffersLose(st.bufs, st.reqs, h);
    assert Notes(st'.ops, st'.info, st'.reqs);
  }

  lemma StepKeepsInv(st: State, step: Step, st': State)
    requires Inv(st) && Next(st, step, st')
    ensures Inv(st')
  {
    hide Inv;
    match step
    case Submit(b, write, h, mid, last) => SubmitKeeps(st, b, write, h, mid, last, st');
    case DevTake => DevTakeKeeps(st, st');
    case DevDone(h) => DevDoneKeeps(st, h, st');
    case Intr => IntrKeeps(st, st');
    case Finish(h) => FinishKeeps(st, h, st');
    case Change(b, data) => ChangeKeeps(st, b, data, st');
  }

  // ---- runs ----

  ghost predicate Run(states: seq<State>, steps: seq<Step>) {
    && |states| == |steps| + 1 && Init(states[0])
    && forall i :: 0 <= i < |steps| ==> Next(states[i], steps[i], states[i + 1])
  }

  lemma {:induction false} RunKeepsInv(states: seq<State>, steps: seq<Step>, k: nat)
    requires Run(states, steps) && k < |states|
    ensures Inv(states[k])
    decreases k
  {
    if k == 0 {
      InitInv(states[0]);
    } else {
      RunKeepsInv(states, steps, k - 1);
      hide Inv, Next;
      StepKeepsInv(states[k - 1], steps[k - 1], states[k]);
    }
  }

  /** In every run at most NUM / 3 requests are under way, and every descriptor is free or in one chain. */
  lemma AtMostTwo(states: seq<State>, steps: seq<Step>, k: nat, a: nat, b: nat, c: nat)
    requires Run(states, steps) && k < |states|
    requires a in states[k].reqs && b in states[k].reqs && c in states[k].reqs
    ensures a == b || a == c || b == c
    ensures forall i: nat :: i < |states[k].free| && !states[k].free[i] ==> InChain(states[k].reqs, i)
  {
    RunKeepsInv(states, steps, k);
    NoThreeChains(states[k].free, states[k].desc, states[k].reqs, a, b, c);
  }

  /** In every run each round of the interrupt, across all wraps of the indices, finds the oldest completion
      not yet seen, never panics over its status, and clears b->disk of the buffer that issued it alone. */
  lemma CompletionIsExact(states: seq<State>, steps: seq<Step>, k: nat)
    requires Run(states, steps) && k < |states| && Sized(states[k]) && states[k].seenIdx != states[k].usedIdx
    ensures var st := states[k]; var id := st.used[st.seenIdx % NUM];
            && id in st.reqs && st.reqs[id].stage == Done && id < NUM
            && st.info[id].status == 0 && st.info[id].b == Some(st.reqs[id].buf)
            && st.reqs[id].buf in st.bufs && st.bufs[st.reqs[id].buf].disk
            && forall g :: g in st.reqs && g != id ==> st.reqs[g].buf != st.reqs[id].buf
  {
    RunKeepsInv(states, steps, k);
    var st := states[k];
    RingEmpty(st.used, st.seenIdx, st.usedIdx, st.uq, st.seen);
    IntrFinds(st);
    BufferHas(st.bufs, st.reqs, st.uq[0]);
    hide Run, Ring, Queued, Chains, Notes;
  }

  /** What the device reads when it follows a chain it takes. */
  lemma TakenIs(states: seq<State>, steps: seq<Step>, k: nat)
    requires Run(states, steps) && k < |states| && Sized(states[k]) && states[k].devIdx != states[k].availIdx
    ensures var st := states[k]; var h := st.avail[st.devIdx % NUM];
            && h in st.reqs && st.reqs[h].stage == Posted && h < NUM && Chained(st.free, st.desc, h, st.reqs[h])
            && st.ops[h] == Cmd(if st.reqs[h].write then 1 else 0, st.reqs[h].blockno * 2)
  {
    RunKeepsInv(states, steps, k);
    var st := states[k];
    hide Run, Queued, Chains, Buffers, Notes;
    RingEmpty(st.avail, st.devIdx, st.availIdx, st.avq, st.taken);
    TakeFinds(st);
    RequestIs(st, st.avail[st.devIdx % NUM]);
  }

  // ---- every request can go on ----

  ghost predicate Can(st: State, step: Step) {
    exists st' :: Next(st, step, st')
  }

  /** What has to happen next for a request, and the queue it stands in. */
  function Awaits(h: nat, stage: Stage): Step {
    match stage
    case Posted => DevTake
    case AtDevice => DevDone(h)
    case Done => Intr
    case Seen => Finish(h)
  }

  /** In every run the next step of every request is enabled, so none gets stuck: not by an index that has wrapped,
      nor by a chain the device rejects, nor by the panic over the status. */
  lemma RequestCan(states: seq<State>, steps: seq<Step>, k: nat, h: nat)
    requires Run(states, steps) && k < |states| && h in states[k].reqs
    ensures Can(states[k], Awaits(h, states[k].reqs[h].stage))
  {
    var st := states[k];
    RunKeepsInv(states, steps, k);
    hide Run, Inv, Can;
    match st.reqs[h].stage
    case Posted => TakeCan(st, h);
    case AtDevice => DoneCan(st, h);
    case Done => IntrCan(st, h);
    case Seen => FinishCan(st, h);
  }

  lemma Waiting(reqs: map<nat, Req>, queue: seq<nat>, stage: Stage, h: nat)
    requires Queued(reqs, queue, stage) && h in reqs && reqs[h].stage == stage
    ensures |queue| > 0
  {
  }

  lemma TakeCan(st: State, h: nat)
    requires Inv(st) && h in st.reqs && st.reqs[h].stage == Posted
    ensures Can(st, DevTake)
  {
    hide Chains, Buffers, Ring, Queued, Notes;
    Waiting(st.reqs, st.avq, Posted, h);
    RingEmpty(st.avail, st.devIdx, st.availIdx, st.avq, st.taken);
    assert Next(st, DevTake, st.(devIdx := Bump(st.devIdx), taken := st.taken + 1, avq := st.avq[1..],
                                 reqs := AtStage(st.reqs, st.avail[st.devIdx % NUM], AtDevice)));
  }

  lemma DoneCan(st: State, h: nat)
    requires Inv(st) && h in st.reqs && st.reqs[h].stage == AtDevice
    ensures Can(st, DevDone(h))
  {
    hide Inv, Followed, ChainOk;
    TransferIs(st, h);
    assert Next(st, DevDone(h), Followed(st, h).(used := st.used[st.usedIdx % NUM := h], usedIdx := Bump(st.usedIdx),
                                                 uq := st.uq + [h], reqs := AtStage(st.reqs, h, Done)));
  }

  lemma IntrCan(st: State, h: nat)
    requires Inv(st) && h in st.reqs && st.reqs[h].stage == Done
    ensures Can(st, Intr)
  {
    hide Chains, Buffers, Ring, Queued, Notes;
    Waiting(st.reqs, st.uq, Done, h);
    RingEmpty(st.used, st.seenIdx, st.usedIdx, st.uq, st.seen);
    IntrFinds(st);
    RequestIs(st, st.uq[0]);
    var b := st.reqs[st.uq[0]].buf;
    assert Next(st, Intr, st.(bufs := st.bufs[b := st.bufs[b].(disk := false)], seenIdx := Bump(st.seenIdx),
                              seen := st.seen + 1, uq := st.uq[1..], reqs := AtStage(st.reqs, st.uq[0], Seen)));
  }

  lemma FinishCan(st: State, h: nat)
    requires Inv(st) && h in st.reqs && st.reqs[h].stage == Seen
    ensures Can(st, Finish(h))
  {
    hide Inv;
    RequestIs(st, h);
    var r := st.reqs[h];
    assert Next(st, Finish(h), st.(info := st.info[h := st.info[h].(b := None)],
                                   free := st.free[h := true][r.mid := true][r.last := true],
                                   desc := st.desc[h := NO_DESC][r.mid := NO_DESC][r.last := NO_DESC],
                                   reqs := st.reqs - {h}));
  }

  // ---- what virtio_disk_rw does, in every run ----

  predicate Finished(stage: Stage) {
    stage == Done || stage == Seen
  }

  /** The transfer of request `h` for buffer `b` and block `n`, with `data` in the buffer before it. */
  ghost predicate Serves(st: State, st': State, b: nat, write: bool, n: nat, data: Content) {
    && 2 * n + 1 < |st.platter| && b in st.bufs && b in st'.bufs && st.bufs[b].data == data
    && if write then st'.platter == st.platter[2 * n := data.low][2 * n + 1 := data.high] && st'.bufs[b].data == data
       else st'.platter == st.platter && st'.bufs[b].data == Content(st.platter[2 * n], st.platter[2 * n + 1])
  }

  /** A request that is under way before and after a step, and what the step did for it. */
  ghost predicate Carried(st: State, st': State, h: nat, served: bool) {
    && h in st.reqs && h in st'.reqs && st'.reqs[h].(stage := Posted) == st.reqs[h].(stage := Posted)
    && var r := st.reqs[h];
    && r.buf in st.bufs && r.buf in st'.bufs
    && if served
       then !Finished(r.stage) && Finished(st'.reqs[h].stage) &&
            Serves(st, st', r.buf, r.write, r.blockno, st.bufs[r.buf].data)
       else Finished(st'.reqs[h].stage) == Finished(r.stage) && st'.bufs[r.buf].data == st.bufs[r.buf].data
  }

  /** While a request is under way it stays what it was, and nobody touches its buffer but the device, which
      completes it once. */
  lemma RequestStep(st: State, step: Step, st': State, h: nat)
    requires Inv(st) && Next(st, step, st') && h in st.reqs && step != Finish(h)
    ensures Carried(st, st', h, step == DevDone(h))
  {
    hide Inv, Carried;
    match step
    case Submit(b, write, g, mid, last) => SubmitCarries(st, b, write, g, mid, last, st', h);
    case DevTake => TakeCarries(st, st', h);
    case DevDone(g) => DoneCarries(st, g, st', h);
    case Intr => IntrCarries(st, st', h);
    case Finish(g) => RequestIs(st, h); FinishCarries(st, g, st', h);
    case Change(b, data) => RequestIs(st, h); ChangeCarries(st, b, data, st', h);
  }

  lemma SubmitCarries(st: State, b: nat, write: bool, g: nat, mid: nat, last: nat, st': State, h: nat)
    requires Inv(st) && SubmitStep(st, b, write, g, mid, last, st') && h in st.reqs
    ensures Carried(st, st', h, false)
  {
    hide Inv, FirstThree, Serves;
    ThreeFree(st.free, g, mid, last);
    RequestIs(st, h);
  }

  lemma TakeCarries(st: State, st': State, h: nat)
    requires Inv(st) && DevTakeStep(st, st') && h in st.reqs
    ensures Carried(st, st', h, false)
  {
    hide Inv, Serves;
    RequestIs(st, h);
    TakeFinds(st);
  }

  lemma TakeFinds(st: State)
    requires Inv(st) && |st.avq| > 0
    ensures var h := st.avail[st.devIdx % NUM]; h in st.reqs && st.reqs[h].stage == Posted
  {
    hide Chains, Buffers, Ring, Queued;
    RingPop(st.avail, st.devIdx, st.availIdx, st.avq, st.taken);
    QueueHas(st.reqs, st.avq, Posted);
  }

  lemma DoneCarries(st: State, g: nat, st': State, h: nat)
    requires Inv(st) && DevDoneStep(st, g, st') && h in st.reqs
    ensures Carried(st, st', h, g == h)
  {
    hide Inv, Followed, ChainOk;
    TransferIs(st, g);
    RequestIs(st, h);
    OtherBuffer(st, g, h);
  }

  lemma OtherBuffer(st: State, g: nat, h: nat)
    requires Inv(st) && g in st.reqs && h in st.reqs
    ensures g != h ==> st.reqs[g].buf != st.reqs[h].buf
  {
    hide Chains, Ring, Queued, Notes;
  }

  lemma IntrCarries(st: State, st': State, h: nat)
    requires Inv(st) && IntrStep(st, st') && h in st.reqs
    ensures Carried(st, st', h, false)
  {
    hide Inv, Serves;
    RequestIs(st, h);
    IntrFinds(st);
  }

  lemma FinishCarries(st: State, g: nat, st': State, h: nat)
    requires FinishStep(st, g, st') && h in st.reqs && g != h && st.reqs[h].buf in st.bufs
    ensures Carried(st, st', h, false)
  {
    hide Serves;
  }

  lemma ChangeCarries(st: State, b: nat, data: Content, st': State, h: nat)
    requires ChangeStep(st, b, data, st') && h in st.reqs && st.reqs[h].buf in st.bufs
    ensures Carried(st, st', h, false)
  {
    hide Serves;
  }

  lemma SubmitStarts(st: State, b: nat, write: bool, h: nat, mid: nat, last: nat, st': State)
    requires SubmitStep(st, b, write, h, mid, last, st')
    ensures b in st.bufs && b in st'.bufs && st'.bufs[b].data == st.bufs[b].data
    ensures h in st'.reqs && st'.reqs[h] == Req(b, write, st.bufs[b].blockno, mid, last, Posted)
  {
    hide FirstThree;
  }

  /** virtio_disk_rw(b, write) submitted at time j with head h is still under way at time k. */
  ghost predicate UnderWay(states: seq<State>, steps: seq<Step>, j: nat, k: nat, h: nat) {
    && j < k < |states| && k <= |steps| && steps[j].Submit? && steps[j].h == h
    && forall i :: j < i < k ==> steps[i] != Finish(h)
  }

  /** The device served the request of time j in step m. */
  ghost predicate ServedAt(states: seq<State>, steps: seq<Step>, j: nat, m: nat) {
    && j < m < |steps| && m + 1 < |states| && steps[j].Submit? && steps[m] == DevDone(steps[j].h)
    && steps[j].b in states[j].bufs
    && var buf := states[j].bufs[steps[j].b];
    Serves(states[m], states[m + 1], steps[j].b, steps[j].write, buf.blockno, buf.data)
  }

  /** A request under way is the one submitted, on the buffer as it was then, until the device has served it. */
  ghost predicate Progress(states: seq<State>, steps: seq<Step>, j: nat, k: nat)
    requires j < k < |states| && k <= |steps| && steps[j].Submit?
  {
    var st, b, h := states[k], steps[j].b, steps[j].h;
    && h in st.reqs && b in states[j].bufs && b in st.bufs
    && st.reqs[h] == Req(b, steps[j].write, states[j].bufs[b].blockno, steps[j].mid, steps[j].last, st.reqs[h].stage)
    && if Finished(st.reqs[h].stage)
       then exists m: nat :: ServedAt(states, steps, j, m) && m < k && st.bufs[b].data == states[m + 1].bufs[b].data
       else st.bufs[b].data == states[j].bufs[b].data
  }

  lemma {:induction false} RequestRuns(states: seq<State>, steps: seq<Step>, j: nat, k: nat, h: nat)
    requires Run(states, steps) && UnderWay(states, steps, j, k, h)
    ensures Progress(states, steps, j, k)
    decreases k
  {
    hide Inv, Next, Run, Carried, ServedAt;
    if k == j + 1 {
      RunStep(states, steps, j);
      ProgressStarts(states, steps, j);
    } else {
      RequestRuns(states, steps, j, k - 1, h);
      RunKeepsInv(states, steps, k - 1);
      RunStep(states, steps, k - 1);
      RequestStep(states[k - 1], steps[k - 1], states[k], h);
      ProgressStep(states, steps, j, k);
    }
  }

  lemma RunStep(states: seq<State>, steps: seq<Step>, i: nat)
    requires Run(states, steps) && i < |steps|
    ensures |states| == |steps| + 1 && Next(states[i], steps[i], states[i + 1])
  {
  }

  lemma ProgressStarts(states: seq<State>, steps: seq<Step>, j: nat)
    requires j + 1 < |states| && j + 1 <= |steps| && steps[j].Submit? && Next(states[j], steps[j], states[j + 1])
    ensures Progress(states, steps, j, j + 1)
  {
    var s := steps[j];
    hide SubmitStep;
    SubmitStarts(states[j], s.b, s.write, s.h, s.mid, s.last, states[j + 1]);
  }

  lemma ProgressStep(states: seq<State>, steps: seq<Step>, j: nat, k: nat)
    requires j + 1 < k < |states| && k <= |steps| && steps[j].Submit? && Progress(states, steps, j, k - 1)
    requires Carried(states[k - 1], states[k], steps[j].h, steps[k - 1] == DevDone(steps[j].h))
    ensures Progress(states, steps, j, k)
  {
    if steps[k - 1] == DevDone(steps[j].h) {
      assert ServedAt(states, steps, j, k - 1);
    }
  }

  /** Every request under way was submitted by a step of the run. */
  lemma {:induction false} SubmittedBy(states: seq<State>, steps: seq<Step>, k: nat, h: nat)
    requires Run(states, steps) && k < |states| && h in states[k].reqs
    ensures exists j: nat :: UnderWay(states, steps, j, k, h)
    decreases k
  {
    if k > 0 {
      RunStep(states, steps, k - 1);
      ReqsGain(states[k - 1], steps[k - 1], states[k], h);
      if h in states[k - 1].reqs && steps[k - 1] != Finish(h) {
        SubmittedBy(states, steps, k - 1, h);
        var j: nat :| UnderWay(states, steps, j, k - 1, h);
        assert UnderWay(states, steps, j, k, h);
      } else {
        assert UnderWay(states, steps, k - 1, k, h);
      }
    }
  }

  lemma ReqsGain(st: State, step: Step, st': State, h: nat)
    requires Next(st, step, st') && h in st'.reqs
    ensures (h in st.reqs && step != Finish(h)) || (step.Submit? && step.h == h)
  {
    hide FirstThree, Followed, ChainOk;
  }

  /** The head the device takes at time k is that of the call submitted at time j, and the three descriptors spell
      that call: its command and sector, the data of its buffer and the direction, and where to put the status. */
  ghost predicate Spells(states: seq<State>, steps: seq<Step>, j: nat, k: nat, h: nat) {
    && j < k < |states| && j < |steps| && steps[j].Submit? && steps[j].h == h && Sized(states[k])
    && var st, b, mid, last := states[k], steps[j].b, steps[j].mid, steps[j].last;
    && b in states[j].bufs && b in st.bufs && h < NUM && mid < NUM && last < NUM
    && st.bufs[b].data == states[j].bufs[b].data && st.bufs[b].blockno == states[j].bufs[b].blockno
    && st.ops[h] == Cmd(if steps[j].write then 1 else 0, 2 * states[j].bufs[b].blockno)
    && st.desc[h] == Desc(Op(h), true, false, mid)
    && st.desc[mid] == Desc(Data(b), true, !steps[j].write, last)
    && st.desc[last] == Desc(Status(h), false, true, 0)
  }

  lemma DeviceSees(states: seq<State>, steps: seq<Step>, k: nat)
    requires Run(states, steps) && k < |states| && Sized(states[k]) && states[k].devIdx != states[k].availIdx
    ensures exists j: nat :: Spells(states, steps, j, k, states[k].avail[states[k].devIdx % NUM])
  {
    var h := states[k].avail[states[k].devIdx % NUM];
    TakenIs(states, steps, k);
    hide Run, Inv, Spells, UnderWay;
    SubmittedBy(states, steps, k, h);
    var j: nat :| UnderWay(states, steps, j, k, h);
    CallSpelt(states, steps, j, k, h);
  }

  lemma CallSpelt(states: seq<State>, steps: seq<Step>, j: nat, k: nat, h: nat)
    requires Run(states, steps) && UnderWay(states, steps, j, k, h)
    requires h in states[k].reqs && states[k].reqs[h].stage == Posted
    ensures Spells(states, steps, j, k, h)
  {
    hide Run, Inv, ServedAt, Spells, Progress, Chained, Noted, Flagged;
    RequestRuns(states, steps, j, k, h);
    RunKeepsInv(states, steps, k);
    RequestIs(states[k], h);
    ProgressSpells(states, steps, j, k);
  }

  lemma ProgressSpells(states: seq<State>, steps: seq<Step>, j: nat, k: nat)
    requires j < k < |states| && k <= |steps| && steps[j].Submit? && Progress(states, steps, j, k)
    requires var st, h := states[k], steps[j].h;
             && st.reqs[h].stage == Posted && Sized(st) && Chained(st.free, st.desc, h, st.reqs[h])
             && Noted(st.ops, st.info, h, st.reqs[h]) && Flagged(st.bufs, st.reqs[h])
    ensures Spells(states, steps, j, k, steps[j].h)
  {
    hide ServedAt;
  }

  /** When virtio_disk_rw(b, write) returns, the device has served it once: a write has put the buffer as it was at
      the call on the two sectors of its block, a read has put those two sectors into the buffer. */
  lemma DiskRw(states: seq<State>, steps: seq<Step>, j: nat, k: nat, h: nat)
    requires Run(states, steps) && UnderWay(states, steps, j, k, h) && k < |steps| && steps[k] == Finish(h)
    ensures exists m: nat :: ServedAt(states, steps, j, m) && m < k && k + 1 < |states| &&
                             steps[j].b in states[k + 1].bufs &&
                             states[k + 1].bufs[steps[j].b].data == states[m + 1].bufs[steps[j].b].data
  {
    RequestRuns(states, steps, j, k, h);
    RunKeepsInv(states, steps, k);
    RunStep(states, steps, k);
    FinishIsDone(states[k], h);
    hide Run, Inv;
  }

  predicate WritesBlock(st: State, step: Step, n: nat) {
    step.DevDone? && step.h in st.reqs && st.reqs[step.h].write && st.reqs[step.h].blockno == n
  }

  predicate HoldsBlock(st: State, n: nat, data: Content) {
    2 * n + 1 < |st.platter| && st.platter[2 * n] == data.low && st.platter[2 * n + 1] == data.high
  }

  /** A block changes only when the device serves a write of that block. */
  lemma BlockStays(st: State, step: Step, st': State, n: nat, data: Content)
    requires Inv(st) && Next(st, step, st') && !WritesBlock(st, step, n) && HoldsBlock(st, n, data)
    ensures HoldsBlock(st', n, data)
  {
    hide Inv, Followed, ChainOk, FirstThree;
    if step.DevDone? {
      TransferIs(st, step.h);
    }
  }

  lemma {:induction false} BlockHeld(states: seq<State>, steps: seq<Step>, m: nat, k: nat, n: nat, data: Content)
    requires Run(states, steps) && m <= k < |states| && HoldsBlock(states[m], n, data)
    requires forall t :: m <= t < k ==> !WritesBlock(states[t], steps[t], n)
    ensures HoldsBlock(states[k], n, data)
    decreases k
  {
    hide Next, WritesBlock, HoldsBlock, Inv;
    if k > m {
      BlockHeld(states, steps, m, k - 1, n, data);
      RunKeepsInv(states, steps, k - 1);
      BlockStays(states[k - 1], steps[k - 1], states[k], n, data);
    }
  }

  lemma WriteLands(states: seq<State>, steps: seq<Step>, i: nat, m: nat)
    requires ServedAt(states, steps, i, m) && steps[i].write
    ensures HoldsBlock(states[m + 1], states[i].bufs[steps[i].b].blockno, states[i].bufs[steps[i].b].data)
  {
  }

  /** The disk is a register a block: a read served at time k gives what the last write of that block before it,
      served at time m, found in its buffer when it was submitted. */
  lemma ReadsLastWrite(states: seq<State>, steps: seq<Step>, i: nat, m: nat, j: nat, k: nat)
    requires Run(states, steps) && ServedAt(states, steps, i, m) && steps[i].write
    requires ServedAt(states, steps, j, k) && !steps[j].write && m < k
    requires states[j].bufs[steps[j].b].blockno == states[i].bufs[steps[i].b].blockno
    requires forall t :: m < t < k ==> !WritesBlock(states[t], steps[t], states[i].bufs[steps[i].b].blockno)
    ensures steps[j].b in states[k + 1].bufs
    ensures states[k + 1].bufs[steps[j].b].data == states[i].bufs[steps[i].b].data
  {
    hide Run, WritesBlock;
    var buf := states[i].bufs[steps[i].b];
    WriteLands(states, steps, i, m);
    BlockHeld(states, steps, m + 1, k, buf.blockno, buf.data);
  }
}
