/** kernel/fs.c: the table of in-memory inodes, as a machine whose steps are the critical sections of
    iget, idup, ilock, iupdate, iunlock, iput and ialloc, interleaved in any order. */
module InodeTable {
  import opened Basics

  datatype Id = Id(dev: nat, inum: nat)

  /** The part of an inode that lives on disk; kind 0 means free. */
  datatype Node = Node(kind: nat, nlink: nat, size: nat, addrs: seq<nat>)

  datatype Slot = Slot(id: Id, ref: nat, locked: bool, valid: bool, node: Node)

  /** Where the holder of a reference is in ilock, its own code, or iput. */
  datatype Pc =
    | Idle
    | Loading                // ilock: has the lock, found valid == 0
    | Read                   // ilock: has copied the disk inode, valid not yet set
    | Locked(clean: bool)    // between ilock and iunlock; clean: no change since the last load or iupdate
    | Truncating             // iput: has the lock, itable.lock released
    | Truncated              // iput: itrunc has returned
    | Freed                  // iput: type 0 has been written by iupdate
    | Cleared                // iput: valid has been cleared
    | Released               // iput: the lock has been released, the reference not yet dropped

  datatype Ref = Ref(slot: nat, pc: Pc)

  datatype State = State(slots: seq<Slot>, disk: map<Id, Node>, refs: map<nat, Ref>)

  datatype Step =
    | Iget(id: Id, r: nat)
    | Idup(r: nat, r2: nat)
    | Lock(r: nat)
    | Load(r: nat)
    | LoadDone(r: nat)
    | Modify(r: nat, node: Node)
    | Update(r: nat)
    | Unlock(r: nat)
    | Put(r: nat)
    | Trunc(r: nat)
    | PutFree(r: nat)
    | PutClear(r: nat)
    | PutUnlock(r: nat)
    | PutDone(r: nat)
    | Ialloc(id: Id, kind: nat)

  predicate Holds(pc: Pc) {
    pc != Idle && pc != Released
  }

  // ---- iget's scan ----

  predicate IsHit(slot: Slot, id: Id) {
    slot.ref > 0 && slot.id == id
  }

  predicate NoHit(slots: seq<Slot>, id: Id) {
    forall s :: 0 <= s < |slots| ==> !IsHit(slots[s], id)
  }

  predicate FirstEmpty(slots: seq<Slot>, s: nat) {
    s < |slots| && slots[s].ref == 0 && forall i :: 0 <= i < s ==> slots[i].ref > 0
  }

  datatype Found = Hit(slot: nat) | Empty(slot: nat) | Full

  /** What iget's loop must find. */
  predicate Finds(slots: seq<Slot>, id: Id, f: Found) {
    match f
    case Hit(s) => s < |slots| && IsHit(slots[s], id)
    case Empty(s) => FirstEmpty(slots, s) && NoHit(slots, id)
    case Full => NoHit(slots, id) && forall s :: 0 <= s < |slots| ==> slots[s].ref > 0
  }

  /** The loop of iget: one pass finds the inode, or the first unused slot. */
  method Scan(slots: seq<Slot>, id: Id) returns (f: Found)
    ensures Finds(slots, id, f)
  {
    f := Full;
    for i := 0 to |slots|
      invariant forall j :: 0 <= j < i ==> !IsHit(slots[j], id)
      invariant f == Full ==> forall j :: 0 <= j < i ==> slots[j].ref > 0
      invariant f.Hit? ==> false
      invariant f.Empty? ==> f.slot < i && FirstEmpty(slots, f.slot)
    {
      if slots[i].ref > 0 && slots[i].id == id {
        return Hit(i);
      }
      if f == Full && slots[i].ref == 0 {
        f := Empty(i);
      }
    }
  }

  // ---- steps ----

  function SlotOf(st: State, r: nat): Slot
    requires r in st.refs && st.refs[r].slot < |st.slots|
  {
    st.slots[st.refs[r].slot]
  }

  /** The reference is at `pc`, of a slot of the table. */
  predicate At(st: State, r: nat, pc: Pc) {
    r in st.refs && st.refs[r].pc == pc && st.refs[r].slot < |st.slots|
  }

  /** Reference `r` moves to `pc`, and its slot becomes `slot`. */
  function Moved(st: State, r: nat, slot: Slot, pc: Pc): State
    requires r in st.refs && st.refs[r].slot < |st.slots|
  {
    var s := st.refs[r].slot;
    State(st.slots[s := slot], st.disk, st.refs[r := Ref(s, pc)])
  }

  /** Reference `r` is dropped. */
  function Dropped(st: State, r: nat): State
    requires r in st.refs && st.refs[r].slot < |st.slots| && SlotOf(st, r).ref > 0
  {
    var s := st.refs[r].slot;
    State(st.slots[s := st.slots[s].(ref := st.slots[s].ref - 1)], st.disk, st.refs - {r})
  }

  /** NDIRECT + 1 empty addresses. */
  function NoAddrs(): seq<nat> {
    seq(13, _ => 0)
  }

  /** iget: the slot the scan finds gains a reference; an unused one is taken over. */
  ghost predicate IgetStep(st: State, id: Id, r: nat, st': State) {
    && r !in st.refs && id in st.disk
    && exists f :: Finds(st.slots, id, f) && f != Full && st' == Gotten(st, id, r, f)
  }

  function Gotten(st: State, id: Id, r: nat, f: Found): State
    requires Finds(st.slots, id, f) && f != Full
  {
    var s := f.slot;
    var slot := st.slots[s];
    var slot' := if f.Hit? then slot.(ref := slot.ref + 1) else slot.(id := id, ref := 1, valid := false);
    State(st.slots[s := slot'], st.disk, st.refs[r := Ref(s, Idle)])
  }

  ghost predicate Next(st: State, step: Step, st': State) {
    match step
    case Iget(id, r) => IgetStep(st, id, r, st')
    case Idup(r, r2) =>
      && r in st.refs && st.refs[r].slot < |st.slots| && r2 !in st.refs
      && st' == State(st.slots[st.refs[r].slot := SlotOf(st, r).(ref := SlotOf(st, r).ref + 1)], st.disk,
                      st.refs[r2 := Ref(st.refs[r].slot, Idle)])
    case Lock(r) =>
      && At(st, r, Idle) && !SlotOf(st, r).locked
      && st' == Moved(st, r, SlotOf(st, r).(locked := true), if SlotOf(st, r).valid then Locked(true) else Loading)
    case Load(r) =>
      && At(st, r, Loading) && SlotOf(st, r).id in st.disk
      && st' == Moved(st, r, SlotOf(st, r).(node := st.disk[SlotOf(st, r).id]), Read)
    case LoadDone(r) =>   // otherwise it panics: ilock: no type
      && At(st, r, Read) && SlotOf(st, r).node.kind != 0
      && st' == Moved(st, r, SlotOf(st, r).(valid := true), Locked(true))
    case Modify(r, node) =>
      && (At(st, r, Locked(true)) || At(st, r, Locked(false))) && node.kind != 0
      && st' == Moved(st, r, SlotOf(st, r).(node := node), Locked(false))
    case Update(r) =>
      && (At(st, r, Locked(true)) || At(st, r, Locked(false)))
      && st' == Moved(st, r, SlotOf(st, r), Locked(true)).(disk := st.disk[SlotOf(st, r).id := SlotOf(st, r).node])
    case Unlock(r) =>   // the caller has called iupdate after its last change
      && At(st, r, Locked(true)) && st' == Moved(st, r, SlotOf(st, r).(locked := false), Idle)
    case Put(r) =>
      && At(st, r, Idle) && SlotOf(st, r).ref > 0
      && if SlotOf(st, r).ref == 1 && SlotOf(st, r).valid && SlotOf(st, r).node.nlink == 0
         then !SlotOf(st, r).locked && st' == Moved(st, r, SlotOf(st, r).(locked := true), Truncating)
         else st' == Dropped(st, r)
    case Trunc(r) =>
      && At(st, r, Truncating)
      && var node := SlotOf(st, r).node.(size := 0, addrs := NoAddrs());
         st' == Moved(st, r, SlotOf(st, r).(node := node), Truncated).(disk := st.disk[SlotOf(st, r).id := node])
    case PutFree(r) =>
      && At(st, r, Truncated)
      && var node := SlotOf(st, r).node.(kind := 0);
         st' == Moved(st, r, SlotOf(st, r).(node := node), Freed).(disk := st.disk[SlotOf(st, r).id := node])
    case PutClear(r) => At(st, r, Freed) && st' == Moved(st, r, SlotOf(st, r).(valid := false), Cleared)
    case PutUnlock(r) => At(st, r, Cleared) && st' == Moved(st, r, SlotOf(st, r).(locked := false), Released)
    case PutDone(r) => At(st, r, Released) && SlotOf(st, r).ref > 0 && st' == Dropped(st, r)
    case Ialloc(id, kind) =>
      id in st.disk && st.disk[id].kind == 0 && kind != 0 &&
          st' == st.(disk := st.disk[id := Node(kind, 0, 0, NoAddrs())])
  }

  // ---- what every run keeps ----

  ghost function RefsTo(refs: map<nat, Ref>, s: nat): set<nat> {
    set r | r in refs && refs[r].slot == s
  }

  /** ref counts the references. */
  ghost predicate Counted(st: State) {
    && (forall r :: r in st.refs ==> st.refs[r].slot < |st.slots|)
    && (forall s :: 0 <= s < |st.slots| ==> st.slots[s].ref == |RefsTo(st.refs, s)|)
  }

  /** No two slots in use hold the same inode. */
  ghost predicate Single(st: State) {
    && (forall s, t :: 0 <= s < t < |st.slots| && st.slots[s].ref > 0 && st.slots[t].ref > 0 ==>
          st.slots[s].id != st.slots[t].id)
    && (forall s :: 0 <= s < |st.slots| && st.slots[s].ref > 0 ==> st.slots[s].id in st.disk)
  }

  /** A slot is locked when some reference holds its lock, and then by that one only. */
  ghost predicate Exclusive(st: State) {
    && (forall r :: r in st.refs && st.refs[r].slot < |st.slots| && Holds(st.refs[r].pc) ==> SlotOf(st, r).locked)
    && (forall s :: 0 <= s < |st.slots| && st.slots[s].locked ==> Holder(st.refs, s))
    && Alone(st.refs)
  }

  ghost predicate Alone(refs: map<nat, Ref>) {
    forall r, q :: r in refs && q in refs && Holds(refs[r].pc) && Holds(refs[q].pc) && r != q ==>
      refs[r].slot != refs[q].slot
  }

  ghost predicate Holder(refs: map<nat, Ref>, s: nat) {
    exists r :: r in refs && refs[r].slot == s && Holds(refs[r].pc)
  }

  predicate IsEmpty(node: Node) {
    node.nlink == 0 && node.size == 0 && node.addrs == NoAddrs()
  }

  /** What the holder of a lock knows of its slot and of the disk inode. */
  ghost predicate Knows(slot: Slot, disk: map<Id, Node>, pc: Pc)
    requires slot.id in disk
  {
    match pc
    case Idle => true
    case Loading => !slot.valid
    case Read => !slot.valid && (slot.node.kind != 0 ==> slot.node == disk[slot.id])
    case Locked(clean) =>
      slot.valid && slot.node.kind != 0 && disk[slot.id].kind != 0 && (clean ==> slot.node == disk[slot.id])
    case Truncating => slot.valid && slot.node.kind != 0 && slot.node == disk[slot.id] && slot.node.nlink == 0
    case Truncated => slot.valid && slot.node.kind != 0 && slot.node == disk[slot.id] && IsEmpty(slot.node)
    case Freed => slot.valid
    case Cleared => !slot.valid
    case Released => true
  }

  ghost predicate Known(st: State) {
    forall r :: r in st.refs && st.refs[r].slot < |st.slots| && SlotOf(st, r).id in st.disk ==>
      Knows(SlotOf(st, r), st.disk, st.refs[r].pc)
  }

  /** An unlocked valid slot in use equals the logged disk inode, which is not free. */
  ghost predicate FreshSlot(slot: Slot, disk: map<Id, Node>) {
    slot.ref > 0 && !slot.locked && slot.valid && slot.id in disk ==> slot.node == disk[slot.id] && slot.node.kind != 0
  }

  ghost predicate Fresh(st: State) {
    forall s :: 0 <= s < |st.slots| ==> FreshSlot(st.slots[s], st.disk)
  }

  ghost predicate Inv(st: State) {
    Counted(st) && Single(st) && Exclusive(st) && Known(st) && Fresh(st)
  }

  /** Nothing is referenced at boot; what the slots hold does not matter. */
  predicate Init(st: State) {
    st.refs == map[] && forall s :: 0 <= s < |st.slots| ==> st.slots[s].ref == 0 && !st.slots[s].locked
  }

  lemma InitInv(st: State)
    requires Init(st)
    ensures Inv(st)
  {
    forall s | 0 <= s < |st.slots| ensures st.slots[s].ref == |RefsTo(st.refs, s)| {
      assert RefsTo(st.refs, s) == {};
    }
  }

  // ---- counting references ----

  lemma MovedCounted(st: State, r: nat, slot: Slot, pc: Pc)
    requires Counted(st) && r in st.refs && slot.ref == SlotOf(st, r).ref
    ensures Counted(Moved(st, r, slot, pc))
  {
    var st' := Moved(st, r, slot, pc);
    forall s | 0 <= s < |st.slots| ensures RefsTo(st'.refs, s) == RefsTo(st.refs, s) {
    }
  }

  lemma AddedRefs(refs: map<nat, Ref>, s: nat, r: nat, u: nat)
    requires r !in refs
    ensures |RefsTo(refs[r := Ref(s, Idle)], u)| == |RefsTo(refs, u)| + if u == s then 1 else 0
  {
    var refs' := refs[r := Ref(s, Idle)];
    if u == s {
      assert RefsTo(refs', s) == RefsTo(refs, s) + {r} && r !in RefsTo(refs, s);
    } else {
      assert RefsTo(refs', u) == RefsTo(refs, u);
    }
  }

  lemma AddedCounted(st: State, s: nat, slot: Slot, r: nat)
    requires Counted(st) && r !in st.refs && s < |st.slots| && slot.ref == st.slots[s].ref + 1
    ensures Counted(State(st.slots[s := slot], st.disk, st.refs[r := Ref(s, Idle)]))
  {
    var slots', refs' := st.slots[s := slot], st.refs[r := Ref(s, Idle)];
    forall u | 0 <= u < |st.slots| ensures slots'[u].ref == |RefsTo(refs', u)| {
      AddedRefs(st.refs, s, r, u);
    }
  }

  lemma DroppedCounted(st: State, r: nat)
    requires Counted(st) && r in st.refs
    ensures SlotOf(st, r).ref > 0 && Counted(Dropped(st, r))
  {
    var s := st.refs[r].slot;
    assert r in RefsTo(st.refs, s);
    forall u | 0 <= u < |st.slots| ensures RefsTo(st.refs - {r}, u) == RefsTo(st.refs, u) - if u == s then {r} else {} {
    }
  }

  /** The only reference is the only one. */
  lemma LastRef(st: State, r: nat, q: nat)
    requires Counted(st) && r in st.refs && q in st.refs && st.refs[r].slot == st.refs[q].slot
    requires SlotOf(st, r).ref == 1
    ensures r == q
  {
    var set1 := RefsTo(st.refs, st.refs[r].slot);
    assert r in set1 && q in set1;
    if r != q {
      assert {r, q} <= set1;
      SubsetSize({r, q}, set1);
    }
  }

  // ---- steps of a reference that has, takes or gives up a lock ----

  ghost predicate Others(disk: map<Id, Node>, disk': map<Id, Node>, id: Id) {
    disk'.Keys == disk.Keys && forall i :: i in disk && i != id ==> disk'[i] == disk[i]
  }

  /** A holder, or a taker of a free lock, keeps everything if it leaves its own slot in order. */
  ghost predicate Fair(st: State, r: nat, slot: Slot, pc: Pc, disk: map<Id, Node>) {
    && r in st.refs && st.refs[r].slot < |st.slots| && SlotOf(st, r).id in st.disk
    && slot.id == SlotOf(st, r).id && slot.ref == SlotOf(st, r).ref && slot.locked == Holds(pc)
    && (Holds(st.refs[r].pc) || !SlotOf(st, r).locked) && Others(st.disk, disk, slot.id)
    && Knows(slot, disk, pc) && FreshSlot(slot, disk)
  }

  lemma FairExclusive(st: State, r: nat, slot: Slot, pc: Pc, disk: map<Id, Node>)
    requires Inv(st) && Fair(st, r, slot, pc, disk)
    ensures Exclusive(Moved(st, r, slot, pc).(disk := disk))
  {
    hide Counted, Single, Known, Fresh, Knows, FreshSlot, Others;
    var st' := Moved(st, r, slot, pc).(disk := disk);
    forall q | q in st.refs && q != r && Holds(st.refs[q].pc) ensures st.refs[q].slot != st.refs[r].slot {
      Referenced(st, q);
      assert Holds(st.refs[q].pc) ==> SlotOf(st, q).locked;
    }
    forall s | 0 <= s < |st'.slots| && st'.slots[s].locked ensures Holder(st'.refs, s) {
      if s == st.refs[r].slot {
        assert st'.refs[r].slot == s && Holds(st'.refs[r].pc);
      } else {
        var q :| q in st.refs && st.refs[q].slot == s && Holds(st.refs[q].pc);
        assert st'.refs[q] == st.refs[q];
      }
    }
  }

  ghost predicate CountedSlot(st: State, q: nat) {
    q in st.refs && st.refs[q].slot < |st.slots|
  }

  /** Other slots hold other inodes. */
  lemma OtherIds(st: State, s: nat, t: nat)
    requires Counted(st) && Single(st) && s < |st.slots| && t < |st.slots| && s != t
    requires st.slots[s].ref > 0 && st.slots[t].ref > 0
    ensures st.slots[s].id != st.slots[t].id && st.slots[s].id in st.disk
  {
  }

  lemma Referenced(st: State, q: nat)
    requires Counted(st) && q in st.refs
    ensures st.refs[q].slot < |st.slots| && SlotOf(st, q).ref > 0
  {
    assert q in RefsTo(st.refs, st.refs[q].slot);
  }

  lemma FairKnown(st: State, r: nat, slot: Slot, pc: Pc, disk: map<Id, Node>)
    requires Inv(st) && Fair(st, r, slot, pc, disk)
    ensures Known(Moved(st, r, slot, pc).(disk := disk)) && Fresh(Moved(st, r, slot, pc).(disk := disk))
  {
    var st' := Moved(st, r, slot, pc).(disk := disk);
    Referenced(st, r);
    forall q | q in st'.refs && st'.refs[q].slot < |st'.slots| && SlotOf(st', q).id in st'.disk
      ensures Knows(SlotOf(st', q), st'.disk, st'.refs[q].pc)
    {
      if q != r {
        FairOther(st, r, slot, pc, disk, q);
      }
    }
    forall s | 0 <= s < |st'.slots| ensures FreshSlot(st'.slots[s], st'.disk) {
      if s != st.refs[r].slot && st.slots[s].ref > 0 {
        OtherIds(st, s, st.refs[r].slot);
        assert FreshSlot(st.slots[s], st.disk);
      }
    }
  }

  lemma FairOther(st: State, r: nat, slot: Slot, pc: Pc, disk: map<Id, Node>, q: nat)
    requires Inv(st) && Fair(st, r, slot, pc, disk) && q in st.refs && q != r
    ensures var st' := Moved(st, r, slot, pc).(disk := disk);
            CountedSlot(st, q) && SlotOf(st', q).id in st'.disk && Knows(SlotOf(st', q), st'.disk, st'.refs[q].pc)
  {
    Referenced(st, r);
    Referenced(st, q);
    var s, t := st.refs[r].slot, st.refs[q].slot;
    if s == t {
      assert !Holds(st.refs[q].pc);
    } else {
      OtherIds(st, t, s);
      assert Knows(SlotOf(st, q), st.disk, st.refs[q].pc);
    }
  }

  lemma FairKeeps(st: State, r: nat, slot: Slot, pc: Pc, disk: map<Id, Node>)
    requires Inv(st) && Fair(st, r, slot, pc, disk)
    ensures Inv(Moved(st, r, slot, pc).(disk := disk))
  {
    hide Counted, Exclusive, Known, Fresh, Single, Fair;
    FairSingle(st, r, slot, pc, disk);
    FairExclusive(st, r, slot, pc, disk);
    FairKnown(st, r, slot, pc, disk);
  }

  lemma FairSingle(st: State, r: nat, slot: Slot, pc: Pc, disk: map<Id, Node>)
    requires Inv(st) && Fair(st, r, slot, pc, disk)
    ensures Counted(Moved(st, r, slot, pc).(disk := disk)) && Single(Moved(st, r, slot, pc).(disk := disk))
  {
    hide Exclusive, Known, Fresh, Knows, FreshSlot;
    MovedCounted(st, r, slot, pc);
  }

  // ---- the other steps ----

  lemma DroppedExclusive(st: State, r: nat)
    requires Counted(st) && Exclusive(st) && r in st.refs && !Holds(st.refs[r].pc) && SlotOf(st, r).ref > 0
    ensures Exclusive(Dropped(st, r))
  {
    var st' := Dropped(st, r);
    forall s | 0 <= s < |st'.slots| && st'.slots[s].locked ensures Holder(st'.refs, s) {
      assert st.slots[s].locked;
      var q :| q in st.refs && st.refs[q].slot == s && Holds(st.refs[q].pc);
      assert q in st'.refs;
    }
    forall q | q in st'.refs && st'.refs[q].slot < |st'.slots| && Holds(st'.refs[q].pc) ensures SlotOf(st', q).locked {
      assert SlotOf(st, q).locked;
    }
  }

  lemma DroppedKnown(st: State, r: nat)
    requires Counted(st) && Known(st) && Fresh(st) && r in st.refs && SlotOf(st, r).ref > 0
    ensures Known(Dropped(st, r)) && Fresh(Dropped(st, r))
  {
    var st' := Dropped(st, r);
    forall q | q in st'.refs && st'.refs[q].slot < |st'.slots| && SlotOf(st', q).id in st'.disk
      ensures Knows(SlotOf(st', q), st'.disk, st'.refs[q].pc)
    {
      assert Knows(SlotOf(st, q), st.disk, st.refs[q].pc);
    }
    forall s | 0 <= s < |st'.slots| ensures FreshSlot(st'.slots[s], st'.disk) {
      assert FreshSlot(st.slots[s], st.disk);
    }
  }

  lemma DroppedKeeps(st: State, r: nat)
    requires Inv(st) && r in st.refs && !Holds(st.refs[r].pc)
    ensures CountedSlot(st, r) && SlotOf(st, r).ref > 0 && Inv(Dropped(st, r))
  {
    DroppedCounted(st, r);
    DroppedExclusive(st, r);
    DroppedKnown(st, r);
    hide Exclusive, Known, Fresh;
  }

  lemma AddedExclusive(st: State, s: nat, slot: Slot, r: nat)
    requires Counted(st) && Exclusive(st) && r !in st.refs && s < |st.slots| && slot.locked == st.slots[s].locked
    ensures Exclusive(State(st.slots[s := slot], st.disk, st.refs[r := Ref(s, Idle)]))
  {
    var st' := State(st.slots[s := slot], st.disk, st.refs[r := Ref(s, Idle)]);
    forall t | 0 <= t < |st'.slots| && st'.slots[t].locked ensures Holder(st'.refs, t) {
      assert st.slots[t].locked;
      var q :| q in st.refs && st.refs[q].slot == t && Holds(st.refs[q].pc);
      assert st'.refs[q] == st.refs[q];
    }
    forall q | q in st'.refs && st'.refs[q].slot < |st'.slots| && Holds(st'.refs[q].pc) ensures SlotOf(st', q).locked {
      assert SlotOf(st, q).locked;
    }
  }

  /** The slot is in use and only gains a reference, or it is taken over for an inode no other slot holds. */
  ghost predicate GoodSlot(st: State, s: nat, slot: Slot) {
    && s < |st.slots| && slot.ref == st.slots[s].ref + 1 && slot.locked == st.slots[s].locked && slot.id in st.disk
    && (st.slots[s].ref > 0 ==> slot == st.slots[s].(ref := slot.ref))
    && (st.slots[s].ref == 0 ==> !slot.valid && NoHit(st.slots, slot.id))
  }

  lemma AddedSingle(st: State, s: nat, slot: Slot, refs: map<nat, Ref>)
    requires Single(st) && GoodSlot(st, s, slot)
    ensures Single(State(st.slots[s := slot], st.disk, refs))
  {
    assert forall t :: 0 <= t < |st.slots| && t != s && st.slots[t].ref > 0 ==>
        !IsHit(st.slots[t], slot.id) || st.slots[s].ref > 0;
  }

  lemma AddedKnown(st: State, s: nat, slot: Slot, r: nat)
    requires Counted(st) && Known(st) && Fresh(st) && r !in st.refs && GoodSlot(st, s, slot)
    ensures Known(State(st.slots[s := slot], st.disk, st.refs[r := Ref(s, Idle)]))
    ensures Fresh(State(st.slots[s := slot], st.disk, st.refs[r := Ref(s, Idle)]))
  {
    var st' := State(st.slots[s := slot], st.disk, st.refs[r := Ref(s, Idle)]);
    forall q | q in st'.refs && st'.refs[q].slot < |st'.slots| && SlotOf(st', q).id in st'.disk
      ensures Knows(SlotOf(st', q), st'.disk, st'.refs[q].pc)
    {
      if q != r {
        Referenced(st, q);
        assert Knows(SlotOf(st, q), st.disk, st.refs[q].pc);
      }
    }
    forall t | 0 <= t < |st'.slots| ensures FreshSlot(st'.slots[t], st'.disk) {
      assert FreshSlot(st.slots[t], st.disk);
    }
  }

  lemma AddedKeeps(st: State, s: nat, slot: Slot, r: nat)
    requires Inv(st) && r !in st.refs && GoodSlot(st, s, slot)
    ensures Inv(State(st.slots[s := slot], st.disk, st.refs[r := Ref(s, Idle)]))
  {
    AddedCounted(st, s, slot, r);
    AddedSingle(st, s, slot, st.refs[r := Ref(s, Idle)]);
    AddedExclusive(st, s, slot, r);
    AddedKnown(st, s, slot, r);
    hide Counted, Single, Exclusive, Known, Fresh;
  }

  /** ialloc takes a free disk inode: whoever still has it in the table is locking or dropping it. */
  lemma IallocKeeps(st: State, id: Id, kind: nat, st': State)
    requires Inv(st) && Next(st, Ialloc(id, kind), st')
    ensures Inv(st')
  {
    forall q | q in st'.refs && st'.refs[q].slot < |st'.slots| && SlotOf(st', q).id in st'.disk
      ensures Knows(SlotOf(st', q), st'.disk, st'.refs[q].pc)
    {
      assert Knows(SlotOf(st, q), st.disk, st.refs[q].pc);
    }
    forall s | 0 <= s < |st'.slots| ensures FreshSlot(st'.slots[s], st'.disk) {
      assert FreshSlot(st.slots[s], st.disk);
    }
  }

  /** What a reference at rest sees of its slot. */
  lemma SlotFacts(st: State, r: nat)
    requires Inv(st) && r in st.refs
    ensures CountedSlot(st, r) && SlotOf(st, r).ref > 0 && SlotOf(st, r).id in st.disk
    ensures Knows(SlotOf(st, r), st.disk, st.refs[r].pc) && FreshSlot(SlotOf(st, r), st.disk)
    ensures Holds(st.refs[r].pc) ==> SlotOf(st, r).locked
  {
    Referenced(st, r);
    OtherIds2(st, st.refs[r].slot);
  }

  lemma OtherIds2(st: State, s: nat)
    requires Single(st) && s < |st.slots| && st.slots[s].ref > 0
    ensures st.slots[s].id in st.disk
  {
  }

  /** iput, holding the last reference, never waits for the lock. */
  lemma PutNeverBlocks(st: State, r: nat)
    requires Inv(st) && At(st, r, Idle) && SlotOf(st, r).ref == 1
    ensures !SlotOf(st, r).locked
  {
    if SlotOf(st, r).locked {
      var q :| q in st.refs && st.refs[q].slot == st.refs[r].slot && Holds(st.refs[q].pc);
      LastRef(st, r, q);
    }
  }

  lemma LockKeeps(st: State, r: nat, st': State)
    requires Inv(st) && Next(st, Lock(r), st')
    ensures Inv(st')
  {
    hide Inv;
    SlotFacts(st, r);
    var slot := SlotOf(st, r);
    FairKeeps(st, r, slot.(locked := true), if slot.valid then Locked(true) else Loading, st.disk);
  }

  lemma LoadKeeps(st: State, r: nat, st': State)
    requires Inv(st) && Next(st, Load(r), st')
    ensures Inv(st')
  {
    hide Inv;
    SlotFacts(st, r);
    var slot := SlotOf(st, r);
    FairKeeps(st, r, slot.(node := st.disk[slot.id]), Read, st.disk);
  }

  lemma LoadDoneKeeps(st: State, r: nat, st': State)
    requires Inv(st) && Next(st, LoadDone(r), st')
    ensures Inv(st')
  {
    hide Inv;
    SlotFacts(st, r);
    var slot := SlotOf(st, r);
    FairKeeps(st, r, slot.(valid := true), Locked(true), st.disk);
  }

  lemma ModifyKeeps(st: State, r: nat, node: Node, st': State)
    requires Inv(st) && Next(st, Modify(r, node), st')
    ensures Inv(st')
  {
    hide Inv;
    SlotFacts(st, r);
    var slot := SlotOf(st, r);
    FairKeeps(st, r, slot.(node := node), Locked(false), st.disk);
  }

  lemma UpdateKeeps(st: State, r: nat, st': State)
    requires Inv(st) && Next(st, Update(r), st')
    ensures Inv(st')
  {
    hide Inv;
    SlotFacts(st, r);
    var slot := SlotOf(st, r);
    FairKeeps(st, r, slot, Locked(true), st.disk[slot.id := slot.node]);
  }

  lemma UnlockKeeps(st: State, r: nat, st': State)
    requires Inv(st) && Next(st, Unlock(r), st')
    ensures Inv(st')
  {
    hide Inv;
    SlotFacts(st, r);
    var slot := SlotOf(st, r);
    FairKeeps(st, r, slot.(locked := false), Idle, st.disk);
  }

  lemma TruncKeeps(st: State, r: nat, st': State)
    requires Inv(st) && Next(st, Trunc(r), st')
    ensures Inv(st')
  {
    hide Inv;
    SlotFacts(st, r);
    var slot := SlotOf(st, r);
    var node := slot.node.(size := 0, addrs := NoAddrs());
    FairKeeps(st, r, slot.(node := node), Truncated, st.disk[slot.id := node]);
  }

  lemma PutFreeKeeps(st: State, r: nat, st': State)
    requires Inv(st) && Next(st, PutFree(r), st')
    ensures Inv(st')
  {
    hide Inv;
    SlotFacts(st, r);
    var slot := SlotOf(st, r);
    var node := slot.node.(kind := 0);
    FairKeeps(st, r, slot.(node := node), Freed, st.disk[slot.id := node]);
  }

  lemma PutClearKeeps(st: State, r: nat, st': State)
    requires Inv(st) && Next(st, PutClear(r), st')
    ensures Inv(st')
  {
    hide Inv;
    SlotFacts(st, r);
    var slot := SlotOf(st, r);
    FairKeeps(st, r, slot.(valid := false), Cleared, st.disk);
  }

  lemma PutUnlockKeeps(st: State, r: nat, st': State)
    requires Inv(st) && Next(st, PutUnlock(r), st')
    ensures Inv(st')
  {
    hide Inv;
    SlotFacts(st, r);
    var slot := SlotOf(st, r);
    FairKeeps(st, r, slot.(locked := false), Released, st.disk);
  }

  lemma PutDoneKeeps(st: State, r: nat, st': State)
    requires Inv(st) && Next(st, PutDone(r), st')
    ensures Inv(st')
  {
    hide Inv;
    SlotFacts(st, r);
    DroppedKeeps(st, r);
  }

  lemma PutKeeps(st: State, r: nat, st': State)
    requires Inv(st) && Next(st, Put(r), st')
    ensures Inv(st')
  {
    SlotFacts(st, r);
    hide Inv;
    var slot := SlotOf(st, r);
    if slot.ref == 1 && slot.valid && slot.node.nlink == 0 {
      FairKeeps(st, r, slot.(locked := true), Truncating, st.disk);
    } else {
      DroppedKeeps(st, r);
    }
  }

  lemma IgetKeeps(st: State, id: Id, r: nat, st': State)
    requires Inv(st) && Next(st, Iget(id, r), st')
    ensures Inv(st')
  {
    var f :| Finds(st.slots, id, f) && f != Full && st' == Gotten(st, id, r, f);
    var slot := st.slots[f.slot];
    hide Inv;
    AddedKeeps(st, f.slot, if f.Hit? then slot.(ref := slot.ref + 1) else slot.(id := id, ref := 1, valid := false), r);
  }

  lemma IdupKeeps(st: State, r: nat, r2: nat, st': State)
    requires Inv(st) && Next(st, Idup(r, r2), st')
    ensures Inv(st')
  {
    SlotFacts(st, r);
    hide Inv;
    AddedKeeps(st, st.refs[r].slot, SlotOf(st, r).(ref := SlotOf(st, r).ref + 1), r2);
  }

  lemma StepKeepsInv(st: State, step: Step, st': State)
    requires Inv(st) && Next(st, step, st')
    ensures Inv(st')
  {
    hide Inv, Next;
    match step
    case Iget(id, r) => IgetKeeps(st, id, r, st');
    case Idup(r, r2) => IdupKeeps(st, r, r2, st');
    case Put(r) => PutKeeps(st, r, st');
    case Ialloc(id, kind) => IallocKeeps(st, id, kind, st');
    case Lock(r) => LockKeeps(st, r, st');
    case Load(r) => LoadKeeps(st, r, st');
    case LoadDone(r) => LoadDoneKeeps(st, r, st');
    case Modify(r, node) => ModifyKeeps(st, r, node, st');
    case Update(r) => UpdateKeeps(st, r, st');
    case Unlock(r) => UnlockKeeps(st, r, st');
    case Trunc(r) => TruncKeeps(st, r, st');
    case PutFree(r) => PutFreeKeeps(st, r, st');
    case PutClear(r) => PutClearKeeps(st, r, st');
    case PutUnlock(r) => PutUnlockKeeps(st, r, st');
    case PutDone(r) => PutDoneKeeps(st, r, st');
  }

  // ---- runs ----

  ghost predicate Run(states: seq<State>, steps: seq<Step>) {
    && |states| == |steps| + 1 && Init(states[0])
    && forall i :: 0 <= i < |steps| ==> Next(states[i], steps[i], states[i + 1])
  }

  lemma {:induction false} RunKeepsInv(states: seq<State>, steps: seq<Step>, k: nat)
    requires Run(states, steps) && k < |states|
    ensures Inv(states[k])
    decreases k
  {
    if k == 0 {
      InitInv(states[0]);
    } else {
      RunKeepsInv(states, steps, k - 1);
      hide Inv, Next;
      StepKeepsInv(states[k - 1], steps[k - 1], states[k]);
    }
  }

  /** In every reachable state an inode is in at most one slot in use, a slot is in use exactly while it is
      referenced, and an unlocked valid slot in use equals the logged disk inode. */
  lemma TableIsCache(states: seq<State>, steps: seq<Step>, k: nat)
    requires Run(states, steps) && k < |states|
    ensures forall s, t :: 0 <= s < t < |states[k].slots| && states[k].slots[s].ref > 0 && states[k].slots[t].ref > 0
              ==> states[k].slots[s].id != states[k].slots[t].id
    ensures forall s :: 0 <= s < |states[k].slots| ==>
              (states[k].slots[s].ref > 0 <==> exists r :: r in states[k].refs && states[k].refs[r].slot == s)
    ensures forall s :: 0 <= s < |states[k].slots| ==>
              var slot := states[k].slots[s];
              slot.ref > 0 && slot.valid && !slot.locked ==>
              slot.id in states[k].disk && slot.node == states[k].disk[slot.id] && slot.node.kind != 0
  {
    RunKeepsInv(states, steps, k);
    var st := states[k];
    hide Run;
    forall s | 0 <= s < |st.slots| ensures st.slots[s].ref > 0 <==> exists r :: r in st.refs && st.refs[r].slot == s {
      if st.slots[s].ref > 0 {
        var r :| r in RefsTo(st.refs, s);
      }
      if r :| r in st.refs && st.refs[r].slot == s {
        assert r in RefsTo(st.refs, s);
      }
    }
    forall s | 0 <= s < |st.slots| ensures FreshSlot(st.slots[s], st.disk) {
    }
    hide Known, Exclusive, Counted, Fresh;
  }

  /** Whoever has just locked an inode, in any run, sees what is on disk, and a free inode is never seen. */
  lemma LockSeesDisk(states: seq<State>, steps: seq<Step>, k: nat, r: nat)
    requires Run(states, steps) && k < |states| && At(states[k], r, Locked(true))
    ensures var slot := SlotOf(states[k], r);
            slot.id in states[k].disk && slot.node == states[k].disk[slot.id] && slot.node.kind != 0
  {
    RunKeepsInv(states, steps, k);
    SlotFacts(states[k], r);
  }

  // ---- what the operations do, in every run ----

  /** iget gives a new reference to a slot that holds the inode asked for; nobody else's reference moves, and slots
      in use keep what they hold. */
  lemma IgetGives(states: seq<State>, steps: seq<Step>, k: nat, id: Id, r: nat)
    requires Run(states, steps) && k < |steps| && steps[k] == Iget(id, r)
    ensures var st, st' := states[k], states[k + 1];
            && r !in st.refs && At(st', r, Idle) && SlotOf(st', r).id == id
            && st'.refs - {r} == st.refs && st'.disk == st.disk && |st'.slots| == |st.slots|
            && (forall s :: 0 <= s < |st.slots| && st.slots[s].ref > 0 ==>
                  st'.slots[s].(ref := 0) == st.slots[s].(ref := 0))
  {
    assert Next(states[k], steps[k], states[k + 1]);
    hide Run;
    var f :| Finds(states[k].slots, id, f) && f != Full && states[k + 1] == Gotten(states[k], id, r, f);
  }

  /** idup gives a second reference to the same slot. */
  lemma IdupGives(states: seq<State>, steps: seq<Step>, k: nat, r: nat, r2: nat)
    requires Run(states, steps) && k < |steps| && steps[k] == Idup(r, r2)
    ensures var st, st' := states[k], states[k + 1];
            && r in st.refs && r2 !in st.refs && At(st', r2, Idle) && st'.refs[r2].slot == st.refs[r].slot
            && st'.refs - {r2} == st.refs && st'.disk == st.disk
  {
    assert Next(states[k], steps[k], states[k + 1]);
  }

  /** iput of the only reference to a valid inode without links keeps the reference, takes the lock and goes on to
      free the inode; every other iput gives up the reference and nothing else. */
  lemma PutDecides(states: seq<State>, steps: seq<Step>, k: nat, r: nat)
    requires Run(states, steps) && k < |steps| && steps[k] == Put(r)
    ensures var st, st' := states[k], states[k + 1];
            && At(st, r, Idle) && st'.disk == st.disk && |st'.slots| == |st.slots|
            && var s := st.refs[r].slot; var slot := st.slots[s];
            if (forall q :: q in st.refs && st.refs[q].slot == s ==> q == r) && slot.valid && slot.node.nlink == 0
            then At(st', r, Truncating) && SlotOf(st', r) == slot.(locked := true) && slot.ref == 1 && !slot.locked
            else st'.refs == st.refs - {r} && st'.slots == st.slots[s := st'.slots[s]] &&
                 st'.slots[s].(ref := slot.ref) == slot
  {
    RunKeepsInv(states, steps, k);
    assert Next(states[k], steps[k], states[k + 1]);
    hide Run;
    OnlyReference(states[k], r);
    hide Inv;
  }

  lemma OnlyReference(st: State, r: nat)
    requires Inv(st) && r in st.refs
    ensures CountedSlot(st, r)
    ensures SlotOf(st, r).ref == 1 <==> forall q :: q in st.refs && st.refs[q].slot == st.refs[r].slot ==> q == r
  {
    var s := st.refs[r].slot;
    var all := RefsTo(st.refs, s);
    assert st.slots[s].ref == |all| && r in all;
    hide Inv;
    assert (forall q :: q in st.refs && st.refs[q].slot == s ==> q == r) ==> all == {r};
    if |all| == 1 {
      forall q | q in st.refs && st.refs[q].slot == s ensures q == r {
        SubsetSize({r, q}, all);
      }
    }
  }

  /** What iput writes last is a free inode without links, contents and blocks. */
  lemma FreedIsEmpty(states: seq<State>, steps: seq<Step>, k: nat, r: nat)
    requires Run(states, steps) && k < |steps| && steps[k] == PutFree(r)
    ensures var st, st' := states[k], states[k + 1];
            At(st', r, Freed) && var id := SlotOf(st', r).id;
            st'.disk.Keys == st.disk.Keys && id in st.disk && st'.disk == st.disk[id := Node(0, 0, 0, NoAddrs())]
  {
    RunKeepsInv(states, steps, k);
    assert Next(states[k], steps[k], states[k + 1]);
    hide Run;
    SlotFacts(states[k], r);
    hide Inv;
  }

  /** A reference to which iput has got past freeing has had its inode freed on disk. */
  ghost predicate FreedAt(states: seq<State>, steps: seq<Step>, j: nat, r: nat, id: Id) {
    && j < |steps| && j + 1 < |states| && steps[j] == PutFree(r)
    && id in states[j + 1].disk && states[j + 1].disk[id] == Node(0, 0, 0, NoAddrs())
  }

  predicate PastFree(pc: Pc) {
    pc == Freed || pc == Cleared || pc == Released
  }

  lemma {:induction false} FreedBeforeDropped(states: seq<State>, steps: seq<Step>, k: nat, r: nat)
    requires Run(states, steps) && k < |states| && r in states[k].refs && PastFree(states[k].refs[r].pc)
    ensures states[k].refs[r].slot < |states[k].slots|
    ensures exists j :: 0 <= j < k && FreedAt(states, steps, j, r, SlotOf(states[k], r).id)
    decreases k
  {
    hide Next, Inv, FreedAt, Knows, FreshSlot;
    RunKeepsInv(states, steps, k);
    SlotFacts(states[k], r);
    if k > 0 {
      var st, step := states[k - 1], steps[k - 1];
      assert Next(st, step, states[k]);
      RunKeepsInv(states, steps, k - 1);
      if step == PutFree(r) {
        FreedHere(states, steps, k - 1, r);
      } else {
        PastFreeStays(st, step, states[k], r);
        SlotIdStays(st, step, states[k], r);
        FreedBeforeDropped(states, steps, k - 1, r);
      }
    }
  }

  lemma FreedHere(states: seq<State>, steps: seq<Step>, j: nat, r: nat)
    requires Run(states, steps) && j < |steps| && steps[j] == PutFree(r)
    ensures At(states[j + 1], r, Freed) && FreedAt(states, steps, j, r, SlotOf(states[j + 1], r).id)
  {
    FreedIsEmpty(states, steps, j, r);
  }

  lemma PastFreeStays(st: State, step: Step, st': State, r: nat)
    requires Next(st, step, st') && step != PutFree(r) && r in st'.refs && PastFree(st'.refs[r].pc)
    ensures r in st.refs && PastFree(st.refs[r].pc)
  {
  }

  lemma SlotIdStays(st: State, step: Step, st': State, r: nat)
    requires Inv(st) && Next(st, step, st') && r in st.refs && r in st'.refs
    ensures CountedSlot(st, r) && st'.refs[r].slot == st.refs[r].slot < |st'.slots|
    ensures SlotOf(st', r).id == SlotOf(st, r).id
  {
    SlotFacts(st, r);
    hide Inv, Next, Knows, FreshSlot;
    RefStays(st, step, st', r);
    IdStays(st, step, st', st.refs[r].slot);
  }

  lemma RefStays(st: State, step: Step, st': State, r: nat)
    requires Next(st, step, st') && r in st.refs && r in st'.refs
    ensures st'.refs[r].slot == st.refs[r].slot
  {
  }

  /** A slot in use keeps its inode. */
  lemma IdStays(st: State, step: Step, st': State, s: nat)
    requires Next(st, step, st') && s < |st.slots| && st.slots[s].ref > 0
    ensures s < |st'.slots| && st'.slots[s].id == st.slots[s].id
  {
  }

  /** The disk inode changes only by iupdate, by iput's freeing and by ialloc: the first two write the inode the
      caller has locked, as it is in memory; ialloc takes a free one and leaves it empty. */
  lemma DiskChanges(states: seq<State>, steps: seq<Step>, k: nat, id: Id)
    requires Run(states, steps) && k < |steps| && id in states[k].disk
    ensures id in states[k + 1].disk
    ensures var st, st', step := states[k], states[k + 1], steps[k];
            st'.disk[id] != st.disk[id] ==>
              || (step.Ialloc? && step.id == id && st.disk[id].kind == 0 &&
                  st'.disk[id] == Node(step.kind, 0, 0, NoAddrs()))
              || ((step.Update? || step.Trunc? || step.PutFree?) && step.r in st'.refs && Holds(st.refs[step.r].pc) &&
                  st'.refs[step.r].slot < |st'.slots| && SlotOf(st', step.r).id == id &&
                  SlotOf(st', step.r).node == st'.disk[id])
  {
    assert Next(states[k], steps[k], states[k + 1]);
    hide Run;
  }

  /** iupdate leaves the disk inode equal to the one in memory, and ialloc takes an inode that was free. */
  lemma UpdateWrites(states: seq<State>, steps: seq<Step>, k: nat, r: nat)
    requires Run(states, steps) && k < |steps| && steps[k] == Update(r)
    ensures At(states[k + 1], r, Locked(true))
    ensures var slot := SlotOf(states[k + 1], r);
            states[k + 1].disk == states[k].disk[slot.id := slot.node]
  {
    assert Next(states[k], steps[k], states[k + 1]);
  }

  lemma IallocTakes(states: seq<State>, steps: seq<Step>, k: nat, id: Id, kind: nat)
    requires Run(states, steps) && k < |steps| && steps[k] == Ialloc(id, kind)
    ensures id in states[k].disk && states[k].disk[id].kind == 0 && kind != 0
    ensures states[k + 1] == states[k].(disk := states[k].disk[id := Node(kind, 0, 0, NoAddrs())])
  {
    assert Next(states[k], steps[k], states[k + 1]);
  }

  predicate IsLocked(st: State, r: nat) {
    r in st.refs && st.refs[r].pc.Locked? && st.refs[r].slot < |st.slots|
  }

  /** While an inode is locked, only the holder changes it. */
  lemma HolderAlone(st: State, step: Step, st': State, r: nat)
    requires Inv(st) && Next(st, step, st') && IsLocked(st, r) && !(step.Modify? && step.r == r) && step != Unlock(r)
    ensures IsLocked(st', r) && SlotOf(st', r).node == SlotOf(st, r).node && SlotOf(st', r).id == SlotOf(st, r).id
  {
    assert Alone(st.refs);
    hide Inv, Next, Knows, FreshSlot, Alone;
    SlotFacts(st, r);
    LockedStays(st, step, st', r);
    SlotIdStays(st, step, st', r);
    NodeStays(st, step, st', r);
  }

  lemma LockedStays(st: State, step: Step, st': State, r: nat)
    requires Next(st, step, st') && IsLocked(st, r) && step != Unlock(r)
    ensures IsLocked(st', r)
  {
  }

  lemma NodeStays(st: State, step: Step, st': State, r: nat)
    requires Next(st, step, st') && IsLocked(st, r) && r in st'.refs
    requires st'.refs[r].slot == st.refs[r].slot < |st'.slots|
    requires Alone(st.refs) && SlotOf(st, r).ref > 0 && !(step.Modify? && step.r == r)
    ensures SlotOf(st', r).node == SlotOf(st, r).node
  {
  }

  lemma {:induction false} HeldSince(states: seq<State>, steps: seq<Step>, i: nat, j: nat, r: nat)
    requires Run(states, steps) && i <= j < |states| && IsLocked(states[i], r)
    requires forall k :: i <= k < j ==> !(steps[k].Modify? && steps[k].r == r) && steps[k] != Unlock(r)
    ensures IsLocked(states[j], r)
    ensures SlotOf(states[j], r).node == SlotOf(states[i], r).node && SlotOf(states[j], r).id == SlotOf(states[i], r).id
    decreases j
  {
    hide Inv, Next;
    if i < j {
      HeldSince(states, steps, i, j - 1, r);
      RunKeepsInv(states, steps, j - 1);
      HolderAlone(states[j - 1], steps[j - 1], states[j], r);
    }
  }

  /** What the holder last made of an inode is what its iupdate writes to disk, whatever others do meanwhile. */
  lemma UpdateWritesLast(states: seq<State>, steps: seq<Step>, i: nat, j: nat, r: nat, node: Node)
    requires Run(states, steps) && i < j < |steps| && steps[i] == Modify(r, node) && steps[j] == Update(r)
    requires forall k :: i < k < j ==> !(steps[k].Modify? && steps[k].r == r) && steps[k] != Unlock(r)
    ensures IsLocked(states[i], r)
    ensures states[j + 1].disk == states[j].disk[SlotOf(states[i], r).id := node]
  {
    assert Next(states[i], steps[i], states[i + 1]);
    HeldSince(states, steps, i + 1, j, r);
    UpdateWrites(states, steps, j, r);
    assert Next(states[j], steps[j], states[j + 1]);
  }

  // ---- nobody with a lock is stuck ----

  ghost predicate Can(st: State, step: Step) {
    exists st' :: Next(st, step, st')
  }

  /** What the code does next for reference `r` between ilock and iunlock, or in iput. */
  function NextStep(r: nat, pc: Pc): Step {
    match pc
    case Idle => Lock(r)
    case Loading => Load(r)
    case Read => LoadDone(r)
    case Locked(clean) => if clean then Unlock(r) else Update(r)
    case Truncating => Trunc(r)
    case Truncated => PutFree(r)
    case Freed => PutClear(r)
    case Cleared => PutUnlock(r)
    case Released => PutDone(r)
  }

  /** In every run a reference can go on: ilock waits only for a lock that is taken and panics only over an inode
      of type 0, and iput never waits. */
  lemma GoesOn(states: seq<State>, steps: seq<Step>, k: nat, r: nat)
    requires Run(states, steps) && k < |states| && r in states[k].refs
    ensures states[k].refs[r].slot < |states[k].slots|
    ensures var st, pc := states[k], states[k].refs[r].pc;
            if pc == Idle then Can(st, Put(r)) && (!SlotOf(st, r).locked ==> Can(st, Lock(r)))
            else (pc == Read && SlotOf(st, r).node.kind == 0) || Can(st, NextStep(r, pc))
  {
    var st := states[k];
    RunKeepsInv(states, steps, k);
    hide Run, Inv, Can, Knows, FreshSlot, NoAddrs;
    SlotFacts(st, r);
    if st.refs[r].pc == Idle {
      if SlotOf(st, r).ref == 1 {
        PutNeverBlocks(st, r);
      }
      PutCan(st, r);
      if !SlotOf(st, r).locked {
        LockCan(st, r);
      }
    } else if !(st.refs[r].pc == Read && SlotOf(st, r).node.kind == 0) {
      HolderCan(st, r);
    }
  }

  lemma PutCan(st: State, r: nat)
    requires At(st, r, Idle) && SlotOf(st, r).ref > 0 && (SlotOf(st, r).ref == 1 ==> !SlotOf(st, r).locked)
    ensures Can(st, Put(r))
  {
    var slot := SlotOf(st, r);
    assert Next(st, Put(r), if slot.ref == 1 && slot.valid && slot.node.nlink == 0
                            then Moved(st, r, slot.(locked := true), Truncating) else Dropped(st, r));
  }

  lemma LockCan(st: State, r: nat)
    requires At(st, r, Idle) && !SlotOf(st, r).locked
    ensures Can(st, Lock(r))
  {
    var slot := SlotOf(st, r);
    assert Next(st, Lock(r), Moved(st, r, slot.(locked := true), if slot.valid then Locked(true) else Loading));
  }

  lemma HolderCan(st: State, r: nat)
    requires r in st.refs && st.refs[r].slot < |st.slots| && st.refs[r].pc != Idle
    requires SlotOf(st, r).ref > 0 && SlotOf(st, r).id in st.disk
    requires !(st.refs[r].pc == Read && SlotOf(st, r).node.kind == 0)
    ensures Can(st, NextStep(r, st.refs[r].pc))
  {
    var slot, pc := SlotOf(st, r), st.refs[r].pc;
    var empty, free := slot.node.(size := 0, addrs := NoAddrs()), slot.node.(kind := 0);
    var st' :=
      if pc == Loading then Moved(st, r, slot.(node := st.disk[slot.id]), Read)
      else if pc == Read then Moved(st, r, slot.(valid := true), Locked(true))
      else if pc == Locked(true) then Moved(st, r, slot.(locked := false), Idle)
      else if pc == Locked(false) then Moved(st, r, slot, Locked(true)).(disk := st.disk[slot.id := slot.node])
      else if pc == Truncating then Moved(st, r, slot.(node := empty), Truncated).(disk := st.disk[slot.id := empty])
      else if pc == Truncated then Moved(st, r, slot.(node := free), Freed).(disk := st.disk[slot.id := free])
      else if pc == Freed then Moved(st, r, slot.(valid := false), Cleared)
      else if pc == Cleared then Moved(st, r, slot.(locked := false), Released)
      else Dropped(st, r);
    assert Next(st, NextStep(r, pc), st');
  }

  // ---- the race of iput and ialloc happens ----

  const A_FILE := Node(2, 0, 0, NoAddrs())
  const ID := Id(1, 7)

  function RaceSlot(ref: nat, locked: bool, valid: bool, kind: nat): Slot {
    Slot(ID, ref, locked, valid, A_FILE.(kind := kind))
  }

  function Race(ref: nat, locked: bool, valid: bool, kind: nat, diskKind: nat, refs: map<nat, Ref>): State {
    State([RaceSlot(ref, locked, valid, kind)],
          map[ID := if diskKind == 3 then Node(3, 0, 0, NoAddrs()) else A_FILE.(kind := diskKind)], refs)
  }

  ghost predicate Racing(st: State) {
    && At(st, 0, Freed) && At(st, 1, Idle) && st.refs[0].slot == st.refs[1].slot
    && var slot := SlotOf(st, 1); slot.valid && slot.id in st.disk && slot.node != st.disk[slot.id]
  }

  ghost predicate Reachable(st: State) {
    exists states: seq<State>, steps: seq<Step> :: Run(states, steps) && states[|steps|] == st
  }

  lemma Reach(st: State, step: Step, st': State)
    requires Reachable(st) && Next(st, step, st')
    ensures Reachable(st')
  {
    var states: seq<State>, steps: seq<Step> :| Run(states, steps) && states[|steps|] == st;
    var states', steps' := states + [st'], steps + [step];
    assert Run(states', steps') && states'[|steps'|] == st';
  }

  /** An empty file without a link is opened, read, and closed again. */
  lemma RaceOpens()
    ensures Reachable(Race(1, true, false, 2, 2, map[0 := Ref(0, Loading)]))
  {
    var s0 := Race(0, false, false, 2, 2, map[]);
    var s1 := Race(1, false, false, 2, 2, map[0 := Ref(0, Idle)]);
    assert Reachable(s0) by {
      var none: seq<Step> := [];
      assert Run([s0], none) && [s0][|none|] == s0;
    }
    hide Reachable, Run;
    assert Finds(s0.slots, ID, Empty(0));
    Reach(s0, Iget(ID, 0), s1);
    Reach(s1, Lock(0), Race(1, true, false, 2, 2, map[0 := Ref(0, Loading)]));
  }

  lemma RaceReads()
    ensures Reachable(Race(1, true, true, 2, 2, map[0 := Ref(0, Locked(true))]))
  {
    RaceOpens();
    hide Reachable, Run;
    var s3 := Race(1, true, false, 2, 2, map[0 := Ref(0, Read)]);
    Reach(Race(1, true, false, 2, 2, map[0 := Ref(0, Loading)]), Load(0), s3);
    Reach(s3, LoadDone(0), Race(1, true, true, 2, 2, map[0 := Ref(0, Locked(true))]));
  }

  lemma RaceCloses()
    ensures Reachable(Race(1, true, true, 2, 2, map[0 := Ref(0, Truncating)]))
  {
    RaceReads();
    hide Reachable, Run;
    var s5 := Race(1, false, true, 2, 2, map[0 := Ref(0, Idle)]);
    Reach(Race(1, true, true, 2, 2, map[0 := Ref(0, Locked(true))]), Unlock(0), s5);
    Reach(s5, Put(0), Race(1, true, true, 2, 2, map[0 := Ref(0, Truncating)]));
  }

  lemma RaceFrees()
    ensures Reachable(Race(1, true, true, 0, 0, map[0 := Ref(0, Freed)]))
  {
    RaceCloses();
    hide Reachable, Run;
    var s6 := Race(1, true, true, 2, 2, map[0 := Ref(0, Truncated)]);
    var s7 := Race(1, true, true, 0, 0, map[0 := Ref(0, Freed)]);
    Reach(Race(1, true, true, 2, 2, map[0 := Ref(0, Truncating)]), Trunc(0), s6);
    Reach(s6, PutFree(0), s7);
  }

  lemma RaceReuses()
    ensures Reachable(Race(1, true, true, 0, 3, map[0 := Ref(0, Freed)]))
  {
    RaceFrees();
    hide Reachable, Run;
    var s7 := Race(1, true, true, 0, 0, map[0 := Ref(0, Freed)]);
    Reach(s7, Ialloc(ID, 3), Race(1, true, true, 0, 3, map[0 := Ref(0, Freed)]));
  }

  /** ialloc can hand out the number of an inode that iput is still dropping, and iget then finds the very
      slot iput has locked, with the old contents still valid in it. */
  lemma RaceHappens()
    ensures exists st :: Reachable(st) && Racing(st)
  {
    RaceReuses();
    hide Reachable, Run;
    var s8 := Race(1, true, true, 0, 3, map[0 := Ref(0, Freed)]);
    var s9 := Race(2, true, true, 0, 3, map[0 := Ref(0, Freed), 1 := Ref(0, Idle)]);
    assert Finds(s8.slots, ID, Hit(0));
    Reach(s8, Iget(ID, 1), s9);
    assert Racing(s9);
  }
}
