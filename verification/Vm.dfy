/** kernel/kalloc.c and kernel/vm.c: the methods that change page tables and user memory. */
module Vm {
  import opened PageTable

  datatype Slot = Missing | Slot(page: nat, index: nat)

  ghost function FreeSet(freelist: seq<nat>): set<nat> {
    set p | p in freelist
  }

  ghost predicate Distinct(s: seq<nat>) {
    forall i, j :: 0 <= i < j < |s| ==> s[i] != s[j]
  }

  lemma Pushed(s: seq<nat>, p: nat)
    requires Distinct(s) && p !in s
    ensures Distinct([p] + s) && FreeSet([p] + s) == FreeSet(s) + {p}
  {
  }

  lemma Popped(s: seq<nat>)
    requires Distinct(s) && s != []
    ensures Distinct(s[1..]) && s[0] !in s[1..] && FreeSet(s) == FreeSet(s[1..]) + {s[0]}
    ensures s[0] in s && forall p :: p in s[1..] ==> p in s
  {
    assert s == [s[0]] + s[1..];
  }

  /** Nothing outside `pages` has changed. */
  ghost predicate Framed(mem: Memory, mem': Memory, pages: set<nat>) {
    forall p :: p in mem && p !in pages ==> p in mem' && mem'[p] == mem[p]
  }

  /** The tables of a tree are its own: none is free, and all come from the allocator. */
  ghost predicate Owns(mem: Memory, freelist: seq<nat>, lo: nat, hi: nat, t: Tree) {
    Shape(mem, t) && Pages(t) !! FreeSet(freelist) && forall p :: p in Pages(t) ==> lo <= p < hi
  }

  /** The tree has only grown, and every page it took left the free list. */
  ghost predicate Grown(mem: Memory, freelist: seq<nat>, t: Tree, mem': Memory, freelist': seq<nat>, t': Tree) {
    && (forall pos :: pos in t ==> pos in t' && t'[pos] == t[pos])
    && Pages(t) <= Pages(t') && FreeSet(freelist') <= FreeSet(freelist)
    && Pages(t') + FreeSet(freelist') == Pages(t) + FreeSet(freelist)
    && Framed(mem, mem', Pages(t) + FreeSet(freelist))
  }

  lemma GrownAgain(mem: Memory, fl: seq<nat>, t: Tree, mem1: Memory, fl1: seq<nat>, t1: Tree,
                   mem2: Memory, fl2: seq<nat>, t2: Tree)
    requires Grown(mem, fl, t, mem1, fl1, t1) && Grown(mem1, fl1, t1, mem2, fl2, t2)
    ensures Grown(mem, fl, t, mem2, fl2, t2)
  {
  }

  /** Hanging a page from the front of the free list into a tree. */
  lemma HangStep(mem: Memory, fl: seq<nat>, lo: nat, hi: nat, t: Tree, pos: Pos, i: nat, p: nat)
    requires Distinct([p] + fl) && Owns(mem, [p] + fl, lo, hi, t) && lo <= p < hi
    requires pos in t && t[pos] in mem && pos.level > 0 && i < 512 && !PageTable.Valid(mem[t[pos]][i])
    ensures p !in Pages(t) && t[pos] != p && Child(pos, i) !in t
    ensures var mem', t' := Hung(mem, t, pos, i, p), t[Child(pos, i) := p];
            Owns(mem', fl, lo, hi, t') && Grown(mem, [p] + fl, t, mem', fl, t') && SameEntries(mem, t, mem', t')
  {
    assert ([p] + fl)[0] == p && ([p] + fl)[1..] == fl;
    Popped([p] + fl);
    PageOf(t, pos);
    HungKeeps(mem, t, pos, i, p);
    hide Shape, SameEntries, Distinct;
  }

  lemma GrownRoot(mem: Memory, fl: seq<nat>, t: Tree, mem': Memory, fl': seq<nat>, t': Tree)
    requires Grown(mem, fl, t, mem', fl', t') && ROOT in t
    ensures ROOT in t' && t'[ROOT] == t[ROOT]
  {
  }

  lemma GrownNot(mem: Memory, fl: seq<nat>, t: Tree)
    ensures Grown(mem, fl, t, mem, fl, t) && SameEntries(mem, t, mem, t)
  {
  }

  lemma SameAgain(mem: Memory, t: Tree, mem1: Memory, t1: Tree, mem2: Memory, t2: Tree)
    requires SameEntries(mem, t, mem1, t1) && SameEntries(mem1, t1, mem2, t2)
    ensures SameEntries(mem, t, mem2, t2)
  {
  }

  lemma WalkStart(mem: Memory, fl: seq<nat>, lo: nat, hi: nat, t: Tree, va: nat)
    requires Owns(mem, fl, lo, hi, t) && va < MAXVA
    ensures ROOT in t && Pos(2, Prefix(2, va)) == ROOT
  {
  }

  /** One round of walk's loop. */
  lemma WalkStep(mem: Memory, fl: seq<nat>, lo: nat, hi: nat, t: Tree, va: nat, level: nat)
    requires Owns(mem, fl, lo, hi, t) && 0 < level <= 2 && Pos(level, Prefix(level, va)) in t
    ensures var pos, i := Pos(level, Prefix(level, va)), PX(level, va);
            var next := Pos(level - 1, Prefix(level - 1, va));
            && i < 512 && t[pos] in mem && Child(pos, i) == next
            && (PageTable.Valid(mem[t[pos]][i]) <==> next in t)
            && (PageTable.Valid(mem[t[pos]][i]) ==> Ppn(mem[t[pos]][i]) == t[next])
            && (Pos(0, Prefix(0, va)) in t ==> next in t)
  {
    NextPrefix(level, va);
    NextPrefix(1, va);
    Descend(mem, t, Pos(level, Prefix(level, va)), PX(level, va));
  }

  /** Exactly the pages from `first` on are new: they map to consecutive pages with one permission. */
  ghost predicate Mapped(mem: Memory, t: Tree, mem': Memory, t': Tree, first: nat, n: nat, ppn: nat, perm: nat)
    requires perm < 1024
  {
    forall v: nat ::
      Entry(mem', t', v) == if first <= v < first + n then MakePte(ppn + v - first, perm) else Entry(mem, t, v)
  }

  lemma MappedNone(mem: Memory, t: Tree, mem': Memory, t': Tree, first: nat, ppn: nat, perm: nat)
    requires SameEntries(mem, t, mem', t') && perm < 1024
    ensures Mapped(mem, t, mem', t', first, 0, ppn, perm)
  {
  }

  lemma MappedAt(mem: Memory, t: Tree, mem': Memory, t': Tree, first: nat, n: nat, ppn: nat, perm: nat, v: nat)
    requires perm < 1024 && Mapped(mem, t, mem', t', first, n, ppn, perm)
    ensures Entry(mem', t', v) == if first <= v < first + n then MakePte(ppn + v - first, perm) else Entry(mem, t, v)
  {
  }

  lemma MappedMore(mem: Memory, t: Tree, mem1: Memory, t1: Tree, mem2: Memory, t2: Tree, first: nat, n: nat, ppn: nat,
                   perm: nat, m: nat)
    requires perm < 1024 && Mapped(mem, t, mem1, t1, first, n, ppn, perm)
    requires Mapped(mem1, t1, mem2, t2, first + n, m, ppn + n, perm)
    ensures Mapped(mem, t, mem2, t2, first, n + m, ppn, perm)
  {
    forall v: nat
      ensures Entry(mem2, t2, v) == if first <= v < first + n + m then MakePte(ppn + v - first, perm)
                                    else Entry(mem, t, v)
    {
      MappedAt(mem, t, mem1, t1, first, n, ppn, perm, v);
      MappedAt(mem1, t1, mem2, t2, first + n, m, ppn + n, perm, v);
    }
  }

  /** Setting a leaf entry keeps the tree where it is. */
  lemma LeafStep(mem: Memory, fl: seq<nat>, lo: nat, hi: nat, t: Tree, va: nat, pte: nat)
    requires Owns(mem, fl, lo, hi, t) && Pos(0, Prefix(0, va)) in t
    ensures t[Pos(0, Prefix(0, va))] in mem && PX(0, va) < 512
    ensures mem[t[Pos(0, Prefix(0, va))]][PX(0, va)] == Entry(mem, t, PageNo(va))
    ensures var mem' := SetWord(mem, t[Pos(0, Prefix(0, va))], PX(0, va), pte);
            && Owns(mem', fl, lo, hi, t) && Grown(mem, fl, t, mem', fl, t)
            && forall v: nat :: Entry(mem', t, v) == if v == PageNo(va) then pte else Entry(mem, t, v)
  {
    LeafSlot(va);
    PageOf(t, Pos(0, Prefix(0, va)));
    SetLeaf(mem, t, Prefix(0, va), PX(0, va), pte);
    hide Shape;
  }

  /** A walk that allocates, then the write of the entry. */
  lemma MapStep(mem0: Memory, fl0: seq<nat>, t0: Tree, mem: Memory, fl: seq<nat>, lo: nat, hi: nat, t: Tree, va: nat,
                ppn: nat, perm: nat)
    requires Grown(mem0, fl0, t0, mem, fl, t) && SameEntries(mem0, t0, mem, t)
    requires Owns(mem, fl, lo, hi, t) && Pos(0, Prefix(0, va)) in t && perm < 1024
    ensures t[Pos(0, Prefix(0, va))] in mem && PX(0, va) < 512
    ensures var mem' := SetWord(mem, t[Pos(0, Prefix(0, va))], PX(0, va), MakePte(ppn, perm));
            Owns(mem', fl, lo, hi, t) && Grown(mem0, fl0, t0, mem', fl, t) &&
            Mapped(mem0, t0, mem', t, PageNo(va), 1, ppn, perm)
  {
    LeafStep(mem, fl, lo, hi, t, va, MakePte(ppn, perm));
    var mem' := SetWord(mem, t[Pos(0, Prefix(0, va))], PX(0, va), MakePte(ppn, perm));
    GrownAgain(mem0, fl0, t0, mem, fl, t, mem', fl, t);
    hide Owns, Grown, SetWord, MakePte, Prefix, PX;
  }

  // ---- unmapping ----

  /** The pages of a range are mapped by leaf entries. */
  ghost predicate Present(mem: Memory, t: Tree, first: nat, n: nat) {
    forall v: nat :: first <= v < first + n ==>
      PageTable.Valid(Entry(mem, t, v)) && Flags(Entry(mem, t, v)) != PTE_V
  }

  ghost function Leafs(mem: Memory, t: Tree, first: nat, n: nat): set<nat> {
    set v: nat | first <= v < first + n :: Ppn(Entry(mem, t, v))
  }

  ghost predicate PrivateOne(mem: Memory, fl: seq<nat>, lo: nat, hi: nat, t: Tree, v: nat) {
    var q := Ppn(Entry(mem, t, v));
    lo <= q < hi && q !in fl && q !in Pages(t)
  }

  /** The pages a range is mapped to are in use once, for this range. */
  ghost predicate Private(mem: Memory, fl: seq<nat>, lo: nat, hi: nat, t: Tree, first: nat, n: nat) {
    && (forall v: nat :: first <= v < first + n ==> PrivateOne(mem, fl, lo, hi, t, v))
    && (forall v: nat, w: nat :: first <= v < w < first + n ==> Ppn(Entry(mem, t, v)) != Ppn(Entry(mem, t, w)))
  }

  ghost predicate Unmapped(mem: Memory, t: Tree, mem': Memory, first: nat, n: nat) {
    forall v: nat :: Entry(mem', t, v) == if first <= v < first + n then 0 else Entry(mem, t, v)
  }

  /** The pages of a range have gone to the free list, and only they and the tables have changed. */
  ghost predicate Released(mem: Memory, fl: seq<nat>, t: Tree, mem': Memory, fl': seq<nat>, first: nat, n: nat) {
    && FreeSet(fl') == FreeSet(fl) + Leafs(mem, t, first, n)
    && (n == 0 ==> fl' == fl) && |fl'| == |fl| + n
    && Framed(mem, mem', Pages(t) + Leafs(mem, t, first, n))
  }

  lemma PresentTable(mem: Memory, t: Tree, va: nat)
    requires PageTable.Valid(Entry(mem, t, PageNo(va)))
    ensures Pos(0, Prefix(0, va)) in t
  {
    LeafSlot(va);
  }

  lemma UnmapStep(mem: Memory, fl: seq<nat>, lo: nat, hi: nat, t: Tree, va: nat)
    requires Owns(mem, fl, lo, hi, t) && Pos(0, Prefix(0, va)) in t
    ensures t[Pos(0, Prefix(0, va))] in mem && PX(0, va) < 512
    ensures var mem' := SetWord(mem, t[Pos(0, Prefix(0, va))], PX(0, va), 0);
            && Owns(mem', fl, lo, hi, t) && Unmapped(mem, t, mem', PageNo(va), 1)
            && Released(mem, fl, t, mem', fl, PageNo(va), 0)
  {
    LeafStep(mem, fl, lo, hi, t, va, 0);
    PageOf(t, Pos(0, Prefix(0, va)));
    hide Owns, Prefix, PX, PageNo;
    assert Leafs(mem, t, PageNo(va), 0) == {};
  }

  /** kfree of the page, then the write of the entry. */
  lemma FreeStep(mem: Memory, fl: seq<nat>, lo: nat, hi: nat, t: Tree, va: nat)
    requires Owns(mem, fl, lo, hi, t) && Pos(0, Prefix(0, va)) in t && PrivateOne(mem, fl, lo, hi, t, PageNo(va))
    ensures t[Pos(0, Prefix(0, va))] in mem && PX(0, va) < 512
    ensures var q := Ppn(mem[t[Pos(0, Prefix(0, va))]][PX(0, va)]);
            var mem1, fl' := mem[q := Fill(1)], [q] + fl;
            && lo <= q < hi && q !in fl && q != t[Pos(0, Prefix(0, va))]
            && var mem' := SetWord(mem1, t[Pos(0, Prefix(0, va))], PX(0, va), 0);
            && Owns(mem', fl', lo, hi, t) && Unmapped(mem, t, mem', PageNo(va), 1)
            && Released(mem, fl, t, mem', fl', PageNo(va), 1)
  {
    LeafStep(mem, fl, lo, hi, t, va, 0);
    var q := Ppn(Entry(mem, t, PageNo(va)));
    var mem1, fl' := mem[q := Fill(1)], [q] + fl;
    PageOf(t, Pos(0, Prefix(0, va)));
    Elsewhere(mem, mem1, t);
    assert Owns(mem1, fl', lo, hi, t);
    LeafStep(mem1, fl', lo, hi, t, va, 0);
    assert Leafs(mem, t, PageNo(va), 1) == {q} by {
      assert Ppn(Entry(mem, t, PageNo(va))) in Leafs(mem, t, PageNo(va), 1);
    }
    assert FreeSet(fl') == FreeSet(fl) + {q};
    hide Owns, Prefix, PX, PageNo, Entry, Leafs;
  }

  lemma ReleasedNone(mem: Memory, fl: seq<nat>, t: Tree, first: nat)
    ensures Unmapped(mem, t, mem, first, 0) && Released(mem, fl, t, mem, fl, first, 0)
  {
  }

  lemma StillPresent(mem0: Memory, t: Tree, mem: Memory, first: nat, n: nat, count: nat)
    requires Present(mem0, t, first, count) && Unmapped(mem0, t, mem, first, n) && n < count
    ensures Present(mem, t, first + n, 1)
  {
  }

  lemma StillPrivate(mem0: Memory, fl0: seq<nat>, lo: nat, hi: nat, t: Tree, mem: Memory, fl: seq<nat>, first: nat,
                     n: nat, count: nat)
    requires Private(mem0, fl0, lo, hi, t, first, count) && Unmapped(mem0, t, mem, first, n) && n < count
    requires Released(mem0, fl0, t, mem, fl, first, n)
    ensures Private(mem, fl, lo, hi, t, first + n, 1)
  {
    var v := first + n;
    assert Entry(mem, t, v) == Entry(mem0, t, v);
    assert PrivateOne(mem0, fl0, lo, hi, t, v);
    var q := Ppn(Entry(mem, t, v));
    assert q !in Leafs(mem0, t, first, n);
    assert q !in FreeSet(fl);
  }

  lemma UnmappedNext(mem0: Memory, t: Tree, mem1: Memory, mem2: Memory, first: nat, n: nat)
    requires Unmapped(mem0, t, mem1, first, n) && Unmapped(mem1, t, mem2, first + n, 1)
    ensures Unmapped(mem0, t, mem2, first, n + 1)
  {
    hide Entry;
  }

  lemma ReleasedNext(mem0: Memory, fl0: seq<nat>, t: Tree, mem1: Memory, fl1: seq<nat>, mem2: Memory, fl2: seq<nat>,
                     first: nat, n: nat, doFree: bool)
    requires Unmapped(mem0, t, mem1, first, n) && Unmapped(mem1, t, mem2, first + n, 1)
    requires Released(mem0, fl0, t, mem1, fl1, first, if doFree then n else 0)
    requires Released(mem1, fl1, t, mem2, fl2, first + n, if doFree then 1 else 0)
    ensures Unmapped(mem0, t, mem2, first, n + 1)
    ensures Released(mem0, fl0, t, mem2, fl2, first, if doFree then n + 1 else 0)
  {
    UnmappedNext(mem0, t, mem1, mem2, first, n);
    LeafsNext(mem0, t, mem1, first, n);
    var k := if doFree then n else 0;
    var a, b := Leafs(mem0, t, first, k), Leafs(mem1, t, first + n, if doFree then 1 else 0);
    assert Leafs(mem0, t, first, if doFree then n + 1 else 0) == a + b;
    hide Leafs, Entry, Unmapped, FreeSet, Pages;
    FramedBoth(mem0, mem1, mem2, Pages(t) + a, Pages(t) + b);
    assert (Pages(t) + a) + (Pages(t) + b) == Pages(t) + (a + b);
    hide Framed;
  }

  lemma FramedBoth(mem0: Memory, mem1: Memory, mem2: Memory, a: set<nat>, b: set<nat>)
    requires Framed(mem0, mem1, a) && Framed(mem1, mem2, b)
    ensures Framed(mem0, mem2, a + b)
  {
  }

  lemma LeafsNext(mem0: Memory, t: Tree, mem1: Memory, first: nat, n: nat)
    requires Unmapped(mem0, t, mem1, first, n)
    ensures Leafs(mem0, t, first, n + 1) == Leafs(mem0, t, first, n) + Leafs(mem1, t, first + n, 1)
  {
    var v := first + n;
    assert Entry(mem1, t, v) == Entry(mem0, t, v);
    hide Unmapped;
    assert Ppn(Entry(mem1, t, v)) in Leafs(mem1, t, v, 1);
    assert Ppn(Entry(mem0, t, v)) in Leafs(mem0, t, first, n + 1);
  }

  // ---- backing a range with fresh pages ----

  /** One page has left the free list for the page `v`, which had no mapping. */
  ghost predicate BackedOne(mem: Memory, fl: seq<nat>, t: Tree, mem': Memory, fl': seq<nat>, lo: nat, hi: nat, t': Tree,
                            v: nat, q: nat, content: Page, perm: nat)
  {
    && perm < 1024 && Mapped(mem, t, mem', t', v, 1, q, perm) && q in mem' && mem'[q] == content
    && lo <= q < hi && q in fl && q !in fl' && q !in Pages(t')
    && (forall pos :: pos in t ==> pos in t' && t'[pos] == t[pos])
    && Pages(t) <= Pages(t') && FreeSet(fl') <= FreeSet(fl)
    && Pages(t') + FreeSet(fl') + {q} == Pages(t) + FreeSet(fl)
    && Framed(mem, mem', Pages(t) + FreeSet(fl))
  }

  lemma FreshElsewhere(mem: Memory, fl: seq<nat>, lo: nat, hi: nat, t: Tree, p: nat, content: Page)
    requires Owns(mem, [p] + fl, lo, hi, t)
    ensures p !in Pages(t) && Owns(mem[p := content], fl, lo, hi, t)
    ensures SameEntries(mem, t, mem[p := content], t)
  {
    assert ([p] + fl)[0] == p;
    assert forall x :: x in fl ==> x in [p] + fl;
    Elsewhere(mem, mem[p := content], t);
    hide Shape, SameEntries;
  }

  lemma BackedStep(mem: Memory, fl: seq<nat>, t: Tree, mem': Memory, fl': seq<nat>, lo: nat, hi: nat, t': Tree,
                   v: nat, p: nat, content: Page, perm: nat)
    requires p !in fl && p !in Pages(t) && lo <= p < hi && perm < 1024
    requires SameEntries(mem, t, mem[p := content], t)
    requires Grown(mem[p := content], fl, t, mem', fl', t')
    requires Mapped(mem[p := content], t, mem', t', v, 1, p, perm)
    ensures BackedOne(mem, [p] + fl, t, mem', fl', lo, hi, t', v, p, content, perm)
  {
    var mem1 := mem[p := content];
    assert Mapped(mem, t, mem', t', v, 1, p, perm);
    assert FreeSet([p] + fl) == FreeSet(fl) + {p};
    assert p in mem1 && mem'[p] == content;
    assert p !in Pages(t') + FreeSet(fl');
    hide Mapped;
  }

  lemma BackedFailed(mem: Memory, fl: seq<nat>, t: Tree, mem': Memory, fl': seq<nat>, lo: nat, hi: nat, t': Tree,
                     v: nat, p: nat, content: Page, perm: nat)
    requires p !in fl && p !in Pages(t) && lo <= p < hi && perm < 1024
    requires SameEntries(mem, t, mem[p := content], t)
    requires Grown(mem[p := content], fl, t, mem', fl', t') && Owns(mem', fl', lo, hi, t')
    requires Mapped(mem[p := content], t, mem', t', v, 0, p, perm)
    ensures p !in fl'
    ensures var mem2, fl2 := mem'[p := Fill(1)], [p] + fl';
            Grown(mem, [p] + fl, t, mem2, fl2, t') && SameEntries(mem, t, mem2, t') && Owns(mem2, fl2, lo, hi, t')
  {
    GrownAround(mem, fl, t, mem', fl', t', p, content);
    hide Owns, Grown;
    assert SameEntries(mem, t, mem', t');
    hide Mapped, SameEntries;
    GivenBack(mem', fl', lo, hi, t', p);
    SameAgain(mem, t, mem', t', mem'[p := Fill(1)], t');
  }

  /** A page taken before the tree grew and given back after. */
  lemma GrownAround(mem: Memory, fl: seq<nat>, t: Tree, mem': Memory, fl': seq<nat>, t': Tree, p: nat, content: Page)
    requires p !in fl && p !in Pages(t) && Grown(mem[p := content], fl, t, mem', fl', t')
    ensures p !in fl' && p !in Pages(t') && Grown(mem, [p] + fl, t, mem'[p := Fill(1)], [p] + fl', t')
  {
    PushedSet(fl, p);
    PushedSet(fl', p);
    assert p !in Pages(t') + FreeSet(fl');
  }

  lemma PushedSet(s: seq<nat>, p: nat)
    ensures FreeSet([p] + s) == FreeSet(s) + {p}
  {
  }

  lemma GivenBack(mem: Memory, fl: seq<nat>, lo: nat, hi: nat, t: Tree, p: nat)
    requires Owns(mem, fl, lo, hi, t) && p !in Pages(t)
    ensures Owns(mem[p := Fill(1)], [p] + fl, lo, hi, t) && SameEntries(mem, t, mem[p := Fill(1)], t)
  {
    PushedSet(fl, p);
    Elsewhere(mem, mem[p := Fill(1)], t);
    hide Shape, SameEntries;
  }

  /** What a page is to hold, and with which permissions. */
  datatype Want = Want(content: Page, perm: nat)

  ghost function Zeroed(n: nat): seq<Want> {
    seq(n, _ => Want(Fill(0), 30))   // PTE_W | PTE_X | PTE_R | PTE_U
  }

  ghost predicate Unused(mem: Memory, t: Tree, first: nat, end: nat) {
    forall v: nat :: first <= v < end ==> !PageTable.Valid(Entry(mem, t, v))
  }

  ghost predicate FilledOne(mem: Memory, t: Tree, v: nat, w: Want) {
    var e := Entry(mem, t, v);
    1 < w.perm < 1024 && e == MakePte(Ppn(e), w.perm) && Ppn(e) in mem && mem[Ppn(e)] == w.content
  }

  ghost predicate Filled(mem: Memory, t: Tree, first: nat, want: seq<Want>) {
    forall i :: 0 <= i < |want| ==> FilledOne(mem, t, first + i, want[i])
  }

  /** Tables and leaf pages have come from the free list, and nothing else has changed. */
  ghost predicate TookPages(mem0: Memory, fl0: seq<nat>, t0: Tree, mem: Memory, fl: seq<nat>, t: Tree,
                            first: nat, n: nat)
  {
    && (forall pos :: pos in t0 ==> pos in t && t[pos] == t0[pos])
    && Pages(t0) <= Pages(t) && FreeSet(fl) <= FreeSet(fl0)
    && Leafs(mem, t, first, n) <= FreeSet(fl0)
    && Pages(t) + FreeSet(fl) + Leafs(mem, t, first, n) == Pages(t0) + FreeSet(fl0)
    && Framed(mem0, mem, Pages(t0) + FreeSet(fl0))
  }

  ghost predicate OthersSame(mem0: Memory, t0: Tree, mem: Memory, t: Tree, first: nat, n: nat) {
    forall v: nat :: !(first <= v < first + n) ==> Entry(mem, t, v) == Entry(mem0, t0, v)
  }

  /** A range of the map is backed as wanted: each page by its own fresh page with its contents and
      permissions, taken from the free list; the rest of the map is as before. */
  ghost predicate Backed(mem0: Memory, fl0: seq<nat>, t0: Tree, mem: Memory, fl: seq<nat>, lo: nat, hi: nat, t: Tree,
                         first: nat, want: seq<Want>)
  {
    && TookPages(mem0, fl0, t0, mem, fl, t, first, |want|) && OthersSame(mem0, t0, mem, t, first, |want|)
    && Filled(mem, t, first, want) && Private(mem, fl, lo, hi, t, first, |want|)
  }

  /** The valid entries are the same. */
  ghost predicate SameMap(mem: Memory, t: Tree, mem': Memory, t': Tree) {
    forall v: nat :: Entry(mem', t', v) == Entry(mem, t, v) ||
                     (!PageTable.Valid(Entry(mem', t', v)) && !PageTable.Valid(Entry(mem, t, v)))
  }

  lemma BackedNone(mem: Memory, fl: seq<nat>, lo: nat, hi: nat, t: Tree, first: nat)
    ensures Zeroed(0) == [] && Backed(mem, fl, t, mem, fl, lo, hi, t, first, [])
  {
    assert Leafs(mem, t, first, 0) == {};
  }

  lemma ZeroedNext(n: nat)
    ensures |Zeroed(n)| == n && Zeroed(n + 1) == Zeroed(n) + [Want(Fill(0), 30)]
  {
  }

  lemma OwnsRoot(mem: Memory, fl: seq<nat>, lo: nat, hi: nat, t: Tree)
    requires Owns(mem, fl, lo, hi, t)
    ensures ROOT in t
  {
  }

  lemma BackedRoot(mem0: Memory, fl0: seq<nat>, t0: Tree, mem: Memory, fl: seq<nat>, lo: nat, hi: nat, t: Tree,
                   first: nat, want: seq<Want>)
    requires Backed(mem0, fl0, t0, mem, fl, lo, hi, t, first, want) && ROOT in t0
    ensures ROOT in t && t[ROOT] == t0[ROOT]
  {
  }

  /** The next page to back is still unused. */
  lemma BackedRest(mem0: Memory, fl0: seq<nat>, t0: Tree, mem: Memory, fl: seq<nat>, lo: nat, hi: nat, t: Tree,
                   first: nat, want: seq<Want>, end: nat)
    requires Backed(mem0, fl0, t0, mem, fl, lo, hi, t, first, want) && Unused(mem0, t0, first, end)
    requires first + |want| < end
    ensures !PageTable.Valid(Entry(mem, t, first + |want|)) && Unused(mem0, t0, first, first + |want|)
  {
    assert Entry(mem, t, first + |want|) == Entry(mem0, t0, first + |want|);
  }

  /** Pages already backed are touched neither by table pages taken later nor by anything else taken later. */
  lemma LeafApart(mem: Memory, fl: seq<nat>, lo: nat, hi: nat, t: Tree, mem': Memory, fl': seq<nat>, t': Tree, v: nat,
                  extra: set<nat>)
    requires PrivateOne(mem, fl, lo, hi, t, v) && Entry(mem', t', v) == Entry(mem, t, v)
    requires Pages(t') + FreeSet(fl') + extra == Pages(t) + FreeSet(fl)
    requires Framed(mem, mem', Pages(t) + FreeSet(fl))
    ensures PrivateOne(mem', fl', lo, hi, t', v) && Ppn(Entry(mem, t, v)) !in extra
    ensures var q := Ppn(Entry(mem, t, v)); q in mem ==> q in mem' && mem'[q] == mem[q]
  {
    var q := Ppn(Entry(mem, t, v));
    assert q !in Pages(t) + FreeSet(fl);
    assert q !in Pages(t') + FreeSet(fl');
  }

  lemma LeafsSame(mem: Memory, t: Tree, mem': Memory, t': Tree, first: nat, n: nat)
    requires forall v: nat :: first <= v < first + n ==> Entry(mem', t', v) == Entry(mem, t, v)
    ensures Leafs(mem', t', first, n) == Leafs(mem, t, first, n)
  {
    forall x | x in Leafs(mem, t, first, n) ensures x in Leafs(mem', t', first, n) {
      var v: nat :| first <= v < first + n && Ppn(Entry(mem, t, v)) == x;
      assert Ppn(Entry(mem', t', v)) == x;
    }
  }

  /** Backed pages stay backed while other pages leave the free list. */
  lemma PagesStay(mem: Memory, fl: seq<nat>, lo: nat, hi: nat, t: Tree, mem': Memory, fl': seq<nat>, t': Tree,
                  first: nat, want: seq<Want>, extra: set<nat>)
    requires Filled(mem, t, first, want) && Private(mem, fl, lo, hi, t, first, |want|)
    requires forall v: nat :: first <= v < first + |want| ==> Entry(mem', t', v) == Entry(mem, t, v)
    requires Pages(t') + FreeSet(fl') + extra == Pages(t) + FreeSet(fl)
    requires Framed(mem, mem', Pages(t) + FreeSet(fl))
    ensures Filled(mem', t', first, want) && Private(mem', fl', lo, hi, t', first, |want|)
    ensures Leafs(mem', t', first, |want|) == Leafs(mem, t, first, |want|)
    ensures Leafs(mem, t, first, |want|) !! extra
  {
    LeafsSame(mem, t, mem', t', first, |want|);
    hide Framed, Entry, Pages, FreeSet;
    forall v: nat | first <= v < first + |want|
      ensures PrivateOne(mem', fl', lo, hi, t', v) && Ppn(Entry(mem, t, v)) !in extra
      ensures FilledOne(mem', t', v, want[v - first])
    {
      assert PrivateOne(mem, fl, lo, hi, t, v);
      LeafApart(mem, fl, lo, hi, t, mem', fl', t', v, extra);
      assert FilledOne(mem, t, first + (v - first), want[v - first]);
    }
  }

  lemma BackedKept(mem0: Memory, fl0: seq<nat>, t0: Tree, mem1: Memory, fl1: seq<nat>, t1: Tree, mem: Memory,
                   fl: seq<nat>, lo: nat, hi: nat, t: Tree, first: nat, want: seq<Want>)
    requires Backed(mem0, fl0, t0, mem1, fl1, lo, hi, t1, first, want)
    requires Grown(mem1, fl1, t1, mem, fl, t) && SameEntries(mem1, t1, mem, t)
    ensures Backed(mem0, fl0, t0, mem, fl, lo, hi, t, first, want)
  {
    PagesStay(mem1, fl1, lo, hi, t1, mem, fl, t, first, want, {});
    hide Filled, Private, Entry;
    assert TookPages(mem0, fl0, t0, mem, fl, t, first, |want|) by {
      hide OthersSame, SameEntries, Leafs;
    }
  }

  lemma BackedNext(mem0: Memory, fl0: seq<nat>, t0: Tree, mem1: Memory, fl1: seq<nat>, t1: Tree, mem: Memory,
                   fl: seq<nat>, lo: nat, hi: nat, t: Tree, first: nat, want: seq<Want>, q: nat, w: Want)
    requires Backed(mem0, fl0, t0, mem1, fl1, lo, hi, t1, first, want) && 1 < w.perm < 1024
    requires BackedOne(mem1, fl1, t1, mem, fl, lo, hi, t, first + |want|, q, w.content, w.perm)
    ensures Backed(mem0, fl0, t0, mem, fl, lo, hi, t, first, want + [w])
  {
    var n, v, want' := |want|, first + |want|, want + [w];
    MappedSame(mem1, t1, mem, t, v, q, w.perm);
    PagesStay(mem1, fl1, lo, hi, t1, mem, fl, t, first, want, {q});
    LeafsMore(mem, t, first, n);
    assert PrivateOne(mem, fl, lo, hi, t, v) && FilledOne(mem, t, v, w);
    PrivateMore(mem, fl, lo, hi, t, first, n);
    FilledMore(mem, t, first, want, w);
    OthersMore(mem0, t0, mem1, t1, mem, t, first, n, q, w.perm);
    hide Filled, Private, OthersSame, Mapped, Leafs, Entry;
    TookMore(mem0, fl0, t0, mem1, fl1, t1, mem, fl, t, first, n, q);
  }

  lemma TookMore(mem0: Memory, fl0: seq<nat>, t0: Tree, mem1: Memory, fl1: seq<nat>, t1: Tree, mem: Memory,
                 fl: seq<nat>, t: Tree, first: nat, n: nat, q: nat)
    requires TookPages(mem0, fl0, t0, mem1, fl1, t1, first, n) && q in fl1
    requires forall pos :: pos in t1 ==> pos in t && t[pos] == t1[pos]
    requires Pages(t1) <= Pages(t) && FreeSet(fl) <= FreeSet(fl1)
    requires Pages(t) + FreeSet(fl) + {q} == Pages(t1) + FreeSet(fl1) && Framed(mem1, mem, Pages(t1) + FreeSet(fl1))
    requires Leafs(mem, t, first, n + 1) == Leafs(mem1, t1, first, n) + {q}
    ensures TookPages(mem0, fl0, t0, mem, fl, t, first, n + 1)
  {
    hide Leafs;
  }

  lemma MappedSame(mem: Memory, t: Tree, mem': Memory, t': Tree, v: nat, q: nat, perm: nat)
    requires perm < 1024 && Mapped(mem, t, mem', t', v, 1, q, perm)
    ensures forall u: nat :: u != v ==> Entry(mem', t', u) == Entry(mem, t, u)
    ensures Entry(mem', t', v) == MakePte(q, perm) && Ppn(MakePte(q, perm)) == q
  {
    PteRoundTrip(q, perm);
  }

  lemma LeafsMore(mem: Memory, t: Tree, first: nat, n: nat)
    ensures Leafs(mem, t, first, n + 1) == Leafs(mem, t, first, n) + {Ppn(Entry(mem, t, first + n))}
  {
    assert Ppn(Entry(mem, t, first + n)) in Leafs(mem, t, first, n + 1);
  }

  lemma PrivateMore(mem: Memory, fl: seq<nat>, lo: nat, hi: nat, t: Tree, first: nat, n: nat)
    requires Private(mem, fl, lo, hi, t, first, n) && PrivateOne(mem, fl, lo, hi, t, first + n)
    requires Ppn(Entry(mem, t, first + n)) !in Leafs(mem, t, first, n)
    ensures Private(mem, fl, lo, hi, t, first, n + 1)
  {
    forall v: nat, w: nat | first <= v < w < first + n + 1 ensures Ppn(Entry(mem, t, v)) != Ppn(Entry(mem, t, w)) {
      if w == first + n {
        assert Ppn(Entry(mem, t, v)) in Leafs(mem, t, first, n);
      }
    }
  }

  lemma FilledMore(mem: Memory, t: Tree, first: nat, want: seq<Want>, w: Want)
    requires Filled(mem, t, first, want) && FilledOne(mem, t, first + |want|, w)
    ensures Filled(mem, t, first, want + [w])
  {
  }

  lemma OthersMore(mem0: Memory, t0: Tree, mem1: Memory, t1: Tree, mem: Memory, t: Tree, first: nat, n: nat, q: nat,
                   perm: nat)
    requires OthersSame(mem0, t0, mem1, t1, first, n) && perm < 1024
    requires Mapped(mem1, t1, mem, t, first + n, 1, q, perm)
    ensures OthersSame(mem0, t0, mem, t, first, n + 1)
  {
  }

  /** What has been backed can be unmapped and freed. */
  lemma BackedReady(mem0: Memory, fl0: seq<nat>, t0: Tree, mem: Memory, fl: seq<nat>, lo: nat, hi: nat, t: Tree,
                    first: nat, want: seq<Want>)
    requires Backed(mem0, fl0, t0, mem, fl, lo, hi, t, first, want)
    ensures Present(mem, t, first, |want|) && Private(mem, fl, lo, hi, t, first, |want|)
  {
    forall v: nat | first <= v < first + |want|
      ensures PageTable.Valid(Entry(mem, t, v)) && Flags(Entry(mem, t, v)) != PTE_V
    {
      assert FilledOne(mem, t, first + (v - first), want[v - first]);
      PteRoundTrip(Ppn(Entry(mem, t, v)), want[v - first].perm);
    }
  }

  /** Backing a range and taking it back restores the map and gives back every leaf page. */
  lemma UndoneOk(mem0: Memory, fl0: seq<nat>, t0: Tree, mem1: Memory, fl1: seq<nat>, mem: Memory, fl: seq<nat>,
                 lo: nat, hi: nat, t: Tree, first: nat, want: seq<Want>)
    requires Backed(mem0, fl0, t0, mem1, fl1, lo, hi, t, first, want) && Unused(mem0, t0, first, first + |want|)
    requires Unmapped(mem1, t, mem, first, |want|) && Released(mem1, fl1, t, mem, fl, first, |want|)
    ensures Grown(mem0, fl0, t0, mem, fl, t) && SameMap(mem0, t0, mem, t) && |fl| == |fl1| + |want|
  {
    assert SameMap(mem0, t0, mem, t) by {
      hide TookPages, Filled, Private, Released;
    }
    hide OthersSame, Filled, Private, Unmapped, Leafs, SameMap, Entry;
  }

  // ---- copying ----

  ghost function PageAt(mem: Memory, q: nat): Page {
    if q in mem then mem[q] else Fill(0)
  }

  /** The contents and flags of the first `n` pages of a map. */
  ghost function Copies(mem: Memory, t: Tree, n: nat): seq<Want> {
    seq(n, v requires 0 <= v => Want(PageAt(mem, Ppn(Entry(mem, t, v))), Flags(Entry(mem, t, v))))
  }

  ghost predicate CopyableOne(mem: Memory, fl: seq<nat>, told: Tree, t: Tree, v: nat) {
    var e := Entry(mem, told, v);
    PageTable.Valid(e) && Flags(e) != PTE_V && Ppn(e) in mem && Ppn(e) !in fl && Ppn(e) !in Pages(t)
  }

  /** The old map's pages exist, and are neither free nor tables of the new map. */
  ghost predicate Copyable(mem: Memory, fl: seq<nat>, told: Tree, t: Tree, n: nat) {
    forall v: nat :: v < n ==> CopyableOne(mem, fl, told, t, v)
  }

  lemma CopiesSize(mem: Memory, t: Tree, n: nat)
    ensures |Copies(mem, t, n)| == n && Copies(mem, t, 0) == []
    ensures var e := Entry(mem, t, n);
            Copies(mem, t, n + 1) == Copies(mem, t, n) + [Want(PageAt(mem, Ppn(e)), Flags(e))]
  {
  }

  /** A tree that shares no page with the one being changed stays as it is. */
  lemma Beside(mem0: Memory, fl0: seq<nat>, t0: Tree, mem: Memory, fl: seq<nat>, lo: nat, hi: nat, told: Tree)
    requires Owns(mem0, fl0, lo, hi, told) && Pages(told) !! Pages(t0)
    requires Framed(mem0, mem, Pages(t0) + FreeSet(fl0)) && FreeSet(fl) <= FreeSet(fl0)
    ensures Owns(mem, fl, lo, hi, told) && SameEntries(mem0, told, mem, told)
  {
    assert SamePages(mem0, mem, Pages(told));
    Elsewhere(mem0, mem, told);
    hide Shape, SameEntries;
  }

  lemma BesideBacked(mem0: Memory, fl0: seq<nat>, t0: Tree, mem: Memory, fl: seq<nat>, lo: nat, hi: nat, t: Tree,
                     want: seq<Want>, told: Tree)
    requires Owns(mem0, fl0, lo, hi, told) && Pages(told) !! Pages(t0)
    requires Backed(mem0, fl0, t0, mem, fl, lo, hi, t, 0, want)
    ensures Owns(mem, fl, lo, hi, told) && SameEntries(mem0, told, mem, told)
  {
    Beside(mem0, fl0, t0, mem, fl, lo, hi, told);
  }

  lemma BesideGrown(mem0: Memory, fl0: seq<nat>, t0: Tree, mem: Memory, fl: seq<nat>, lo: nat, hi: nat, t: Tree,
                    told: Tree)
    requires Owns(mem0, fl0, lo, hi, told) && Pages(told) !! Pages(t0) && Grown(mem0, fl0, t0, mem, fl, t)
    ensures Owns(mem, fl, lo, hi, told) && SameEntries(mem0, told, mem, told)
  {
    Beside(mem0, fl0, t0, mem, fl, lo, hi, told);
  }

  /** The entry read for the next page, and the page it names, are those of the start. */
  lemma CopySource(mem0: Memory, fl0: seq<nat>, t0: Tree, mem: Memory, fl: seq<nat>, lo: nat, hi: nat, t: Tree,
                   want: seq<Want>, told: Tree, count: nat, va: nat)
    requires Backed(mem0, fl0, t0, mem, fl, lo, hi, t, 0, want) && SameEntries(mem0, told, mem, told)
    requires Owns(mem, fl, lo, hi, told) && Copyable(mem0, fl0, told, t0, count) && PageNo(va) < count
    ensures var e := Entry(mem0, told, PageNo(va)); var pos := Pos(0, Prefix(0, va));
            && pos in told && told[pos] in mem && PX(0, va) < 512 && mem[told[pos]][PX(0, va)] == e
            && Ppn(e) in mem && mem[Ppn(e)] == PageAt(mem0, Ppn(e)) && 1 < Flags(e) < 1024
  {
    var v := PageNo(va);
    var e := Entry(mem0, told, v);
    assert CopyableOne(mem0, fl0, told, t0, v);
    assert Entry(mem, told, v) == e;
    PresentTable(mem, told, va);
    LeafStep(mem, fl, lo, hi, told, va, 0);
    assert Ppn(e) !in Pages(t0) + FreeSet(fl0);
    assert Framed(mem0, mem, Pages(t0) + FreeSet(fl0));
    FlagsValid(e);
  }

  lemma FlagsValid(pte: nat)
    requires PageTable.Valid(pte) && Flags(pte) != PTE_V
    ensures 1 < Flags(pte) < 1024
  {
    var q, f := pte / 1024, pte % 1024;
    assert pte == 2 * (512 * q) + f;
    Parity(512 * q, f);
  }

  lemma Parity(a: nat, f: nat)
    ensures (2 * a + f) % 2 == f % 2
  {
  }

  /** Parent and child share no page. */
  lemma CopyApart(mem0: Memory, fl0: seq<nat>, t0: Tree, mem: Memory, fl: seq<nat>, lo: nat, hi: nat, t: Tree,
                  told: Tree, n: nat)
    requires Backed(mem0, fl0, t0, mem, fl, lo, hi, t, 0, Copies(mem0, told, n)) && Copyable(mem0, fl0, told, t0, n)
    ensures Leafs(mem, t, 0, n) !! Leafs(mem0, told, 0, n)
  {
    CopiesSize(mem0, told, n);
    forall x | x in Leafs(mem0, told, 0, n) ensures x !in FreeSet(fl0) {
      var v: nat :| v < n && Ppn(Entry(mem0, told, v)) == x;
      assert CopyableOne(mem0, fl0, told, t0, v);
    }
  }

  // ---- freeing the tables ----

  ghost function Ancestor(pos: Pos, level: nat): Pos
    decreases level - pos.level
  {
    if pos.level >= level then pos else Ancestor(Parent(pos), level)
  }

  ghost predicate Under(pos: Pos, top: Pos) {
    pos.level <= top.level && Ancestor(pos, top.level) == top
  }

  ghost function PagesUnder(t: Tree, top: Pos): set<nat> {
    set pos | pos in t && Under(pos, top) :: t[pos]
  }

  /** The tables below the first `i` entries of a table. */
  ghost predicate Below(pos: Pos, top: Pos, i: nat) {
    pos.level < top.level && Under(pos, top) && Ancestor(pos, top.level - 1).prefix % 512 < i
  }

  ghost function PagesBelow(t: Tree, top: Pos, i: nat): set<nat> {
    set pos | pos in t && Below(pos, top, i) :: t[pos]
  }

  lemma {:induction false} AncestorStep(pos: Pos, level: nat)
    requires pos.level < level
    ensures Ancestor(pos, level) == Parent(Ancestor(pos, level - 1))
    ensures Ancestor(pos, level - 1).level == level - 1
    decreases level - pos.level
  {
    if pos.level < level - 1 {
      AncestorStep(Parent(pos), level);
    }
  }

  lemma UnderChild(pos: Pos, top: Pos, i: nat)
    requires top.level > 0 && i < 512
    ensures Under(pos, Child(top, i)) <==> Below(pos, top, i + 1) && !Below(pos, top, i)
  {
    ChildParent(top, i);
    if pos.level < top.level {
      AncestorStep(pos, top.level);
    }
  }

  lemma BelowAny(pos: Pos, top: Pos)
    ensures Under(pos, top) <==> pos == top || Below(pos, top, 512)
  {
    if pos.level < top.level {
      AncestorStep(pos, top.level);
    }
  }

  /** With a table, the tables above it are there. */
  ghost predicate Closed(t: Tree) {
    forall pos :: pos in t && pos.level < 2 ==> Parent(pos) in t
  }

  lemma {:induction false} AncestorIn(t: Tree, pos: Pos, level: nat)
    requires Closed(t) && pos in t && pos.level <= level <= 2
    ensures Ancestor(pos, level) in t && Ancestor(pos, level).level == level
    decreases level - pos.level
  {
    if pos.level < level {
      AncestorIn(t, Parent(pos), level);
    }
  }

  /** A table holds nothing but links to the tables below it. */
  ghost predicate BareOne(mem: Memory, lo: nat, hi: nat, t: Tree, pos: Pos)
    requires pos in t
  {
    && lo <= t[pos] < hi && t[pos] in mem
    && forall i :: 0 <= i < 512 ==>
      if pos.level > 0 && Child(pos, i) in t then mem[t[pos]][i] == MakePte(t[Child(pos, i)], PTE_V)
      else !PageTable.Valid(mem[t[pos]][i])
  }

  ghost predicate Bare(mem: Memory, lo: nat, hi: nat, t: Tree, top: Pos) {
    forall pos :: pos in t && Under(pos, top) ==> BareOne(mem, lo, hi, t, pos)
  }

  /** The tables below the first `i` entries have been freed, and only they and the table have changed. */
  ghost predicate Cleared(mem0: Memory, fl0: seq<nat>, t: Tree, mem: Memory, fl: seq<nat>, pos: Pos, i: nat)
    requires pos in t
  {
    FreeSet(fl) == FreeSet(fl0) + PagesBelow(t, pos, i) && Framed(mem0, mem, PagesBelow(t, pos, i) + {t[pos]})
  }

  lemma BareTop(mem: Memory, lo: nat, hi: nat, t: Tree, pos: Pos)
    requires Bare(mem, lo, hi, t, pos) && pos in t
    ensures lo <= t[pos] < hi && t[pos] in mem
  {
    assert Under(pos, pos);
  }

  lemma BareEntry(mem: Memory, lo: nat, hi: nat, t: Tree, pos: Pos, i: nat)
    requires Bare(mem, lo, hi, t, pos) && pos in t && i < 512
    ensures t[pos] in mem
    ensures var pte := mem[t[pos]][i];
            if pos.level > 0 && Child(pos, i) in t then
              PageTable.Valid(pte) && !Rwx(pte) && Ppn(pte) == t[Child(pos, i)]
            else !PageTable.Valid(pte)
  {
    assert Under(pos, pos) && BareOne(mem, lo, hi, t, pos);
    PteRoundTrip(if pos.level > 0 && Child(pos, i) in t then t[Child(pos, i)] else 0, PTE_V);
  }

  lemma BelowNone(t: Tree, pos: Pos, mem: Memory, fl: seq<nat>)
    requires pos in t
    ensures Cleared(mem, fl, t, mem, fl, pos, 0)
  {
    assert PagesBelow(t, pos, 0) == {};
  }

  /** Different tables are on different pages. */
  lemma BelowApart(t: Tree, pos: Pos, i: nat, q: Pos)
    requires Unshared(t) && pos in t && pos.level > 0 && i < 512 && q in t && Under(q, Child(pos, i))
    ensures t[q] !in PagesBelow(t, pos, i) && t[q] != t[pos]
  {
    UnderChild(q, pos, i);
  }

  lemma ReadyBelow(mem0: Memory, fl0: seq<nat>, lo: nat, hi: nat, t: Tree, mem: Memory, fl: seq<nat>, pos: Pos, i: nat)
    requires Unshared(t) && pos in t && pos.level > 0 && i < 512 && Bare(mem0, lo, hi, t, pos)
    requires Cleared(mem0, fl0, t, mem, fl, pos, i) && PagesUnder(t, pos) !! FreeSet(fl0)
    ensures Bare(mem, lo, hi, t, Child(pos, i)) && PagesUnder(t, Child(pos, i)) !! FreeSet(fl)
    ensures t[pos] !in PagesUnder(t, Child(pos, i))
  {
    forall q | q in t && Under(q, Child(pos, i))
      ensures BareOne(mem, lo, hi, t, q) && t[q] !in FreeSet(fl) && t[q] != t[pos]
    {
      BelowApart(t, pos, i, q);
      UnderChild(q, pos, i);
      assert BareOne(mem0, lo, hi, t, q);
      assert t[q] in PagesUnder(t, pos);
    }
  }

  lemma BelowNext(mem0: Memory, fl0: seq<nat>, t: Tree, mem1: Memory, fl1: seq<nat>, mem: Memory, fl: seq<nat>,
                  pos: Pos, i: nat)
    requires Unshared(t) && pos in t && pos.level > 0 && i < 512 && Cleared(mem0, fl0, t, mem1, fl1, pos, i)
    requires FreeSet(fl) == FreeSet(fl1) + PagesUnder(t, Child(pos, i))
    requires Framed(mem1, mem, PagesUnder(t, Child(pos, i)) + {t[pos]})
    ensures Cleared(mem0, fl0, t, mem, fl, pos, i + 1)
  {
    BelowSplit(t, pos, i);
    hide PagesUnder, PagesBelow;
  }

  lemma BelowSplit(t: Tree, pos: Pos, i: nat)
    requires pos.level > 0 && i < 512
    ensures PagesBelow(t, pos, i + 1) == PagesBelow(t, pos, i) + PagesUnder(t, Child(pos, i))
  {
    forall x | x in PagesBelow(t, pos, i + 1) ensures x in PagesBelow(t, pos, i) + PagesUnder(t, Child(pos, i)) {
      var q :| q in t && Below(q, pos, i + 1) && t[q] == x;
      UnderChild(q, pos, i);
    }
    forall x | x in PagesUnder(t, Child(pos, i)) ensures x in PagesBelow(t, pos, i + 1) {
      var q :| q in t && Under(q, Child(pos, i)) && t[q] == x;
      UnderChild(q, pos, i);
    }
    forall x | x in PagesBelow(t, pos, i) ensures x in PagesBelow(t, pos, i + 1) {
      var q :| q in t && Below(q, pos, i) && t[q] == x;
      assert Below(q, pos, i + 1);
    }
  }

  lemma BelowSkip(mem0: Memory, fl0: seq<nat>, t: Tree, mem: Memory, fl: seq<nat>, pos: Pos, i: nat)
    requires Closed(t) && pos in t && pos.level <= 2 && i < 512 && Cleared(mem0, fl0, t, mem, fl, pos, i)
    requires pos.level > 0 ==> Child(pos, i) !in t
    ensures Cleared(mem0, fl0, t, mem, fl, pos, i + 1)
  {
    forall q | q in t && Below(q, pos, i + 1) ensures Below(q, pos, i) {
      UnderChild(q, pos, i);
      AncestorIn(t, q, pos.level - 1);
    }
    assert PagesBelow(t, pos, i + 1) == PagesBelow(t, pos, i) by {
      forall x | x in PagesBelow(t, pos, i) ensures x in PagesBelow(t, pos, i + 1) {
        var q :| q in t && Below(q, pos, i) && t[q] == x;
        assert Below(q, pos, i + 1);
      }
    }
  }

  lemma BelowAll(mem0: Memory, fl0: seq<nat>, t: Tree, mem: Memory, fl: seq<nat>, pos: Pos)
    requires Unshared(t) && pos in t && Cleared(mem0, fl0, t, mem, fl, pos, 512) && PagesUnder(t, pos) !! FreeSet(fl0)
    ensures t[pos] !in fl && PagesUnder(t, pos) == PagesBelow(t, pos, 512) + {t[pos]}
    ensures FreeSet(fl) + {t[pos]} == FreeSet(fl0) + PagesUnder(t, pos)
    ensures forall mem' | Framed(mem, mem', {t[pos]}) :: Framed(mem0, mem', PagesUnder(t, pos))
  {
    BelowAny(pos, pos);
    forall x | x in PagesUnder(t, pos) ensures x in PagesBelow(t, pos, 512) + {t[pos]} {
      var q :| q in t && Under(q, pos) && t[q] == x;
      BelowAny(q, pos);
    }
    forall x | x in PagesBelow(t, pos, 512) ensures x in PagesUnder(t, pos) && x != t[pos] {
      var q :| q in t && Below(q, pos, 512) && t[q] == x;
      BelowAny(q, pos);
    }
    assert t[pos] in PagesUnder(t, pos);
    assert t[pos] !in FreeSet(fl);
  }

  /** A tree without a mapping holds nothing but its links. */
  lemma AllBare(mem: Memory, fl: seq<nat>, lo: nat, hi: nat, t: Tree)
    requires Owns(mem, fl, lo, hi, t) && forall v: nat :: !PageTable.Valid(Entry(mem, t, v))
    ensures Closed(t) && Unshared(t) && ROOT in t && Bare(mem, lo, hi, t, ROOT) && PagesUnder(t, ROOT) == Pages(t)
  {
    forall pos | pos in t && pos.level < 2 ensures Parent(pos) in t {
      assert Hangs(mem, t, pos);
    }
    forall pos | pos in t ensures Under(pos, ROOT) && BareOne(mem, lo, hi, t, pos) {
      AncestorIn(t, pos, 2);
      PageOf(t, pos);
      BareNode(mem, t, pos);
    }
    assert PagesUnder(t, ROOT) == Pages(t) by {
      forall x | x in Pages(t) ensures x in PagesUnder(t, ROOT) {
        var pos :| pos in t && t[pos] == x;
        assert Under(pos, ROOT);
      }
    }
  }

  lemma BareNode(mem: Memory, t: Tree, pos: Pos)
    requires Shape(mem, t) && pos in t && forall v: nat :: !PageTable.Valid(Entry(mem, t, v))
    ensures t[pos] in mem
    ensures forall i :: 0 <= i < 512 ==>
      if pos.level > 0 && Child(pos, i) in t then mem[t[pos]][i] == MakePte(t[Child(pos, i)], PTE_V)
      else !PageTable.Valid(mem[t[pos]][i])
  {
    forall i | 0 <= i < 512
      ensures if pos.level > 0 && Child(pos, i) in t then mem[t[pos]][i] == MakePte(t[Child(pos, i)], PTE_V)
              else !PageTable.Valid(mem[t[pos]][i])
    {
      if pos.level > 0 {
        ChildParent(pos, i);
        assert Leads(mem, t, pos, i);
        var c := Child(pos, i);
        assert c in t ==> Hangs(mem, t, c);
      } else {
        var v := pos.prefix * 512 + i;
        assert v / 512 == pos.prefix && v % 512 == i;
        assert Entry(mem, t, v) == mem[t[pos]][i];
      }
    }
  }

  /** What a process uses is not free. */
  lemma LeafsUsed(mem: Memory, fl: seq<nat>, lo: nat, hi: nat, t: Tree, n: nat)
    requires Owns(mem, fl, lo, hi, t) && Private(mem, fl, lo, hi, t, 0, n)
    ensures Leafs(mem, t, 0, n) + Pages(t) !! FreeSet(fl) && Leafs(mem, t, 0, n) !! Pages(t)
  {
    forall x | x in Leafs(mem, t, 0, n) ensures x !in FreeSet(fl) && x !in Pages(t) {
      var v: nat :| v < n && Ppn(Entry(mem, t, v)) == x;
      assert PrivateOne(mem, fl, lo, hi, t, v);
    }
  }

  const TRAMPOLINE: nat := MAXVA - PGSIZE
  const TRAPFRAME: nat := TRAMPOLINE - PGSIZE

  lemma TrapPages(sz: nat)
    requires sz <= TRAPFRAME
    ensures NPages(sz) <= PageNo(TRAPFRAME) && PageNo(TRAMPOLINE) == PageNo(TRAPFRAME) + 1
    ensures RoundDown(TRAMPOLINE) == TRAMPOLINE && RoundDown(TRAPFRAME) == TRAPFRAME
  {
  }

  /** Unmapping the two pages on top leaves the user pages as they were. */
  lemma StillUsed(mem0: Memory, fl: seq<nat>, lo: nat, hi: nat, t: Tree, mem1: Memory, mem: Memory, n: nat)
    requires Unmapped(mem0, t, mem1, PageNo(TRAMPOLINE), 1) && Unmapped(mem1, t, mem, PageNo(TRAPFRAME), 1)
    requires n <= PageNo(TRAPFRAME) < PageNo(TRAMPOLINE)
    requires Present(mem0, t, 0, n) && Private(mem0, fl, lo, hi, t, 0, n)
    requires forall v: nat :: n <= v && v != PageNo(TRAPFRAME) && v != PageNo(TRAMPOLINE) ==>
               !PageTable.Valid(Entry(mem0, t, v))
    ensures Present(mem, t, 0, n) && Private(mem, fl, lo, hi, t, 0, n) && Leafs(mem, t, 0, n) == Leafs(mem0, t, 0, n)
    ensures forall v: nat :: v >= n ==> !PageTable.Valid(Entry(mem, t, v))
  {
    forall v: nat ensures Entry(mem, t, v) == if v == PageNo(TRAPFRAME) || v == PageNo(TRAMPOLINE) then 0
                                              else Entry(mem0, t, v) {
      assert Entry(mem1, t, v) == if v == PageNo(TRAMPOLINE) then 0 else Entry(mem0, t, v);
    }
    LeafsSame(mem0, t, mem, t, 0, n);
    hide Entry, PageNo, Unmapped;
    forall v: nat | v < n ensures PrivateOne(mem, fl, lo, hi, t, v) {
      assert PrivateOne(mem0, fl, lo, hi, t, v);
    }
  }

  class Machine {
    const lo: nat   // first page behind the kernel
    const hi: nat   // PHYSTOP
    var mem: Memory
    var freelist: seq<nat>

    ghost predicate Ok()
      reads this
    {
      && 0 < lo && Distinct(freelist)
      && (forall p :: lo <= p < hi ==> p in mem)
      && (forall p :: p in freelist ==> lo <= p < hi)
    }

    /** A page, filled with junk; 0 if there is none. */
    method Kalloc() returns (p: nat)
      requires Ok()
      modifies this`mem, this`freelist
      ensures Ok()
      ensures p == 0 ==> freelist == [] && unchanged(this)
      ensures p != 0 ==> old(freelist) == [p] + freelist && p !in freelist && mem == old(mem)[p := Fill(5)]
      ensures p != 0 ==> lo <= p < hi
    {
      if freelist == [] {
        return 0;
      }
      Popped(freelist);
      p := freelist[0];
      freelist := freelist[1..];
      mem := mem[p := Fill(5)];
    }

    method Kfree(p: nat)
      requires Ok() && lo <= p < hi && p !in freelist
      modifies this`mem, this`freelist
      ensures Ok() && freelist == [p] + old(freelist) && mem == old(mem)[p := Fill(1)]
      ensures FreeSet(freelist) == FreeSet(old(freelist)) + {p}
    {
      Pushed(freelist, p);
      mem := mem[p := Fill(1)];
      freelist := [p] + freelist;
    }

    ghost predicate Has(t: Tree)
      reads this
    {
      Owns(mem, freelist, lo, hi, t)
    }

    /** The else branch of walk: hang a new empty table in at an invalid entry. */
    method HangNew(table: nat, i: nat, ghost t: Tree, ghost pos: Pos) returns (p: nat, ghost t': Tree)
      requires Ok() && Has(t) && pos in t && table == t[pos] && pos.level > 0 && i < 512
      requires table in mem && !PageTable.Valid(mem[table][i])
      modifies this`mem, this`freelist
      ensures Ok() && Has(t') && Grown(old(mem), old(freelist), t, mem, freelist, t')
      ensures SameEntries(old(mem), t, mem, t')
      ensures p == 0 ==> freelist == [] && t' == t && unchanged(this)
      ensures p != 0 ==> Child(pos, i) in t' && t'[Child(pos, i)] == p
    {
      hide Owns, Grown, SameEntries;
      p := Kalloc();
      t' := t;
      if p == 0 {
        GrownNot(mem, freelist, t);
        return;
      }
      ghost var mem0 := old(mem);
      HangStep(mem0, freelist, lo, hi, t, pos, i, p);
      mem := mem[p := Fill(0)];
      mem := mem[table := mem[table][i := MakePte(p, PTE_V)]];
      assert mem == Hung(mem0, t, pos, i, p);
      t' := t[Child(pos, i) := p];
    }

    /** The slot of the leaf entry for `va`. With `alloc`, missing tables are made, and no translation
        changes; it fails only when pages have run out, or without `alloc` when a table is missing. */
    method Walk(root: nat, va: nat, alloc: bool, ghost t: Tree) returns (slot: Slot, ghost t': Tree)
      requires Ok() && Has(t) && root == t[ROOT] && va < MAXVA
      modifies this`mem, this`freelist
      ensures Ok() && Has(t') && Grown(old(mem), old(freelist), t, mem, freelist, t')
      ensures SameEntries(old(mem), t, mem, t')
      ensures !alloc ==> unchanged(this) && t' == t
      ensures slot == if Pos(0, Prefix(0, va)) in t' then Slot(t'[Pos(0, Prefix(0, va))], PX(0, va)) else Missing
      ensures alloc && slot == Missing ==> freelist == []
      ensures Pos(0, Prefix(0, va)) in t ==> unchanged(this) && t' == t
    {
      hide Owns, Grown, SameEntries, Prefix, PX;
      var level, table := 2, root;
      t' := t;
      WalkStart(mem, freelist, lo, hi, t, va);
      GrownNot(mem, freelist, t);
      while level > 0
        invariant 0 <= level <= 2 && Ok() && Has(t') && Grown(old(mem), old(freelist), t, mem, freelist, t')
        invariant SameEntries(old(mem), t, mem, t')
        invariant Pos(level, Prefix(level, va)) in t' && table == t'[Pos(level, Prefix(level, va))]
        invariant !alloc ==> unchanged(this) && t' == t
        invariant Pos(0, Prefix(0, va)) in t ==> unchanged(this) && t' == t
      {
        var i := PX(level, va);
        ghost var pos := Pos(level, Prefix(level, va));
        WalkStep(mem, freelist, lo, hi, t', va, level);
        if PageTable.Valid(mem[table][i]) {
          table := Ppn(mem[table][i]);
        } else {
          if !alloc {
            return Missing, t';
          }
          ghost var mem1, fl1, t1 := mem, freelist, t';
          table, t' := HangNew(table, i, t', pos);
          GrownAgain(old(mem), old(freelist), t, mem1, fl1, t1, mem, freelist, t');
          SameAgain(old(mem), t, mem1, t1, mem, t');
          if table == 0 {
            return Missing, t';
          }
        }
        level := level - 1;
      }
      slot := Slot(table, PX(0, va));
    }

    /** One round of mappages. */
    method MapOne(root: nat, a: nat, pa: nat, perm: nat, ghost t: Tree) returns (ok: bool, ghost t': Tree)
      requires Ok() && Has(t) && root == t[ROOT] && a < MAXVA && perm < 1024
      requires !PageTable.Valid(Entry(mem, t, PageNo(a)))   // otherwise it panics: remap
      modifies this`mem, this`freelist
      ensures Ok() && Has(t') && Grown(old(mem), old(freelist), t, mem, freelist, t')
      ensures Mapped(old(mem), t, mem, t', PageNo(a), if ok then 1 else 0, PageNo(pa), perm)
      ensures !ok ==> freelist == []
    {
      hide Owns, Grown, SameEntries, Mapped, Prefix, PX;
      var slot;
      slot, t' := Walk(root, a, true, t);
      if slot == Missing {
        MappedNone(old(mem), t, mem, t', PageNo(a), PageNo(pa), perm);
        return false, t';
      }
      MapStep(old(mem), old(freelist), t, mem, freelist, lo, hi, t', a, PageNo(pa), perm);
      mem := mem[slot.page := mem[slot.page][slot.index := MakePte(PageNo(pa), perm)]];
      ok := true;
    }

    /** A round of mappages' loop, `n` pages having been mapped from the state (mem0, fl0, t0). */
    method MapNext(root: nat, a: nat, pa: nat, perm: nat, ghost mem0: Memory, ghost fl0: seq<nat>, ghost t0: Tree,
                   ghost t: Tree, ghost first: nat, ghost n: nat, ghost ppn: nat)
      returns (ok: bool, ghost t': Tree)
      requires Ok() && Has(t) && ROOT in t0 && root == t0[ROOT] && a < MAXVA && perm < 1024
      requires PageNo(a) == first + n && PageNo(pa) == ppn + n && !PageTable.Valid(Entry(mem0, t0, first + n))
      requires Grown(mem0, fl0, t0, mem, freelist, t) && Mapped(mem0, t0, mem, t, first, n, ppn, perm)
      modifies this`mem, this`freelist
      ensures Ok() && Has(t') && Grown(mem0, fl0, t0, mem, freelist, t')
      ensures Mapped(mem0, t0, mem, t', first, n + (if ok then 1 else 0), ppn, perm)
      ensures !ok ==> freelist == []
    {
      hide Owns, Grown, SameEntries, Mapped, PageNo;
      GrownRoot(mem0, fl0, t0, mem, freelist, t);
      MappedAt(mem0, t0, mem, t, first, n, ppn, perm, first + n);
      ghost var mem1, fl1 := mem, freelist;
      ok, t' := MapOne(root, a, pa, perm, t);
      GrownAgain(mem0, fl0, t0, mem1, fl1, t, mem, freelist, t');
      MappedMore(mem0, t0, mem1, t, mem, t', first, n, ppn, perm, if ok then 1 else 0);
    }

    /** Map the pages of [va, va + size) to consecutive pages from `pa` on, all of them unless table pages
        run out; no other translation changes. `n` counts the pages mapped. */
    method MapPages(root: nat, va: nat, size: nat, pa: nat, perm: nat, ghost t: Tree)
      returns (ok: bool, ghost t': Tree, ghost n: nat)
      requires Ok() && Has(t) && root == t[ROOT] && 0 < size && va + size <= MAXVA && perm < 1024
      requires forall v: nat :: PageNo(va) <= v <= PageNo(va + size - 1) ==> !PageTable.Valid(Entry(mem, t, v))
      modifies this`mem, this`freelist
      ensures Ok() && Has(t') && Grown(old(mem), old(freelist), t, mem, freelist, t')
      ensures Mapped(old(mem), t, mem, t', PageNo(va), n, PageNo(pa), perm)
      ensures if ok then PageNo(va) + n == PageNo(va + size - 1) + 1
              else PageNo(va) + n <= PageNo(va + size - 1) && freelist == []
    {
      assert ROOT in t;
      hide Owns, Grown, SameEntries, Mapped, PageNo, RoundDown;
      PageRange(va, size);
      var a: nat, last: nat, q: nat := RoundDown(va), RoundDown(va + size - 1), pa;
      ghost var first := PageNo(va);
      n, t' := 0, t;
      GrownNot(mem, freelist, t);
      MappedNone(mem, t, mem, t, first, PageNo(pa), perm);
      while true
        invariant Ok() && Has(t') && Grown(old(mem), old(freelist), t, mem, freelist, t')
        invariant Mapped(old(mem), t, mem, t', first, n, PageNo(pa), perm)
        invariant PageNo(a) == first + n && RoundDown(a) == a && a <= last && PageNo(q) == PageNo(pa) + n
        decreases last - a
      {
        PageNoNext(a, last);
        PageNoNext(q, q);
        ok, t' := MapNext(root, a, q, perm, old(mem), old(freelist), t, t', first, n, PageNo(pa));
        if !ok {
          return;
        }
        n := n + 1;
        if a == last {
          return;
        }
        a := a + PGSIZE;
        q := q + PGSIZE;
      }
    }

    /** One round of uvmunmap. */
    method UnmapOne(root: nat, a: nat, doFree: bool, ghost t: Tree)
      requires Ok() && Has(t) && root == t[ROOT] && a < MAXVA
      requires Present(mem, t, PageNo(a), 1)   // otherwise it panics
      requires doFree ==> Private(mem, freelist, lo, hi, t, PageNo(a), 1)
      modifies this`mem, this`freelist
      ensures Ok() && Has(t) && Unmapped(old(mem), t, mem, PageNo(a), 1)
      ensures Released(old(mem), old(freelist), t, mem, freelist, PageNo(a), if doFree then 1 else 0)
    {
      var slot;
      ghost var t';
      PresentTable(mem, t, a);
      LeafStep(mem, freelist, lo, hi, t, a, 0);
      assert doFree ==> PrivateOne(mem, freelist, lo, hi, t, PageNo(a));
      hide Owns, Grown, SameEntries, Unmapped, Prefix, PX, Private, PageNo, Leafs, Released, Framed, Entry;
      slot, t' := Walk(root, a, false, t);
      var pte := mem[slot.page][slot.index];
      if doFree {
        FreeStep(mem, freelist, lo, hi, t, a);
        Kfree(Ppn(pte));
      } else {
        UnmapStep(mem, freelist, lo, hi, t, a);
      }
      mem := mem[slot.page := mem[slot.page][slot.index := 0]];
    }

    /** Remove the mappings of `npages` pages, which must exist, and nothing else; with `doFree` every page
        they map goes to the free list exactly once. */
    method UvmUnmap(root: nat, va: nat, npages: nat, doFree: bool, ghost t: Tree)
      requires Ok() && Has(t) && root == t[ROOT] && RoundDown(va) == va && va + npages * PGSIZE <= MAXVA
      requires Present(mem, t, PageNo(va), npages)   // otherwise it panics
      requires doFree ==> Private(mem, freelist, lo, hi, t, PageNo(va), npages)
      modifies this`mem, this`freelist
      ensures Ok() && Has(t) && Unmapped(old(mem), t, mem, PageNo(va), npages)
      ensures Released(old(mem), old(freelist), t, mem, freelist, PageNo(va), if doFree then npages else 0)
    {
      hide Owns, Unmapped, Released, Present, Private, PageNo, RoundDown;
      var a := va;
      ghost var first, n: nat := PageNo(va), 0;
      ReleasedNone(mem, freelist, t, first);
      while a < va + npages * PGSIZE
        invariant n <= npages && a == va + n * PGSIZE
        invariant Ok() && Has(t) && Unmapped(old(mem), t, mem, first, n)
        invariant Released(old(mem), old(freelist), t, mem, freelist, first, if doFree then n else 0)
      {
        PageNoAt(va, n);
        StillPresent(old(mem), t, mem, first, n, npages);
        if doFree {
          StillPrivate(old(mem), old(freelist), lo, hi, t, mem, freelist, first, n, npages);
        }
        ghost var mem1, fl1 := mem, freelist;
        UnmapOne(root, a, doFree, t);
        ReleasedNext(old(mem), old(freelist), t, mem1, fl1, mem, freelist, first, n, doFree);
        a := a + PGSIZE;
        n := n + 1;
      }
    }

    /** Shrink the user memory from `oldsz` to `newsz` bytes: the pages wholly above `newsz` go. */
    method UvmDealloc(root: nat, oldsz: nat, newsz: nat, ghost t: Tree) returns (r: nat)
      requires Ok() && Has(t) && root == t[ROOT] && oldsz <= MAXVA
      requires newsz < oldsz ==> Present(mem, t, NPages(newsz), NPages(oldsz) - NPages(newsz))
      requires newsz < oldsz ==> Private(mem, freelist, lo, hi, t, NPages(newsz), NPages(oldsz) - NPages(newsz))
      modifies this`mem, this`freelist
      ensures Ok() && Has(t)
      ensures r == if newsz >= oldsz then oldsz else newsz
      ensures var n := if newsz < oldsz then NPages(oldsz) - NPages(newsz) else 0;
              Unmapped(old(mem), t, mem, NPages(newsz), n) &&
              Released(old(mem), old(freelist), t, mem, freelist, NPages(newsz), n)
    {
      ReleasedNone(mem, freelist, t, NPages(newsz));
      NPagesUp(oldsz);
      NPagesUp(newsz);
      hide Owns, Unmapped, Released, Present, Private, PageNo, RoundDown, RoundUp;
      if newsz >= oldsz {
        return oldsz;
      }
      if RoundUp(newsz) < RoundUp(oldsz) {
        var npages := (RoundUp(oldsz) - RoundUp(newsz)) / PGSIZE;
        UvmUnmap(root, RoundUp(newsz), npages, true, t);
      }
      return newsz;
    }

    /** The common body of uvmalloc and uvmcopy: a fresh page with the given contents, mapped at `a`. */
    method AllocOne(root: nat, a: nat, content: Page, perm: nat, ghost t: Tree)
      returns (ok: bool, ghost t': Tree, ghost q: nat)
      requires Ok() && Has(t) && root == t[ROOT] && RoundDown(a) == a && a + PGSIZE <= MAXVA && perm < 1024
      requires !PageTable.Valid(Entry(mem, t, PageNo(a)))
      modifies this`mem, this`freelist
      ensures Ok() && Has(t')
      ensures ok ==> BackedOne(old(mem), old(freelist), t, mem, freelist, lo, hi, t', PageNo(a), q, content, perm)
      ensures !ok ==> Grown(old(mem), old(freelist), t, mem, freelist, t') && SameEntries(old(mem), t, mem, t')
      ensures !ok ==> |freelist| <= 1
    {
      OnePage(a);
      hide Owns, Grown, Mapped, BackedOne, Entry, PageNo, RoundDown;
      var p := Kalloc();
      t', q := t, p;
      if p == 0 {
        GrownNot(mem, freelist, t);
        return false, t', q;
      }
      mem := mem[p := content];
      assert mem == old(mem)[p := content];
      FreshElsewhere(old(mem), freelist, lo, hi, t, p, content);
      ghost var mem1, fl1, n := mem, freelist, 0;
      ok, t', n := MapPages(root, a, PGSIZE, p * PGSIZE, perm, t);
      PageNoOf(p);
      if ok {
        BackedStep(old(mem), fl1, t, mem, freelist, lo, hi, t', PageNo(a), p, content, perm);
      } else {
        BackedFailed(old(mem), fl1, t, mem, freelist, lo, hi, t', PageNo(a), p, content, perm);
        Kfree(p);
      }
    }

    /** Grow the user memory from `oldsz` to `newsz` bytes. Either every new page is backed by a fresh zeroed
        page of its own, or the map is as before and no page is lost. */
    method UvmAlloc(root: nat, oldsz: nat, newsz: nat, ghost t: Tree) returns (r: nat, ghost ok: bool, ghost t': Tree)
      requires Ok() && Has(t) && root == t[ROOT]
      requires oldsz <= newsz ==> newsz <= MAXVA && Unused(mem, t, NPages(oldsz), NPages(newsz))
      modifies this`mem, this`freelist
      ensures Ok() && Has(t')
      ensures r == if newsz < oldsz then oldsz else if ok then newsz else 0
      ensures newsz < oldsz ==> ok && unchanged(this) && t' == t
      ensures ok && oldsz <= newsz ==>
        Backed(old(mem), old(freelist), t, mem, freelist, lo, hi, t', NPages(oldsz),
               Zeroed(NPages(newsz) - NPages(oldsz)))
      ensures !ok ==> Grown(old(mem), old(freelist), t, mem, freelist, t') && SameMap(old(mem), t, mem, t')
      ensures !ok ==> |freelist| <= NPages(newsz) - NPages(oldsz)
    {
      hide Owns, Grown, Backed, SameMap, Unused, PageNo, RoundDown, RoundUp, NPages, Entry, Private, Present, Zeroed;
      t', ok := t, true;
      if newsz < oldsz {
        return oldsz, ok, t';
      }
      ghost var first, count := NPages(oldsz), NPages(newsz);
      NPagesUp(oldsz);
      NPagesMonotone(oldsz, newsz);
      var base: nat := RoundUp(oldsz);
      var a: nat := base;
      ghost var n: nat := 0;
      BackedNone(mem, freelist, lo, hi, t, first);
      OwnsRoot(mem, freelist, lo, hi, t);
      while a < newsz
        invariant first + n <= count && a == (first + n) * PGSIZE
        invariant Ok() && Has(t') && Backed(old(mem), old(freelist), t, mem, freelist, lo, hi, t', first, Zeroed(n))
      {
        ZeroedNext(n);
        BackedRoot(old(mem), old(freelist), t, mem, freelist, lo, hi, t', first, Zeroed(n));
        PageInside(first + n, newsz);
        BackedRest(old(mem), old(freelist), t, mem, freelist, lo, hi, t', first, Zeroed(n), count);
        ghost var mem1, fl1, t1 := mem, freelist, t';
        var one;
        ghost var q;
        one, t', q := AllocOne(root, a, Fill(0), 30, t');
        if !one {
          BackedKept(old(mem), old(freelist), t, mem1, fl1, t1, mem, freelist, lo, hi, t', first, Zeroed(n));
          BackedRoot(old(mem), old(freelist), t, mem, freelist, lo, hi, t', first, Zeroed(n));
          ok := false;
          Undo(root, a, base, first, Zeroed(n), old(mem), old(freelist), t, t');
          return 0, ok, t';
        }
        BackedNext(old(mem), old(freelist), t, mem1, fl1, t1, mem, freelist, lo, hi, t', first, Zeroed(n),
                   q, Want(Fill(0), 30));
        a := a + PGSIZE;
        n := n + 1;
      }
      PageOutside(first + n, newsz);
      return newsz, ok, t';
    }

    /** Take back the pages mapped so far. */
    method Undo(root: nat, a: nat, base: nat, ghost first: nat, ghost want: seq<Want>, ghost mem0: Memory,
                ghost fl0: seq<nat>, ghost t0: Tree, ghost t: Tree)
      requires Ok() && Has(t) && ROOT in t && root == t[ROOT] && a <= MAXVA
      requires a == (first + |want|) * PGSIZE && base == first * PGSIZE
      requires Backed(mem0, fl0, t0, mem, freelist, lo, hi, t, first, want) && Unused(mem0, t0, first, first + |want|)
      modifies this`mem, this`freelist
      ensures Ok() && Has(t) && Grown(mem0, fl0, t0, mem, freelist, t) && SameMap(mem0, t0, mem, t)
      ensures |freelist| == |old(freelist)| + |want|
    {
      hide Owns, Grown, Backed, SameMap, PageNo, RoundDown, RoundUp, NPages, Entry, Private, Present, Unused, Unmapped,
           Released;
      NPagesOf(first);
      NPagesOf(first + |want|);
      BackedReady(mem0, fl0, t0, mem, freelist, lo, hi, t, first, want);
      ghost var mem1, fl1 := mem, freelist;
      var r := UvmDealloc(root, a, base, t);
      UndoneOk(mem0, fl0, t0, mem1, fl1, mem, freelist, lo, hi, t, first, want);
    }

    /** Copy the user memory of one page table into another. Either every page of the new map is a copy, with
        the same flags, in a fresh page of its own, or the new map is as before and no page is lost. The old map
        is untouched. */
    method UvmCopy(oldRoot: nat, newRoot: nat, sz: nat, ghost told: Tree, ghost t: Tree)
      returns (ok: bool, ghost t': Tree)
      requires Ok() && Has(told) && Has(t) && oldRoot == told[ROOT] && newRoot == t[ROOT] && sz <= MAXVA
      requires Pages(told) !! Pages(t) && Unused(mem, t, 0, NPages(sz))
      requires Copyable(mem, freelist, told, t, NPages(sz))
      modifies this`mem, this`freelist
      ensures Ok() && Has(told) && Has(t') && SameEntries(old(mem), told, mem, told)
      ensures ok ==> Backed(old(mem), old(freelist), t, mem, freelist, lo, hi, t', 0,
                            Copies(old(mem), told, NPages(sz)))
      ensures ok ==> Leafs(mem, t', 0, NPages(sz)) !! Leafs(old(mem), told, 0, NPages(sz))
      ensures !ok ==> Grown(old(mem), old(freelist), t, mem, freelist, t') && SameMap(old(mem), t, mem, t')
      ensures !ok ==> |freelist| <= NPages(sz)
    {
      hide Owns, Grown, Backed, SameMap, SameEntries, Unused, PageNo, RoundDown, NPages, Entry, Private, Present,
           Copies, Copyable, Prefix, PX, Leafs, Framed, Unmapped, Released;
      ghost var count, n: nat := NPages(sz), 0;
      var i: nat := 0;
      t', ok := t, true;
      BackedNone(mem, freelist, lo, hi, t, 0);
      OwnsRoot(mem, freelist, lo, hi, t);
      OwnsRoot(mem, freelist, lo, hi, told);
      CopiesSize(mem, told, 0);
      while i < sz
        invariant n <= count && i == n * PGSIZE
        invariant Ok() && Has(t')
        invariant Backed(old(mem), old(freelist), t, mem, freelist, lo, hi, t', 0, Copies(old(mem), told, n))
      {
        ghost var want := Copies(old(mem), told, n);
        PageInside(n, sz);
        CopiesSize(old(mem), told, n);
        BackedRoot(old(mem), old(freelist), t, mem, freelist, lo, hi, t', 0, want);
        BackedRest(old(mem), old(freelist), t, mem, freelist, lo, hi, t', 0, want, count);
        BesideBacked(old(mem), old(freelist), t, mem, freelist, lo, hi, t', want, told);
        CopySource(old(mem), old(freelist), t, mem, freelist, lo, hi, t', want, told, count, i);
        var slot;
        ghost var same;
        slot, same := Walk(oldRoot, i, false, told);
        var pte := mem[slot.page][slot.index];
        ghost var mem1, fl1, t1 := mem, freelist, t';
        ghost var q;
        ok, t', q := AllocOne(newRoot, i, mem[Ppn(pte)], Flags(pte), t');
        if !ok {
          BackedKept(old(mem), old(freelist), t, mem1, fl1, t1, mem, freelist, lo, hi, t', 0, want);
          BackedRoot(old(mem), old(freelist), t, mem, freelist, lo, hi, t', 0, want);
          BackedReady(old(mem), old(freelist), t, mem, freelist, lo, hi, t', 0, want);
          PageNoOf(0);
          mem1, fl1 := mem, freelist;
          UvmUnmap(newRoot, 0, i / PGSIZE, true, t');
          UndoneOk(old(mem), old(freelist), t, mem1, fl1, mem, freelist, lo, hi, t', 0, want);
          break;
        }
        BackedNext(old(mem), old(freelist), t, mem1, fl1, t1, mem, freelist, lo, hi, t', 0, want, q,
                   Want(mem1[Ppn(pte)], Flags(pte)));
        i := i + PGSIZE;
        n := n + 1;
      }
      if ok {
        PageOutside(n, sz);
        CopiesSize(old(mem), told, n);
        BesideBacked(old(mem), old(freelist), t, mem, freelist, lo, hi, t', Copies(old(mem), told, n), told);
        CopyApart(old(mem), old(freelist), t, mem, freelist, lo, hi, t', told, n);
      } else {
        BesideGrown(old(mem), old(freelist), t, mem, freelist, lo, hi, t', told);
      }
    }

    /** Free a table and all tables below it. Every entry it meets is invalid or leads to a table, so the
        panic on a leaf is never reached, and every page is freed exactly once. */
    method FreeWalk(table: nat, ghost t: Tree, ghost pos: Pos)
      requires Ok() && pos in t && pos.level <= 2 && table == t[pos] && Closed(t) && Unshared(t)
      requires Bare(mem, lo, hi, t, pos) && PagesUnder(t, pos) !! FreeSet(freelist)
      modifies this`mem, this`freelist
      ensures Ok() && FreeSet(freelist) == FreeSet(old(freelist)) + PagesUnder(t, pos)
      ensures Framed(old(mem), mem, PagesUnder(t, pos))
      decreases pos.level
    {
      hide Closed, Unshared, Bare, PagesUnder, PagesBelow, FreeSet, Distinct;
      BareTop(mem, lo, hi, t, pos);
      BelowNone(t, pos, mem, freelist);
      ghost var mem0, fl0 := mem, freelist;
      var i := 0;
      while i < 512
        invariant 0 <= i <= 512 && Ok() && Cleared(mem0, fl0, t, mem, freelist, pos, i)
        invariant table in mem0 && table in mem && forall j :: i <= j < 512 ==> mem[table][j] == mem0[table][j]
      {
        var pte := mem[table][i];
        BareEntry(mem0, lo, hi, t, pos, i);
        if PageTable.Valid(pte) && !Rwx(pte) {
          ghost var c := Child(pos, i);
          ReadyBelow(mem0, fl0, lo, hi, t, mem, freelist, pos, i);
          ghost var mem1, fl1 := mem, freelist;
          FreeWalk(Ppn(pte), t, c);
          mem := mem[table := mem[table][i := 0]];
          BelowNext(mem0, fl0, t, mem1, fl1, mem, freelist, pos, i);
        } else {
          assert !PageTable.Valid(pte);   // otherwise it panics: freewalk: leaf
          BelowSkip(mem0, fl0, t, mem, freelist, pos, i);
        }
        i := i + 1;
      }
      BelowAll(mem0, fl0, t, mem, freelist, pos);
      Kfree(table);
    }

    /** Free the user memory and then the page table: every page of either goes to the free list, once. */
    method UvmFree(root: nat, sz: nat, ghost t: Tree)
      requires Ok() && Has(t) && root == t[ROOT] && sz <= MAXVA
      requires Present(mem, t, 0, NPages(sz)) && Private(mem, freelist, lo, hi, t, 0, NPages(sz))
      requires forall v: nat :: v >= NPages(sz) ==> !PageTable.Valid(Entry(mem, t, v))
      modifies this`mem, this`freelist
      ensures Ok() && FreeSet(freelist) == FreeSet(old(freelist)) + Leafs(old(mem), t, 0, NPages(sz)) + Pages(t)
      ensures Leafs(old(mem), t, 0, NPages(sz)) + Pages(t) !! FreeSet(old(freelist))
      ensures Framed(old(mem), mem, Leafs(old(mem), t, 0, NPages(sz)) + Pages(t))
    {
      hide Owns, Present, Private, NPages, RoundUp, RoundDown, PageNo, Leafs, Bare, Closed, Unshared, PagesUnder,
           FreeSet, Pages;
      NPagesUp(sz);
      PageNoOf(0);
      OwnsRoot(mem, freelist, lo, hi, t);
      LeafsUsed(mem, freelist, lo, hi, t, NPages(sz));
      ReleasedNone(mem, freelist, t, 0);
      if sz > 0 {
        UvmUnmap(root, 0, RoundUp(sz) / PGSIZE, true, t);
      } else {
        NPagesOf(0);
      }
      AllBare(mem, freelist, lo, hi, t);
      FreeWalk(root, t, ROOT);
    }

    /** proc_freepagetable: the trampoline and trapframe pages are unmapped but not freed. */
    method ProcFreePagetable(root: nat, sz: nat, ghost t: Tree)
      requires Ok() && Has(t) && root == t[ROOT] && sz <= TRAPFRAME
      requires Present(mem, t, 0, NPages(sz)) && Private(mem, freelist, lo, hi, t, 0, NPages(sz))
      requires Present(mem, t, PageNo(TRAPFRAME), 2)
      requires forall v: nat :: NPages(sz) <= v && v != PageNo(TRAPFRAME) && v != PageNo(TRAMPOLINE) ==>
                 !PageTable.Valid(Entry(mem, t, v))
      modifies this`mem, this`freelist
      ensures Ok() && FreeSet(freelist) == FreeSet(old(freelist)) + Leafs(old(mem), t, 0, NPages(sz)) + Pages(t)
      ensures Leafs(old(mem), t, 0, NPages(sz)) + Pages(t) !! FreeSet(old(freelist))
    {
      TrapPages(sz);
      hide Owns, NPages, RoundUp, RoundDown, PageNo, Entry;
      ghost var mem0, n := mem, NPages(sz);
      UvmUnmap(root, TRAMPOLINE, 1, false, t);
      ghost var mem1 := mem;
      UvmUnmap(root, TRAPFRAME, 1, false, t);
      StillUsed(mem0, freelist, lo, hi, t, mem1, mem, n);
      UvmFree(root, sz, t);
    }
  }
}
