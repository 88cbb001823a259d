/** kernel/vm.c and kernel/riscv.h: Sv39 page tables in memory, read as a finite map. Physical pages
    are named by page number (address / 4096) and hold 512 words of 64 bits. */
module PageTable {

  type Page = s: seq<nat> | |s| == 512 witness seq(512, _ => 0)
  type Memory = map<nat, Page>

  const PGSIZE: nat := 4096
  const MAXVA: nat := 0x40_0000_0000   // 1 << 38

  function Fill(byte: nat): Page {
    seq(512, _ => byte * 0x0101_0101_0101_0101)
  }

  function RoundDown(a: nat): nat {
    a / PGSIZE * PGSIZE
  }

  function RoundUp(a: nat): nat {
    (a + PGSIZE - 1) / PGSIZE * PGSIZE
  }

  function PageNo(a: nat): nat {
    a / PGSIZE
  }

  lemma PageRange(va: nat, size: nat)
    requires size > 0
    ensures var a, last := RoundDown(va), RoundDown(va + size - 1);
            && a <= last < va + size && RoundDown(a) == a && RoundDown(last) == last
            && PageNo(a) == PageNo(va) && PageNo(last) == PageNo(va + size - 1)
  {
  }

  lemma PageNoNext(a: nat, last: nat)
    ensures PageNo(a + PGSIZE) == PageNo(a) + 1
    ensures RoundDown(a) == a ==> RoundDown(a + PGSIZE) == a + PGSIZE
    ensures RoundDown(a) == a && RoundDown(last) == last && a < last ==> a + PGSIZE <= last && PageNo(a) < PageNo(last)
  {
  }

  lemma OnePage(a: nat)
    requires RoundDown(a) == a
    ensures PageNo(a + PGSIZE - 1) == PageNo(a)
  {
  }

  lemma PageNoOf(p: nat)
    ensures PageNo(p * PGSIZE) == p && RoundDown(p * PGSIZE) == p * PGSIZE
  {
  }

  lemma PageNoAt(va: nat, n: nat)
    ensures PageNo(va + n * PGSIZE) == PageNo(va) + n
  {
  }

  /** How many pages `sz` bytes take. */
  function NPages(sz: nat): nat {
    (sz + PGSIZE - 1) / PGSIZE
  }

  lemma NPagesUp(sz: nat)
    ensures RoundUp(sz) == NPages(sz) * PGSIZE && RoundDown(RoundUp(sz)) == RoundUp(sz)
    ensures PageNo(RoundUp(sz)) == NPages(sz)
    ensures sz <= MAXVA ==> RoundUp(sz) <= MAXVA
  {
  }

  lemma NPagesOf(n: nat)
    ensures NPages(n * PGSIZE) == n
  {
  }

  lemma NPagesMonotone(sz: nat, sz': nat)
    requires sz <= sz'
    ensures NPages(sz) <= NPages(sz')
  {
  }

  /** A page that starts below `sz` is one of its pages, and ends below MAXVA with it. */
  lemma PageInside(n: nat, sz: nat)
    requires n * PGSIZE < sz <= MAXVA
    ensures n < NPages(sz) && PageNo(n * PGSIZE) == n && RoundDown(n * PGSIZE) == n * PGSIZE
    ensures (n + 1) * PGSIZE <= MAXVA
  {
  }

  lemma PageOutside(n: nat, sz: nat)
    requires sz <= n * PGSIZE && n <= NPages(sz)
    ensures n == NPages(sz)
  {
  }

  // ---- page table entries ----

  const PTE_V: nat := 1

  predicate Valid(pte: nat) {
    pte % 2 == 1
  }

  function Flags(pte: nat): nat {
    pte % 1024
  }

  /** PTE2PA, as a page number. */
  function Ppn(pte: nat): nat {
    pte / 1024
  }

  /** PA2PTE(pa) | perm | PTE_V. */
  function MakePte(ppn: nat, perm: nat): nat
    requires perm < 1024
  {
    ppn * 1024 + if perm % 2 == 1 then perm else perm + 1
  }

  /** Some of PTE_R, PTE_W and PTE_X is set. */
  predicate Rwx(pte: nat) {
    pte / 2 % 8 != 0
  }

  lemma PteRoundTrip(ppn: nat, perm: nat)
    requires perm < 1024
    ensures Valid(MakePte(ppn, perm)) && Ppn(MakePte(ppn, perm)) == ppn
    ensures Flags(MakePte(ppn, perm)) == if perm % 2 == 1 then perm else perm + 1
    ensures Rwx(MakePte(ppn, perm)) <==> Rwx(perm)
  {
  }

  /** A table entry leads on exactly if it lets nobody read, write or execute. */
  lemma LeafExactly(pte: nat)
    ensures Rwx(pte) <==> pte / 2 % 2 == 1 || pte / 4 % 2 == 1 || pte / 8 % 2 == 1
  {
    var h := pte / 2;
    var q := h / 2;
    var e := q / 2;
    assert pte / 4 == q && pte / 8 == e;
    assert h == 8 * (e / 2) + 4 * (e % 2) + 2 * (q % 2) + h % 2;
    assert h % 8 == 4 * (e % 2) + 2 * (q % 2) + h % 2;
  }

  // ---- addresses ----

  function Shift(level: nat): nat
    requires level <= 2
  {
    if level == 0 then 4096 else if level == 1 then 0x20_0000 else 0x4000_0000
  }

  /** PX(level, va): the index into the table of that level. */
  function PX(level: nat, va: nat): nat
    requires level <= 2
  {
    va / Shift(level) % 512
  }

  /** Which table of that level the walk for `va` passes through. */
  function Prefix(level: nat, va: nat): nat
    requires level <= 2
  {
    va / (Shift(level) * 512)
  }

  /** The addresses below MAXVA are those of the lower half of what three levels of nine bits can address. */
  lemma AddressSpace(va: nat)
    ensures va < MAXVA <==> Prefix(2, va) == 0 && PX(2, va) < 256
  {
  }

  lemma NextPrefix(level: nat, va: nat)
    requires 0 < level <= 2
    ensures Prefix(level - 1, va) == Prefix(level, va) * 512 + PX(level, va)
  {
    if level == 1 {
      assert va / 0x20_0000 / 512 == va / 0x4000_0000;
    } else {
      assert va / 0x4000_0000 / 512 == va / 0x80_0000_0000;
    }
  }

  /** Distinct pages have distinct leaf slots, and the slot of a page is found from its number. */
  lemma LeafSlot(va: nat)
    ensures Prefix(0, va) == PageNo(va) / 512 && PX(0, va) == PageNo(va) % 512
  {
  }

  // ---- the tree ----

  /** The table of a level that serves the pages with a prefix. */
  datatype Pos = Pos(level: nat, prefix: nat)

  /** Where each table of a page table lies. */
  type Tree = map<Pos, nat>

  const ROOT := Pos(2, 0)

  function Child(pos: Pos, i: nat): Pos
    requires pos.level > 0
  {
    Pos(pos.level - 1, pos.prefix * 512 + i)
  }

  function Parent(pos: Pos): Pos {
    Pos(pos.level + 1, pos.prefix / 512)
  }

  lemma ChildParent(pos: Pos, i: nat)
    requires pos.level > 0 && i < 512
    ensures Parent(Child(pos, i)) == pos && Child(pos, i).prefix % 512 == i
  {
  }

  ghost predicate Tables(mem: Memory, t: Tree) {
    && ROOT in t
    && (forall pos :: pos in t ==> pos.level <= 2 && t[pos] in mem)
    && (forall pos :: pos in t && pos.level == 2 ==> pos == ROOT)
  }

  /** A table is where its parent's entry says. */
  ghost predicate Hangs(mem: Memory, t: Tree, pos: Pos) {
    && Parent(pos) in t && t[Parent(pos)] in mem
    && pos in t && mem[t[Parent(pos)]][pos.prefix % 512] == MakePte(t[pos], PTE_V)
  }

  ghost predicate Hanging(mem: Memory, t: Tree) {
    forall pos :: pos in t && pos.level < 2 ==> Hangs(mem, t, pos)
  }

  /** A valid entry of a table above level 0 leads to a table. */
  ghost predicate Leads(mem: Memory, t: Tree, pos: Pos, i: nat)
    requires pos in t && t[pos] in mem && pos.level > 0 && i < 512
  {
    Valid(mem[t[pos]][i]) ==> Child(pos, i) in t
  }

  ghost predicate Leading(mem: Memory, t: Tree) {
    forall pos, i :: pos in t && t[pos] in mem && pos.level > 0 && 0 <= i < 512 ==> Leads(mem, t, pos, i)
  }

  /** No page holds two tables. */
  ghost predicate Unshared(t: Tree) {
    forall a, b :: a in t && b in t && t[a] == t[b] ==> a == b
  }

  ghost predicate Shape(mem: Memory, t: Tree) {
    Tables(mem, t) && Hanging(mem, t) && Leading(mem, t) && Unshared(t)
  }

  ghost function Pages(t: Tree): set<nat> {
    t.Values
  }

  lemma PageOf(t: Tree, pos: Pos)
    requires pos in t
    ensures t[pos] in Pages(t)
  {
  }

  /** The entry a page number selects; 0 where there is no table. */
  ghost function Entry(mem: Memory, t: Tree, vpn: nat): nat {
    var pos := Pos(0, vpn / 512);
    if pos in t && t[pos] in mem then mem[t[pos]][vpn % 512] else 0
  }

  ghost predicate SameEntries(mem: Memory, t: Tree, mem': Memory, t': Tree) {
    forall vpn: nat :: Entry(mem', t', vpn) == Entry(mem, t, vpn)
  }

  /** One step of a walk: a valid entry names the next table, and an invalid one means that no table
      below exists. */
  lemma Descend(mem: Memory, t: Tree, pos: Pos, i: nat)
    requires Shape(mem, t) && pos in t && pos.level > 0 && i < 512
    ensures t[pos] in mem && pos.level <= 2
    ensures Valid(mem[t[pos]][i]) <==> Child(pos, i) in t
    ensures Valid(mem[t[pos]][i]) ==> Ppn(mem[t[pos]][i]) == t[Child(pos, i)]
    ensures forall k: nat :: pos.level == 2 && k / 512 == Child(pos, i).prefix && Pos(0, k) in t ==> Child(pos, i) in t
  {
    var c := Child(pos, i);
    assert Leads(mem, t, pos, i);
    ChildParent(pos, i);
    PteRoundTrip(if c in t then t[c] else 0, PTE_V);
    assert c in t ==> Hangs(mem, t, c);
    forall k: nat | pos.level == 2 && k / 512 == c.prefix && Pos(0, k) in t ensures c in t {
      assert Hangs(mem, t, Pos(0, k));
    }
  }

  // ---- what changes keep ----

  ghost predicate SamePages(mem: Memory, mem': Memory, pages: set<nat>) {
    forall p :: p in pages && p in mem ==> p in mem' && mem'[p] == mem[p]
  }

  /** Changes to other pages do not matter. */
  lemma Elsewhere(mem: Memory, mem': Memory, t: Tree)
    requires Shape(mem, t) && SamePages(mem, mem', Pages(t))
    ensures Shape(mem', t) && SameEntries(mem, t, mem', t)
  {
    forall pos | pos in t ensures t[pos] in mem' && mem'[t[pos]] == mem[t[pos]] {
      PageOf(t, pos);
    }
    forall pos | pos in t && pos.level < 2 ensures Hangs(mem', t, pos) {
      assert Hangs(mem, t, pos);
    }
    forall pos, i | pos in t && t[pos] in mem' && pos.level > 0 && 0 <= i < 512 ensures Leads(mem', t, pos, i) {
      assert Leads(mem, t, pos, i);
    }
  }

  function SetWord(mem: Memory, p: nat, i: nat, word: nat): Memory
    requires p in mem && i < 512
  {
    mem[p := mem[p][i := word]]
  }

  /** An entry of a level 0 table can be set to anything: one page changes, all others keep theirs. */
  lemma SetLeaf(mem: Memory, t: Tree, k: nat, i: nat, pte: nat)
    requires Shape(mem, t) && Pos(0, k) in t && i < 512
    ensures t[Pos(0, k)] in mem
    ensures var mem' := SetWord(mem, t[Pos(0, k)], i, pte);
            && Shape(mem', t)
            && forall vpn: nat :: Entry(mem', t, vpn) == if vpn == k * 512 + i then pte else Entry(mem, t, vpn)
  {
    var p := t[Pos(0, k)];
    var mem' := SetWord(mem, p, i, pte);
    assert forall pos :: pos in t && pos != Pos(0, k) ==> mem'[t[pos]] == mem[t[pos]];
    forall pos | pos in t && pos.level < 2 ensures Hangs(mem', t, pos) {
      assert Hangs(mem, t, pos);
    }
    forall pos, j | pos in t && t[pos] in mem' && pos.level > 0 && 0 <= j < 512 ensures Leads(mem', t, pos, j) {
      assert Leads(mem, t, pos, j);
    }
    forall vpn: nat ensures Entry(mem', t, vpn) == if vpn == k * 512 + i then pte else Entry(mem, t, vpn) {
      if vpn / 512 == k {
        assert vpn == k * 512 + vpn % 512;
      }
    }
  }

  /** The memory after a zeroed page `p` has been hung in at entry `i` of the table at `pos`. */
  function Hung(mem: Memory, t: Tree, pos: Pos, i: nat, p: nat): Memory
    requires pos in t && t[pos] in mem && i < 512 && t[pos] != p
  {
    SetWord(mem[p := Fill(0)], t[pos], i, MakePte(p, PTE_V))
  }

  lemma HungHangs(mem: Memory, t: Tree, pos: Pos, i: nat, p: nat)
    requires Shape(mem, t) && pos in t && pos.level > 0 && i < 512 && !Valid(mem[t[pos]][i]) && p !in Pages(t)
    ensures t[pos] != p && Child(pos, i) !in t
    ensures Hanging(Hung(mem, t, pos, i, p), t[Child(pos, i) := p])
  {
    PageOf(t, pos);
    ChildParent(pos, i);
    var c := Child(pos, i);
    PteRoundTrip(if c in t then t[c] else 0, PTE_V);
    assert c in t ==> Hangs(mem, t, c);
    var mem', t' := Hung(mem, t, pos, i, p), t[Child(pos, i) := p];
    forall q | q in t' && q.level < 2 ensures Hangs(mem', t', q) {
      if q != Child(pos, i) {
        assert Hangs(mem, t, q);
        PageOf(t, Parent(q));
      }
    }
  }

  lemma HungLeads(mem: Memory, t: Tree, pos: Pos, i: nat, p: nat)
    requires Shape(mem, t) && pos in t && pos.level > 0 && i < 512 && p !in Pages(t) && t[pos] != p
    ensures Leading(Hung(mem, t, pos, i, p), t[Child(pos, i) := p])
  {
    var mem', t' := Hung(mem, t, pos, i, p), t[Child(pos, i) := p];
    forall q, j | q in t' && t'[q] in mem' && q.level > 0 && 0 <= j < 512 ensures Leads(mem', t', q, j) {
      if q != Child(pos, i) {
        PageOf(t, q);
        assert Leads(mem, t, q, j);
      }
    }
  }

  /** walk with alloc: a new, empty table changes no translation. */
  lemma HungKeeps(mem: Memory, t: Tree, pos: Pos, i: nat, p: nat)
    requires Shape(mem, t) && pos in t && pos.level > 0 && i < 512 && !Valid(mem[t[pos]][i]) && p !in Pages(t)
    ensures t[pos] != p && Child(pos, i) !in t
    ensures var mem', t' := Hung(mem, t, pos, i, p), t[Child(pos, i) := p];
            Shape(mem', t') && SameEntries(mem, t, mem', t') && Pages(t') == Pages(t) + {p}
  {
    HungHangs(mem, t, pos, i, p);
    HungLeads(mem, t, pos, i, p);
    var mem', t' := Hung(mem, t, pos, i, p), t[Child(pos, i) := p];
    forall q | q in t ensures t[q] != p {
      PageOf(t, q);
    }
    assert Unshared(t') by {
      hide Hung, Hanging, Leading;
    }
    assert Pages(t') == Pages(t) + {p} by {
      AddedPage(t, Child(pos, i), p);
    }
    forall vpn: nat ensures Entry(mem', t', vpn) == Entry(mem, t, vpn) {
      hide Hanging, Leading, Unshared;
    }
  }

  lemma AddedPage(t: Tree, pos: Pos, p: nat)
    requires pos !in t
    ensures t[pos := p].Values == t.Values + {p}
  {
    var t' := t[pos := p];
    forall x | x in t.Values + {p} ensures x in t'.Values {
      if x == p {
        assert t'[pos] == p;
      } else {
        var q :| q in t && t[q] == x;
        assert t'[q] == x;
      }
    }
  }
}
