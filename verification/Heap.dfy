/** user/umalloc.c: the Kernighan and Ritchie allocator. Addresses and sizes are in units of one
    Header (16 bytes). */
module Heap {
  import opened Basics

  datatype Header = Header(ptr: nat, size: nat)

  /** A run of units [at, at + len). */
  datatype Seg = Seg(at: nat, len: nat) {
    function End(): nat {
      at + len
    }
  }

  predicate Apart(s: Seg, t: Seg) {
    s.End() <= t.at || t.End() <= s.at
  }

  /** The free list in address order, starting with the empty `base`: blocks neither overlap nor
      touch. */
  ghost predicate Ordered(free: seq<Seg>, base: nat, top: nat) {
    && |free| > 0 && free[0] == Seg(base, 0) && base < top
    && (forall i :: 0 < i < |free| ==> free[i].len > 0 && base < free[i].at && free[i].End() <= top)
    && (forall i, j :: 0 < i < j < |free| ==> free[i].End() < free[j].at)
  }

  /** Live blocks lie in the heap, apart from each other and from every free block. */
  ghost predicate LiveApart(free: seq<Seg>, live: map<nat, nat>, base: nat, top: nat) {
    && (forall a :: a in live ==> live[a] > 0 && base < a && a + live[a] <= top)
    && (forall a, b :: a in live && b in live && a != b ==> Apart(Seg(a, live[a]), Seg(b, live[b])))
    && (forall a, i :: a in live && 0 <= i < |free| ==> Apart(Seg(a, live[a]), free[i]))
  }

  ghost predicate HeapOk(free: seq<Seg>, live: map<nat, nat>, base: nat, top: nat) {
    Ordered(free, base, top) && LiveApart(free, live, base, top)
  }

  function FreeUnits(free: seq<Seg>): nat {
    if free == [] then 0 else free[0].len + FreeUnits(free[1..])
  }

  ghost function LiveUnits(live: map<nat, nat>): nat {
    if live == map[] then 0
    else
      var a :| a in live;
      live[a] + LiveUnits(live - {a})
  }

  lemma {:induction false} FreeUnitsConcat(s: seq<Seg>, t: seq<Seg>)
    ensures FreeUnits(s + t) == FreeUnits(s) + FreeUnits(t)
  {
    if s == [] {
      assert s + t == t;
    } else {
      FreeUnitsConcat(s[1..], t);
      assert (s + t)[1..] == s[1..] + t;
    }
  }

  lemma {:induction false} LiveUnitsRemove(live: map<nat, nat>, a: nat)
    requires a in live
    ensures LiveUnits(live) == live[a] + LiveUnits(live - {a})
    decreases |live|
  {
    var b :| b in live && LiveUnits(live) == live[b] + LiveUnits(live - {b});
    if a != b {
      assert live - {a} - {b} == live - {b} - {a};
      LiveUnitsRemove(live - {b}, a);
      LiveUnitsRemove(live - {a}, b);
    }
  }

  lemma {:induction false} LiveUnitsAdd(live: map<nat, nat>, a: nat, n: nat)
    requires a !in live
    ensures LiveUnits(live[a := n]) == LiveUnits(live) + n
  {
    LiveUnitsRemove(live[a := n], a);
    assert live[a := n] - {a} == live;
  }

  // ---- freeing ----

  /** The block `free` looks for: the last one that starts below `s`. */
  ghost predicate Precedes(free: seq<Seg>, i: nat, s: Seg) {
    i < |free| && free[i].at < s.at && (i + 1 < |free| ==> s.at < free[i + 1].at)
  }

  function Behind(free: seq<Seg>, i: nat, s: Seg): seq<Seg>
    requires i < |free|
  {
    free[..i + 1] + [s] + free[i + 1..]
  }

  /** Block `i` joined with its successor. */
  function Joined(free: seq<Seg>, i: nat): seq<Seg>
    requires i + 1 < |free|
  {
    free[..i] + [Seg(free[i].at, free[i].len + free[i + 1].len)] + free[i + 2..]
  }

  /** The list with `s` behind block `i`, joined with the block above it if they touch. */
  function UpFree(free: seq<Seg>, i: nat, s: Seg): seq<Seg>
    requires i < |free|
  {
    if i + 1 < |free| && s.End() == free[i + 1].at then Joined(Behind(free, i, s), i + 1) else Behind(free, i, s)
  }

  /** The list after giving back `s` behind `free[i]`, joined with the neighbours it touches. */
  function Inserted(free: seq<Seg>, i: nat, s: Seg): seq<Seg>
    requires i < |free|
  {
    var free2 := UpFree(free, i, s);
    if free[i].End() == s.at then Joined(free2, i) else free2
  }

  lemma UpFreeAt(free: seq<Seg>, i: nat, s: Seg, j: nat)
    requires i < |free| && j < |UpFree(free, i, s)|
    ensures var up := i + 1 < |free| && s.End() == free[i + 1].at;
            && |UpFree(free, i, s)| == |free| + (if up then 0 else 1)
            && UpFree(free, i, s)[j] ==
                 if j <= i then free[j]
                 else if j == i + 1 then (if up then Seg(s.at, s.len + free[i + 1].len) else s)
                 else if up then free[j] else free[j - 1]
  {
  }

  /** Which block is where after an insertion. */
  lemma InsertedAt(free: seq<Seg>, i: nat, s: Seg, j: nat)
    requires i < |free| && j < |Inserted(free, i, s)|
    ensures var up := i + 1 < |free| && s.End() == free[i + 1].at;
            var down := free[i].End() == s.at;
            var s1 := if up then Seg(s.at, s.len + free[i + 1].len) else s;
            var spot := if down then i else i + 1;
            var skip := (if up then 1 else 0) - (if down then 0 else 1);
            && 0 < |Inserted(free, i, s)| == |free| - skip
            && (j > spot ==> i + 1 <= j + skip < |free|)
            && Inserted(free, i, s)[j] ==
                 if j < spot then free[j]
                 else if j > spot then free[j + skip]
                 else if down then Seg(free[i].at, free[i].len + s1.len) else s1
  {
    UpFreeAt(free, i, s, i);
    UpFreeAt(free, i, s, i + 1);
    UpFreeAt(free, i, s, j);
    if free[i].End() == s.at {
      UpFreeAt(free, i, s, j + 1);
    }
    hide UpFree;
  }

  lemma {:induction false} FreedOrdered(free: seq<Seg>, live: map<nat, nat>, base: nat, top: nat, bp: nat, i: nat)
    requires HeapOk(free, live, base, top) && bp in live && Precedes(free, i, Seg(bp, live[bp]))
    ensures Ordered(Inserted(free, i, Seg(bp, live[bp])), base, top)
  {
    var s := Seg(bp, live[bp]);
    var free' := Inserted(free, i, s);
    assert Apart(s, free[i]) && (i + 1 < |free| ==> Apart(s, free[i + 1]));
    assert s.len > 0 && s.End() <= top;
    hide LiveApart, Inserted;
    InsertedAt(free, i, s, 0);
    forall j | 0 < j < |free'| ensures free'[j].len > 0 && base < free'[j].at && free'[j].End() <= top {
      InsertedAt(free, i, s, j);
    }
    forall j, k | 0 < j < k < |free'| ensures free'[j].End() < free'[k].at {
      InsertedPair(free, base, top, s, i, j, k);
    }
  }

  lemma InsertedPair(free: seq<Seg>, base: nat, top: nat, s: Seg, i: nat, j: nat, k: nat)
    requires Ordered(free, base, top) && Precedes(free, i, s) && s.len > 0
    requires Apart(s, free[i]) && (i + 1 < |free| ==> Apart(s, free[i + 1]))
    requires 0 < j < k < |Inserted(free, i, s)|
    ensures Inserted(free, i, s)[j].End() < Inserted(free, i, s)[k].at
  {
    InsertedAt(free, i, s, j);
    InsertedAt(free, i, s, k);
    hide Inserted;
  }

  lemma FreedApart(free: seq<Seg>, live: map<nat, nat>, base: nat, top: nat, bp: nat, i: nat)
    requires HeapOk(free, live, base, top) && bp in live && Precedes(free, i, Seg(bp, live[bp]))
    ensures LiveApart(Inserted(free, i, Seg(bp, live[bp])), live - {bp}, base, top)
  {
    var s := Seg(bp, live[bp]);
    var free' := Inserted(free, i, s);
    var live' := live - {bp};
    assert Apart(s, free[i]) && (i + 1 < |free| ==> Apart(s, free[i + 1]));
    hide Inserted, Ordered;
    forall a, j | a in live' && 0 <= j < |free'| ensures Apart(Seg(a, live'[a]), free'[j]) {
      InsertedAt(free, i, s, j);
      assert Apart(Seg(a, live[a]), s) && Apart(Seg(a, live[a]), free[i]);
      assert i + 1 < |free| ==> Apart(Seg(a, live[a]), free[i + 1]);
    }
  }

  /** Units of a list cut around one block. */
  lemma {:induction false} UnitsAround(pre: seq<Seg>, s: Seg, post: seq<Seg>)
    ensures FreeUnits(pre + [s] + post) == FreeUnits(pre) + s.len + FreeUnits(post)
  {
    FreeUnitsConcat(pre + [s], post);
    FreeUnitsConcat(pre, [s]);
  }

  lemma {:induction false} JoinedUnits(free: seq<Seg>, i: nat)
    requires i + 1 < |free|
    ensures FreeUnits(Joined(free, i)) == FreeUnits(free)
  {
    var pre, a, b, post := free[..i], free[i], free[i + 1], free[i + 2..];
    assert free == pre + [a] + ([b] + post);
    UnitsAround(pre, a, [b] + post);
    assert [b] + post == [] + [b] + post;
    UnitsAround([], b, post);
    UnitsAround(pre, Seg(a.at, a.len + b.len), post);
  }

  lemma {:induction false} FreedUnits(free: seq<Seg>, i: nat, s: Seg)
    requires i < |free|
    ensures FreeUnits(Inserted(free, i, s)) == FreeUnits(free) + s.len
  {
    var free1 := Behind(free, i, s);
    var up := i + 1 < |free| && s.End() == free[i + 1].at;
    var free2 := if up then Joined(free1, i + 1) else free1;
    assert free == free[..i + 1] + free[i + 1..];
    FreeUnitsConcat(free[..i + 1], free[i + 1..]);
    UnitsAround(free[..i + 1], s, free[i + 1..]);
    hide FreeUnits;
    if up {
      JoinedUnits(free1, i + 1);
    }
    if free[i].End() == s.at {
      JoinedUnits(free2, i);
    }
  }

  // ---- allocating ----

  /** The list after taking `n` units from the end of block `k`, or all of it. */
  function Taken(free: seq<Seg>, k: nat, n: nat): seq<Seg>
    requires k < |free| && n <= free[k].len
  {
    if free[k].len == n then free[..k] + free[k + 1..]
    else free[k := Seg(free[k].at, free[k].len - n)]
  }

  function TakenAt(free: seq<Seg>, k: nat, n: nat): nat
    requires k < |free| && n <= free[k].len
  {
    free[k].End() - n
  }

  lemma TakenOrdered(free: seq<Seg>, base: nat, top: nat, k: nat, n: nat)
    requires Ordered(free, base, top) && 0 < k < |free| && 0 < n <= free[k].len
    ensures Ordered(Taken(free, k, n), base, top)
  {
    var free' := Taken(free, k, n);
    forall j | 0 <= j < |free'| ensures TakenFrom(free, free', k, j) {
      TakenIndex(free, k, n, j);
    }
    hide Taken;
    assert TakenFrom(free, free', k, 0);
    forall i | 0 < i < |free'| ensures free'[i].len > 0 && base < free'[i].at && free'[i].End() <= top {
      assert TakenFrom(free, free', k, i);
    }
    forall i, j | 0 < i < j < |free'| ensures free'[i].End() < free'[j].at {
      assert TakenFrom(free, free', k, i) && TakenFrom(free, free', k, j);
    }
  }

  /** Block `j` of the new list is a block of the old one, or what is left of block `k`. */
  ghost predicate TakenFrom(free: seq<Seg>, free': seq<Seg>, k: nat, j: nat)
    requires j < |free'|
  {
    var i := if |free'| < |free| && j >= k then j + 1 else j;
    && i < |free| && free'[j].at == free[i].at && free'[j].End() <= free[i].End()
    && (i != k ==> free'[j] == free[i]) && (i == k ==> |free'| == |free| && free'[j].len > 0)
  }

  lemma TakenIndex(free: seq<Seg>, k: nat, n: nat, j: nat)
    requires k < |free| && 0 < n <= free[k].len && j < |Taken(free, k, n)|
    ensures TakenFrom(free, Taken(free, k, n), k, j)
  {
  }

  lemma TakenApart(free: seq<Seg>, live: map<nat, nat>, base: nat, top: nat, k: nat, n: nat)
    requires HeapOk(free, live, base, top) && 0 < k < |free| && 0 < n <= free[k].len
    ensures TakenAt(free, k, n) !in live
    ensures LiveApart(Taken(free, k, n), live[TakenAt(free, k, n) := n], base, top)
  {
    var a := TakenAt(free, k, n);
    var free', live' := Taken(free, k, n), live[a := n];
    assert forall b :: b in live ==> Apart(Seg(b, live[b]), free[k]);
    forall b | b in live ensures Apart(Seg(b, live[b]), Seg(a, n)) {
      assert Apart(Seg(b, live[b]), free[k]);
    }
    forall b, i | b in live' && 0 <= i < |free'| ensures Apart(Seg(b, live'[b]), free'[i]) {
      var i0 := if free[k].len == n && i >= k then i + 1 else i;
      if b != a {
        assert Apart(Seg(b, live[b]), free[i0]);
      }
    }
  }

  lemma TakenOk(free: seq<Seg>, live: map<nat, nat>, base: nat, top: nat, k: nat, n: nat)
    requires HeapOk(free, live, base, top) && 0 < k < |free| && 0 < n <= free[k].len
    ensures TakenAt(free, k, n) !in live
    ensures HeapOk(Taken(free, k, n), live[TakenAt(free, k, n) := n], base, top)
  {
    TakenOrdered(free, base, top, k, n);
    TakenApart(free, live, base, top, k, n);
  }

  lemma {:induction false} TakenUnits(free: seq<Seg>, k: nat, n: nat)
    requires k < |free| && n <= free[k].len
    ensures FreeUnits(Taken(free, k, n)) == FreeUnits(free) - n
  {
    var pre, post := free[..k], free[k + 1..];
    assert free == pre + [free[k]] + post;
    UnitsAround(pre, free[k], post);
    hide FreeUnits;
    if free[k].len == n {
      FreeUnitsConcat(pre, post);
    } else {
      var s := Seg(free[k].at, free[k].len - n);
      assert Taken(free, k, n) == pre + [s] + post;
      UnitsAround(pre, s, post);
    }
  }

  /** What was just taken belongs behind the rest of its block, or behind its old predecessor, and
      touches nothing above it. */
  lemma TakenPlace(free: seq<Seg>, base: nat, top: nat, k: nat, n: nat, i: nat)
    requires Ordered(free, base, top) && 0 < k < |free| && 0 < n <= free[k].len
    requires Precedes(Taken(free, k, n), i, Seg(TakenAt(free, k, n), n))
    ensures i == if n == free[k].len then k - 1 else k
    ensures n == free[k].len ==> free[i].End() < free[k].at
    ensures k + 1 < |free| ==> free[k].End() < free[k + 1].at
  {
    var rest, s := Taken(free, k, n), Seg(TakenAt(free, k, n), n);
    var at := if n == free[k].len then k - 1 else k;
    assert rest[at].at < s.at && forall j :: at < j < |rest| ==> s.End() < rest[j].at;
    TakenOrdered(free, base, top, k, n);
    assert forall j :: 0 < j <= at ==> rest[j].at < s.at;
  }

  /** Freeing what was just taken gives the list back exactly as it was: nothing is fragmented. */
  lemma FreeUndoesMalloc(free: seq<Seg>, base: nat, top: nat, k: nat, n: nat, i: nat)
    requires Ordered(free, base, top) && 0 < k < |free| && 0 < n <= free[k].len
    requires Precedes(Taken(free, k, n), i, Seg(TakenAt(free, k, n), n))
    ensures Inserted(Taken(free, k, n), i, Seg(TakenAt(free, k, n), n)) == free
  {
    TakenPlace(free, base, top, k, n, i);
    hide Ordered, Precedes;
    var free' := Inserted(Taken(free, k, n), i, Seg(TakenAt(free, k, n), n));
    InsertedAt(Taken(free, k, n), i, Seg(TakenAt(free, k, n), n), 0);
    assert |free'| == |free|;
    forall j | 0 <= j < |free| ensures free'[j] == free[j] {
      InsertedAt(Taken(free, k, n), i, Seg(TakenAt(free, k, n), n), j);
      hide Inserted;
    }
  }

  // ---- the list in memory ----

  function Succ(free: seq<Seg>, i: nat): nat {
    if i + 1 < |free| then i + 1 else 0
  }

  /** The header of block `i` holds its size and the address of the next block, circularly. */
  ghost predicate Node(mem: map<nat, Header>, free: seq<Seg>, i: nat) {
    i < |free| && free[i].at in mem && mem[free[i].at] == Header(free[Succ(free, i)].at, free[i].len)
  }

  ghost predicate Threaded(mem: map<nat, Header>, free: seq<Seg>) {
    forall i :: 0 <= i < |free| ==> Node(mem, free, i)
  }

  /** Blocks at different positions start at different addresses, in order. */
  lemma Addresses(free: seq<Seg>, base: nat, top: nat, i: nat, j: nat)
    requires Ordered(free, base, top) && i < j < |free|
    ensures free[i].at < free[j].at
  {
  }

  /** The header free writes at `bp`. */
  function UpHeader(mem: map<nat, Header>, p: nat, bp: nat, len: nat): Header
    requires p in mem && mem[p].ptr in mem
  {
    var next := mem[p].ptr;
    if bp + len == next then Header(mem[next].ptr, len + mem[next].size) else Header(next, len)
  }

  /** The header updates of `free`, after the place has been found. */
  function FreeHeaders(mem: map<nat, Header>, p: nat, bp: nat, len: nat): map<nat, Header>
    requires p in mem && mem[p].ptr in mem
  {
    var b := UpHeader(mem, p, bp, len);
    var mem1 := mem[bp := b];
    if p + mem[p].size == bp then mem1[p := Header(b.ptr, mem[p].size + b.size)]
    else mem1[p := Header(bp, mem[p].size)]
  }

  /** Different blocks start at different addresses. */
  ghost predicate Distinct(free: seq<Seg>) {
    forall i, j :: 0 <= i < j < |free| ==> free[i].at != free[j].at
  }

  lemma BehindDistinct(free: seq<Seg>, i: nat, s: Seg)
    requires i < |free| && Distinct(free) && forall j :: 0 <= j < |free| ==> free[j].at != s.at
    ensures Distinct(Behind(free, i, s))
  {
    var free' := Behind(free, i, s);
    forall j, k | 0 <= j < k < |free'| ensures free'[j].at != free'[k].at {
      var j0, k0 := if j <= i then j else j - 1, if k <= i then k else k - 1;
      assert j != i + 1 ==> free'[j] == free[j0];
      assert k != i + 1 ==> free'[k] == free[k0];
    }
  }

  lemma JoinedDistinct(free: seq<Seg>, i: nat)
    requires i + 1 < |free| && Distinct(free)
    ensures Distinct(Joined(free, i))
  {
    var free' := Joined(free, i);
    forall j, k | 0 <= j < k < |free'| ensures free'[j].at != free'[k].at {
      var j0, k0 := if j <= i then j else j + 1, if k <= i then k else k + 1;
      assert free'[j].at == free[j0].at && free'[k].at == free[k0].at;
    }
  }

  lemma ThreadAlone(mem: map<nat, Header>, free: seq<Seg>, i: nat, s: Seg)
    requires Threaded(mem, free) && i < |free| && Distinct(free) && forall j :: 0 <= j < |free| ==> free[j].at != s.at
    ensures Node(mem, free, i) && Distinct(Behind(free, i, s))
    ensures Threaded(mem[s.at := Header(mem[free[i].at].ptr, s.len)][free[i].at := Header(s.at, free[i].len)],
                     Behind(free, i, s))
  {
    assert Node(mem, free, i);
    BehindDistinct(free, i, s);
    var mem' := mem[s.at := Header(mem[free[i].at].ptr, s.len)][free[i].at := Header(s.at, free[i].len)];
    var free' := Behind(free, i, s);
    forall j | 0 <= j < |free'| ensures Node(mem', free', j) {
      if j != i + 1 {
        assert Node(mem, free, if j <= i then j else j - 1);
      }
    }
  }

  lemma ThreadJoin(mem: map<nat, Header>, free: seq<Seg>, i: nat)
    requires Threaded(mem, free) && i + 1 < |free| && Distinct(free)
    ensures Node(mem, free, i) && Node(mem, free, i + 1) && Distinct(Joined(free, i))
    ensures Threaded(mem[free[i].at := Header(mem[free[i + 1].at].ptr, free[i].len + free[i + 1].len)], Joined(free, i))
  {
    assert Node(mem, free, i) && Node(mem, free, i + 1);
    JoinedDistinct(free, i);
    var mem' := mem[free[i].at := Header(mem[free[i + 1].at].ptr, free[i].len + free[i + 1].len)];
    var free' := Joined(free, i);
    forall j | 0 <= j < |free'| ensures Node(mem', free', j) {
      if j != i {
        assert Node(mem, free, if j < i then j else j + 1);
      }
    }
  }

  /** The two ifs of `free` keep the list threaded. */
  /** The first half of free: `s` is on the list, joined with the block above it if they touch. */
  lemma ThreadUp(mem: map<nat, Header>, free: seq<Seg>, i: nat, s: Seg)
    requires Threaded(mem, free) && i < |free| && Distinct(free) && forall j :: 0 <= j < |free| ==> free[j].at != s.at
    requires i + 1 == |free| ==> free[0].at < s.at
    ensures Node(mem, free, i) && mem[free[i].at].ptr in mem
    ensures var p, b := free[i].at, UpHeader(mem, free[i].at, s.at, s.len);
            var free2 := UpFree(free, i, s);
            && Threaded(mem[s.at := b][p := Header(s.at, free[i].len)], free2)
            && Distinct(free2) && i + 1 < |free2| && free2[i] == free[i] && free2[i + 1] == Seg(s.at, b.size)
  {
    assert Node(mem, free, i) && Node(mem, free, Succ(free, i));
    assert i + 1 < |free| ==> free[i + 1].at != free[i].at && free[i + 1].at != s.at;
    var p, bp := free[i].at, s.at;
    var free1 := Behind(free, i, s);
    var mem1 := mem[bp := Header(mem[p].ptr, s.len)][p := Header(bp, free[i].len)];
    ThreadAlone(mem, free, i, s);
    assert free1[i] == free[i] && free1[i + 1] == s;
    hide Threaded, Distinct;
    var b := UpHeader(mem, p, bp, s.len);
    assert mem1[bp := b] == mem[bp := b][p := Header(bp, free[i].len)];
    if i + 1 < |free| && s.End() == free[i + 1].at {
      assert free1[i + 2] == free[i + 1] && mem1[free[i + 1].at] == mem[free[i + 1].at];
      ThreadJoin(mem1, free1, i + 1);
    } else {
      assert mem1[bp := b] == mem1;
    }
  }

  lemma FreeThreads(mem: map<nat, Header>, free: seq<Seg>, i: nat, s: Seg)
    requires Threaded(mem, free) && i < |free| && Distinct(free) && forall j :: 0 <= j < |free| ==> free[j].at != s.at
    requires i + 1 == |free| ==> free[0].at < s.at
    ensures Node(mem, free, i) && mem[free[i].at].ptr in mem
    ensures Threaded(FreeHeaders(mem, free[i].at, s.at, s.len), Inserted(free, i, s))
  {
    hide Threaded, Distinct, Behind, Joined;
    ThreadUp(mem, free, i, s);
    var p, b, free2 := free[i].at, UpHeader(mem, free[i].at, s.at, s.len), UpFree(free, i, s);
    var mem2 := mem[s.at := b][p := Header(s.at, free[i].len)];
    if free[i].End() == s.at {
      ThreadJoin(mem2, free2, i);
      assert FreeHeaders(mem, p, s.at, s.len) == mem2[p := Header(b.ptr, free[i].len + b.size)];
    }
  }

  // ---- taking a block out of the list ----

  /** malloc's header updates for block `p` behind `prev`: unlink it, or cut its tail off. */
  function TakeHeaders(mem: map<nat, Header>, prev: nat, p: nat, n: nat): map<nat, Header>
    requires prev in mem && p in mem && n <= mem[p].size
  {
    if mem[p].size == n then mem[prev := Header(mem[p].ptr, mem[prev].size)]
    else
      var rest := mem[p].size - n;
      var mem1 := mem[p := Header(mem[p].ptr, rest)];
      mem1[p + rest := Header(if p + rest in mem1 then mem1[p + rest].ptr else 0, n)]
  }

  lemma TakeThreads(mem: map<nat, Header>, free: seq<Seg>, base: nat, top: nat, k: nat, n: nat)
    requires Threaded(mem, free) && Ordered(free, base, top) && 0 < k < |free| && 0 < n <= free[k].len
    ensures Node(mem, free, k - 1) && Node(mem, free, k)
    ensures Threaded(TakeHeaders(mem, free[k - 1].at, free[k].at, n), Taken(free, k, n))
  {
    assert Node(mem, free, k - 1) && Node(mem, free, k);
    var mem', free' := TakeHeaders(mem, free[k - 1].at, free[k].at, n), Taken(free, k, n);
    forall j | 0 <= j < |free'| ensures Node(mem', free', j) {
      var j0 := if free[k].len == n && j >= k then j + 1 else j;
      TakeApart(free, base, top, k, n, j0);
      assert Node(mem, free, j0);
      TakeNode(mem, free, k, n, j);
    }
  }

  lemma TakeNode(mem: map<nat, Header>, free: seq<Seg>, k: nat, n: nat, j: nat)
    requires 0 < k < |free| && 0 < n <= free[k].len && Node(mem, free, k - 1) && Node(mem, free, k)
    requires j < |Taken(free, k, n)|
    requires var j0 := if free[k].len == n && j >= k then j + 1 else j;
             && Node(mem, free, j0)
             && (j0 != k ==> free[j0].at != free[k].at) && (j0 != k - 1 ==> free[j0].at != free[k - 1].at)
             && (n < free[k].len ==> free[j0].at != free[k].End() - n)
    ensures Node(TakeHeaders(mem, free[k - 1].at, free[k].at, n), Taken(free, k, n), j)
  {
    if free[k].len == n {
      assert Taken(free, k, n)[j] == free[if j >= k then j + 1 else j];
    }
  }

  /** The tail cut off block `k` starts at no block of the list, and blocks start apart. */
  lemma TakeApart(free: seq<Seg>, base: nat, top: nat, k: nat, n: nat, j: nat)
    requires Ordered(free, base, top) && 0 < k < |free| && 0 < n <= free[k].len && j < |free|
    ensures j != k ==> free[j].at != free[k].at
    ensures j != k - 1 ==> free[j].at != free[k - 1].at
    ensures n < free[k].len ==> free[j].at != free[k].End() - n
  {
    if j < k {
      Addresses(free, base, top, j, k);
    } else if j > k {
      Addresses(free, base, top, k, j);
    }
    if j < k - 1 {
      Addresses(free, base, top, j, k - 1);
    } else if j > k - 1 {
      Addresses(free, base, top, k - 1, j);
    }
  }

  // ---- the allocator ----

  /** The block behind which a live block belongs. */
  lemma FindPlace(free: seq<Seg>, live: map<nat, nat>, base: nat, top: nat, bp: nat) returns (i: nat)
    requires HeapOk(free, live, base, top) && bp in live
    ensures Precedes(free, i, Seg(bp, live[bp]))
    ensures Distinct(free) && forall j :: 0 <= j < |free| ==> free[j].at != bp
  {
    forall j | 0 <= j < |free| ensures free[j].at != bp {
      assert Apart(Seg(bp, live[bp]), free[j]);
    }
    i := 0;
    while i + 1 < |free| && free[i + 1].at < bp
      invariant i < |free| && free[i].at < bp
    {
      i := i + 1;
    }
  }

  lemma {:induction false} FreedOk(free: seq<Seg>, live: map<nat, nat>, base: nat, top: nat, bp: nat, i: nat)
    requires HeapOk(free, live, base, top) && bp in live && Precedes(free, i, Seg(bp, live[bp]))
    ensures HeapOk(Inserted(free, i, Seg(bp, live[bp])), live - {bp}, base, top)
    ensures FreeUnits(Inserted(free, i, Seg(bp, live[bp]))) + LiveUnits(live - {bp}) ==
        FreeUnits(free) + LiveUnits(live)
  {
    FreedOrdered(free, live, base, top, bp, i);
    FreedApart(free, live, base, top, bp, i);
    FreedUnits(free, i, Seg(bp, live[bp]));
    LiveUnitsRemove(live, bp);
  }

  /** Fresh memory above everything else joins the live blocks. */
  lemma {:induction false} GrownOk(free: seq<Seg>, live: map<nat, nat>, base: nat, top: nat, hp: nat, n: nat)
    requires HeapOk(free, live, base, top) && top <= hp && 0 < n
    ensures hp !in live && HeapOk(free, live[hp := n], base, hp + n)
    ensures LiveUnits(live[hp := n]) == LiveUnits(live) + n
    ensures forall i :: 0 <= i < |free| ==> free[i].at != hp
  {
    assert hp !in live;
    GrownApart(free, live, base, top, hp, n);
    hide LiveApart;
    LiveUnitsAdd(live, hp, n);
  }

  lemma GrownApart(free: seq<Seg>, live: map<nat, nat>, base: nat, top: nat, hp: nat, n: nat)
    requires HeapOk(free, live, base, top) && top <= hp && 0 < n && hp !in live
    ensures LiveApart(free, live[hp := n], base, hp + n)
  {
  }

  /** No live block starts where a free block starts. */
  lemma LiveNotFree(free: seq<Seg>, live: map<nat, nat>, base: nat, top: nat, i: nat, a: nat)
    requires HeapOk(free, live, base, top) && i < |free| && a in live
    ensures a != free[i].at
  {
    assert Apart(Seg(a, live[a]), free[i]);
  }

  ghost predicate Sized(mem: map<nat, Header>, live: map<nat, nat>) {
    forall a :: a in live ==> a in mem && mem[a].size == live[a]
  }

  /** `p` is the start of a free block. */
  ghost predicate Starts(free: seq<Seg>, p: nat) {
    exists i :: 0 <= i < |free| && free[i].at == p
  }

  /** Everything an allocator that has been used keeps: the list is sound, the headers spell it, and
      free units plus live units are the units obtained from sbrk. */
  ghost predicate Sound(mem: map<nat, Header>, freep: nat, free: seq<Seg>, live: map<nat, nat>, base: nat,
                        top: nat, total: nat)
  {
    && HeapOk(free, live, base, top) && Threaded(mem, free) && Sized(mem, live) && Starts(free, freep)
    && FreeUnits(free) + LiveUnits(live) == total
  }

  /** The headers free reads and writes exist, and none of them is `bp`'s successor by accident. */
  lemma FreeReady(mem: map<nat, Header>, free: seq<Seg>, live: map<nat, nat>, bp: nat, i: nat)
    requires Threaded(mem, free) && Sized(mem, live) && bp in live && i < |free|
    requires forall j :: 0 <= j < |free| ==> free[j].at != bp
    ensures var p := free[i].at;
            p in mem && mem[p].ptr in mem && bp in mem && mem[bp].size == live[bp] && p != bp && mem[p].ptr != bp
  {
    assert Node(mem, free, i) && Node(mem, free, Succ(free, i));
  }

  lemma FreeSized(mem: map<nat, Header>, free: seq<Seg>, live: map<nat, nat>, base: nat, top: nat, bp: nat, i: nat)
    requires HeapOk(free, live, base, top) && Sized(mem, live) && bp in live && i < |free|
    requires free[i].at in mem && mem[free[i].at].ptr in mem
    ensures Sized(FreeHeaders(mem, free[i].at, bp, live[bp]), live - {bp})
  {
    forall a | a in live ensures a != free[i].at {
      LiveNotFree(free, live, base, top, i, a);
    }
    hide HeapOk;
  }

  /** What free keeps, for the block behind which it puts `bp`. */
  lemma {:induction false} FreeStep(mem: map<nat, Header>, freep: nat, free: seq<Seg>, live: map<nat, nat>, base: nat,
                                    top: nat, total: nat, bp: nat, i: nat)
    requires Sound(mem, freep, free, live, base, top, total)
    requires bp in live && Precedes(free, i, Seg(bp, live[bp]))
    requires Distinct(free) && forall j :: 0 <= j < |free| ==> free[j].at != bp
    ensures var p := free[i].at;
            p in mem && mem[p].ptr in mem && bp in mem && mem[bp].size == live[bp] && p != bp && mem[p].ptr != bp
    ensures Sound(FreeHeaders(mem, free[i].at, bp, live[bp]), free[i].at, Inserted(free, i, Seg(bp, live[bp])),
                  live - {bp}, base, top, total)
  {
    hide Distinct, Inserted, FreeHeaders, HeapOk, Threaded, Sized, FreeUnits, LiveUnits, Node;
    var s := Seg(bp, live[bp]);
    FreeReady(mem, free, live, bp, i);
    FreedOk(free, live, base, top, bp, i);
    BaseFirst(free, live, base, top, bp);
    FreeThreads(mem, free, i, s);
    FreeSized(mem, free, live, base, top, bp, i);
    InsertedStarts(free, i, s);
  }

  lemma BaseFirst(free: seq<Seg>, live: map<nat, nat>, base: nat, top: nat, a: nat)
    requires HeapOk(free, live, base, top) && a in live
    ensures |free| > 0 && free[0].at < a
  {
  }

  /** What asking sbrk for `n` more units keeps. */
  lemma {:induction false} GrowStep(mem: map<nat, Header>, freep: nat, free: seq<Seg>, live: map<nat, nat>, base: nat,
                                    top: nat, total: nat, hp: nat, n: nat)
    requires Sound(mem, freep, free, live, base, top, total) && top <= hp && 0 < n
    ensures hp !in live && live[hp := n] - {hp} == live
    ensures Sound(mem[hp := Header(if hp in mem then mem[hp].ptr else 0, n)], freep, free, live[hp := n], base, hp + n,
                  total + n)
  {
    GrownOk(free, live, base, top, hp, n);
    Regrown(mem, free, hp, n);
    hide HeapOk, Threaded, Starts;
  }

  /** The predecessor still starts a block after an insertion behind it. */
  lemma InsertedStarts(free: seq<Seg>, i: nat, s: Seg)
    requires i < |free|
    ensures i < |Inserted(free, i, s)| && Inserted(free, i, s)[i].at == free[i].at
  {
  }

  /** Some block of the list holds at least what was inserted. */
  lemma InsertedFits(free: seq<Seg>, i: nat, s: Seg)
    requires i < |free|
    ensures Fits(Inserted(free, i, s), s.len)
  {
    var spot := if free[i].End() == s.at then i else i + 1;
    InsertedAt(free, i, s, 0);
    InsertedAt(free, i, s, spot);
  }

  lemma TakeSized(mem: map<nat, Header>, free: seq<Seg>, live: map<nat, nat>, base: nat, top: nat, k: nat, n: nat)
    requires HeapOk(free, live, base, top) && Threaded(mem, free) && Sized(mem, live)
    requires 0 < k < |free| && 0 < n <= free[k].len && TakenAt(free, k, n) !in live
    ensures Node(mem, free, k - 1) && Node(mem, free, k)
    ensures Sized(TakeHeaders(mem, free[k - 1].at, free[k].at, n), live[TakenAt(free, k, n) := n])
  {
    assert Node(mem, free, k - 1) && Node(mem, free, k);
    forall b | b in live ensures b != free[k - 1].at && b != free[k].at {
      LiveNotFree(free, live, base, top, k - 1, b);
      LiveNotFree(free, live, base, top, k, b);
    }
    Addresses(free, base, top, k - 1, k);
    hide HeapOk, Threaded;
  }

  /** What malloc keeps when it takes `n` units from block `k`. */
  lemma {:induction false} TakeStep(mem: map<nat, Header>, freep: nat, free: seq<Seg>, live: map<nat, nat>, base: nat,
                                    top: nat, total: nat, k: nat, n: nat)
    requires Sound(mem, freep, free, live, base, top, total) && 0 < k < |free| && 0 < n <= free[k].len
    ensures Node(mem, free, k - 1) && Node(mem, free, k)
    ensures TakenAt(free, k, n) !in live
    ensures Sound(TakeHeaders(mem, free[k - 1].at, free[k].at, n), free[k - 1].at, Taken(free, k, n),
                  live[TakenAt(free, k, n) := n], base, top, total)
  {
    assert Taken(free, k, n)[k - 1] == free[k - 1];
    assert Ordered(free, base, top);
    hide Ordered, LiveApart, Threaded, Sized, FreeUnits, LiveUnits, TakeHeaders, Taken, TakenAt;
    TakenOk(free, live, base, top, k, n);
    TakenUnits(free, k, n);
    TakeThreads(mem, free, base, top, k, n);
    TakeSized(mem, free, live, base, top, k, n);
    LiveUnitsAdd(live, TakenAt(free, k, n), n);
  }

  // ---- the search of malloc ----

  /** Some block holds `n` units. */
  ghost predicate Fits(free: seq<Seg>, n: nat) {
    exists i :: 0 <= i < |free| && free[i].len >= n
  }

  /** Block `i` is passed on the way from behind `start` round the list to `k`. */
  predicate Passed(start: nat, k: nat, i: nat) {
    if k > start then start < i < k else i > start || i < k
  }

  ghost predicate PassedSmall(free: seq<Seg>, start: nat, k: nat, n: nat) {
    forall i :: 0 <= i < |free| && Passed(start, k, i) ==> free[i].len < n
  }

  lemma PassNext(free: seq<Seg>, start: nat, k: nat, n: nat)
    requires start < |free| && k < |free| && PassedSmall(free, start, k, n) && free[k].len < n
    ensures k != start ==> PassedSmall(free, start, Succ(free, k), n)
    ensures Succ(free, k) < |free|
    ensures k != start ==> Remaining(|free|, start, Succ(free, k)) < Remaining(|free|, start, k)
    ensures k == start ==> !Fits(free, n)
  {
  }

  /** Nothing has been passed right behind the start. */
  lemma PassStart(free: seq<Seg>, start: nat, n: nat)
    requires start < |free|
    ensures PassedSmall(free, start, Succ(free, start), n)
  {
  }

  function Remaining(count: nat, start: nat, k: nat): nat
    requires start < count && k < count
  {
    if k > start then count - k + start else start - k
  }

  /** malloc's variables: `freep` starts block `start`, `p` block `k`, and `prevp` the one before. */
  ghost predicate Cursor(mem: map<nat, Header>, free: seq<Seg>, start: nat, freep: nat, k: nat, prevp: nat, p: nat) {
    && start < |free| && k < |free| && freep == free[start].at
    && p == free[k].at && prevp == free[Pred(free, k)].at
    && p in mem && mem[p].size == free[k].len
  }

  function Pred(free: seq<Seg>, k: nat): (j: nat)
    requires k < |free|
    ensures j < |free| && Succ(free, j) == k
  {
    if k == 0 then |free| - 1 else k - 1
  }

  lemma {:induction false} NodeAt(mem: map<nat, Header>, freep: nat, free: seq<Seg>, live: map<nat, nat>, base: nat,
                                  top: nat, total: nat, k: nat)
    requires Sound(mem, freep, free, live, base, top, total) && k < |free|
    ensures Succ(free, k) < |free| && Pred(free, Succ(free, k)) == k
    ensures free[k].at in mem && mem[free[k].at] == Header(free[Succ(free, k)].at, free[k].len)
  {
    assert Node(mem, free, k);
  }

  lemma {:induction false} IndexOf(mem: map<nat, Header>, freep: nat, free: seq<Seg>, live: map<nat, nat>, base: nat,
                                   top: nat, total: nat) returns (i: nat)
    requires Sound(mem, freep, free, live, base, top, total)
    ensures i < |free| && free[i].at == freep
    ensures Succ(free, i) < |free| && Pred(free, Succ(free, i)) == i
    ensures freep in mem && mem[freep] == Header(free[Succ(free, i)].at, free[i].len)
  {
    i :| i < |free| && free[i].at == freep;
    assert Node(mem, free, i);
  }

  lemma {:induction false} SameBlock(mem: map<nat, Header>, freep: nat, free: seq<Seg>, live: map<nat, nat>, base: nat,
                                     top: nat, total: nat, i: nat, k: nat)
    requires Sound(mem, freep, free, live, base, top, total) && i < |free| && k < |free|
    requires free[i].at == free[k].at
    ensures i == k
  {
    if i < k {
      Addresses(free, base, top, i, k);
    } else if k < i {
      Addresses(free, base, top, k, i);
    }
  }

  function NUnits(nbytes: nat): nat {
    (nbytes + 15) / 16 + 1
  }

  const MORECORE := 4096

  /** What morecore asks for: at least 4096 units. */
  function Asked(nu: nat): nat {
    if nu < MORECORE then MORECORE else nu
  }

  const INT_MAX := 0x7FFF_FFFF

  /** sbrk takes an int: what becomes of morecore's byte count `Asked(nu) * 16`. */
  function SbrkArgument(nu: nat): int {
    var n := Asked(nu) * 16 % 0x1_0000_0000;
    if n <= INT_MAX then n else n - 0x1_0000_0000
  }

  /** growproc: the size of the process after sbrk(n). A shrink by more than the size wraps around in `uint` and
      changes nothing. */
  function GrowProc(sz: nat, n: int): nat {
    if sz + n >= 0 then sz + n else sz
  }

  /** What morecore counts as its own, and what sbrk does to the end of the process's memory, which was at `at`
      units before. */
  predicate Granted(at: nat, nu: nat, total: nat, obtained: int, total': nat, obtained': int, brk': nat) {
    total' == total + Asked(nu) && brk' == GrowProc(at * 16, SbrkArgument(nu)) && obtained' == obtained + brk' - at * 16
  }

  /** sbrk gives the units that morecore puts on the list exactly if their bytes fit an int, and otherwise less. */
  lemma GrantedExactly(at: nat, nu: nat, total: nat, obtained: int, total': nat, obtained': int, brk': nat)
    requires Granted(at, nu, total, obtained, total', obtained', brk')
    ensures total' - total == if nu < 4096 then 4096 else nu
    ensures if Asked(nu) * 16 <= INT_MAX then brk' == (at + Asked(nu)) * 16 && obtained' == obtained + Asked(nu) * 16
            else brk' < (at + Asked(nu)) * 16 && obtained' < obtained + Asked(nu) * 16
  {
    var bytes := Asked(nu) * 16;
    assert bytes == bytes / 0x1_0000_0000 * 0x1_0000_0000 + bytes % 0x1_0000_0000;
  }

  /** malloc's `uint` arithmetic asks sbrk for what it needs exactly up to this many bytes; for larger
      requests sbrk is asked to shrink the process, or for less than a block of the size needed. */
  lemma SbrkAskedExactly(nbytes: nat)
    requires nbytes < 0x1_0000_0000
    ensures SbrkArgument(NUnits(nbytes)) == Asked(NUnits(nbytes)) * 16 <==> nbytes <= INT_MAX - 31
    ensures Asked(NUnits(nbytes)) * 16 <= INT_MAX <==> nbytes <= INT_MAX - 31
    ensures nbytes > INT_MAX - 31 ==> SbrkArgument(NUnits(nbytes)) < nbytes
  {
  }

  class Allocator {
    const base: nat
    var mem: map<nat, Header>
    var freep: nat               // 0 before the first malloc
    ghost var free: seq<Seg>
    ghost var live: map<nat, nat>
    ghost var top: nat           // end of the memory the list and the live blocks may reach to
    ghost var total: nat         // units put on the list so far
    ghost var brk: nat           // end of the memory the process has, in bytes
    ghost var obtained: int      // bytes obtained from sbrk

    ghost predicate Valid()
      reads this
    {
      && 0 < base < top
      && if freep == 0 then free == [] && live == map[] && total == 0
         else Sound(mem, freep, free, live, base, top, total)
    }

    /** All memory on the list or in use is memory that sbrk has given, and none of it is lost. */
    ghost predicate Backed()
      reads this
    {
      top * 16 <= brk && total * 16 == obtained
    }

    /** The list and the live blocks reach past the end of the process's memory, and are more than sbrk has given. */
    ghost predicate Short()
      reads this
    {
      brk < top * 16 && obtained < total * 16
    }

    constructor (b: nat, end: nat)
      requires 0 < b < end
      ensures Valid() && Backed() && base == b && top == end && live == map[] && free == [] && total == 0
      ensures brk == end * 16 && obtained == 0
    {
      base, top := b, end;
      brk, obtained := end * 16, 0;
      mem, freep := map[], 0;
      free, live, total := [], map[], 0;
    }

    /** free's search: walk from freep to the block behind which `bp` belongs. It ends within one
        turn of the list. */
    method FindPredecessor(bp: nat) returns (p: nat, ghost i: nat)
      requires Valid() && bp in live
      ensures freep != 0 && Precedes(free, i, Seg(bp, live[bp])) && p == free[i].at
      ensures exists k: nat :: Precedes(free, k, Seg(bp, live[bp])) && p == free[k].at
      ensures Distinct(free) && forall j :: 0 <= j < |free| ==> free[j].at != bp
    {
      ghost var t := FindPlace(free, live, base, top, bp);
      p := freep;
      i :| i < |free| && free[i].at == freep;
      assert base < bp && free[0].at == base;
      hide LiveApart;
      while true
        invariant i < |free| && p == free[i].at
        decreases if i <= t then t - i else |free| - i + t
      {
        assert Node(mem, free, i);
        if i + 1 < |free| {
          Addresses(free, base, top, i, i + 1);
        }
        if i < t {
          Addresses(free, base, top, i, t);
        } else if t < i {
          Addresses(free, base, top, t, i);
        }
        if bp > p && bp < mem[p].ptr {
          return;
        }
        if p >= mem[p].ptr && (bp > p || bp < mem[p].ptr) {
          return;
        }
        p := mem[p].ptr;
        i := Succ(free, i);
      }
    }

    /** The four assignments of free. */
    method LinkIn(p: nat, bp: nat)
      requires p in mem && mem[p].ptr in mem && bp in mem && p != bp && mem[p].ptr != bp
      modifies this`mem
      ensures mem == FreeHeaders(old(mem), p, bp, old(mem[bp].size))
    {
      var next := mem[p].ptr;
      if bp + mem[bp].size == next {
        mem := mem[bp := Header(mem[next].ptr, mem[bp].size + mem[next].size)];
      } else {
        mem := mem[bp := Header(next, mem[bp].size)];
      }
      if p + mem[p].size == bp {
        mem := mem[p := Header(mem[bp].ptr, mem[p].size + mem[bp].size)];
      } else {
        mem := mem[p := Header(bp, mem[p].size)];
      }
    }

    /** Give a block back: it is joined with the free neighbours it touches, and nothing else moves. */
    method Free(bp: nat)
      requires Valid() && bp in live
      modifies this`mem, this`freep, this`free, this`live
      ensures Valid() && freep != 0 && live == old(live) - {bp}
      ensures exists i: nat :: Precedes(old(free), i, Seg(bp, old(live)[bp])) &&
                               free == Inserted(old(free), i, Seg(bp, old(live)[bp]))
    {
      var p;
      ghost var i;
      p, i := FindPredecessor(bp);
      FreeStep(mem, freep, free, live, base, top, total, bp, i);
      hide Sound, FreeHeaders, Inserted, Distinct, Precedes;
      LinkIn(p, bp);
      freep := p;
      free := Inserted(free, i, Seg(bp, live[bp]));
      live := live - {bp};
    }

    /** Make the `n` units at `hp` a block and free it into the list. */
    method AddCore(hp: nat, n: nat)
      requires Valid() && freep != 0 && n > 0 && top <= hp
      modifies this`mem, this`freep, this`free, this`live, this`top, this`total
      ensures Valid() && freep != 0 && live == old(live) && Fits(free, n)
      ensures top == hp + n && total == old(total) + n
    {
      hide Sound, Inserted, Fits;
      GrowStep(mem, freep, free, live, base, top, total, hp, n);
      mem := mem[hp := Header(if hp in mem then mem[hp].ptr else 0, n)];
      live, top, total := live[hp := n], hp + n, total + n;
      ghost var before := free;
      Free(hp);
      ghost var i: nat :| Precedes(before, i, Seg(hp, n)) && free == Inserted(before, i, Seg(hp, n));
      InsertedFits(before, i, Seg(hp, n));
    }

    /** Ask sbrk for at least 4096 units and free them into the list. `grant` is sbrk's answer, the end of the
        process's memory before it grew. */
    method MoreCore(nu: nat, grant: Option<nat>) returns (ok: bool)
      requires Valid() && Backed() && freep != 0 && nu > 0
      requires grant.Some? ==> brk <= grant.value * 16
      modifies this
      ensures Valid() && freep != 0 && live == old(live) && ok == grant.Some?
      ensures !ok ==> unchanged(this)
      ensures ok ==> Fits(free, nu) && Granted(grant.value, nu, old(total), old(obtained), total, obtained, brk)
      ensures ok ==> if Asked(nu) * 16 <= INT_MAX then Backed() else Short()
    {
      hide Sound, Fits;
      if grant == None {
        return false;
      }
      var hp, n := grant.value, Asked(nu);
      brk := GrowProc(hp * 16, SbrkArgument(nu));
      obtained := obtained + brk - hp * 16;
      GrantedExactly(hp, nu, total, old(obtained), total + n, obtained, brk);
      hide GrowProc, SbrkArgument;
      AddCore(hp, n);
      FitsLess(free, n, nu);
      return true;
    }

    /** The header updates of malloc on a block that is large enough; `a` is the block handed out. */
    method TakeOut(prevp: nat, p: nat, n: nat) returns (a: nat)
      requires prevp in mem && p in mem && 0 < n <= mem[p].size
      modifies this`mem
      ensures mem == TakeHeaders(old(mem), prevp, p, n) && a == p + old(mem[p].size) - n
    {
      a := p;
      if mem[p].size == n {
        mem := mem[prevp := Header(mem[p].ptr, mem[prevp].size)];
      } else {
        mem := mem[p := Header(mem[p].ptr, mem[p].size - n)];
        a := p + mem[p].size;
        mem := mem[a := Header(if a in mem then mem[a].ptr else 0, n)];
      }
    }

    /** Hand out `n` units of block `k`, which the search has found. */
    method Hand(prevp: nat, p: nat, n: nat, ghost start: nat, ghost k: nat) returns (a: nat)
      requires Valid() && freep != 0 && n > 0 && Cursor(mem, free, start, freep, k, prevp, p) && n <= mem[p].size
      modifies this`mem, this`freep, this`free, this`live
      ensures Valid() && freep == prevp && a !in old(live) && live == old(live)[a := n]
      ensures n <= old(free)[k].len && free == Taken(old(free), k, n)
    {
      assert free[0].len == 0 && 0 < free[Pred(free, k)].at;
      TakeStep(mem, freep, free, live, base, top, total, k, n);
      assert prevp == free[k - 1].at && free[k - 1].at in mem;
      hide Sound, Taken;
      a := TakeOut(prevp, p, n);
      freep := prevp;
      free, live := Taken(free, k, n), live[a := n];
    }

    /** Up to the first malloc there is no list. */
    method Start()
      requires Valid()
      modifies this`mem, this`freep, this`free
      ensures Valid() && freep != 0
      ensures old(freep) != 0 ==> unchanged(this)
      ensures forall n | n > 0 :: Fits(free, n) <==> Fits(old(free), n)
    {
      if freep == 0 {
        mem := mem[base := Header(base, 0)];
        freep := base;
        free := [Seg(base, 0)];
        assert Node(mem, free, 0) && free[0].at == base;
        assert FreeUnits(free) == 0;
      }
    }

    /** malloc's loop: go round the list from freep to the first block of `n` units; after a whole turn
        in vain, ask for more memory, which happens at most once. */
    method Search(n: nat, grant: Option<nat>) returns (found: bool, prevp: nat, p: nat, ghost start: nat, ghost k: nat)
      requires Valid() && Backed() && freep != 0 && n > 0
      requires grant.Some? ==> brk <= grant.value * 16
      modifies this
      ensures Valid() && freep != 0 && live == old(live)
      ensures if !found || Fits(old(free), n) || Asked(n) * 16 <= INT_MAX then Backed() else Short()
      ensures if grant.Some? && !Fits(old(free), n)
              then Granted(grant.value, n, old(total), old(obtained), total, obtained, brk)
              else total == old(total) && obtained == old(obtained)
      ensures found <==> grant.Some? || Fits(old(free), n)
      ensures found ==> Cursor(mem, free, start, freep, k, prevp, p) && n <= mem[p].size
    {
      hide Sound, Fits, Succ, Pred, PassedSmall, Granted, Backed, Short, Asked;
      start := IndexOf(mem, freep, free, live, base, top, total);
      k := Succ(free, start);
      NodeAt(mem, freep, free, live, base, top, total, k);
      PassStart(free, start, n);
      found, prevp := false, freep;
      p := mem[prevp].ptr;
      while mem[p].size < n
        invariant Valid() && freep != 0 && live == old(live)
        invariant Cursor(mem, free, start, freep, k, prevp, p) && PassedSmall(free, start, k, n)
        invariant if found then grant.Some? && Fits(free, n) && !Fits(old(free), n)
                  else free == old(free) && total == old(total) && brk == old(brk) && obtained == old(obtained)
        invariant found ==> Granted(grant.value, n, old(total), old(obtained), total, obtained, brk)
        invariant if !found || Asked(n) * 16 <= INT_MAX then Backed() else Short()
        decreases if found then 0 else 1, Remaining(|free|, start, k)
      {
        NodeAt(mem, freep, free, live, base, top, total, k);
        PassNext(free, start, k, n);
        if p == freep {
          SameBlock(mem, freep, free, live, base, top, total, start, k);
          found := MoreCore(n, grant);
          if !found {
            return;
          }
          p := freep;
          start := IndexOf(mem, freep, free, live, base, top, total);
          k := start;
        }
        PassStart(free, start, n);
        prevp, p := p, mem[p].ptr;
        k := Succ(free, k);
        NodeAt(mem, freep, free, live, base, top, total, k);
      }
      FitsAt(free, k, n);
      found := true;
    }

    /** malloc's loop and what it does with the block it finds. */
    method Allot(n: nat, grant: Option<nat>) returns (r: Option<nat>)
      requires Valid() && Backed() && freep != 0 && n > 0
      requires grant.Some? ==> brk <= grant.value * 16
      modifies this
      ensures Valid()
      ensures r == None <==> grant == None && !Fits(old(free), n)
      ensures r.Some? ==> r.value !in old(live)
      ensures live == if r.Some? then old(live)[r.value := n] else old(live)
      ensures if grant.Some? && !Fits(old(free), n)
              then Granted(grant.value, n, old(total), old(obtained), total, obtained, brk)
              else total == old(total) && obtained == old(obtained)
      ensures if r == None || Fits(old(free), n) || Asked(n) * 16 <= INT_MAX then Backed() else Short()
    {
      hide Sound, Fits, Cursor, Asked, Granted;
      var found, prevp, p;
      ghost var start, k;
      found, prevp, p, start, k := Search(n, grant);
      r := None;
      if found {
        var a := Hand(prevp, p, n, start, k);
        r := Some(a);
      }
    }

    /** A block of at least `nbytes` bytes, never part of one that is still in use. Memory is asked
        for only if no free block is large enough, once, and malloc fails only if it is refused. If more has to
        be asked for than fits an int, the block reaches past the end of the process's memory. */
    method Malloc(nbytes: nat, grant: Option<nat>) returns (r: Option<nat>)
      requires Valid() && Backed() && nbytes < 0x1_0000_0000
      requires grant.Some? ==> brk <= grant.value * 16
      modifies this
      ensures Valid()
      ensures r == None <==> grant == None && !Fits(old(free), NUnits(nbytes))
      ensures r.Some? ==> r.value !in old(live)
      ensures live == if r.Some? then old(live)[r.value := NUnits(nbytes)] else old(live)
      ensures if grant.Some? && !Fits(old(free), NUnits(nbytes))
              then Granted(grant.value, NUnits(nbytes), old(total), old(obtained), total, obtained, brk)
              else total == old(total) && obtained == old(obtained)
      ensures if r == None || Fits(old(free), NUnits(nbytes)) || nbytes <= INT_MAX - 31 then Backed() else Short()
    {
      var n := NUnits(nbytes);
      assert n > 0;
      SbrkAskedExactly(nbytes);
      hide Sound, Fits, Asked, Granted, Short, NUnits;
      Start();
      r := Allot(n, grant);
    }
  }

  /** On a fresh heap the largest request makes morecore ask for 16 bytes, and malloc hands out 268435457 units. */
  method Overclaims(b: nat, end: nat) returns (a: Allocator, r: Option<nat>)
    requires 0 < b < end
    ensures a.Valid() && a.Short() && a.obtained == 16
    ensures r.Some? && a.live == map[r.value := 268435457] && a.total == 268435457
  {
    a := new Allocator(b, end);
    r := a.Malloc(0xFFFF_FFFF, Some(end));
  }

  lemma FitsAt(free: seq<Seg>, k: nat, n: nat)
    requires k < |free| && n <= free[k].len
    ensures Fits(free, n)
  {
  }

  lemma FitsLess(free: seq<Seg>, n: nat, m: nat)
    requires Fits(free, n) && m <= n
    ensures Fits(free, m)
  {
  }

  /** Writing a header outside the list leaves the list threaded. */
  lemma Regrown(mem: map<nat, Header>, free: seq<Seg>, hp: nat, n: nat)
    requires Threaded(mem, free) && forall i :: 0 <= i < |free| ==> free[i].at != hp
    ensures Threaded(mem[hp := Header(if hp in mem then mem[hp].ptr else 0, n)], free)
  {
    var mem' := mem[hp := Header(if hp in mem then mem[hp].ptr else 0, n)];
    forall i | 0 <= i < |free| ensures Node(mem', free, i) {
      assert Node(mem, free, i);
    }
  }
}
