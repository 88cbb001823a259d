/** kernel/virtio_disk.c: the descriptors, as the driver's loops change them, and the two rings shared with a
    device that takes and completes requests in its own time and in any order. */
module Virtio {
  import opened Basics

  const NUM: nat := 8
  const WORD: nat := 0x1_0000   // ring indices are uint16


  /** What a descriptor points to: a command header, the data of a buffer, or a status byte. */
  datatype Addr = Null | Op(index: nat) | Data(buf: nat) | Status(index: nat)

  /** A DMA descriptor; `more` and `write` are the flags VRING_DESC_F_NEXT and VRING_DESC_F_WRITE. */
  datatype Desc = Desc(addr: Addr, more: bool, write: bool, next: nat)

  const NO_DESC := Desc(Null, false, false, 0)

  // ---- the descriptors ----

  /** The first free descriptor. */
  predicate FirstFree(free: seq<bool>, i: nat) {
    i < |free| && free[i] && forall j :: 0 <= j < i ==> !free[j]
  }

  /** The three descriptors that alloc3_desc takes, in this order. */
  predicate FirstThree(free: seq<bool>, a: nat, b: nat, c: nat) {
    FirstFree(free, a) && FirstFree(free[a := false], b) && FirstFree(free[a := false][b := false], c)
  }

  predicate FewerThanThree(free: seq<bool>) {
    forall a, b, c :: 0 <= a < b < c < |free| ==> !(free[a] && free[b] && free[c])
  }

  /** A linked list of descriptors in use. */
  ghost predicate IsChain(desc: seq<Desc>, free: seq<bool>, chain: seq<nat>) {
    && |chain| > 0 && |desc| == |free|
    && (forall k :: 0 <= k < |chain| ==> chain[k] < |free| && !free[chain[k]])
    && (forall k, l :: 0 <= k < l < |chain| ==> chain[k] != chain[l])
    && (forall k :: 0 <= k < |chain| - 1 ==> desc[chain[k]].more && desc[chain[k]].next == chain[k + 1])
    && !desc[chain[|chain| - 1]].more
  }

  /** The descriptors `gone` are free and empty, the others as before. */
  ghost predicate Freed(free0: seq<bool>, desc0: seq<Desc>, free: seq<bool>, desc: seq<Desc>, gone: seq<nat>) {
    && |free| == |free0| == |desc| == |desc0|
    && forall k :: 0 <= k < |free| ==>
         free[k] == (free0[k] || k in gone) && desc[k] == if k in gone then NO_DESC else desc0[k]
  }

  lemma FreedNext(free0: seq<bool>, desc0: seq<Desc>, free: seq<bool>, desc: seq<Desc>, chain: seq<nat>, n: nat)
    requires IsChain(desc0, free0, chain) && n < |chain| && Freed(free0, desc0, free, desc, chain[..n])
    ensures chain[n] < |free| && !free[chain[n]]
    ensures Freed(free0, desc0, free[chain[n] := true], desc[chain[n] := NO_DESC], chain[..n + 1])
    ensures if n + 1 < |chain| then desc[chain[n]].more && desc[chain[n]].next == chain[n + 1]
            else !desc[chain[n]].more
    ensures n + 1 == |chain| ==> chain[..n + 1] == chain
  {
    assert chain[n] !in chain[..n];
    assert chain[..n + 1] == chain[..n] + [chain[n]];
  }

  class Queue {
    const desc: array<Desc>
    const free: array<bool>

    ghost predicate Ok()
      reads this, desc, free
    {
      && desc.Length == NUM && free.Length == NUM
      && forall i :: 0 <= i < NUM && free[i] ==> desc[i] == NO_DESC
    }

    constructor ()
      ensures Ok() && fresh(desc) && fresh(free) && forall i :: 0 <= i < NUM ==> free[i]
    {
      desc := new Desc[NUM](_ => NO_DESC);
      free := new bool[NUM](_ => true);
    }

    method AllocDesc() returns (i: int)
      requires Ok()
      modifies free
      ensures Ok()
      ensures i < 0 ==> free[..] == old(free[..]) && forall k :: 0 <= k < NUM ==> !free[k]
      ensures i >= 0 ==> FirstFree(old(free[..]), i) && free[..] == old(free[..])[i := false]
    {
      i := 0;
      while i < NUM
        invariant 0 <= i <= NUM && free[..] == old(free[..])
        invariant forall k :: 0 <= k < i ==> !free[k]
      {
        if free[i] {
          free[i] := false;
          return;
        }
        i := i + 1;
      }
      return -1;
    }

    method FreeDesc(i: nat)
      requires Ok() && i < NUM && !free[i]   // otherwise it panics
      modifies free, desc
      ensures Ok() && free[..] == old(free[..])[i := true] && desc[..] == old(desc[..])[i := NO_DESC]
    {
      desc[i] := NO_DESC;
      free[i] := true;
    }

    /** Free the descriptors of a chain, all of them and no other. */
    method FreeChain(head: nat, ghost chain: seq<nat>)
      requires Ok() && IsChain(desc[..], free[..], chain) && chain[0] == head
      modifies free, desc
      ensures Ok() && Freed(old(free[..]), old(desc[..]), free[..], desc[..], chain)
    {
      var i := head;
      ghost var n := 0;
      ghost var free0, desc0 := free[..], desc[..];
      while true
        invariant Ok() && 0 <= n < |chain| && i == chain[n]
        invariant Freed(free0, desc0, free[..], desc[..], chain[..n])
        decreases |chain| - n
      {
        FreedNext(free0, desc0, free[..], desc[..], chain, n);
        var more, next := desc[i].more, desc[i].next;
        hide Freed, IsChain;
        FreeDesc(i);
        n := n + 1;
        if !more {
          break;
        }
        i := next;
      }
      assert chain[..n] == chain;
    }

    /** Take the first three free descriptors, or none if there are fewer. */
    method Alloc3Desc() returns (ok: bool, idx: seq<nat>)
      requires Ok()
      modifies free, desc
      ensures Ok() && desc[..] == old(desc[..])
      ensures ok ==> |idx| == 3 && FirstThree(old(free[..]), idx[0], idx[1], idx[2])
      ensures ok ==> free[..] == old(free[..])[idx[0] := false][idx[1] := false][idx[2] := false]
      ensures !ok ==> free[..] == old(free[..]) && FewerThanThree(free[..])
    {
      idx := [];
      ghost var f := [free[..]];
      while |idx| < 3
        invariant |idx| <= 3 && |f| == |idx| + 1 && f[0] == old(free[..]) && f[|idx|] == free[..]
        invariant forall k :: 0 <= k < |f| ==> |f[k]| == NUM
        invariant forall k :: 0 <= k < |idx| ==> FirstFree(f[k], idx[k]) && f[k + 1] == f[k][idx[k] := false]
        invariant Ok() && desc[..] == old(desc[..])
      {
        var i := AllocDesc();
        if i < 0 {
          TakenBack(f, idx);
          Undo(idx, f[0]);
          return false, idx;
        }
        idx := idx + [i];
        f := f + [free[..]];
      }
      ok := true;
    }

    /** The inner loop of alloc3_desc. */
    method Undo(idx: seq<nat>, ghost free0: seq<bool>)
      requires Ok() && |free0| == NUM && Taken(free0, free[..], idx)
      requires forall i :: 0 <= i < NUM && free0[i] ==> desc[i] == NO_DESC
      modifies free, desc
      ensures Ok() && desc[..] == old(desc[..]) && free[..] == free0
    {
      var j := 0;
      while j < |idx|
        invariant 0 <= j <= |idx| && Ok() && Taken(free0, free[..], idx[j..]) && desc[..] == old(desc[..])
      {
        assert idx[j..][0] == idx[j] && idx[j..][1..] == idx[j + 1..];
        FreeDesc(idx[j]);
        j := j + 1;
      }
    }
  }

  /** Some free descriptors have been taken. */
  ghost predicate Taken(free0: seq<bool>, free: seq<bool>, idx: seq<nat>) {
    && |free| == |free0|
    && (forall k :: 0 <= k < |idx| ==> idx[k] < |free0| && free0[idx[k]])
    && (forall k, l :: 0 <= k < l < |idx| ==> idx[k] != idx[l])
    && (forall i :: 0 <= i < |free0| ==> free[i] == (free0[i] && i !in idx))
  }

  lemma TakenNext(free0: seq<bool>, free: seq<bool>, idx: seq<nat>, i: nat)
    requires |free| == |free0| && Taken(free0, free, idx) && FirstFree(free, i)
    ensures Taken(free0, free[i := false], idx + [i])
  {
  }

  lemma {:induction false} TakenSoFar(f: seq<seq<bool>>, idx: seq<nat>, n: nat)
    requires |f| == |idx| + 1 && n <= |idx| && forall k :: 0 <= k < |f| ==> |f[k]| == |f[0]|
    requires forall k :: 0 <= k < |idx| ==> FirstFree(f[k], idx[k]) && f[k + 1] == f[k][idx[k] := false]
    ensures Taken(f[0], f[n], idx[..n])
  {
    if n > 0 {
      TakenSoFar(f, idx, n - 1);
      assert idx[..n] == idx[..n - 1] + [idx[n - 1]];
      assert FirstFree(f[n - 1], idx[n - 1]);
      hide Taken;
      TakenNext(f[0], f[n - 1], idx[..n - 1], idx[n - 1]);
    }
  }

  /** When nothing is left after fewer than three, there were fewer than three. */
  lemma TakenBack(f: seq<seq<bool>>, idx: seq<nat>)
    requires |f| == |idx| + 1 && |idx| < 3 && forall k :: 0 <= k < |f| ==> |f[k]| == |f[0]|
    requires forall k :: 0 <= k < |idx| ==> FirstFree(f[k], idx[k]) && f[k + 1] == f[k][idx[k] := false]
    requires forall i :: 0 <= i < |f[0]| ==> !f[|idx|][i]
    ensures Taken(f[0], f[|idx|], idx) && FewerThanThree(f[0])
  {
    TakenSoFar(f, idx, |idx|);
    assert idx[..|idx|] == idx;
    assert forall i :: 0 <= i < |f[0]| && f[0][i] ==> i in idx;
  }
}
