/** kernel/bio.c's list of buffers: prev/next links changed in place, kept in order of use. */
module BufferList {

  const NBUF := 30
  const HEAD: nat := NBUF   // bcache.head; buffers are 0..NBUF-1

  datatype Buf = Buf(dev: nat, blockno: nat, valid: bool, refcnt: nat)

  predicate Is(buf: Buf, dev: nat, blockno: nat) {
    buf.dev == dev && buf.blockno == blockno
  }

  /** Unused slots are all (0, 0); any other block has at most one buffer. */
  ghost predicate OneBuffer(bufs: seq<Buf>) {
    forall i, j :: 0 <= i < j < |bufs| && bufs[i].dev != 0 ==> !Is(bufs[j], bufs[i].dev, bufs[i].blockno)
  }

  datatype Got = Hit(b: nat) | Recycled(b: nat) | NoBuffers

  /** Position `i` of the ring that starts and ends at the head. */
  function At(order: seq<nat>, i: nat): nat {
    if 1 <= i <= |order| then order[i - 1] else HEAD
  }

  /** The link between positions `i` and `i + 1`, in both directions. */
  ghost predicate Link(next: seq<nat>, prev: seq<nat>, order: seq<nat>, i: nat) {
    && At(order, i) < |next| && At(order, i + 1) < |prev|
    && next[At(order, i)] == At(order, i + 1) && prev[At(order, i + 1)] == At(order, i)
  }

  /** The links run through the head and exactly the buffers of `order`, and prev undoes next. */
  ghost predicate Linked(next: seq<nat>, prev: seq<nat>, order: seq<nat>) {
    && |next| == |prev| == NBUF + 1
    && (forall i :: 0 <= i < |order| ==> order[i] < NBUF)
    && (forall i, j :: 0 <= i < j < |order| ==> order[i] != order[j])
    && (forall i :: 0 <= i <= |order| ==> Link(next, prev, order, i))
  }

  function Without(order: seq<nat>, k: nat): seq<nat>
    requires k < |order|
  {
    order[..k] + order[k + 1..]
  }

  /** The release-to-zero update of the abstract order. */
  function ToFront(order: seq<nat>, k: nat): seq<nat>
    requires k < |order|
  {
    [order[k]] + Without(order, k)
  }

  lemma Unlinked(next: seq<nat>, prev: seq<nat>, order: seq<nat>, k: nat)
    requires Linked(next, prev, order) && k < |order|
    ensures var b := order[k];
            && next[b] <= NBUF && prev[b] <= NBUF
            && Linked(next[prev[b] := next[b]], prev[next[b] := prev[b]], Without(order, k))
  {
    var b, rest := order[k], Without(order, k);
    assert Link(next, prev, order, k) && Link(next, prev, order, k + 1);
    var next', prev' := next[prev[b] := next[b]], prev[next[b] := prev[b]];
    forall i | 0 <= i <= |rest| ensures Link(next', prev', rest, i) {
      var j := if i <= k then i else i + 1;
      assert Link(next, prev, order, j);
      assert At(rest, i) == At(order, j);
      assert At(rest, i + 1) == At(order, if i + 1 <= k then i + 1 else i + 2);
    }
  }

  lemma Pushed(next: seq<nat>, prev: seq<nat>, order: seq<nat>, b: nat)
    requires Linked(next, prev, order) && b < NBUF && b !in order
    ensures var first := next[HEAD];
            && first <= NBUF
            && Linked(next[b := first][HEAD := b], prev[b := HEAD][first := b], [b] + order)
  {
    assert Link(next, prev, order, 0);
    var order', first := [b] + order, next[HEAD];
    var next', prev' := next[b := first][HEAD := b], prev[b := HEAD][first := b];
    forall i | 0 <= i <= |order'| ensures Link(next', prev', order', i) {
      if i >= 1 {
        assert Link(next, prev, order, i - 1);
        assert At(order', i) == if i == 1 then b else At(order, i - 1);
        assert At(order', i + 1) == At(order, i);
      }
    }
  }

  /** `order` lists the buffers by the time they were last moved to the front, newest first. */
  ghost predicate ByAge(order: seq<nat>, stamp: seq<nat>, clock: nat) {
    && |stamp| == NBUF
    && (forall i :: 0 <= i < |order| ==> order[i] < NBUF && stamp[order[i]] < clock)
    && (forall i, j :: 0 <= i < j < |order| ==> stamp[order[i]] > stamp[order[j]])
  }

  lemma AgeWithout(order: seq<nat>, stamp: seq<nat>, clock: nat, k: nat)
    requires ByAge(order, stamp, clock) && k < |order|
    ensures order[k] !in Without(order, k)
    ensures ByAge(Without(order, k), stamp[order[k] := clock], clock)
  {
    assert forall i :: 0 <= i < |order| && i != k ==> order[i] != order[k];
  }

  /** Every buffer is in the list. */
  ghost predicate Full(order: seq<nat>) {
    |order| == NBUF && forall b :: 0 <= b < NBUF ==> b in order
  }

  lemma FullToFront(order: seq<nat>, k: nat)
    requires Full(order) && k < NBUF
    ensures Full(ToFront(order, k))
  {
    forall b | 0 <= b < NBUF ensures b in ToFront(order, k) {
      assert b in order;
      var i :| 0 <= i < NBUF && order[i] == b;
      assert i == k || order[i] == Without(order, k)[if i < k then i else i - 1];
    }
  }

  class Bcache {
    const next: array<nat>
    const prev: array<nat>
    var bufs: seq<Buf>
    ghost var order: seq<nat>   // most recently used first
    ghost var stamp: seq<nat>   // when each buffer was last moved to the front
    ghost var clock: nat

    ghost predicate Valid()
      reads this, next, prev
    {
      && next != prev && |bufs| == NBUF && OneBuffer(bufs) && Full(order)
      && Linked(next[..], prev[..], order)
      && ByAge(order, stamp, clock)
    }

    constructor Binit()
      ensures Valid() && bufs == seq(NBUF, _ => Buf(0, 0, false, 0))
      ensures fresh(next) && fresh(prev)
    {
      next := new nat[NBUF + 1];
      prev := new nat[NBUF + 1];
      bufs := seq(NBUF, _ => Buf(0, 0, false, 0));
      order, stamp, clock := [], seq(NBUF, i => i), 0;
      new;
      prev[HEAD] := HEAD;
      next[HEAD] := HEAD;
      assert Link(next[..], prev[..], order, 0);
      var b := 0;
      while b < NBUF
        invariant 0 <= b <= NBUF && |order| == b == clock && next != prev
        invariant |bufs| == NBUF && bufs == seq(NBUF, _ => Buf(0, 0, false, 0))
        invariant forall i :: 0 <= i < b ==> order[i] == b - 1 - i
        invariant Linked(next[..], prev[..], order)
        invariant stamp == seq(NBUF, i => i) && ByAge(order, stamp, clock)
      {
        LinkFront(b);
        b := b + 1;
      }
      forall c | 0 <= c < NBUF ensures c in order {
        assert order[NBUF - 1 - c] == c;
      }
    }

    /** The four assignments that put an unlinked buffer right after the head. */
    method LinkFront(b: nat)
      requires next != prev && Linked(next[..], prev[..], order) && b < NBUF && b !in order
      requires ByAge(order, stamp, clock) && stamp[b] == clock
      modifies next, prev, this`order, this`clock
      ensures Linked(next[..], prev[..], order) && order == [b] + old(order)
      ensures clock == old(clock) + 1 && ByAge(order, stamp, clock)
    {
      Pushed(next[..], prev[..], order, b);
      ghost var n0: seq<nat>, p0: seq<nat> := next[..], prev[..];
      next[b] := next[HEAD];
      prev[b] := HEAD;
      prev[next[HEAD]] := b;
      next[HEAD] := b;
      assert next[..] == n0[b := n0[HEAD]][HEAD := b];
      assert prev[..] == p0[b := HEAD][n0[HEAD] := b];
      order := [b] + order;
      clock := clock + 1;
    }

    /** The forward scan: the buffer of the block, or the head if it is not cached. */
    method FindCached(dev: nat, blockno: nat) returns (b: nat)
      requires Valid()
      ensures b == HEAD || (b < NBUF && Is(bufs[b], dev, blockno))
      ensures b == HEAD ==> forall c :: 0 <= c < NBUF ==> !Is(bufs[c], dev, blockno)
    {
      b := next[HEAD];
      ghost var k := 1;
      assert Link(next[..], prev[..], order, 0);
      while b != HEAD
        invariant 1 <= k <= NBUF + 1 && b == At(order, k)
        invariant forall i :: 0 <= i < k - 1 ==> !Is(bufs[order[i]], dev, blockno)
        decreases NBUF + 1 - k
      {
        if bufs[b].dev == dev && bufs[b].blockno == blockno {
          return;
        }
        assert Link(next[..], prev[..], order, k);
        b := next[b];
        k := k + 1;
      }
      forall c | 0 <= c < NBUF ensures !Is(bufs[c], dev, blockno) {
        assert c in order;
      }
    }

    /** The backward scan: the unreferenced buffer used longest ago, or the head if there is none. */
    method FindVictim() returns (b: nat)
      requires Valid()
      ensures b == HEAD || (b < NBUF && bufs[b].refcnt == 0)
      ensures b == HEAD ==> forall c :: 0 <= c < NBUF ==> bufs[c].refcnt > 0
      ensures b != HEAD ==> forall c :: 0 <= c < NBUF && bufs[c].refcnt == 0 ==> stamp[b] <= stamp[c]
    {
      hide ByAge;
      b := prev[HEAD];
      ghost var k := NBUF;
      assert Link(next[..], prev[..], order, k);
      while b != HEAD
        invariant 0 <= k <= NBUF && b == At(order, k)
        invariant forall i :: k <= i < NBUF ==> bufs[order[i]].refcnt > 0
        decreases k
      {
        if bufs[b].refcnt == 0 {
          Oldest(k - 1);
          return;
        }
        assert Link(next[..], prev[..], order, k - 1);
        b := prev[b];
        k := k - 1;
      }
      forall c | 0 <= c < NBUF ensures bufs[c].refcnt > 0 {
        assert c in order;
      }
    }

    /** If every buffer behind position `k` is referenced, the one at `k` is the oldest of the
        unreferenced ones. */
    lemma Oldest(k: nat)
      requires Valid() && k < NBUF
      requires forall i :: k < i < NBUF ==> bufs[order[i]].refcnt > 0
      ensures forall c :: 0 <= c < NBUF && bufs[c].refcnt == 0 ==> stamp[order[k]] <= stamp[c]
    {
      forall c | 0 <= c < NBUF && bufs[c].refcnt == 0 ensures stamp[order[k]] <= stamp[c] {
        assert c in order;
        var i :| 0 <= i < NBUF && order[i] == c;
      }
    }

    /** Find a buffer for the block, recycling the least recently used unreferenced one if the
        block is not cached. */
    method Bget(dev: nat, blockno: nat) returns (r: Got)
      requires Valid()
      modifies this`bufs
      ensures Valid() && order == old(order)
      ensures r.Hit? ==>
        && r.b < NBUF && Is(old(bufs)[r.b], dev, blockno)
        && bufs == old(bufs)[r.b := old(bufs)[r.b].(refcnt := old(bufs)[r.b].refcnt + 1)]
      ensures !r.Hit? ==> forall c :: 0 <= c < NBUF ==> !Is(old(bufs)[c], dev, blockno)
      ensures r.Recycled? ==>
        && r.b < NBUF && old(bufs)[r.b].refcnt == 0
        && bufs == old(bufs)[r.b := Buf(dev, blockno, false, 1)]
        && (forall c :: 0 <= c < NBUF && old(bufs)[c].refcnt == 0 ==> stamp[r.b] <= stamp[c])
      ensures r.NoBuffers? ==> bufs == old(bufs) && forall c :: 0 <= c < NBUF ==> bufs[c].refcnt > 0
    {
      hide Linked, ByAge;
      var b := FindCached(dev, blockno);
      if b != HEAD {
        bufs := bufs[b := bufs[b].(refcnt := bufs[b].refcnt + 1)];
        return Hit(b);
      }
      b := FindVictim();
      if b != HEAD {
        bufs := bufs[b := Buf(dev, blockno, false, 1)];
        return Recycled(b);
      }
      return NoBuffers;
    }

    /** Drop a reference; at zero the buffer becomes the most recently used one. */
    method Brelse(b: nat)
      requires Valid() && b < NBUF && bufs[b].refcnt > 0
      modifies next, prev, this`bufs, this`order, this`stamp, this`clock
      ensures Valid() && bufs == old(bufs)[b := old(bufs)[b].(refcnt := old(bufs)[b].refcnt - 1)]
      ensures bufs[b].refcnt > 0 ==> order == old(order) && stamp == old(stamp)
      ensures bufs[b].refcnt == 0 ==>
        exists k :: 0 <= k < NBUF && old(order)[k] == b && order == ToFront(old(order), k)
                 && stamp == old(stamp)[b := old(clock)]
    {
      bufs := bufs[b := bufs[b].(refcnt := bufs[b].refcnt - 1)];
      if bufs[b].refcnt == 0 {
        assert b in order;
        ghost var k :| 0 <= k < NBUF && order[k] == b;
        MoveToFront(b, k);
      }
    }

    method MoveToFront(b: nat, ghost k: nat)
      requires Valid() && k < NBUF && order[k] == b
      modifies next, prev, this`order, this`stamp, this`clock
      ensures Valid() && order == ToFront(old(order), k) && stamp == old(stamp)[b := old(clock)]
    {
      Unlinked(next[..], prev[..], order, k);
      AgeWithout(order, stamp, clock, k);
      FullToFront(order, k);
      ghost var n0: seq<nat>, p0: seq<nat> := next[..], prev[..];
      prev[next[b]] := prev[b];
      next[prev[b]] := next[b];
      assert prev[..] == p0[n0[b] := p0[b]];
      assert next[..] == n0[p0[b] := n0[b]];
      order := Without(order, k);
      stamp := stamp[b := clock];
      hide Linked, ByAge;
      LinkFront(b);
    }

    method Bpin(b: nat)
      requires Valid() && b < NBUF
      modifies this`bufs
      ensures Valid() && bufs == old(bufs)[b := old(bufs)[b].(refcnt := old(bufs)[b].refcnt + 1)]
    {
      bufs := bufs[b := bufs[b].(refcnt := bufs[b].refcnt + 1)];
    }

    method Bunpin(b: nat)
      requires Valid() && b < NBUF && bufs[b].refcnt > 0
      modifies this`bufs
      ensures Valid() && bufs == old(bufs)[b := old(bufs)[b].(refcnt := old(bufs)[b].refcnt - 1)]
    {
      bufs := bufs[b := bufs[b].(refcnt := bufs[b].refcnt - 1)];
    }
  }
}
