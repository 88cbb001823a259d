/** Disk blocks: 1024 bytes, also readable as 256 little-endian 32-bit words. */
module Blocks {

  const BSIZE := 1024
  const NWORDS := 256

  type Byte = x: int | 0 <= x < 0x100
  type Bytes = b: seq<Byte> | |b| == BSIZE witness seq(BSIZE, _ => 0)

  datatype Block = Block(bytes: Bytes)

  function ZeroBlock(): (z: Block)
    ensures forall i {:trigger z.bytes[i]} :: 0 <= i < BSIZE ==> z.bytes[i] == 0
  {
    Block(seq(BSIZE, _ => 0))
  }

  function GetWord(b: Block, i: nat): (w: nat)
    requires i < NWORDS
    ensures w < 0x1_0000_0000
  {
    var b0: int, b1: int := b.bytes[4 * i], b.bytes[4 * i + 1];
    var b2: int, b3: int := b.bytes[4 * i + 2], b.bytes[4 * i + 3];
    b0 + 0x100 * b1 + 0x1_0000 * b2 + 0x100_0000 * b3
  }

  /** The number whose digits to base 256 are `s`, the lowest first. */
  function LittleEndian(s: seq<int>): int {
    if s == [] then 0 else s[0] + 0x100 * LittleEndian(s[1..])
  }

  lemma WordBytes(b: Block, i: nat)
    requires i < NWORDS
    ensures GetWord(b, i) == LittleEndian(b.bytes[4 * i..4 * i + 4])
  {
    var s: seq<int> := b.bytes[4 * i..4 * i + 4];
    assert s == [s[0], s[1], s[2], s[3]];
    FourBytes(s[0], s[1], s[2], s[3]);
  }

  lemma FourBytes(a: int, b: int, c: int, d: int)
    ensures LittleEndian([a, b, c, d]) == a + 0x100 * b + 0x1_0000 * c + 0x100_0000 * d
  {
    assert [a, b, c, d][1..] == [b, c, d] && [b, c, d][1..] == [c, d] && [c, d][1..] == [d] && [d][1..] == [];
    assert LittleEndian([d]) == d;
    assert LittleEndian([c, d]) == c + 0x100 * d;
    assert LittleEndian([b, c, d]) == b + 0x100 * (c + 0x100 * d);
  }

  lemma SplitWord(w: nat)
    requires w < 0x1_0000_0000
    ensures w == w % 0x100 + 0x100 * (w / 0x100 % 0x100) + 0x1_0000 * (w / 0x1_0000 % 0x100) +
        0x100_0000 * (w / 0x100_0000)
  {
    assert w / 0x100 == w / 0x100 % 0x100 + 0x100 * (w / 0x1_0000);
  }

  function SetWord(b: Block, i: nat, w: nat): (r: Block)
    requires i < NWORDS && w < 0x1_0000_0000
    ensures GetWord(r, i) == w
    ensures forall j: nat {:trigger GetWord(r, j)} :: j < NWORDS && j != i ==> GetWord(r, j) == GetWord(b, j)
  {
    SplitWord(w);
    var w0, w1, w2, w3 := w % 0x100, w / 0x100 % 0x100, w / 0x1_0000 % 0x100, w / 0x100_0000;
    Block(b.bytes[4 * i := w0][4 * i + 1 := w1][4 * i + 2 := w2][4 * i + 3 := w3])
  }

  /** Words `at`, `at + 1`, ... replaced by `ws`. */
  function StoreWords(b: Block, at: nat, ws: seq<nat>): (r: Block)
    requires at + |ws| <= NWORDS
    requires forall i :: 0 <= i < |ws| ==> ws[i] < 0x1_0000_0000
    ensures forall i :: 0 <= i < |ws| ==> GetWord(r, at + i) == ws[i]
    ensures forall j: nat {:trigger GetWord(r, j)} :: j < NWORDS && !(at <= j < at + |ws|) ==>
        GetWord(r, j) == GetWord(b, j)
  {
    if ws == [] then b
    else
      var n := |ws| - 1;
      SetWord(StoreWords(b, at, ws[..n]), at + n, ws[n])
  }

  function LoadWords(b: Block, at: nat, n: nat): (ws: seq<nat>)
    requires at + n <= NWORDS
    ensures |ws| == n
    ensures forall i {:trigger ws[i]} :: 0 <= i < n ==> ws[i] == GetWord(b, at + i)
  {
    if n == 0 then [] else LoadWords(b, at, n - 1) + [GetWord(b, at + n - 1)]
  }

  // ---- bits of a byte ----

  function Pow2(k: nat): nat {
    if k == 0 then 1 else 2 * Pow2(k - 1)
  }

  predicate TestBit(x: nat, k: nat) {
    if k == 0 then x % 2 == 1 else TestBit(x / 2, k - 1)
  }

  /** `x` with bit `k` made equal to `on`. */
  function PutBit(x: nat, k: nat, on: bool): (r: nat) {
    if k == 0 then x - x % 2 + (if on then 1 else 0)
    else 2 * PutBit(x / 2, k - 1, on) + x % 2
  }

  lemma {:induction false} PutBitRange(x: nat, k: nat, on: bool, n: nat)
    requires x < Pow2(n) && k < n
    ensures PutBit(x, k, on) < Pow2(n)
  {
    if k > 0 {
      PutBitRange(x / 2, k - 1, on, n - 1);
    }
  }

  lemma {:induction false} PutBitTests(x: nat, k: nat, on: bool, m: nat)
    ensures TestBit(PutBit(x, k, on), m) == if m == k then on else TestBit(x, m)
  {
    var r := PutBit(x, k, on);
    if k == 0 {
      if m > 0 {
        assert r / 2 == x / 2;
      }
    } else if m > 0 {
      assert r / 2 == PutBit(x / 2, k - 1, on);
      PutBitTests(x / 2, k - 1, on, m - 1);
    }
  }

  /** Bit `k` is the one of value two to the k. */
  lemma {:induction false} TestBitIs(x: nat, k: nat, high: nat, bit: nat, low: nat)
    requires x == Pow2(k) * (2 * high + bit) + low && bit < 2 && low < Pow2(k)
    ensures TestBit(x, k) <==> bit == 1
  {
    if k > 0 {
      var t := Pow2(k - 1) * (2 * high + bit);
      assert x == 2 * t + low;
      TestBitIs(x / 2, k - 1, high, bit, low / 2);
    }
  }

  const BPB := 8 * BSIZE

  /** Bit `i` of a block: bit `i % 8` of byte `i / 8`. */
  predicate Bit(b: Block, i: nat)
    requires i < BPB
  {
    TestBit(b.bytes[i / 8], i % 8)
  }

  lemma PutBitByte(x: Byte, i: nat, on: bool)
    ensures PutBit(x, i % 8, on) < 0x100
    ensures forall m: nat {:trigger TestBit(PutBit(x, i % 8, on), m)} ::
      TestBit(PutBit(x, i % 8, on), m) == if m == i % 8 then on else TestBit(x, m)
  {
    assert Pow2(4) == 16;
    PutBitRange(x, i % 8, on, 8);
    forall m: nat ensures TestBit(PutBit(x, i % 8, on), m) == if m == i % 8 then on else TestBit(x, m) {
      PutBitTests(x, i % 8, on, m);
    }
  }

  function SetBit(b: Block, i: nat, on: bool): (r: Block)
    requires i < BPB
    ensures forall j: nat {:trigger Bit(r, j)} :: j < BPB ==> Bit(r, j) == if j == i then on else Bit(b, j)
  {
    PutBitByte(b.bytes[i / 8], i, on);
    Block(b.bytes[i / 8 := PutBit(b.bytes[i / 8], i % 8, on)])
  }
}
