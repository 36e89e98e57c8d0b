/**
 The free bitmap (fs.c): bit b says whether block b is in use.  Bit b lives in bitmap block
 b / BPB, in byte b % BPB / 8, under the mask 1 << b % 8.
 */
module Bitmap {

  const BPB: nat := 4096        // bits per bitmap block

  type BitBlocks = seq<seq<bv8>>

  function Mask(i: nat): (m: bv8)
    requires i < 8
  {
    if i == 0 then 0x01 else if i == 1 then 0x02 else if i == 2 then 0x04 else if i == 3 then 0x08
    else if i == 4 then 0x10 else if i == 5 then 0x20 else if i == 6 then 0x40 else 0x80
  }

  predicate On(x: bv8, i: nat)
    requires i < 8
  {
    x & Mask(i) != 0
  }

  function Turned(x: bv8, i: nat, on: bool): (r: bv8)
    requires i < 8
  {
    if on then x | Mask(i) else x & !Mask(i)
  }

  lemma MasksApart(i: nat, j: nat)
    requires i < 8 && j < 8
    ensures Mask(i) & Mask(j) == if i == j then Mask(i) else 0
    ensures Mask(i) != 0
  {
  }

  lemma TurnedOne(x: bv8, i: nat, on: bool, j: nat)
    requires i < 8 && j < 8
    ensures On(Turned(x, i, on), j) == if i == j then on else On(x, j)
  {
    hide Mask;
    MasksApart(i, j);
    var a, b := Mask(i), Mask(j);
    assert (x | a) & b == (x & b) | (a & b);
    assert i != j ==> (x & !a) & b == x & b;
  }

  // Which bit is which: bit i of a byte counts 2^i.

  function Pow2(i: nat): (n: nat)
    ensures n > 0
  {
    if i == 0 then 1 else 2 * Pow2(i - 1)
  }

  lemma MaskIsShift(i: nat)
    requires i < 8
    ensures Mask(i) == (1 as bv8) << i
  {
  }

  lemma Halved(x: bv8)
    ensures x as int == 2 * ((x >> 1) as int) + (if On(x, 0) then 1 else 0)
  {
  }

  lemma OnHalved(x: bv8, i: nat)
    requires 0 < i < 8
    ensures On(x, i) == On(x >> 1, i - 1)
  {
  }

  lemma DivTwice(n: nat, k: nat)
    requires k > 0
    ensures n / 2 / k == n / (2 * k)
  {
    var q, r := n / 2, n % 2;
    var a, b := q / k, q % k;
    assert n == 2 * (k * a + b) + r;
    assert n == (2 * k) * a + (2 * b + r) && 2 * b + r < 2 * k;
    DivIs(n, 2 * k, a, 2 * b + r);
  }

  lemma DivIs(n: nat, k: nat, q: nat, r: nat)
    requires k > 0 && n == k * q + r && r < k
    ensures n / k == q && n % k == r
  {
    var d := n / k;
    assert n == k * d + n % k;
    assert d < q ==> k * (d + 1) <= k * q;
    assert q < d ==> k * (q + 1) <= k * d;
  }

  /** A bit is on exactly if its power of two is in the byte's value. */
  lemma {:induction false} OnIs(x: bv8, i: nat)
    requires i < 8
    ensures On(x, i) <==> (x as nat) / Pow2(i) % 2 == 1
    decreases i
  {
    Halved(x);
    if i > 0 {
      OnHalved(x, i);
      OnIs(x >> 1, i - 1);
      hide On, Mask;
      DivTwice(x as nat, Pow2(i - 1));
      assert (x >> 1) as nat == (x as nat) / 2;
    }
  }

  /** The powers of two of the bits below k that are on. */
  function BitSum(x: bv8, k: nat): (n: nat)
    requires k <= 8
  {
    if k == 0 then 0 else BitSum(x, k - 1) + (if On(x, k - 1) then Pow2(k - 1) else 0)
  }

  lemma {:induction false} BitSumIs(x: bv8, k: nat)
    requires k <= 8
    ensures BitSum(x, k) == (x as nat) % Pow2(k)
    decreases k
  {
    if k > 0 {
      BitSumIs(x, k - 1);
      OnIs(x, k - 1);
      NextBit(x as nat, Pow2(k - 1));
    }
  }

  lemma NextBit(n: nat, m: nat)
    requires m > 0
    ensures n % (2 * m) == n % m + (if n / m % 2 == 1 then m else 0)
  {
    var q, r := n / m, n % m;
    var a, b := q / 2, q % 2;
    assert m * (2 * a + b) == (2 * m) * a + m * b;
    DivIs(n, 2 * m, a, m * b + r);
  }

  /** A byte is the sum of the powers of two of the bits that are on. */
  lemma {:induction false} ByteIsSum(x: bv8)
    ensures x as nat == BitSum(x, 8)
  {
    BitSumIs(x, 8);
    Powers();
  }

  /** With exactly the bits below m on, it is one less than the m-th power. */
  lemma {:induction false} FirstBits(x: bv8, m: nat, k: nat)
    requires k <= 8 && forall i | 0 <= i < k :: On(x, i) <==> i < m
    ensures BitSum(x, k) == if k <= m then Pow2(k) - 1 else Pow2(m) - 1
    decreases k
  {
    hide On;
    if k > 0 {
      FirstBits(x, m, k - 1);
    }
  }

  // Where bit b lives.

  function HomeBlock(b: nat): (n: nat) { b / BPB }

  function HomeByte(b: nat): (n: nat)
    ensures n < 512
  {
    b % BPB / 8
  }

  function HomeBit(b: nat): (n: nat)
    ensures n < 8
  {
    b % BPB % 8
  }

  lemma HomeSum(b: nat)
    ensures b == BPB * HomeBlock(b) + 8 * HomeByte(b) + HomeBit(b)
  {
  }

  lemma HomesDiffer(b: nat, c: nat)
    requires b != c
    ensures HomeBlock(b) != HomeBlock(c) || HomeByte(b) != HomeByte(c) || HomeBit(b) != HomeBit(c)
  {
    hide HomeBlock, HomeByte, HomeBit;
    HomeSum(b);
    HomeSum(c);
  }

  lemma HomeWithin(start: nat, bi: nat)
    requires start % BPB == 0 && bi < BPB
    ensures HomeBlock(start + bi) == HomeBlock(start) && HomeByte(start + bi) == bi / 8 && HomeBit(start + bi) == bi % 8
  {
    assert (start + bi) % BPB == bi;
  }

  predicate InBitmap(bm: BitBlocks, b: nat) {
    HomeBlock(b) < |bm| && |bm[HomeBlock(b)]| == 512
  }

  predicate Bit(bm: BitBlocks, b: nat)
    requires InBitmap(bm, b)
  {
    On(bm[HomeBlock(b)][HomeByte(b)], HomeBit(b))
  }

  /** Bit b as the disk has it: in byte b / 8 of its block, with the weight 2^(b % 8). */
  lemma {:induction false} BitIs(bm: BitBlocks, b: nat)
    requires InBitmap(bm, b)
    ensures b / BPB < |bm| && b % BPB / 8 < |bm[b / BPB]|
    ensures Bit(bm, b) <==> (bm[b / BPB][b % BPB / 8] as nat) / Pow2(b % 8) % 2 == 1
  {
    OnIs(bm[HomeBlock(b)][HomeByte(b)], HomeBit(b));
  }

  function PutBit(bm: BitBlocks, b: nat, on: bool): (r: BitBlocks)
    requires InBitmap(bm, b)
  {
    bm[HomeBlock(b) := bm[HomeBlock(b)][HomeByte(b) := Turned(bm[HomeBlock(b)][HomeByte(b)], HomeBit(b), on)]]
  }

  /** The bits of the bitmap, by block number. */
  ghost predicate IsBits(bm: BitBlocks, used: seq<bool>) {
    forall b: nat | b < |used| :: InBitmap(bm, b) && used[b] == Bit(bm, b)
  }

  /** Setting or clearing bit b changes bit b and no other. */
  lemma PutOne(bm: BitBlocks, used: seq<bool>, b: nat, on: bool)
    requires IsBits(bm, used) && b < |used|
    ensures IsBits(PutBit(bm, b, on), used[b := on])
  {
    var r := PutBit(bm, b, on);
    hide Mask, On, Turned, HomeBlock, HomeByte, HomeBit;
    forall c: nat | c < |used| ensures InBitmap(r, c) && used[b := on][c] == Bit(r, c) {
      assert InBitmap(bm, c) && InBitmap(bm, b);
      TurnedOne(bm[HomeBlock(b)][HomeByte(b)], HomeBit(b), on, HomeBit(c));
      if c != b {
        HomesDiffer(b, c);
      }
    }
  }

  /** The blocks whose bit is clear. */
  ghost function FreeOnes(used: seq<bool>): (r: set<nat>) {
    set b | 0 <= b < |used| && !used[b]
  }

  ghost function NFree(used: seq<bool>): (n: nat) { |FreeOnes(used)| }

  lemma TakingOne(used: seq<bool>, b: nat)
    requires b < |used| && !used[b]
    ensures NFree(used) > 0 && NFree(used[b := true]) == NFree(used) - 1
  {
    assert b in FreeOnes(used);
    assert FreeOnes(used[b := true]) == FreeOnes(used) - {b};
  }

  lemma NoneLeft(used: seq<bool>)
    requires forall b | 0 <= b < |used| :: used[b]
    ensures NFree(used) == 0
  {
    assert FreeOnes(used) == {};
  }

  /** At the start all blocks but the first `meta` are free. */
  lemma {:induction false} FreeBehind(used: seq<bool>, meta: nat)
    requires forall b | 0 <= b < |used| :: used[b] <==> b < meta
    ensures NFree(used) == if |used| <= meta then 0 else |used| - meta
    decreases |used|
  {
    if |used| <= meta {
      NoneLeft(used);
    } else {
      var n := |used| - 1;
      FreeBehind(used[..n], meta);
      assert FreeOnes(used) == FreeOnes(used[..n]) + {n};
    }
  }

  /** The bitmap that mkfs writes: the first n blocks in use. */
  method MkfsBitmap(n: nat, ghost size: nat) returns (block: seq<bv8>)
    requires n < BPB && size <= BPB
    ensures |block| == 512 && IsBits([block], seq(size, b => b < n))
    ensures forall j | 0 <= j < 512 ::
              block[j] as int == if 8 * j + 8 <= n then 255 else if n <= 8 * j then 0 else Pow2(n - 8 * j) - 1
  {
    hide Mask, On, Turned, HomeBlock, HomeByte, HomeBit, Pow2;
    block := seq(512, _ => 0);
    NoBits(block);
    var i := 0;
    while i < n
      invariant i <= n && |block| == 512 && IsBits([block], seq(BPB, b => b < i))
    {
      MaskIsShift(i % 8);
      HomeWithin(0, i);
      PutOne([block], seq(BPB, b => b < i), i, true);
      ghost var before := block;
      block := block[i / 8 := block[i / 8] | ((1 as bv8) << (i % 8))];
      assert [block] == PutBit([before], i, true) by {
        PutAt(before, i);
      }
      i := i + 1;
      assert seq(BPB, b => b < i) == seq(BPB, b => b < i - 1)[i - 1 := true];
    }
    forall j | 0 <= j < 512
      ensures block[j] as int == if 8 * j + 8 <= n then 255 else if n <= 8 * j then 0 else Pow2(n - 8 * j) - 1
    {
      ByteOf(block, n, j);
    }
    assert seq(size, b => b < n) == seq(BPB, b => b < n)[..size];
  }

  lemma NoBits(block: seq<bv8>)
    requires |block| == 512 && forall j | 0 <= j < 512 :: block[j] == 0
    ensures IsBits([block], seq(BPB, b => b < 0))
  {
  }

  lemma PutAt(block: seq<bv8>, i: nat)
    requires |block| == 512 && i < BPB
    ensures PutBit([block], i, true) == [block[i / 8 := block[i / 8] | Mask(i % 8)]]
  {
  }

  lemma ByteOf(block: seq<bv8>, n: nat, j: nat)
    requires |block| == 512 && j < 512 && IsBits([block], seq(BPB, b => b < n))
    ensures block[j] as int == if 8 * j + 8 <= n then 255 else if n <= 8 * j then 0 else Pow2(n - 8 * j) - 1
  {
    hide On, Pow2, IsBits, BitSum;
    var m := if n <= 8 * j then 0 else n - 8 * j;
    BitsOf(block, n, j, m);
    ByteIsSum(block[j]);
    FirstBits(block[j], m, 8);
    Powers();
  }

  lemma BitsOf(block: seq<bv8>, n: nat, j: nat, m: nat)
    requires |block| == 512 && j < 512 && IsBits([block], seq(BPB, b => b < n))
    requires m == if n <= 8 * j then 0 else n - 8 * j
    ensures forall i | 0 <= i < 8 :: On(block[j], i) <==> i < m
  {
    hide On;
    var u := seq(BPB, b => b < n);
    forall i | 0 <= i < 8 ensures On(block[j], i) <==> i < m {
      HomeWithin(0, 8 * j + i);
      assert u[8 * j + i] == Bit([block], 8 * j + i);
    }
  }

  lemma Powers()
    ensures Pow2(0) == 1 && Pow2(8) == 256
  {
    assert Pow2(1) == 2 && Pow2(2) == 4 && Pow2(3) == 8 && Pow2(4) == 16 && Pow2(5) == 32 && Pow2(6) == 64;
  }

  /** balloc's search: block by block, bit by bit, the first clear bit. */
  method FirstFree(bm: BitBlocks, size: nat, ghost used: seq<bool>) returns (b: nat)
    requires IsBits(bm, used) && size == |used|
    ensures b <= size && forall c | 0 <= c < b :: used[c]
    ensures b < size ==> !used[b]
  {
    hide Mask, On, HomeByte, HomeBit, HomeBlock;
    b := 0;
    while b < size
      invariant b % BPB == 0
      invariant forall c | 0 <= c < b && c < size :: used[c]
    {
      assert InBitmap(bm, b);
      var block := bm[HomeBlock(b)];
      var bi := 0;
      while bi < BPB && b + bi < size
        invariant bi <= BPB && b + bi <= size
        invariant forall c | 0 <= c < b + bi :: used[c]
      {
        HomeWithin(b, bi);
        assert used[b + bi] == Bit(bm, b + bi);
        if !On(block[bi / 8], bi % 8) {
          return b + bi;
        }
        bi := bi + 1;
      }
      b := b + BPB;
    }
    b := size;
  }
}
