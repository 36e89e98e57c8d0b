/**
 The user-level allocator (umalloc.c): a circular list of free blocks in address order,
 first fit from a roving pointer, tail splitting and coalescing on both sides.

 Addresses are byte addresses, sizes are in units of one 8-byte header.  `blocks` is the
 ghost list of free blocks in address order; the ring of headers in memory goes from the
 static header `base` through all of them and back.
 */
module Heap {
  import opened Common

  const UNIT: int := 8            // sizeof(Header)
  const MORECORE_MIN: nat := 4096

  datatype Header = Header(ptr: int, size: nat)

  datatype Block = Block(addr: int, size: nat) {
    ghost function End(): int { addr + UNIT * size }
  }

  // 32-bit arithmetic.

  /** The number of units malloc takes for a request, in uint arithmetic. */
  function Units(nbytes: nat): (n: nat)
    requires nbytes < 0x1_0000_0000
    ensures n >= 1
  {
    (nbytes + UNIT - 1) % 0x1_0000_0000 / UNIT + 1
  }

  /** The argument sbrk receives for nu units: the product wraps and is read as a signed int. */
  function SbrkArgument(nu: nat): (n: int) {
    var p := UNIT * nu % 0x1_0000_0000;
    if p >= 0x8000_0000 then p - 0x1_0000_0000 else p
  }

  /** The product did not wrap on its way to sbrk. */
  predicate AskedRight(nunits: nat) {
    SbrkArgument(CoreUnits(nunits)) == UNIT * CoreUnits(nunits)
  }

  function CoreUnits(nu: nat): (n: nat)
    ensures n >= nu && n >= MORECORE_MIN && (n == nu || n == MORECORE_MIN)
  {
    if nu < MORECORE_MIN then MORECORE_MIN else nu
  }

  /** The data part of a block is large enough for the request exactly when the sum did not wrap. */
  lemma UnitsSuffice(nbytes: nat)
    requires nbytes < 0x1_0000_0000
    ensures UNIT * (Units(nbytes) - 1) >= nbytes <==> nbytes <= 0x1_0000_0000 - UNIT
    ensures nbytes <= 0x1_0000_0000 - UNIT ==> UNIT * (Units(nbytes) - 1) < nbytes + UNIT
  {
  }

  /** sbrk is asked for the size the block will claim exactly when that is below 2 GB. */
  lemma SbrkArgumentExact(nbytes: nat)
    requires nbytes < 0x1_0000_0000
    ensures AskedRight(Units(nbytes)) <==> CoreUnits(Units(nbytes)) < 0x1000_0000
  {
  }

  // The free list.

  /** Free blocks lie above base, in address order, and no two of them touch. */
  ghost predicate Sorted(blocks: seq<Block>, base: int) {
    && (forall i | 0 <= i < |blocks| :: blocks[i].size >= 1 && base < blocks[i].addr)
    && (forall i, j | 0 <= i < j < |blocks| :: blocks[i].End() < blocks[j].addr)
  }

  /** The i-th header of the ring. */
  ghost function Node(blocks: seq<Block>, base: int, i: nat): (a: int)
    requires i <= |blocks|
  {
    if i == 0 then base else blocks[i - 1].addr
  }

  ghost function After(blocks: seq<Block>, i: nat): (j: nat)
    requires i <= |blocks|
    ensures j <= |blocks|
  {
    if i == |blocks| then 0 else i + 1
  }

  ghost function SizeAt(blocks: seq<Block>, i: nat): (n: nat)
    requires i <= |blocks|
  {
    if i == 0 then 0 else blocks[i - 1].size
  }

  /** The i-th header in memory has its size and its successor. */
  ghost predicate LinkedAt(mem: map<int, Header>, blocks: seq<Block>, base: int, i: nat)
    requires i <= |blocks|
  {
    var a := Node(blocks, base, i);
    a in mem && mem[a].size == SizeAt(blocks, i) && mem[a].ptr == Node(blocks, base, After(blocks, i))
  }

  /** The headers in memory are linked as the ring of `blocks`. */
  ghost predicate Ring(mem: map<int, Header>, blocks: seq<Block>, base: int) {
    forall i | 0 <= i <= |blocks| :: LinkedAt(mem, blocks, base, i)
  }

  ghost predicate InBlocks(blocks: seq<Block>, x: int) {
    exists i :: 0 <= i < |blocks| && blocks[i].addr <= x < blocks[i].End()
  }

  // Live allocations: header address to size.

  ghost predicate Covers(live: map<int, nat>, h: int, x: int) {
    h in live && h <= x < h + UNIT * live[h]
  }

  ghost predicate InLive(live: map<int, nat>, x: int) {
    exists h :: Covers(live, h, x)
  }

  /** Every byte obtained from sbrk is in exactly one free block or in exactly one live allocation. */
  ghost predicate Partition(blocks: seq<Block>, live: map<int, nat>, core: seq<Block>) {
    && (forall x :: InBlocks(core, x) <==> InBlocks(blocks, x) || InLive(live, x))
    && (forall x :: InBlocks(blocks, x) ==> !InLive(live, x))
    && (forall g, h, x :: Covers(live, g, x) && Covers(live, h, x) ==> g == h)
    && (forall h | h in live :: live[h] >= 1)
  }

  // Freeing: insertion with coalescing.

  /** Block b belongs between the first k free blocks and the rest. */
  ghost predicate Fits(blocks: seq<Block>, k: nat, b: Block) {
    && k <= |blocks| && b.size >= 1
    && (forall i | 0 <= i < k :: blocks[i].End() <= b.addr)
    && (forall i | k <= i < |blocks| :: b.End() <= blocks[i].addr)
  }

  ghost predicate MergesUp(blocks: seq<Block>, k: nat, b: Block)
    requires k <= |blocks|
  {
    k < |blocks| && b.End() == blocks[k].addr
  }

  ghost predicate MergesDown(blocks: seq<Block>, k: nat, b: Block)
    requires k <= |blocks|
  {
    k > 0 && blocks[k - 1].End() == b.addr
  }

  /** The first block of the list that b becomes part of, and the first one after. */
  ghost function Low(blocks: seq<Block>, k: nat, b: Block): (lo: nat)
    requires k <= |blocks|
    ensures lo <= k
  {
    if MergesDown(blocks, k, b) then k - 1 else k
  }

  ghost function High(blocks: seq<Block>, k: nat, b: Block): (hi: nat)
    requires k <= |blocks|
    ensures k <= hi <= |blocks|
  {
    if MergesUp(blocks, k, b) then k + 1 else k
  }

  /** b joined with the neighbours it touches. */
  ghost function Joined(blocks: seq<Block>, k: nat, b: Block): (c: Block)
    requires k <= |blocks|
  {
    var up := if MergesUp(blocks, k, b) then Block(b.addr, b.size + blocks[k].size) else b;
    if MergesDown(blocks, k, b) then Block(blocks[k - 1].addr, blocks[k - 1].size + up.size) else up
  }

  /** Replacing blocks[lo..hi] by one block. */
  ghost function Splice(blocks: seq<Block>, lo: nat, hi: nat, c: Block): (r: seq<Block>)
    requires lo <= hi <= |blocks|
  {
    blocks[..lo] + [c] + blocks[hi..]
  }

  /** The free list after b has been put back at position k. */
  ghost function Inserted(blocks: seq<Block>, k: nat, b: Block): (r: seq<Block>)
    requires k <= |blocks|
  {
    Splice(blocks, Low(blocks, k, b), High(blocks, k, b), Joined(blocks, k, b))
  }

  lemma SpliceSorted(blocks: seq<Block>, base: int, lo: nat, hi: nat, c: Block)
    requires Sorted(blocks, base) && lo <= hi <= |blocks| && c.size >= 1 && base < c.addr
    requires lo > 0 ==> blocks[lo - 1].End() < c.addr
    requires hi < |blocks| ==> c.End() < blocks[hi].addr
    ensures Sorted(Splice(blocks, lo, hi, c), base)
  {
    var r := Splice(blocks, lo, hi, c);
    forall i | 0 <= i < |r| ensures r[i].size >= 1 && base < r[i].addr {
    }
    forall i, j | 0 <= i < j < |r| ensures r[i].End() < r[j].addr {
      SplicePair(blocks, base, lo, hi, c, i, j);
    }
  }

  lemma SplicePair(blocks: seq<Block>, base: int, lo: nat, hi: nat, c: Block, i: nat, j: nat)
    requires Sorted(blocks, base) && lo <= hi <= |blocks|
    requires lo > 0 ==> blocks[lo - 1].End() < c.addr
    requires hi < |blocks| ==> c.End() < blocks[hi].addr
    requires i < j < |blocks| - hi + lo + 1
    ensures var r := Splice(blocks, lo, hi, c); r[i].End() < r[j].addr
  {
    var r := Splice(blocks, lo, hi, c);
    assert r[i] == if i < lo then blocks[i] else if i == lo then c else blocks[i - lo - 1 + hi];
    assert r[j] == if j < lo then blocks[j] else if j == lo then c else blocks[j - lo - 1 + hi];
    if j == lo {
      assert i == lo - 1 || blocks[i].End() < blocks[lo - 1].addr;
    } else if i == lo {
      assert j == lo + 1 || blocks[hi].End() < blocks[j - lo - 1 + hi].addr;
    }
  }

  lemma InsertedSorted(blocks: seq<Block>, base: int, k: nat, b: Block)
    requires Sorted(blocks, base) && Fits(blocks, k, b) && base < b.addr
    ensures Sorted(Inserted(blocks, k, b), base)
  {
    SpliceSorted(blocks, base, Low(blocks, k, b), High(blocks, k, b), Joined(blocks, k, b));
  }

  lemma SpliceBytes(blocks: seq<Block>, lo: nat, hi: nat, c: Block, x: int)
    requires lo <= hi <= |blocks|
    ensures InBlocks(Splice(blocks, lo, hi, c), x)
       <==> InBlocks(blocks[..lo], x) || c.addr <= x < c.End() || InBlocks(blocks[hi..], x)
  {
    var r := Splice(blocks, lo, hi, c);
    if InBlocks(r, x) {
      var i :| 0 <= i < |r| && r[i].addr <= x < r[i].End();
      if i < lo {
        assert blocks[..lo][i] == r[i];
      } else if i > lo {
        assert blocks[hi..][i - lo - 1] == r[i];
      }
    }
    if InBlocks(blocks[..lo], x) {
      var i :| 0 <= i < lo && blocks[i].addr <= x < blocks[i].End();
      assert r[i] == blocks[i];
    }
    if c.addr <= x < c.End() {
      assert r[lo] == c;
    }
    if InBlocks(blocks[hi..], x) {
      var i :| 0 <= i < |blocks| - hi && blocks[hi..][i].addr <= x < blocks[hi..][i].End();
      assert r[lo + 1 + i] == blocks[hi..][i];
    }
  }

  /** Splitting the list at two places. */
  lemma SplitBytes(blocks: seq<Block>, lo: nat, hi: nat, x: int)
    requires lo <= hi <= |blocks|
    ensures InBlocks(blocks, x) <==>
            InBlocks(blocks[..lo], x) || InBlocks(blocks[lo..hi], x) || InBlocks(blocks[hi..], x)
  {
    if InBlocks(blocks, x) {
      var i :| 0 <= i < |blocks| && blocks[i].addr <= x < blocks[i].End();
      if i < lo {
        assert blocks[..lo][i] == blocks[i];
      } else if i < hi {
        assert blocks[lo..hi][i - lo] == blocks[i];
      } else {
        assert blocks[hi..][i - hi] == blocks[i];
      }
    }
  }

  /** Putting a block back frees its bytes and no others. */
  lemma InsertedBytes(blocks: seq<Block>, k: nat, b: Block, x: int)
    requires Fits(blocks, k, b)
    ensures InBlocks(Inserted(blocks, k, b), x) <==> InBlocks(blocks, x) || b.addr <= x < b.End()
  {
    var lo, hi, c := Low(blocks, k, b), High(blocks, k, b), Joined(blocks, k, b);
    SpliceBytes(blocks, lo, hi, c, x);
    SplitBytes(blocks, lo, hi, x);
    JoinedBytes(blocks, k, b, x);
  }

  lemma JoinedBytes(blocks: seq<Block>, k: nat, b: Block, x: int)
    requires Fits(blocks, k, b)
    ensures var c := Joined(blocks, k, b);
            c.addr <= x < c.End() <==>
            InBlocks(blocks[Low(blocks, k, b)..High(blocks, k, b)], x) || b.addr <= x < b.End()
  {
    var mid := blocks[Low(blocks, k, b)..High(blocks, k, b)];
    if MergesDown(blocks, k, b) {
      assert mid[0] == blocks[k - 1];
    }
    if MergesUp(blocks, k, b) {
      assert mid[|mid| - 1] == blocks[k];
    }
  }

  // The ring after a change of the list.

  /** Which old header the i-th header of the new ring is. */
  lemma SpliceNode(blocks: seq<Block>, base: int, lo: nat, hi: nat, c: Block, i: nat)
    requires lo <= hi <= |blocks| && i <= |blocks| - hi + lo + 1
    ensures var r := Splice(blocks, lo, hi, c);
            && i <= |r| == |blocks| - hi + lo + 1
            && (i <= lo ==> Node(r, base, i) == Node(blocks, base, i) && SizeAt(r, i) == SizeAt(blocks, i))
            && (i == lo + 1 ==> Node(r, base, i) == c.addr && SizeAt(r, i) == c.size)
            && (i > lo + 1 ==> Node(r, base, i) == Node(blocks, base, i - lo - 1 + hi)
                               && SizeAt(r, i) == SizeAt(blocks, i - lo - 1 + hi))
  {
  }

  /** Headers after blocks[lo..hi] have been replaced by c. */
  lemma SpliceRing(mem: map<int, Header>, mem': map<int, Header>, blocks: seq<Block>, base: int, lo: nat, hi: nat,
                   c: Block)
    requires Ring(mem, blocks, base) && lo <= hi <= |blocks|
    requires forall i | 0 <= i < lo :: var a := Node(blocks, base, i); a in mem' && a in mem && mem'[a] == mem[a]
    requires var a := Node(blocks, base, lo); a in mem' && mem'[a] == Header(c.addr, SizeAt(blocks, lo))
    requires c.addr in mem' && mem'[c.addr] == Header(Node(blocks, base, After(blocks, hi)), c.size)
    requires forall i | hi < i <= |blocks| :: var a := Node(blocks, base, i); a in mem' && a in mem && mem'[a] == mem[a]
    ensures Ring(mem', Splice(blocks, lo, hi, c), base)
  {
    hide Splice, Node, SizeAt;
    var r := Splice(blocks, lo, hi, c);
    SpliceNode(blocks, base, lo, hi, c, 0);
    forall i | 0 <= i <= |r| ensures LinkedAt(mem', r, base, i) {
      SpliceNode(blocks, base, lo, hi, c, i);
      SpliceNode(blocks, base, lo, hi, c, After(r, i));
      if i < lo {
        assert LinkedAt(mem, blocks, base, i);
      } else if i > lo + 1 {
        assert LinkedAt(mem, blocks, base, i - lo - 1 + hi);
      }
    }
  }

  lemma NodesDistinct(blocks: seq<Block>, base: int, i: nat, j: nat)
    requires Sorted(blocks, base) && i < j <= |blocks|
    ensures Node(blocks, base, i) < Node(blocks, base, j)
  {
    if i > 0 {
      assert blocks[i - 1].End() < blocks[j - 1].addr;
    }
  }

  /** The assignments of free() once p has been found. */
  function Relinked(mem: map<int, Header>, p: int, bp: int): (r: map<int, Header>)
    requires p in mem && bp in mem && p != bp && mem[p].ptr in mem
  {
    var q := mem[p].ptr;
    var b := if bp + UNIT * mem[bp].size == q then Header(mem[q].ptr, mem[bp].size + mem[q].size)
             else Header(q, mem[bp].size);
    if p + UNIT * mem[p].size == bp then mem[bp := b][p := Header(b.ptr, mem[p].size + b.size)]
    else mem[bp := b][p := mem[p].(ptr := bp)]
  }

  /** free() leaves the ring of the list with the block put back. */
  lemma RelinkedRing(mem: map<int, Header>, blocks: seq<Block>, base: int, k: nat, b: Block)
    requires Sorted(blocks, base) && Ring(mem, blocks, base) && Fits(blocks, k, b) && base < b.addr
    requires b.addr in mem && mem[b.addr].size == b.size
    requires forall i | 0 <= i <= |blocks| :: Node(blocks, base, i) != b.addr
    ensures var p := Node(blocks, base, k);
            p in mem && mem[p].ptr in mem && Ring(Relinked(mem, p, b.addr), Inserted(blocks, k, b), base)
  {
    var p := Node(blocks, base, k);
    var lo, hi, c := Low(blocks, k, b), High(blocks, k, b), Joined(blocks, k, b);
    hide Sorted, Fits, Ring;
    RingLink(mem, blocks, base, k);
    RingLink(mem, blocks, base, After(blocks, k));
    RingLink(mem, blocks, base, lo);
    var mem' := Relinked(mem, p, b.addr);
    RelinkedMerges(mem, blocks, base, k, b);
    forall i | 0 <= i <= |blocks| && i != k
      ensures Node(blocks, base, i) in mem && mem'[Node(blocks, base, i)] == mem[Node(blocks, base, i)]
    {
      RingLink(mem, blocks, base, i);
      if i < k { NodesDistinct(blocks, base, i, k); } else { NodesDistinct(blocks, base, k, i); }
    }
    SpliceRing(mem, mem', blocks, base, lo, hi, c);
  }

  /** The two address comparisons of free() recognise exactly the touching neighbours. */
  lemma RelinkedMerges(mem: map<int, Header>, blocks: seq<Block>, base: int, k: nat, b: Block)
    requires Sorted(blocks, base) && Ring(mem, blocks, base) && Fits(blocks, k, b) && base < b.addr
    ensures var p := Node(blocks, base, k);
            && p in mem
            && (b.End() == mem[p].ptr <==> MergesUp(blocks, k, b))
            && (p + UNIT * mem[p].size == b.addr <==> MergesDown(blocks, k, b))
  {
    assert LinkedAt(mem, blocks, base, k);
  }

  /** A block with no free byte, between two neighbours by address, fits there. */
  lemma DisjointFits(blocks: seq<Block>, base: int, k: nat, b: Block)
    requires Sorted(blocks, base) && k <= |blocks| && b.size >= 1
    requires forall x | b.addr <= x < b.End() :: !InBlocks(blocks, x)
    requires k > 0 ==> blocks[k - 1].addr < b.addr
    requires k < |blocks| ==> b.addr < blocks[k].addr
    ensures Fits(blocks, k, b)
  {
    forall i | 0 <= i < k ensures blocks[i].End() <= b.addr {
      assert blocks[i].addr <= blocks[k - 1].addr;
      if blocks[i].End() > b.addr {
        assert InBlocks(blocks, b.addr);
      }
    }
    forall i | k <= i < |blocks| ensures b.End() <= blocks[i].addr {
      assert blocks[k].addr <= blocks[i].addr;
      if b.End() > blocks[i].addr {
        assert InBlocks(blocks, blocks[i].addr);
      }
    }
  }

  // Moving bytes between the free list and the live allocations.

  lemma PartitionFree(blocks: seq<Block>, live: map<int, nat>, core: seq<Block>, b: Block, r: seq<Block>)
    requires Partition(blocks, live, core) && b.addr in live && live[b.addr] == b.size
    requires forall x :: InBlocks(r, x) <==> InBlocks(blocks, x) || b.addr <= x < b.End()
    ensures Partition(r, live - {b.addr}, core)
  {
    var live' := live - {b.addr};
    forall x ensures InLive(live, x) <==> InLive(live', x) || b.addr <= x < b.End() {
      if InLive(live, x) {
        var h :| Covers(live, h, x);
        assert h == b.addr || Covers(live', h, x);
      }
      if InLive(live', x) {
        var h :| Covers(live', h, x);
        assert Covers(live, h, x);
      }
      if b.addr <= x < b.End() {
        assert Covers(live, b.addr, x);
      }
    }
    forall x | InBlocks(r, x) ensures !InLive(live', x) {
      if InLive(live', x) {
        var h :| Covers(live', h, x);
        assert Covers(live, h, x);
        if b.addr <= x < b.End() {
          assert Covers(live, b.addr, x);
        }
      }
    }
    forall g, h, x | Covers(live', g, x) && Covers(live', h, x) ensures g == h {
      assert Covers(live, g, x) && Covers(live, h, x);
    }
  }

  lemma PartitionTake(blocks: seq<Block>, live: map<int, nat>, core: seq<Block>, b: Block, r: seq<Block>)
    requires Partition(blocks, live, core) && b.size >= 1
    requires forall x | b.addr <= x < b.End() :: InBlocks(blocks, x)
    requires forall x :: InBlocks(r, x) <==> InBlocks(blocks, x) && !(b.addr <= x < b.End())
    ensures b.addr !in live && Partition(r, live[b.addr := b.size], core)
  {
    assert InBlocks(blocks, b.addr);
    if b.addr in live {
      assert Covers(live, b.addr, b.addr);
    }
    TakenLive(live, b);
    var live' := live[b.addr := b.size];
    forall g, h, x | Covers(live', g, x) && Covers(live', h, x) ensures g == h {
      assert Covers(live, g, x) || b.addr <= x < b.End();
      assert Covers(live, h, x) || b.addr <= x < b.End();
      if Covers(live, g, x) || Covers(live, h, x) {
        assert InLive(live, x);
      }
    }
  }

  lemma TakenLive(live: map<int, nat>, b: Block)
    requires b.addr !in live
    ensures forall x :: InLive(live[b.addr := b.size], x) <==> InLive(live, x) || b.addr <= x < b.End()
  {
    var live' := live[b.addr := b.size];
    forall x ensures InLive(live', x) <==> InLive(live, x) || b.addr <= x < b.End() {
      if InLive(live', x) {
        var h :| Covers(live', h, x);
        assert h == b.addr || Covers(live, h, x);
      }
      if InLive(live, x) {
        var h :| Covers(live, h, x);
        assert Covers(live', h, x);
      }
      if b.addr <= x < b.End() {
        assert Covers(live', b.addr, x);
      }
    }
  }

  lemma GrownBytes(core: seq<Block>, b: Block, x: int)
    ensures InBlocks(core + [b], x) <==> InBlocks(core, x) || b.addr <= x < b.End()
  {
    if InBlocks(core, x) {
      var i :| 0 <= i < |core| && core[i].addr <= x < core[i].End();
      assert (core + [b])[i] == core[i];
    }
    if b.addr <= x < b.End() {
      assert (core + [b])[|core|] == b;
    }
  }

  /** Fresh memory from sbrk, claimed as one live block. */
  lemma PartitionGrow(blocks: seq<Block>, live: map<int, nat>, core: seq<Block>, b: Block)
    requires Partition(blocks, live, core) && b.size >= 1
    requires forall x | b.addr <= x < b.End() :: !InBlocks(core, x)
    ensures b.addr !in live
    ensures Partition(blocks, live[b.addr := b.size], core + [b])
  {
    if b.addr in live {
      assert Covers(live, b.addr, b.addr);
      assert InLive(live, b.addr);
    }
    TakenLive(live, b);
    forall x ensures InBlocks(core + [b], x) <==> InBlocks(core, x) || b.addr <= x < b.End() {
      GrownBytes(core, b, x);
    }
    var live' := live[b.addr := b.size];
    forall g, h, x | Covers(live', g, x) && Covers(live', h, x) ensures g == h {
      if g != h {
        assert Covers(live, g, x) || b.addr <= x < b.End();
        assert Covers(live, h, x) || b.addr <= x < b.End();
        assert InLive(live, x);
      }
    }
  }

  // Taking a block from the list.

  /** The list after n units have been taken from the end of blocks[j]. */
  ghost function Taken(blocks: seq<Block>, j: nat, n: nat): (r: seq<Block>)
    requires j < |blocks| && n <= blocks[j].size
  {
    if blocks[j].size == n then blocks[..j] + blocks[j + 1..]
    else blocks[j := Block(blocks[j].addr, blocks[j].size - n)]
  }

  /** The units that were taken. */
  ghost function Tail(b: Block, n: nat): (t: Block)
    requires n <= b.size
    ensures t.size == n && t.End() == b.End()
  {
    Block(b.addr + UNIT * (b.size - n), n)
  }

  lemma TakenSorted(blocks: seq<Block>, base: int, j: nat, n: nat)
    requires Sorted(blocks, base) && j < |blocks| && 1 <= n <= blocks[j].size
    ensures Sorted(Taken(blocks, j, n), base)
  {
    var r := Taken(blocks, j, n);
    if blocks[j].size == n {
      forall i | 0 <= i < |r| ensures r[i] == blocks[if i < j then i else i + 1] {
      }
    }
  }

  lemma TakenBytes(blocks: seq<Block>, base: int, j: nat, n: nat, x: int)
    requires Sorted(blocks, base) && j < |blocks| && 1 <= n <= blocks[j].size
    ensures var t := Tail(blocks[j], n);
            && (t.addr <= x < t.End() ==> InBlocks(blocks, x))
            && (InBlocks(Taken(blocks, j, n), x) <==> InBlocks(blocks, x) && !(t.addr <= x < t.End()))
  {
    var c := Block(blocks[j].addr, blocks[j].size - n);
    SplitBytes(blocks, j, j + 1, x);
    assert InBlocks(blocks[j..j + 1], x) <==> blocks[j].addr <= x < blocks[j].End() by {
      assert blocks[j..j + 1][0] == blocks[j];
    }
    if blocks[j].addr <= x < blocks[j].End() {
      OnlyBlock(blocks, base, j, x);
    }
    if blocks[j].size == n {
      ConcatBytes(blocks[..j], blocks[j + 1..], x);
    } else {
      assert Taken(blocks, j, n) == Splice(blocks, j, j + 1, c);
      SpliceBytes(blocks, j, j + 1, c, x);
    }
  }

  lemma OnlyBlock(blocks: seq<Block>, base: int, j: nat, x: int)
    requires Sorted(blocks, base) && j < |blocks| && blocks[j].addr <= x < blocks[j].End()
    ensures !InBlocks(blocks[..j], x) && !InBlocks(blocks[j + 1..], x)
  {
    forall i | j < i < |blocks| ensures x < blocks[i].addr {
    }
    var rest := blocks[j + 1..];
    assert forall i | 0 <= i < |rest| :: x < rest[i].addr;
  }

  lemma ConcatBytes(a: seq<Block>, b: seq<Block>, x: int)
    ensures InBlocks(a + b, x) <==> InBlocks(a, x) || InBlocks(b, x)
  {
    if InBlocks(a, x) {
      var i :| 0 <= i < |a| && a[i].addr <= x < a[i].End();
      assert (a + b)[i] == a[i];
    }
    if InBlocks(b, x) {
      var i :| 0 <= i < |b| && b[i].addr <= x < b[i].End();
      assert (a + b)[|a| + i] == b[i];
    }
  }

  /** The assignments of malloc() to unlink or split the block at p. */
  function Cut(mem: map<int, Header>, prevp: int, p: int, n: nat): (r: map<int, Header>)
    requires prevp in mem && p in mem && n <= mem[p].size
  {
    if mem[p].size == n then mem[prevp := mem[prevp].(ptr := mem[p].ptr)]
    else
      var rest := mem[p].size - n;
      mem[p := mem[p].(size := rest)][p + UNIT * rest := Header(0, n)]
  }

  lemma CutRing(mem: map<int, Header>, blocks: seq<Block>, base: int, j: nat, n: nat)
    requires Sorted(blocks, base) && Ring(mem, blocks, base) && j < |blocks| && 1 <= n <= blocks[j].size
    ensures var prevp, p := Node(blocks, base, j), Node(blocks, base, j + 1);
            && prevp in mem && p in mem && mem[p].size == blocks[j].size
            && Ring(Cut(mem, prevp, p, n), Taken(blocks, j, n), base)
  {
    var prevp, p := Node(blocks, base, j), Node(blocks, base, j + 1);
    assert LinkedAt(mem, blocks, base, j) && LinkedAt(mem, blocks, base, j + 1);
    NodesDistinct(blocks, base, j, j + 1);
    var r, mem' := Taken(blocks, j, n), Cut(mem, prevp, p, n);
    forall i | 0 <= i <= |r| ensures LinkedAt(mem', r, base, i) {
      if blocks[j].size == n {
        UnlinkedNode(mem, blocks, base, j, i);
      } else {
        ShrunkNode(mem, blocks, base, j, n, i);
      }
    }
  }

  lemma UnlinkedNode(mem: map<int, Header>, blocks: seq<Block>, base: int, j: nat, i: nat)
    requires Sorted(blocks, base) && Ring(mem, blocks, base) && j < |blocks| && i < |blocks|
    requires Node(blocks, base, j) in mem && Node(blocks, base, j + 1) in mem
    requires mem[Node(blocks, base, j + 1)].size == blocks[j].size
    ensures LinkedAt(Cut(mem, Node(blocks, base, j), Node(blocks, base, j + 1), blocks[j].size),
                     blocks[..j] + blocks[j + 1..], base, i)
  {
    var o := if i <= j then i else i + 1;
    assert LinkedAt(mem, blocks, base, o) && LinkedAt(mem, blocks, base, j + 1);
    if o < j { NodesDistinct(blocks, base, o, j); } else if o > j { NodesDistinct(blocks, base, j, o); }
    var r := blocks[..j] + blocks[j + 1..];
    assert Node(r, base, i) == Node(blocks, base, o) && SizeAt(r, i) == SizeAt(blocks, o);
    assert Node(r, base, After(r, i)) == Node(blocks, base, After(blocks, if i == j then j + 1 else o));
  }

  lemma ShrunkNode(mem: map<int, Header>, blocks: seq<Block>, base: int, j: nat, n: nat, i: nat)
    requires Sorted(blocks, base) && Ring(mem, blocks, base) && j < |blocks| && i <= |blocks|
    requires 1 <= n < blocks[j].size
    requires Node(blocks, base, j) in mem && Node(blocks, base, j + 1) in mem
    requires mem[Node(blocks, base, j + 1)].size == blocks[j].size
    ensures LinkedAt(Cut(mem, Node(blocks, base, j), Node(blocks, base, j + 1), n),
                     blocks[j := Block(blocks[j].addr, blocks[j].size - n)], base, i)
  {
    assert LinkedAt(mem, blocks, base, i);
    var p := Node(blocks, base, j + 1);
    var q := p + UNIT * (blocks[j].size - n);
    assert p < q < blocks[j].End();
    if i <= j {
      NodesDistinct(blocks, base, i, j + 1);
    } else if i > j + 1 {
      NodesDistinct(blocks, base, j + 1, i);
      assert blocks[j].End() < blocks[i - 1].addr;
    }
  }

  // The list is determined by the bytes that are free.

  lemma FirstByte(blocks: seq<Block>, base: int, x: int)
    requires Sorted(blocks, base) && blocks != []
    ensures InBlocks(blocks, blocks[0].addr) && !InBlocks(blocks, blocks[0].End())
    ensures InBlocks(blocks, x) ==> blocks[0].addr <= x
    ensures blocks[0].addr <= x < blocks[0].End() ==> InBlocks(blocks, x)
    ensures InBlocks(blocks[1..], x) <==> InBlocks(blocks, x) && !(blocks[0].addr <= x < blocks[0].End())
  {
    assert blocks[0].addr < blocks[0].End();
    SplitBytes(blocks, 0, 1, x);
    assert blocks[0..1][0] == blocks[0];
    if blocks[0].addr <= x < blocks[0].End() {
      OnlyBlock(blocks, base, 0, x);
    }
  }

  /** Two lists of free blocks with the same free bytes are the same list. */
  lemma {:induction false} CanonicalList(a: seq<Block>, b: seq<Block>, base: int)
    requires Sorted(a, base) && Sorted(b, base)
    requires forall x :: InBlocks(a, x) <==> InBlocks(b, x)
    ensures a == b
    decreases |a| + |b|
  {
    if a != [] {
      FirstByte(a, base, a[0].addr);
      assert InBlocks(b, a[0].addr);
    }
    if b != [] {
      FirstByte(b, base, b[0].addr);
      assert InBlocks(a, b[0].addr);
    }
    if a != [] && b != [] {
      FirstByte(a, base, b[0].addr);
      FirstByte(b, base, a[0].addr);
      FirstByte(a, base, b[0].End());
      FirstByte(b, base, a[0].End());
      assert a[0] == b[0];
      forall x ensures InBlocks(a[1..], x) <==> InBlocks(b[1..], x) {
        FirstByte(a, base, x);
        FirstByte(b, base, x);
      }
      CanonicalList(a[1..], b[1..], base);
    }
  }

  /** Freeing what malloc has just taken restores the free list, wherever the block came from. */
  lemma TakeThenFree(blocks: seq<Block>, base: int, j: nat, n: nat, k: nat)
    requires Sorted(blocks, base) && j < |blocks| && 1 <= n <= blocks[j].size
    requires Fits(Taken(blocks, j, n), k, Tail(blocks[j], n))
    ensures Inserted(Taken(blocks, j, n), k, Tail(blocks[j], n)) == blocks
  {
    var r, t := Taken(blocks, j, n), Tail(blocks[j], n);
    TakenSorted(blocks, base, j, n);
    InsertedSorted(r, base, k, t);
    forall x ensures InBlocks(Inserted(r, k, t), x) <==> InBlocks(blocks, x) {
      TakenBytes(blocks, base, j, n, x);
      InsertedBytes(r, k, t, x);
    }
    CanonicalList(Inserted(r, k, t), blocks, base);
  }

  // Finding the place of a block.

  /** How many free blocks lie below address bp. */
  ghost function Position(blocks: seq<Block>, bp: int): (k: nat)
    ensures k <= |blocks|
  {
    if blocks == [] then 0
    else if blocks[|blocks| - 1].addr < bp then |blocks|
    else Position(blocks[..|blocks| - 1], bp)
  }

  lemma {:induction false} PositionBetween(blocks: seq<Block>, bp: int)
    ensures var k := Position(blocks, bp);
            (k > 0 ==> blocks[k - 1].addr < bp) && (k < |blocks| ==> bp <= blocks[k].addr)
  {
    if blocks != [] && blocks[|blocks| - 1].addr >= bp {
      PositionBetween(blocks[..|blocks| - 1], bp);
    }
  }

  /** The exit test of the search in free(), at header p with successor q. */
  predicate Stops(p: int, q: int, bp: int) {
    (bp > p && bp < q) || (p >= q && (bp > p || bp < q))
  }

  lemma NodesAscend(blocks: seq<Block>, base: int, i: nat, j: nat)
    requires Sorted(blocks, base) && i <= j <= |blocks|
    ensures Node(blocks, base, i) <= Node(blocks, base, j) && (i < j ==> Node(blocks, base, i) < Node(blocks, base, j))
  {
  }

  /** The search stops at exactly one header of the ring, the one the block belongs after. */
  lemma {:induction false} StopsAtPosition(blocks: seq<Block>, base: int, bp: int, k: nat)
    requires Sorted(blocks, base) && base < bp && k <= |blocks|
    requires forall i | 0 <= i < |blocks| :: blocks[i].addr != bp
    ensures Stops(Node(blocks, base, k), Node(blocks, base, After(blocks, k)), bp) <==> k == Position(blocks, bp)
  {
    hide Position, Sorted;
    var t := Position(blocks, bp);
    PositionBetween(blocks, bp);
    NodesAscend(blocks, base, 0, k);
    if k < |blocks| {
      NodesAscend(blocks, base, k, k + 1);
    }
    if k < t {
      NodesAscend(blocks, base, k + 1, t);
    } else if t < k {
      NodesAscend(blocks, base, t + 1, k);
    }
  }

  // Counting units.

  ghost function UnitsIn(bs: seq<Block>): (n: nat) {
    if bs == [] then 0 else UnitsIn(bs[..|bs| - 1]) + bs[|bs| - 1].size
  }

  lemma {:induction false} UnitsInConcat(a: seq<Block>, b: seq<Block>)
    ensures UnitsIn(a + b) == UnitsIn(a) + UnitsIn(b)
    decreases |b|
  {
    if b == [] {
      assert a + b == a;
    } else {
      var n := |b| - 1;
      assert (a + b)[..|a + b| - 1] == a + b[..n];
      UnitsInConcat(a, b[..n]);
    }
  }

  lemma {:induction false} UnitsInOne(a: seq<Block>, c: Block, b: seq<Block>)
    ensures UnitsIn(a + [c] + b) == UnitsIn(a) + c.size + UnitsIn(b)
  {
    UnitsInConcat(a + [c], b);
    UnitsInConcat(a, [c]);
    assert UnitsIn([c]) == UnitsIn([]) + c.size by {
      assert [c][..0] == [];
    }
  }

  lemma {:induction false} InsertedUnits(blocks: seq<Block>, k: nat, b: Block)
    requires k <= |blocks|
    ensures UnitsIn(Inserted(blocks, k, b)) == UnitsIn(blocks) + b.size
  {
    hide UnitsIn;
    var lo, hi, c := Low(blocks, k, b), High(blocks, k, b), Joined(blocks, k, b);
    UnitsInOne(blocks[..lo], c, blocks[hi..]);
    assert blocks == blocks[..lo] + blocks[lo..hi] + blocks[hi..];
    UnitsInConcat(blocks[..lo] + blocks[lo..hi], blocks[hi..]);
    UnitsInConcat(blocks[..lo], blocks[lo..hi]);
    MiddleUnits(blocks, lo, hi);
  }

  lemma MiddleUnits(blocks: seq<Block>, lo: nat, hi: nat)
    requires lo <= hi <= |blocks| && hi <= lo + 2
    ensures hi == lo ==> UnitsIn(blocks[lo..hi]) == 0
    ensures hi == lo + 1 ==> UnitsIn(blocks[lo..hi]) == blocks[lo].size
    ensures hi == lo + 2 ==> UnitsIn(blocks[lo..hi]) == blocks[lo].size + blocks[lo + 1].size
  {
    var m := blocks[lo..hi];
    if hi == lo + 1 {
      assert m == [] + [blocks[lo]] + [];
      UnitsInOne([], blocks[lo], []);
    } else if hi == lo + 2 {
      assert m == [blocks[lo]] + [blocks[lo + 1]] + [] && [blocks[lo]] == [] + [blocks[lo]] + [];
      UnitsInOne([blocks[lo]], blocks[lo + 1], []);
      UnitsInOne([], blocks[lo], []);
    }
  }

  lemma {:induction false} TakenUnits(blocks: seq<Block>, j: nat, n: nat)
    requires j < |blocks| && n <= blocks[j].size
    ensures UnitsIn(Taken(blocks, j, n)) + n == UnitsIn(blocks)
  {
    hide UnitsIn;
    var a, b := blocks[..j], blocks[j + 1..];
    assert blocks == a + [blocks[j]] + b;
    UnitsInOne(a, blocks[j], b);
    if blocks[j].size == n {
      UnitsInConcat(a, b);
    } else {
      var c := Block(blocks[j].addr, blocks[j].size - n);
      assert blocks[j := c] == a + [c] + b;
      UnitsInOne(a, c, b);
    }
  }

  ghost function LiveUnits(live: map<int, nat>): (n: nat) {
    if exists h :: h in live then
      var h :| h in live;
      live[h] + LiveUnits(live - {h})
    else 0
  }

  lemma {:induction false} LiveUnitsWithout(live: map<int, nat>, h: int)
    requires h in live
    ensures LiveUnits(live) == live[h] + LiveUnits(live - {h})
    decreases |live|
  {
    var g :| g in live && LiveUnits(live) == live[g] + LiveUnits(live - {g});
    if g != h {
      LiveUnitsWithout(live - {g}, h);
      LiveUnitsWithout(live - {h}, g);
      assert live - {g} - {h} == live - {h} - {g};
    }
  }

  lemma LiveUnitsWith(live: map<int, nat>, h: int, n: nat)
    requires h !in live
    ensures LiveUnits(live[h := n]) == LiveUnits(live) + n
  {
    LiveUnitsWithout(live[h := n], h);
    assert live[h := n] - {h} == live;
  }

  /** Units free and units allocated are the units obtained from sbrk, whose stretches are apart. */
  ghost predicate Balanced(blocks: seq<Block>, live: map<int, nat>, core: seq<Block>) {
    && UnitsIn(blocks) + LiveUnits(live) == UnitsIn(core)
    && forall i, j | 0 <= i < j < |core| :: core[i].End() <= core[j].addr || core[j].End() <= core[i].addr
  }

  lemma BalancedFree(blocks: seq<Block>, live: map<int, nat>, core: seq<Block>, k: nat, b: Block)
    requires Balanced(blocks, live, core) && k <= |blocks| && b.addr in live && live[b.addr] == b.size
    ensures Balanced(Inserted(blocks, k, b), live - {b.addr}, core)
  {
    InsertedUnits(blocks, k, b);
    LiveUnitsWithout(live, b.addr);
  }

  lemma BalancedTake(blocks: seq<Block>, live: map<int, nat>, core: seq<Block>, j: nat, n: nat, h: int)
    requires Balanced(blocks, live, core) && j < |blocks| && n <= blocks[j].size && h !in live
    ensures Balanced(Taken(blocks, j, n), live[h := n], core)
  {
    TakenUnits(blocks, j, n);
    LiveUnitsWith(live, h, n);
  }

  /** Memory that sbrk never gave out before lies apart from all that it did. */
  lemma BalancedGrow(blocks: seq<Block>, live: map<int, nat>, core: seq<Block>, b: Block)
    requires Balanced(blocks, live, core) && b.addr !in live && b.size >= 1
    requires forall x | b.addr <= x < b.End() :: !InBlocks(core, x)
    requires forall i | 0 <= i < |core| :: core[i].size >= 1
    ensures Balanced(blocks, live[b.addr := b.size], core + [b])
  {
    LiveUnitsWith(live, b.addr, b.size);
    UnitsInOne(core, b, []);
    assert core + [b] + [] == core + [b];
    forall i | 0 <= i < |core| ensures core[i].End() <= b.addr || b.End() <= core[i].addr {
      assert !(core[i].addr <= b.addr < core[i].End()) by {
        assert !InBlocks(core, b.addr);
      }
      assert !(b.addr <= core[i].addr < b.End()) by {
        assert InBlocks(core, core[i].addr);
      }
    }
  }

  class Allocator {
    const base: int             // the address of the static header
    var mem: map<int, Header>
    var freep: int

    ghost var blocks: seq<Block>      // the free blocks, in address order
    ghost var live: map<int, nat>     // the allocations: header address and size in units
    ghost var core: seq<Block>        // what sbrk has given out
    ghost var at: nat                 // which header of the ring freep is

    constructor (base: int)
      requires base > 0
      ensures Valid() && freep == 0 && live == map[] && core == []
    {
      this.base, mem, freep := base, map[], 0;
      blocks, live, core, at := [], map[], [], 0;
    }

    ghost predicate Valid()
      reads this
    {
      && base > 0 && Sorted(blocks, base) && Partition(blocks, live, core) && Balanced(blocks, live, core)
      && (if freep == 0 then core == [] && blocks == [] && live == map[]
          else Ring(mem, blocks, base) && at <= |blocks| && freep == Node(blocks, base, at))
      && (forall h | h in live :: base < h && h in mem && mem[h].size == live[h])
      && (forall i | 0 <= i < |core| :: base < core[i].addr && core[i].size >= 1)
    }

    /**
     The search loop of free(): the header of the ring after which the block at bp belongs.
     It may start anywhere in the ring and always ends.
     */
    method FindPlace(bp: int) returns (p: int, ghost k: nat)
      requires Valid() && freep != 0 && bp in live
      ensures k <= |blocks| && p == Node(blocks, base, k) && Fits(blocks, k, Block(bp, live[bp]))
    {
      ghost var b := Block(bp, live[bp]);
      LiveNotFree(blocks, live, core, bp);
      ghost var target := Position(blocks, bp);
      PositionBetween(blocks, bp);
      p := freep;
      k := at;
      assert LinkedAt(mem, blocks, base, k);
      StopsAtPosition(blocks, base, bp, k);
      while !(bp > p && bp < mem[p].ptr)
        invariant k <= |blocks| && p == Node(blocks, base, k) && LinkedAt(mem, blocks, base, k)
        invariant Stops(p, mem[p].ptr, bp) <==> k == target
        decreases if k <= target then target - k else target + |blocks| + 1 - k
      {
        if p >= mem[p].ptr && (bp > p || bp < mem[p].ptr) {
          break;
        }
        p := mem[p].ptr;
        k := After(blocks, k);
        assert LinkedAt(mem, blocks, base, k);
        StopsAtPosition(blocks, base, bp, k);
      }
      DisjointFits(blocks, base, k, b);
    }

    /**
     free(): the allocation becomes free again, joined with the free blocks it touches.
     Its bytes move from the live side to the free side and nothing else changes hands.
     */
    method Free(ap: int)
      requires Valid() && freep != 0 && ap - UNIT in live
      modifies this
      ensures Valid() && freep != 0 && core == old(core) && live == old(live) - {ap - UNIT}
      ensures exists k: nat :: k <= |old(blocks)| && Fits(old(blocks), k, Block(ap - UNIT, old(live)[ap - UNIT]))
                && blocks == Inserted(old(blocks), k, Block(ap - UNIT, old(live)[ap - UNIT]))
                && at == k && freep == Node(old(blocks), base, k)
    {
      hide Sorted, Partition, Ring, Inserted, Fits, Balanced;
      var bp := ap - UNIT;
      var p;
      ghost var k;
      p, k := FindPlace(bp);
      ghost var b := Block(bp, live[bp]);
      FreedState(mem, blocks, live, core, base, k, b);
      BalancedFree(blocks, live, core, k, b);
      Relink(p, bp);
      freep := p;
      blocks := Inserted(blocks, k, b);
      live := live - {bp};
      at := k;
    }

    /** The assignments of free() once its place has been found. */
    method Relink(p: int, bp: int)
      requires p in mem && bp in mem && p != bp && mem[p].ptr in mem
      modifies this`mem
      ensures mem == Relinked(old(mem), p, bp)
    {
      var q := mem[p].ptr;
      if bp + UNIT * mem[bp].size == q {
        mem := mem[bp := Header(mem[q].ptr, mem[bp].size + mem[q].size)];
      } else {
        mem := mem[bp := mem[bp].(ptr := q)];
      }
      if p + UNIT * mem[p].size == bp {
        mem := mem[p := Header(mem[bp].ptr, mem[p].size + mem[bp].size)];
      } else {
        mem := mem[p := mem[p].(ptr := bp)];
      }
    }

    /**
     morecore(): at least MORECORE_MIN units from sbrk, put on the free list.  `brk` is what
     sbrk answers: the address of fresh memory, or nothing.  `wild`: the product wrapped, so that
     the new block claims memory that sbrk did not give.
     */
    method MoreCore(nunits: nat, brk: Option<int>) returns (p: int, wild: bool)
      requires Valid() && freep != 0 && nunits >= 1
      requires brk.Some? && AskedRight(nunits) ==> Fresh(Block(brk.value, CoreUnits(nunits)))
      modifies this
      ensures Valid() && live == old(live) && freep != 0
      ensures wild <==> brk.Some? && !AskedRight(nunits)
      ensures brk.None? || wild ==>
              p == 0 && blocks == old(blocks) && core == old(core) && mem == old(mem) && at == old(at)
      ensures brk.Some? && !wild ==> p == freep && core == old(core) + [Block(brk.value, CoreUnits(nunits))]
      ensures brk.Some? && !wild ==> !NoneFits(blocks, nunits)
    {
      hide Sorted, Partition, Ring, Inserted, Fits, SbrkArgument, InBlocks, Balanced;
      if brk.None? || !AskedRight(nunits) {
        return 0, brk.Some?;
      }
      var hp, nu := brk.value, CoreUnits(nunits);
      ghost var b := Block(hp, nu);
      PartitionGrow(blocks, live, core, b);
      BalancedGrow(blocks, live, core, b);
      GrownRing(mem, blocks, live, core, base, b, Header(0, nu));
      mem := mem[hp := Header(0, nu)];
      live := live[hp := nu];
      core := core + [b];
      Free(hp + UNIT);
      p, wild := freep, false;
      InsertedLarge(old(blocks), at, b);
    }

    /** Memory sbrk can give out: above base, and given out to nobody before. */
    ghost predicate Fresh(b: Block)
      reads this
    {
      base < b.addr && forall x | b.addr <= x < b.End() :: !InBlocks(core, x)
    }

    /**
     malloc(): a new allocation of Units(nbytes) units whose bytes were free or have just
     come from sbrk.  Memory is asked for at most once, and only when no free block fits;
     the result is null only when that request fails too.  `wild` as for morecore().
     */
    method Malloc(nbytes: nat, brk: Option<int>) returns (ap: int, wild: bool, ghost j: nat)
      requires Valid() && nbytes < 0x1_0000_0000
      requires brk.Some? && AskedRight(Units(nbytes)) ==> Fresh(Block(brk.value, CoreUnits(Units(nbytes))))
      modifies this
      ensures Valid() && freep != 0
      ensures wild <==> brk.Some? && !AskedRight(Units(nbytes)) && NoneFits(old(blocks), Units(nbytes))
      ensures core == old(core) ||
        (brk.Some? && core == old(core) + [Block(brk.value, CoreUnits(Units(nbytes)))]
         && NoneFits(old(blocks), Units(nbytes)))
      ensures ap != 0 ==> ap - UNIT !in old(live) && live == old(live)[ap - UNIT := Units(nbytes)]
      ensures ap == 0 ==> live == old(live) && blocks == old(blocks) && core == old(core)
      ensures ap == 0 <==> wild || (brk.None? && NoneFits(old(blocks), Units(nbytes)))
      ensures ap != 0 && core == old(core) ==>
        old(freep) != 0 && TookFirst(old(blocks), old(at), blocks, at, Units(nbytes), j, ap - UNIT)
    {
      var nunits := Units(nbytes);
      if freep == 0 {
        EmptyRing(base);
        mem := map[base := Header(base, 0)];
        freep := base;
        at := 0;
      }
      ap, wild, j := FirstFit(nunits, brk);
    }

    /** The loop of malloc(). */
    method FirstFit(nunits: nat, brk: Option<int>) returns (ap: int, wild: bool, ghost j: nat)
      requires Valid() && freep != 0 && nunits >= 1
      requires brk.Some? && AskedRight(nunits) ==> Fresh(Block(brk.value, CoreUnits(nunits)))
      modifies this
      ensures Valid() && freep != 0
      ensures wild <==> brk.Some? && !AskedRight(nunits) && NoneFits(old(blocks), nunits)
      ensures core == old(core) ||
        (brk.Some? && core == old(core) + [Block(brk.value, CoreUnits(nunits))] && NoneFits(old(blocks), nunits))
      ensures ap != 0 ==> ap - UNIT !in old(live) && live == old(live)[ap - UNIT := nunits]
      ensures ap == 0 ==> live == old(live) && blocks == old(blocks) && core == old(core)
      ensures ap == 0 <==> wild || (brk.None? && NoneFits(old(blocks), nunits))
      ensures ap != 0 && core == old(core) ==> TookFirst(old(blocks), old(at), blocks, at, nunits, j, ap - UNIT)
    {
      hide Valid, Fresh, AskedRight, Node, NoneFits, AllPassedSmall;
      wild := false;
      ghost var was := blocks;
      var prevp := freep;
      ghost var grown := false;
      Here(0);
      Here(at);
      ghost var i: nat := at;
      var p := mem[prevp].ptr;
      j := After(blocks, i);
      PassedNothing(blocks, at, nunits);
      while true
        invariant Valid() && freep != 0 && live == old(live) && at <= |blocks|
        invariant i <= |blocks| && j == After(blocks, i) && prevp == Node(blocks, base, i) && p == Node(blocks, base, j)
        invariant !wild
        invariant grown ==> brk.Some? && AskedRight(nunits) && core == old(core) + [Block(brk.value, CoreUnits(nunits))]
        invariant grown ==> !NoneFits(blocks, nunits) && NoneFits(was, nunits)
        invariant !grown ==> core == old(core) && blocks == was && at == old(at)
        invariant grown ==> |core| == |old(core)| + 1
        invariant !grown && brk.Some? && AskedRight(nunits) ==> Fresh(Block(brk.value, CoreUnits(nunits)))
        invariant AllPassedSmall(blocks, at, j, nunits)
        decreases !grown, Left(|blocks|, j, at)
      {
        Here(j);
        if mem[p].size >= nunits {
          SomeFits(blocks, j, nunits);
          ap := Take(prevp, p, nunits, j);
          return;
        }
        if p == freep {
          PassedAll(blocks, at, nunits);
          p, wild := MoreCore(nunits, brk);
          if p == 0 {
            return 0, wild, j;
          }
          grown, j := true, at;
          Here(0);
          Here(j);
          PassedNothing(blocks, at, nunits);
        } else {
          PassedOne(blocks, at, j, nunits);
        }
        prevp, i := p, j;
        p, j := mem[p].ptr, After(blocks, j);
      }
    }

    /** What the loop of malloc() knows at the j-th header of the ring. */
    lemma Here(j: nat)
      requires Valid() && freep != 0 && j <= |blocks|
      ensures LinkedAt(mem, blocks, base, j) && at <= |blocks| && freep == Node(blocks, base, at) && base > 0
      ensures Node(blocks, base, j) == freep <==> j == at
    {
      if Node(blocks, base, j) == freep {
        SameNode(blocks, base, at, j);
      }
    }

    /** The end of malloc(): take nunits from the block at p, the j-th of the ring. */
    method Take(prevp: int, p: int, nunits: nat, ghost j: nat) returns (ap: int)
      requires Valid() && freep != 0 && 1 <= j <= |blocks| && 1 <= nunits <= SizeAt(blocks, j)
      requires prevp == Node(blocks, base, j - 1) && p == Node(blocks, base, j)
      modifies this
      ensures Valid() && freep == prevp && freep != 0 && core == old(core) && ap != 0 && at == j - 1
      ensures ap - UNIT !in old(live) && live == old(live)[ap - UNIT := nunits]
      ensures ap - UNIT == Tail(old(blocks)[j - 1], nunits).addr && blocks == Taken(old(blocks), j - 1, nunits)
    {
      hide Sorted, Partition, Ring, InBlocks, Taken, Node, Balanced;
      SizeOf(blocks, base, j);
      TakenState(mem, blocks, live, core, base, j - 1, nunits);
      ghost var t := Tail(blocks[j - 1], nunits);
      BalancedTake(blocks, live, core, j - 1, nunits, t.addr);
      var h := p;
      if mem[p].size == nunits {
        mem := mem[prevp := mem[prevp].(ptr := mem[p].ptr)];
      } else {
        mem := mem[p := mem[p].(size := mem[p].size - nunits)];
        h := p + UNIT * mem[p].size;
        mem := mem[h := Header(0, nunits)];
      }
      assert h == t.addr && mem == Cut(old(mem), prevp, p, nunits);
      freep := prevp;
      blocks := Taken(blocks, j - 1, nunits);
      live := live[h := nunits];
      at := j - 1;
      ap := h + UNIT;
    }
  }

  /** Everything Valid() asks of the state after free(). */
  lemma FreedState(mem: map<int, Header>, blocks: seq<Block>, live: map<int, nat>, core: seq<Block>, base: int,
                   k: nat, b: Block)
    requires Sorted(blocks, base) && Partition(blocks, live, core) && Ring(mem, blocks, base)
    requires forall h | h in live :: base < h && h in mem && mem[h].size == live[h]
    requires b.addr in live && live[b.addr] == b.size && Fits(blocks, k, b)
    ensures var p, r := Node(blocks, base, k), Inserted(blocks, k, b);
            && p in mem && p != b.addr && mem[p].ptr in mem && base <= p
            && Sorted(r, base) && Partition(r, live - {b.addr}, core) && Ring(Relinked(mem, p, b.addr), r, base)
            && k <= |r| && p == Node(r, base, k)
            && forall h | h in live && h != b.addr :: Relinked(mem, p, b.addr)[h] == mem[h]
  {
    hide Sorted, Partition, Ring, Inserted, Node;
    LiveHeadersKept(blocks, live, core, base);
    RelinkedRing(mem, blocks, base, k, b);
    InsertedSorted(blocks, base, k, b);
    forall x ensures InBlocks(Inserted(blocks, k, b), x) <==> InBlocks(blocks, x) || b.addr <= x < b.End() {
      InsertedBytes(blocks, k, b, x);
    }
    PartitionFree(blocks, live, core, b, Inserted(blocks, k, b));
    InsertedNode(blocks, base, k, b);
  }

  lemma GrownRing(mem: map<int, Header>, blocks: seq<Block>, live: map<int, nat>, core: seq<Block>, base: int,
                  b: Block, h: Header)
    requires Ring(mem, blocks, base) && Partition(blocks, live, core) && Sorted(blocks, base)
    requires base < b.addr && b.size >= 1
    requires forall x | b.addr <= x < b.End() :: !InBlocks(core, x)
    ensures Ring(mem[b.addr := h], blocks, base)
  {
    forall i | 0 <= i < |blocks| ensures blocks[i].addr != b.addr {
      assert InBlocks(blocks, blocks[i].addr);
      assert InBlocks(core, blocks[i].addr);
    }
    var mem' := mem[b.addr := h];
    forall i | 0 <= i <= |blocks| ensures LinkedAt(mem', blocks, base, i) {
      assert LinkedAt(mem, blocks, base, i);
    }
  }

  lemma InsertedLarge(blocks: seq<Block>, k: nat, b: Block)
    requires k <= |blocks|
    ensures var r := Inserted(blocks, k, b); exists i :: 0 <= i < |r| && r[i].size >= b.size
  {
    var r := Inserted(blocks, k, b);
    assert r[Low(blocks, k, b)] == Joined(blocks, k, b);
  }

  /** Everything Valid() asks of the state after malloc() has taken n units of blocks[j]. */
  lemma TakenState(mem: map<int, Header>, blocks: seq<Block>, live: map<int, nat>, core: seq<Block>, base: int,
                   j: nat, n: nat)
    requires Sorted(blocks, base) && Partition(blocks, live, core) && Ring(mem, blocks, base)
    requires forall h | h in live :: base < h && h in mem && mem[h].size == live[h]
    requires j < |blocks| && 1 <= n <= blocks[j].size
    ensures var prevp, p, t, r :=
              Node(blocks, base, j), Node(blocks, base, j + 1), Tail(blocks[j], n), Taken(blocks, j, n);
            && prevp in mem && p in mem && mem[p].size == blocks[j].size && base <= prevp && base < t.addr
            && t.addr !in live && Sorted(r, base) && Partition(r, live[t.addr := n], core)
            && Ring(Cut(mem, prevp, p, n), r, base)
            && j <= |r| && prevp == Node(r, base, j)
            && (mem[p].size == n ==> t.addr == p)
            && forall h | h in live :: Cut(mem, prevp, p, n)[h] == mem[h]
  {
    var r, t := Taken(blocks, j, n), Tail(blocks[j], n);
    TakenSorted(blocks, base, j, n);
    CutRing(mem, blocks, base, j, n);
    forall x ensures t.addr <= x < t.End() ==> InBlocks(blocks, x)
             ensures InBlocks(r, x) <==> InBlocks(blocks, x) && !(t.addr <= x < t.End())
    {
      TakenBytes(blocks, base, j, n, x);
    }
    PartitionTake(blocks, live, core, t, r);
    LiveHeadersKept(blocks, live, core, base);
  }

  lemma EmptyRing(base: int)
    ensures Ring(map[base := Header(base, 0)], [], base)
  {
  }

  lemma RingLink(mem: map<int, Header>, blocks: seq<Block>, base: int, i: nat)
    requires Ring(mem, blocks, base) && i <= |blocks|
    ensures LinkedAt(mem, blocks, base, i)
  {
  }

  lemma SizeOf(blocks: seq<Block>, base: int, j: nat)
    requires 1 <= j <= |blocks|
    ensures SizeAt(blocks, j) == blocks[j - 1].size && Node(blocks, base, j) == blocks[j - 1].addr
  {
  }

  lemma SameNode(blocks: seq<Block>, base: int, i: nat, j: nat)
    requires Sorted(blocks, base) && i <= |blocks| && j <= |blocks| && Node(blocks, base, i) == Node(blocks, base, j)
    ensures i == j
  {
    if i < j { NodesDistinct(blocks, base, i, j); } else if j < i { NodesDistinct(blocks, base, j, i); }
  }

  ghost predicate NoneFits(blocks: seq<Block>, n: nat) {
    forall i | 0 <= i < |blocks| :: blocks[i].size < n
  }

  ghost predicate AllPassedSmall(blocks: seq<Block>, from: nat, j: nat, n: nat) {
    forall t: nat | t <= |blocks| && Passed(from, t, j) :: SizeAt(blocks, t) < n
  }

  /**
   Next fit: of the blocks behind freep, around the ring, the j-th is the first that is large enough; what is
   taken is all of it or its tail, and freep stays before it.
   */
  ghost predicate TookFirst(blocks: seq<Block>, from: nat, blocks': seq<Block>, at: nat, n: nat, j: nat, h: int) {
    && 1 <= j <= |blocks| && n <= blocks[j - 1].size && AllPassedSmall(blocks, from, j, n)
    && blocks' == Taken(blocks, j - 1, n) && h == Tail(blocks[j - 1], n).addr && at == j - 1
  }

  lemma SomeFits(blocks: seq<Block>, j: nat, n: nat)
    requires j <= |blocks| && SizeAt(blocks, j) >= n >= 1
    ensures !NoneFits(blocks, n)
  {
    assert blocks[j - 1].size >= n;
  }

  lemma PassedNothing(blocks: seq<Block>, from: nat, n: nat)
    requires from <= |blocks|
    ensures AllPassedSmall(blocks, from, After(blocks, from), n)
  {
  }

  lemma PassedOne(blocks: seq<Block>, from: nat, j: nat, n: nat)
    requires from <= |blocks| && j <= |blocks| && j != from && SizeAt(blocks, j) < n
    requires AllPassedSmall(blocks, from, j, n)
    ensures AllPassedSmall(blocks, from, After(blocks, j), n)
    ensures Left(|blocks|, After(blocks, j), from) < Left(|blocks|, j, from)
  {
    forall t: nat | t <= |blocks| && Passed(from, t, After(blocks, j)) ensures SizeAt(blocks, t) < n {
      assert t == j || Passed(from, t, j);
    }
  }

  lemma PassedAll(blocks: seq<Block>, from: nat, n: nat)
    requires from <= |blocks| && SizeAt(blocks, from) < n && AllPassedSmall(blocks, from, from, n)
    ensures NoneFits(blocks, n)
  {
    forall i | 0 <= i < |blocks| ensures blocks[i].size < n {
      assert i + 1 == from || Passed(from, i + 1, from);
      assert SizeAt(blocks, i + 1) == blocks[i].size;
    }
  }

  /** Header t has been passed on the way round from just after header `from` to header j. */
  ghost predicate Passed(from: nat, t: nat, j: nat) {
    if from < j then from < t < j else t > from || t < j
  }

  /** How many headers are left on the way round to header `from`. */
  ghost function Left(n: nat, j: nat, from: nat): (d: int) {
    if j > from then from + n + 1 - j else from - j
  }

  lemma LiveNotFree(blocks: seq<Block>, live: map<int, nat>, core: seq<Block>, h: int)
    requires Partition(blocks, live, core) && h in live
    ensures forall x | h <= x < h + UNIT * live[h] :: !InBlocks(blocks, x)
    ensures forall i | 0 <= i < |blocks| && blocks[i].size >= 1 :: blocks[i].addr != h
  {
    forall x | h <= x < h + UNIT * live[h] ensures !InBlocks(blocks, x) {
      assert Covers(live, h, x) && InLive(live, x);
    }
    forall i | 0 <= i < |blocks| && blocks[i].size >= 1 ensures blocks[i].addr != h {
      assert InBlocks(blocks, blocks[i].addr);
    }
  }

  /** No live header is a header of the ring. */
  lemma LiveHeadersKept(blocks: seq<Block>, live: map<int, nat>, core: seq<Block>, base: int)
    requires Partition(blocks, live, core) && Sorted(blocks, base)
    requires forall h | h in live :: base < h
    ensures forall i | 0 <= i <= |blocks| :: Node(blocks, base, i) !in live && base <= Node(blocks, base, i)
  {
    forall i | 0 <= i <= |blocks| ensures Node(blocks, base, i) !in live {
      if Node(blocks, base, i) in live {
        LiveNotFree(blocks, live, core, Node(blocks, base, i));
      }
    }
  }

  /** The header free() leaves in freep is still the k-th of the ring. */
  lemma InsertedNode(blocks: seq<Block>, base: int, k: nat, b: Block)
    requires k <= |blocks|
    ensures k <= |Inserted(blocks, k, b)| && Node(Inserted(blocks, k, b), base, k) == Node(blocks, base, k)
  {
  }
}
