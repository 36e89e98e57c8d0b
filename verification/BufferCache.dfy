/**
 The buffer cache (bio.c) over the memory disk (memide.c).

 Buffers are the slots 0..nbuf-1 of a fixed table, linked in a ring through next and
 prev; slot nbuf is the list head.  The ghost field `view` is the one logical disk that
 all users of the cache see; Valid() says that the buffers and the real disk together
 represent it.
 */
module BufferCache {
  import opened Common
  import opened Disk

  const ROOTDEV: nat := 1

  /** struct buf: B_VALID and B_DIRTY as two flags, the sleep lock as one. */
  datatype Buf = Buf(dev: nat, blockno: nat, valid: bool, dirty: bool, locked: bool, refcnt: nat, data: Block)

  /** The disk: its blocks, and the history of every write made to it. */
  class MemDisk {
    var blocks: seq<Block>
    ghost var writes: seq<Write>

    constructor (image: seq<Block>)
      ensures blocks == image && writes == []
    {
      blocks, writes := image, [];
    }
  }

  // The ring.

  /** `lru` lists every slot once. */
  ghost predicate IsOrder(lru: seq<nat>, nbuf: nat) {
    |lru| == nbuf && NoRepeats(lru) &&
    (forall i | 0 <= i < nbuf :: lru[i] < nbuf) && (forall b: nat | b < nbuf :: b in lru)
  }

  /** The slots from the head round to the head again. */
  ghost function RingOf(lru: seq<nat>, nbuf: nat): (ring: seq<nat>) {
    [nbuf] + lru + [nbuf]
  }

  /** next and prev follow `ring`, forwards and backwards. */
  ghost predicate Linked(next: seq<nat>, prev: seq<nat>, ring: seq<nat>) {
    && |next| == |prev|
    && (forall i | 0 <= i < |ring| :: ring[i] < |next|)
    && (forall i | 0 <= i < |ring| - 1 :: next[ring[i]] == ring[i + 1])
    && (forall i | 1 <= i < |ring| :: prev[ring[i]] == ring[i - 1])
  }

  /** The list is a doubly linked cycle through the head that holds each buffer once. */
  ghost predicate Ring(next: seq<nat>, prev: seq<nat>, lru: seq<nat>, nbuf: nat) {
    |next| == nbuf + 1 && IsOrder(lru, nbuf) && Linked(next, prev, RingOf(lru, nbuf))
  }

  /** `s` with its element at k moved to the front. */
  ghost function MovedToFront(s: seq<nat>, k: nat): (r: seq<nat>)
    requires k < |s|
  {
    [s[k]] + s[..k] + s[k + 1..]
  }

  // Which buffer caches which block.

  ghost predicate Indexed(bufs: seq<Buf>, index: map<nat, nat>, size: nat) {
    && (forall bn | bn in index ::
          && bn < size && index[bn] < |bufs|
          && bufs[index[bn]].dev == ROOTDEV && bufs[index[bn]].blockno == bn)
    && (forall i | 0 <= i < |bufs| ::
          var b := bufs[i];
          if b.dev == ROOTDEV then b.blockno in index && index[b.blockno] == i
          else b == b.(dev := 0, valid := false, dirty := false, locked := false, refcnt := 0))
  }

  /** What the users of the cache see: the logical disk and the state of each cached block. */
  datatype View = View(
    blocks: seq<Block>,  // the logical disk
    pinned: set<nat>,    // blocks whose buffer is dirty
    refs: multiset<nat>, // one entry per reference to the buffer of a block
    held: set<nat>,      // blocks whose buffer is locked
    touched: set<nat>)   // held blocks changed since they were last written or pinned

  ghost predicate FlagsMatch(b: Buf, bn: nat, v: View)
    requires bn < |v.blocks|
  {
    && (b.dirty <==> bn in v.pinned)
    && (b.locked <==> bn in v.held)
    && b.refcnt == v.refs[bn]
    && (b.valid ==> b.data == v.blocks[bn])
    && (!b.valid ==> bn !in v.pinned && bn !in v.touched)
    && (bn in v.touched ==> bn in v.held) && (bn in v.held ==> bn in v.refs)
  }

  /** Flags of every cached buffer, and data of every valid one, are as the view says. */
  ghost predicate Represents(bufs: seq<Buf>, index: map<nat, nat>, v: View)
    requires Indexed(bufs, index, |v.blocks|)
  {
    && v.pinned <= index.Keys && v.held <= index.Keys && v.touched <= index.Keys
    && (forall bn | bn in v.refs :: bn in index)
    && forall bn | bn in index :: FlagsMatch(bufs[index[bn]], bn, v)
  }

  /** A buffer that the caller holds: locked, read in, and caching block bn. */
  ghost predicate HeldIn(bufs: seq<Buf>, index: map<nat, nat>, v: View, b: nat, bn: nat) {
    && b < |bufs| && bn in index && index[bn] == b && bn in v.held && bn < |v.blocks|
    && bufs[b].valid && bufs[b].locked && bufs[b].dev == ROOTDEV && bufs[b].blockno == bn
    && bufs[b].data == v.blocks[bn]
  }

  /** The real disk holds the view except where a buffer is pinned or being changed. */
  ghost predicate Backed(v: View, blocks: seq<Block>) {
    && |v.blocks| == |blocks|
    && forall bn | 0 <= bn < |blocks| && bn !in v.pinned && bn !in v.touched :: v.blocks[bn] == blocks[bn]
  }

  predicate Recyclable(b: Buf) {
    b.refcnt == 0 && !b.dirty
  }

  ghost predicate SomeRecyclable(bufs: seq<Buf>) {
    exists i :: 0 <= i < |bufs| && Recyclable(bufs[i])
  }

  // Lemmas about the ring.

  lemma Unlinked(next: seq<nat>, prev: seq<nat>, ring: seq<nat>, k: nat)
    requires Linked(next, prev, ring) && 0 < k < |ring| - 1
    requires forall i, j | 0 <= i < j < |ring| && !(i == 0 && j == |ring| - 1) :: ring[i] != ring[j]
    ensures Linked(next[ring[k - 1] := ring[k + 1]], prev[ring[k + 1] := ring[k - 1]], ring[..k] + ring[k + 1..])
  {
    var r := ring[..k] + ring[k + 1..];
    var next', prev' := next[ring[k - 1] := ring[k + 1]], prev[ring[k + 1] := ring[k - 1]];
    forall i | 0 <= i < |r| - 1 ensures next'[r[i]] == r[i + 1] {
      if i >= k { assert next[ring[i + 1]] == ring[i + 2]; } else { assert next[ring[i]] == ring[i + 1]; }
    }
    forall i | 1 <= i < |r| ensures prev'[r[i]] == r[i - 1] {
      if i > k { assert prev[ring[i + 1]] == ring[i]; } else if i < k { assert prev[ring[i]] == ring[i - 1]; }
    }
  }

  /** Linking slot b in behind the head. */
  lemma LinkedFront(next: seq<nat>, prev: seq<nat>, ring: seq<nat>, b: nat)
    requires Linked(next, prev, ring) && |ring| >= 2 && b < |next| && b !in ring
    requires ring[0] == ring[|ring| - 1]
    requires forall i, j | 0 <= i < j < |ring| && !(i == 0 && j == |ring| - 1) :: ring[i] != ring[j]
    ensures Linked(next[b := ring[1]][ring[0] := b], prev[b := ring[0]][ring[1] := b], [ring[0], b] + ring[1..])
  {
    var r := [ring[0], b] + ring[1..];
    var next', prev' := next[b := ring[1]][ring[0] := b], prev[b := ring[0]][ring[1] := b];
    forall i | 0 <= i < |r| - 1 ensures next'[r[i]] == r[i + 1] {
      if i >= 2 { assert next[ring[i - 1]] == ring[i]; }
    }
    forall i | 1 <= i < |r| ensures prev'[r[i]] == r[i - 1] {
      if i >= 3 { assert prev[ring[i - 1]] == ring[i - 2]; }
    }
  }

  lemma RingDistinct(lru: seq<nat>, nbuf: nat)
    requires IsOrder(lru, nbuf)
    ensures var ring := RingOf(lru, nbuf);
            forall i, j | 0 <= i < j < |ring| && !(i == 0 && j == |ring| - 1) :: ring[i] != ring[j]
  {
  }

  /** The ring without its slot k. */
  ghost function Cut(lru: seq<nat>, nbuf: nat, k: nat): (r: seq<nat>)
    requires k < |lru|
  {
    var ring := RingOf(lru, nbuf);
    ring[..k + 1] + ring[k + 2..]
  }

  lemma CutRing(lru: seq<nat>, nbuf: nat, k: nat)
    requires IsOrder(lru, nbuf) && k < nbuf
    ensures var cut := Cut(lru, nbuf, k);
            && lru[k] !in cut && |cut| >= 2 && cut[0] == cut[|cut| - 1] == nbuf
            && (forall i, j | 0 <= i < j < |cut| && !(i == 0 && j == |cut| - 1) :: cut[i] != cut[j])
            && RingOf(MovedToFront(lru, k), nbuf) == [nbuf, lru[k]] + cut[1..]
  {
    var ring, cut := RingOf(lru, nbuf), Cut(lru, nbuf, k);
    RingDistinct(lru, nbuf);
    forall i | 0 <= i < |cut| ensures cut[i] == if i <= k then ring[i] else ring[i + 1] {
    }
    assert ring[k + 1] == lru[k];
  }

  lemma MovedOrder(lru: seq<nat>, nbuf: nat, k: nat)
    requires IsOrder(lru, nbuf) && k < nbuf
    ensures IsOrder(MovedToFront(lru, k), nbuf)
  {
    var r := MovedToFront(lru, k);
    forall b: nat | b < nbuf ensures b in r {
      assert b in lru;
      var i :| 0 <= i < |lru| && lru[i] == b;
      assert b == if i == k then r[0] else if i < k then r[i + 1] else r[i];
    }
  }

  // Lemmas about the availability of buffers.

  /** Fewer pins and references than buffers: some buffer can be recycled. */
  lemma BufferAvailable(bufs: seq<Buf>, index: map<nat, nat>, v: View)
    requires Indexed(bufs, index, |v.blocks|) && Represents(bufs, index, v)
    requires |v.pinned| + |v.refs| < |bufs|
    ensures SomeRecyclable(bufs)
  {
    if !SomeRecyclable(bufs) {
      var nums := BlockNumbers(bufs, index, v, |bufs|);
      CountCovered(nums, v.pinned, v.refs);
    }
  }

  lemma CountCovered(nums: set<nat>, pinned: set<nat>, refs: multiset<nat>)
    requires forall bn | bn in nums :: bn in pinned || bn in refs
    ensures |nums| <= |pinned| + |refs|
  {
    var both, only := nums * pinned, multiset(nums - pinned);
    assert nums == both + (nums - pinned);
    assert pinned == both + (pinned - both);
    assert |only| == |nums - pinned|;
    assert refs == only + (refs - only);
  }

  lemma {:induction false} BlockNumbers(bufs: seq<Buf>, index: map<nat, nat>, v: View, k: nat) returns (nums: set<nat>)
    requires Indexed(bufs, index, |v.blocks|) && Represents(bufs, index, v)
    requires k <= |bufs| && !SomeRecyclable(bufs)
    ensures |nums| == k && forall bn | bn in nums :: bn in v.pinned || bn in v.refs
    ensures forall bn | bn in nums :: bn in index && index[bn] < k
  {
    if k == 0 {
      nums := {};
    } else {
      var rest := BlockNumbers(bufs, index, v, k - 1);
      var b := bufs[k - 1];
      assert !Recyclable(b) && b.dev == ROOTDEV;
      assert FlagsMatch(bufs[index[b.blockno]], b.blockno, v);
      nums := rest + {b.blockno};
    }
  }

  // Lemmas about changing one buffer.

  /** The two views agree about every block but bn. */
  ghost predicate AgreeExcept(v: View, w: View, bn: nat) {
    && |v.blocks| == |w.blocks|
    && (forall x | 0 <= x < |v.blocks| && x != bn :: v.blocks[x] == w.blocks[x])
    && w.pinned - {bn} == v.pinned - {bn} && w.refs[bn := 0] == v.refs[bn := 0]
    && w.held - {bn} == v.held - {bn} && w.touched - {bn} == v.touched - {bn}
  }

  /** Changing the buffer of a cached block together with what the view says of that block. */
  lemma BufferChanged(bufs: seq<Buf>, index: map<nat, nat>, v: View, bn: nat, b: Buf, w: View)
    requires Indexed(bufs, index, |v.blocks|) && Represents(bufs, index, v)
    requires bn in index && b.dev == ROOTDEV && b.blockno == bn && AgreeExcept(v, w, bn)
    requires FlagsMatch(b, bn, w)
    ensures var bufs' := bufs[index[bn] := b];
            Indexed(bufs', index, |w.blocks|) && Represents(bufs', index, w)
  {
    var bufs' := bufs[index[bn] := b];
    forall x | x in index ensures FlagsMatch(bufs'[index[x]], x, w) {
      assert FlagsMatch(bufs[index[x]], x, v);
      if x != bn {
        assert x in w.pinned <==> x in w.pinned - {bn};
        assert w.refs[x] == w.refs[bn := 0][x];
        assert x in w.held <==> x in w.held - {bn};
        assert x in w.touched <==> x in w.touched - {bn};
      }
    }
    SubsetSplit(w.pinned, index.Keys, bn);
    SubsetSplit(w.held, index.Keys, bn);
    forall x | x in w.refs ensures x in index {
      assert x == bn || w.refs[bn := 0][x] == w.refs[x];
    }
    SubsetSplit(w.touched, index.Keys, bn);
  }

  lemma SubsetSplit(a: set<nat>, b: set<nat>, x: nat)
    requires a - {x} <= b && (x in a ==> x in b)
    ensures a <= b
  {
    forall y | y in a ensures y in b {
      assert y == x || y in a - {x};
    }
  }

  /** A buffer as bget leaves it when it takes it over for block bn. */
  function TakenOver(b: Buf, bn: nat): (r: Buf) {
    Buf(ROOTDEV, bn, false, false, false, 1, b.data)
  }

  /** Taking over a buffer that is neither referenced nor dirty for a block that is not cached. */
  lemma BufferRecycled(bufs: seq<Buf>, index: map<nat, nat>, v: View, i: nat, bn: nat)
    requires Indexed(bufs, index, |v.blocks|) && Represents(bufs, index, v)
    requires i < |bufs| && Recyclable(bufs[i]) && bn < |v.blocks| && bn !in index
    ensures var bufs' := bufs[i := TakenOver(bufs[i], bn)];
            var index' := Reindexed(bufs, index, i, bn);
            var w := v.(refs := v.refs + multiset{bn});
            && Indexed(bufs', index', |w.blocks|) && Represents(bufs', index', w)
            && Kept(bufs, index, bufs', index', v, bn)
  {
    var bufs' := bufs[i := TakenOver(bufs[i], bn)];
    var index' := Reindexed(bufs, index, i, bn);
    var w := v.(refs := v.refs + multiset{bn});
    RecycledIndexed(bufs, index, v, i, bn);
    assert v.refs[bn] == 0;
    forall x | x in index' && x != bn ensures FlagsMatch(bufs'[index'[x]], x, w) {
      assert FlagsMatch(bufs[index[x]], x, v);
    }
  }

  lemma RecycledIndexed(bufs: seq<Buf>, index: map<nat, nat>, v: View, i: nat, bn: nat)
    requires Indexed(bufs, index, |v.blocks|) && Represents(bufs, index, v)
    requires i < |bufs| && Recyclable(bufs[i]) && bn < |v.blocks| && bn !in index
    ensures var bufs' := bufs[i := TakenOver(bufs[i], bn)]; var index' := Reindexed(bufs, index, i, bn);
            Indexed(bufs', index', |v.blocks|) && Kept(bufs, index, bufs', index', v, bn)
  {
    var index' := Reindexed(bufs, index, i, bn);
    forall x | x in index && (x in v.pinned || x in v.refs)
      ensures x in index' && index'[x] == index[x] && index[x] != i
    {
      assert FlagsMatch(bufs[index[x]], x, v);
    }
  }

  /** Buffers of blocks other than bn that are dirty or referenced stay as they are. */
  ghost predicate Kept(bufs: seq<Buf>, index: map<nat, nat>, bufs': seq<Buf>, index': map<nat, nat>, v: View, bn: nat) {
    && |bufs'| == |bufs|
    && forall x | x in index && (x in v.pinned || x in v.refs) && x != bn && index[x] < |bufs| ::
         x in index' && index'[x] == index[x] && bufs'[index[x]] == bufs[index[x]]
  }

  lemma SlotFlags(bufs: seq<Buf>, index: map<nat, nat>, v: View, bn: nat)
    requires Indexed(bufs, index, |v.blocks|) && Represents(bufs, index, v) && bn in index
    ensures bn < |v.blocks| && index[bn] < |bufs|
    ensures bufs[index[bn]].dev == ROOTDEV && bufs[index[bn]].blockno == bn && FlagsMatch(bufs[index[bn]], bn, v)
  {
  }

  lemma HeldReferenced(bufs: seq<Buf>, index: map<nat, nat>, v: View)
    requires Indexed(bufs, index, |v.blocks|) && Represents(bufs, index, v)
    ensures forall x | x in v.held :: x in v.refs
  {
    forall x | x in v.held ensures x in v.refs {
      assert FlagsMatch(bufs[index[x]], x, v);
    }
  }

  lemma HoldsKept(b0: seq<Buf>, i0: map<nat, nat>, v0: View, b1: seq<Buf>, i1: map<nat, nat>, v1: View, bn: nat)
    requires Kept(b0, i0, b1, i1, v0, bn) && bn !in v0.held && (forall x | x in v0.held :: x in v0.refs)
    requires v1.blocks == v0.blocks && v0.held <= v1.held
    ensures forall c, x | HeldIn(b0, i0, v0, c, x) :: HeldIn(b1, i1, v1, c, x)
  {
  }

  lemma KeptOthers(bufs: seq<Buf>, index: map<nat, nat>, v: View, bn: nat, c: Buf)
    requires Indexed(bufs, index, |v.blocks|) && bn in index
    ensures Kept(bufs, index, bufs[index[bn] := c], index, v, bn)
  {
  }

  lemma KeptTrans(b0: seq<Buf>, i0: map<nat, nat>, b1: seq<Buf>, i1: map<nat, nat>, b2: seq<Buf>, v: View, w: View,
                  bn: nat)
    requires Kept(b0, i0, b1, i1, v, bn) && Kept(b1, i1, b2, i1, w, bn)
    requires v.pinned == w.pinned && forall x | x in v.refs :: x in w.refs
    ensures Kept(b0, i0, b2, i1, v, bn)
  {
  }

  /** The index after slot i has been taken over for block bn. */
  ghost function Reindexed(bufs: seq<Buf>, index: map<nat, nat>, i: nat, bn: nat): (r: map<nat, nat>)
    requires i < |bufs|
  {
    (if bufs[i].dev == ROOTDEV then index - {bufs[i].blockno} else index)[bn := i]
  }

  /** The order binit builds: the last buffer first. */
  ghost function CountDown(n: nat): (r: seq<nat>) {
    seq(n, i requires 0 <= i < n => n - 1 - i)
  }

  lemma CountDownOrder(n: nat)
    ensures IsOrder(CountDown(n), n)
  {
    forall b: nat | b < n ensures b in CountDown(n) {
      assert CountDown(n)[n - 1 - b] == b;
    }
  }

  /** The list-building loop of binit. */
  method LinkBuffers(nbuf: nat) returns (next: seq<nat>, prev: seq<nat>)
    ensures Ring(next, prev, CountDown(nbuf), nbuf)
  {
    next, prev := seq(nbuf + 1, _ => nbuf), seq(nbuf + 1, _ => nbuf);
    for b := 0 to nbuf
      invariant |next| == |prev| == nbuf + 1
      invariant Linked(next, prev, RingOf(CountDown(b), nbuf))
    {
      ghost var ring := RingOf(CountDown(b), nbuf);
      LinkedFront(next, prev, ring, b);
      assert next[ring[0]] == ring[1];
      next := next[b := next[nbuf]];
      prev := prev[b := nbuf];
      prev := prev[next[nbuf] := b];
      next := next[nbuf := b];
      assert CountDown(b + 1) == [b] + CountDown(b);
      assert RingOf(CountDown(b + 1), nbuf) == [ring[0], b] + ring[1..];
    }
    CountDownOrder(nbuf);
  }

  class Cache {
    const disk: MemDisk
    const nbuf: nat
    var bufs: seq<Buf>          // bcache.buf[NBUF]
    var next: seq<nat>
    var prev: seq<nat>

    ghost var lru: seq<nat>     // the buffers, most recently used first
    ghost var index: map<nat, nat>
    ghost var view: View

    ghost predicate Valid()
      reads this, disk
    {
      && |bufs| == nbuf
      && Ring(next, prev, lru, nbuf)
      && Indexed(bufs, index, |view.blocks|)
      && Represents(bufs, index, view)
      && Backed(view, disk.blocks)
    }

    ghost predicate Holds(b: nat, bn: nat)
      reads this
    {
      HeldIn(bufs, index, view, b, bn)
    }

    /** What the layers above use of Valid(). */
    lemma Usable()
      requires Valid()
      ensures |bufs| == nbuf && |view.blocks| == |disk.blocks| && view.pinned <= index.Keys
      ensures |view.pinned| + |view.refs| < nbuf ==> SomeRecyclable(bufs)
      ensures forall bn | 0 <= bn < |view.blocks| && bn !in view.pinned && bn !in view.touched ::
                view.blocks[bn] == disk.blocks[bn]
    {
      if |view.pinned| + |view.refs| < nbuf {
        BufferAvailable(bufs, index, view);
      }
    }

    /** binit, on a machine just started: nothing is cached and the view is the disk. */
    constructor (disk: MemDisk, nbuf: nat)
      ensures Valid() && this.disk == disk && this.nbuf == nbuf && lru == CountDown(nbuf)
      ensures view == View(disk.blocks, {}, multiset{}, {}, {}) && index == map[]
    {
      this.disk, this.nbuf := disk, nbuf;
      bufs := seq(nbuf, _ => Buf(0, 0, false, false, false, 0, seq(128, _ => 0)));
      var nx, pv := LinkBuffers(nbuf);
      next, prev := nx, pv;
      lru, index, view := CountDown(nbuf), map[], View(disk.blocks, {}, multiset{}, {}, {});
    }

    /** The forward scan of bget: the slot that caches bn, or the head when none does. */
    method Lookup(bn: nat) returns (p: nat)
      requires Valid()
      ensures if bn in index then p == index[bn] && p < nbuf else p == nbuf
    {
      hide Represents, Backed;
      ghost var ring, k := RingOf(lru, nbuf), 0;
      assert ring[0] == nbuf && next[ring[0]] == ring[1];
      p := next[nbuf];
      while p != nbuf
        invariant 0 <= k <= nbuf && p == ring[k + 1]
        invariant forall i | 0 <= i < k :: !(bufs[lru[i]].dev == ROOTDEV && bufs[lru[i]].blockno == bn)
        decreases nbuf - k
      {
        assert p == lru[k];
        if bufs[p].dev == ROOTDEV && bufs[p].blockno == bn {
          return;
        }
        assert next[ring[k + 1]] == ring[k + 2];
        p := next[p];
        k := k + 1;
      }
      forall i: nat | i < nbuf ensures !(bufs[i].dev == ROOTDEV && bufs[i].blockno == bn) {
        assert i in lru;
      }
    }

    /** The backward scan of bget: the least recently used buffer that can be recycled. */
    method FindVictim() returns (p: nat, ghost k: nat)
      requires Valid() && SomeRecyclable(bufs)
      ensures k < nbuf && p == lru[k] && p < nbuf && Recyclable(bufs[p])
      ensures forall i | k < i < nbuf :: !Recyclable(bufs[lru[i]])
    {
      hide Indexed, Represents, Backed;
      ghost var ring := RingOf(lru, nbuf);
      ghost var j := nbuf;
      assert ring[nbuf + 1] == nbuf && prev[ring[nbuf + 1]] == ring[nbuf];
      p := prev[nbuf];
      while p != nbuf
        invariant 0 <= j <= nbuf && p == ring[j]
        invariant forall i | j <= i < nbuf :: !Recyclable(bufs[lru[i]])
        decreases j
      {
        assert p == lru[j - 1];
        if bufs[p].refcnt == 0 && !bufs[p].dirty {
          k := j - 1;
          return;
        }
        assert prev[ring[j]] == ring[j - 1];
        p := prev[p];
        j := j - 1;
      }
      forall i: nat | i < nbuf ensures !Recyclable(bufs[i]) {
        assert i in lru;
      }
      assert false;  // panic("bget: no buffers") is not reached
    }

    /**
     bget up to its lock: a reference to the buffer of a block, held by somebody or not.  A cached block keeps
     its buffer; otherwise the least recently used buffer that is neither referenced nor dirty is taken over.
     */
    method Reference(bn: nat) returns (b: nat)
      requires Valid() && bn < |view.blocks|
      requires bn in index || SomeRecyclable(bufs)
      modifies this`bufs, this`index, this`view
      ensures Valid() && bn in index && index[bn] == b && b < |bufs|
      ensures view == old(view).(refs := old(view).refs + multiset{bn})
      ensures bn in old(index) ==>
        index == old(index) && bufs == old(bufs)[b := old(bufs)[b].(refcnt := old(bufs)[b].refcnt + 1)]
      ensures bn !in old(index) ==>
        && bufs == old(bufs)[b := TakenOver(old(bufs)[b], bn)] && Recyclable(old(bufs)[b])
        && exists k :: 0 <= k < nbuf && lru[k] == b && forall i | k < i < nbuf :: !Recyclable(old(bufs)[lru[i]])
      ensures Kept(old(bufs), old(index), bufs, index, old(view), bn)
    {
      hide Ring, Indexed, Represents, Kept;
      b := Lookup(bn);
      if b != nbuf {
        ghost var v := view;
        SlotFlags(bufs, index, v, bn);
        var c := bufs[b].(refcnt := bufs[b].refcnt + 1);
        view := v.(refs := v.refs + multiset{bn});
        BufferChanged(bufs, index, v, bn, c, view);
        KeptOthers(bufs, index, v, bn, c);
        bufs := bufs[b := c];
      } else {
        ghost var k;
        b, k := FindVictim();
        BufferRecycled(bufs, index, view, b, bn);
        index := Reindexed(bufs, index, b, bn);
        view := view.(refs := view.refs + multiset{bn});
        bufs := bufs[b := TakenOver(bufs[b], bn)];
      }
    }

    /** acquiresleep on a buffer, at the moment nobody holds it; whoever waits has a reference. */
    method Lock(b: nat)
      requires Valid() && b < |bufs| && bufs[b].dev == ROOTDEV
      requires bufs[b].blockno !in view.held && bufs[b].blockno in view.refs
      modifies this`bufs, this`view
      ensures Valid() && bufs == old(bufs)[b := old(bufs)[b].(locked := true)]
      ensures var bn := old(bufs)[b].blockno;
        && bn in index && index[bn] == b && view == old(view).(held := old(view).held + {bn})
        && Kept(old(bufs), index, bufs, index, old(view), bn)
    {
      hide Ring, Represents, Kept;
      ghost var v, bn := view, bufs[b].blockno;
      assert bn in index && index[bn] == b;
      SlotFlags(bufs, index, v, bn);
      var c := bufs[b].(locked := true);
      view := v.(held := v.held + {bn});
      BufferChanged(bufs, index, v, bn, c, view);
      KeptOthers(bufs, index, v, bn, c);
      bufs := bufs[b := c];
    }

    /** bget of a block that nobody holds: its buffer, locked. */
    method Bget(bn: nat) returns (b: nat)
      requires Valid() && bn < |view.blocks| && bn !in view.held
      requires bn in index || SomeRecyclable(bufs)
      modifies this`bufs, this`index, this`view
      ensures Valid() && bn in index && index[bn] == b
      ensures view == old(view).(held := old(view).held + {bn}, refs := old(view).refs + multiset{bn})
      ensures bn in old(index) ==> index == old(index) && bufs[b].valid == old(bufs)[b].valid
      ensures bn !in old(index) ==>
        && !bufs[b].valid && Recyclable(old(bufs)[b])
        && exists k :: 0 <= k < nbuf && lru[k] == b && forall i | k < i < nbuf :: !Recyclable(old(bufs)[lru[i]])
      ensures Kept(old(bufs), old(index), bufs, index, old(view), bn)
    {
      hide Ring, Indexed, Represents, Kept;
      b := Reference(bn);
      ghost var b1, i1, v1 := bufs, index, view;
      SlotFlags(bufs, index, view, bn);
      Lock(b);
      KeptTrans(old(bufs), old(index), b1, i1, bufs, old(view), v1, bn);
    }

    /** iderw: write the buffer when it is dirty, else read it. */
    method IdeRw(b: nat)
      requires b < |bufs| && bufs[b].locked && !(bufs[b].valid && !bufs[b].dirty)
      requires bufs[b].dev == ROOTDEV && bufs[b].blockno < |disk.blocks|
      modifies this`bufs, disk
      ensures |disk.blocks| == |old(disk.blocks)|
      ensures bufs ==
              old(bufs)[b := old(bufs)[b].(valid := true, dirty := false, data := disk.blocks[old(bufs)[b].blockno])]
      ensures old(bufs)[b].dirty ==>
        && disk.blocks == old(disk.blocks)[old(bufs)[b].blockno := old(bufs)[b].data]
        && disk.writes == old(disk.writes) + [Write(old(bufs)[b].blockno, old(bufs)[b].data)]
      ensures !old(bufs)[b].dirty ==> disk.blocks == old(disk.blocks) && disk.writes == old(disk.writes)
    {
      var bn := bufs[b].blockno;
      if bufs[b].dirty {
        bufs := bufs[b := bufs[b].(dirty := false)];
        disk.blocks := disk.blocks[bn := bufs[b].data];
        disk.writes := disk.writes + [Write(bn, bufs[b].data)];
      } else {
        bufs := bufs[b := bufs[b].(data := disk.blocks[bn])];
      }
      bufs := bufs[b := bufs[b].(valid := true)];
    }

    /** bread once bget has returned: a locked buffer holds the logical content of its block. */
    method ReadIn(b: nat)
      requires Valid() && b < |bufs| && bufs[b].dev == ROOTDEV && bufs[b].blockno in view.held
      modifies this`bufs, disk
      ensures Valid() && Holds(b, old(bufs)[b].blockno)
      ensures disk.blocks == old(disk.blocks) && disk.writes == old(disk.writes)
      ensures Kept(old(bufs), index, bufs, index, view, old(bufs)[b].blockno)
    {
      hide Ring, Represents, Kept;
      ghost var bn := bufs[b].blockno;
      assert bn in index && index[bn] == b;
      SlotFlags(bufs, index, view, bn);
      ghost var c := bufs[b].(valid := true, data := view.blocks[bn]);
      BufferChanged(bufs, index, view, bn, c, view);
      KeptOthers(bufs, index, view, bn, c);
      if !bufs[b].valid {
        IdeRw(b);
      }
      assert bufs == old(bufs)[b := c];
    }

    /** bread of a block that nobody holds: its buffer, locked and holding the logical content. */
    method Bread(bn: nat) returns (b: nat)
      requires Valid() && bn < |view.blocks| && bn !in view.held
      requires bn in index || SomeRecyclable(bufs)
      modifies this`bufs, this`index, this`view, disk
      ensures Valid() && Holds(b, bn)
      ensures view == old(view).(held := old(view).held + {bn}, refs := old(view).refs + multiset{bn})
      ensures disk.blocks == old(disk.blocks) && disk.writes == old(disk.writes)
      ensures Kept(old(bufs), old(index), bufs, index, old(view), bn)
      ensures forall c, x | old(Holds(c, x)) :: Holds(c, x)
    {
      hide Ring, Indexed, Represents, Kept;
      ghost var b0, i0, v := bufs, index, view;
      HeldReferenced(bufs, index, view);
      b := Bget(bn);
      SlotFlags(bufs, index, view, bn);
      ghost var b1 := bufs;
      ReadIn(b);
      KeptTrans(b0, i0, b1, index, bufs, v, view, bn);
      HoldsKept(b0, i0, v, bufs, index, view, bn);
    }

    /** The holder of a buffer changes its data (memmove into b->data). */
    method Store(b: nat, data: Block)
      requires Valid() && b < |bufs| && Holds(b, bufs[b].blockno)
      modifies this`bufs, this`view
      ensures Valid() && Holds(b, old(bufs)[b].blockno)
      ensures var bn := old(bufs)[b].blockno;
        view == old(view).(blocks := old(view).blocks[bn := data], touched := old(view).touched + {bn})
      ensures bufs == old(bufs)[b := old(bufs)[b].(data := data)]
      ensures forall c, x | old(Holds(c, x)) && x != old(bufs)[b].blockno :: Holds(c, x)
    {
      hide Ring, Indexed, Represents;
      ghost var v, bn := view, bufs[b].blockno;
      view := v.(blocks := v.blocks[bn := data], touched := v.touched + {bn});
      SlotFlags(bufs, index, v, bn);
      BufferChanged(bufs, index, v, bn, bufs[b].(data := data), view);
      bufs := bufs[b := bufs[b].(data := data)];
    }

    /** The last step of log_write: B_DIRTY keeps the buffer in the cache until it is written. */
    method Pin(b: nat)
      requires Valid() && b < |bufs| && Holds(b, bufs[b].blockno)
      modifies this`bufs, this`view
      ensures Valid() && Holds(b, old(bufs)[b].blockno)
      ensures var bn := old(bufs)[b].blockno;
        view == old(view).(pinned := old(view).pinned + {bn}, touched := old(view).touched - {bn})
      ensures bufs == old(bufs)[b := old(bufs)[b].(dirty := true)]
      ensures forall c, x | old(Holds(c, x)) && x != old(bufs)[b].blockno :: Holds(c, x)
    {
      hide Ring, Indexed, Represents;
      ghost var v, bn := view, bufs[b].blockno;
      view := v.(pinned := v.pinned + {bn}, touched := v.touched - {bn});
      SlotFlags(bufs, index, v, bn);
      BufferChanged(bufs, index, v, bn, bufs[b].(dirty := true), view);
      bufs := bufs[b := bufs[b].(dirty := true)];
    }

    /** bwrite: the held block goes to the disk, and its buffer is clean. */
    method Bwrite(b: nat)
      requires Valid() && b < |bufs| && Holds(b, bufs[b].blockno)
      modifies this`bufs, this`view, disk
      ensures Valid() && Holds(b, old(bufs)[b].blockno)
      ensures var bn := old(bufs)[b].blockno;
        && view == old(view).(pinned := old(view).pinned - {bn}, touched := old(view).touched - {bn})
        && disk.blocks == old(disk.blocks)[bn := view.blocks[bn]]
        && disk.writes == old(disk.writes) + [Write(bn, view.blocks[bn])]
      ensures bufs == old(bufs)[b := old(bufs)[b].(dirty := false)]
      ensures forall c, x | old(Holds(c, x)) && x != old(bufs)[b].blockno :: Holds(c, x)
    {
      hide Ring, Indexed, Represents;
      ghost var v, bn, was := view, bufs[b].blockno, bufs;
      view := v.(pinned := v.pinned - {bn}, touched := v.touched - {bn});
      SlotFlags(bufs, index, v, bn);
      BufferChanged(bufs, index, v, bn, bufs[b].(dirty := false), view);
      bufs := bufs[b := bufs[b].(dirty := true)];
      IdeRw(b);
      assert bufs == was[b := was[b].(dirty := false)];
    }

    /** brelse: unlock, drop the reference, and move an unreferenced buffer to the front. */
    method Brelse(b: nat)
      requires Valid() && b < |bufs| && Holds(b, bufs[b].blockno) && bufs[b].blockno !in view.touched
      modifies this
      ensures Valid() && index == old(index)
      ensures var bn := old(bufs)[b].blockno;
        && bufs == old(bufs)[b := old(bufs)[b].(locked := false, refcnt := old(bufs)[b].refcnt - 1)]
        && view == old(view).(held := old(view).held - {bn}, refs := old(view).refs - multiset{bn})
      ensures old(bufs)[b].refcnt > 1 ==> lru == old(lru)
      ensures old(bufs)[b].refcnt == 1 ==>
        exists k :: 0 <= k < nbuf && old(lru)[k] == b && lru == MovedToFront(old(lru), k)
      ensures forall c, x | old(Holds(c, x)) && x != old(bufs)[b].blockno :: Holds(c, x)
    {
      hide Represents, Indexed, Backed;
      Unreference(b);
      assert b in lru;
      ghost var k :| 0 <= k < |lru| && lru[k] == b;
      if bufs[b].refcnt == 0 {
        MoveToHead(b, k);
      }
    }

    /** releasesleep and the reference count. */
    method Unreference(b: nat)
      requires Valid() && b < |bufs| && Holds(b, bufs[b].blockno) && bufs[b].blockno !in view.touched
      modifies this`bufs, this`view
      ensures Valid() && old(bufs)[b].refcnt > 0
      ensures var bn := old(bufs)[b].blockno;
        && bufs == old(bufs)[b := old(bufs)[b].(locked := false, refcnt := old(bufs)[b].refcnt - 1)]
        && view == old(view).(held := old(view).held - {bn}, refs := old(view).refs - multiset{bn})
    {
      hide Ring, Indexed, Represents;
      ghost var v, bn := view, bufs[b].blockno;
      SlotFlags(bufs, index, v, bn);
      var c := bufs[b].(locked := false, refcnt := bufs[b].refcnt - 1);
      view := v.(held := v.held - {bn}, refs := v.refs - multiset{bn});
      BufferChanged(bufs, index, v, bn, c, view);
      bufs := bufs[b := c];
    }

    /** The pointer updates of brelse. */
    method MoveToHead(b: nat, ghost k: nat)
      requires Ring(next, prev, lru, nbuf) && k < nbuf && lru[k] == b
      modifies this`next, this`prev, this`lru
      ensures Ring(next, prev, lru, nbuf) && lru == MovedToFront(old(lru), k)
    {
      ghost var cut := Cut(lru, nbuf, k);
      CutRing(lru, nbuf, k);
      MovedOrder(lru, nbuf, k);
      Unlink(b, k);
      assert next[cut[0]] == cut[1];
      LinkedFront(next, prev, cut, b);
      next := next[b := next[nbuf]];
      prev := prev[b := nbuf];
      prev := prev[next[nbuf] := b];
      next := next[nbuf := b];
      lru := MovedToFront(lru, k);
    }

    method Unlink(b: nat, ghost k: nat)
      requires Ring(next, prev, lru, nbuf) && k < nbuf && lru[k] == b
      modifies this`next, this`prev
      ensures Linked(next, prev, Cut(lru, nbuf, k)) && |next| == nbuf + 1
    {
      ghost var ring := RingOf(lru, nbuf);
      RingDistinct(lru, nbuf);
      assert ring[k + 1] == b && next[ring[k + 1]] == ring[k + 2] && prev[ring[k + 1]] == ring[k];
      Unlinked(next, prev, ring, k + 1);
      prev := prev[next[b] := prev[b]];
      next := next[prev[b] := next[b]];
    }
  }
}
