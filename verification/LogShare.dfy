/**
 What a write to a file puts into the log (fs.c, file.c): which blocks writei hands to
 log_write, and how many that are.
 */
module LogShare {
  import opened Common
  import opened FileState
  import Bitmap

  const MAXWRITE: nat := 13 * 512       // filewrite's max: ((LOGSIZE - 1 - 1 - 2) / 2) * 512

  // The blocks under the bytes off .. off + n of a file of len bytes.

  function First(off: nat): (b: nat) { off / BSIZE }

  function Past(off: nat, n: nat): (b: nat)
    ensures First(off) <= b
  {
    if n == 0 then First(off) else (off + n - 1) / BSIZE + 1
  }

  /** The blocks a file of `len` bytes has. */
  function Ceil(len: nat): (b: nat) { (len + BSIZE - 1) / BSIZE }

  /** The blocks a write covers. */
  function Span(off: nat, n: nat): (b: nat) { Past(off, n) - First(off) }

  /** The write fills an entry of the indirect block. */
  predicate FillsEntry(len: nat, past: nat) {
    NDIRECT < past && Ceil(len) < past
  }

  // How many blocks that is.

  /** On a disk with one bitmap block: the data blocks, and the bitmap, indirect and inode block if they change. */
  function LogCount(len: nat, off: nat, n: nat): (k: nat) {
    if n == 0 then 0
    else
      Span(off, n) + (if Ceil(len) < Past(off, n) then 1 else 0) +
      (if FillsEntry(len, Past(off, n)) then 1 else 0) + (if len < off + n then 1 else 0)
  }

  /** At most, however many bitmap blocks there are: a bitmap block for each block that is new. */
  function WriteCost(len: nat, off: nat, n: nat): (k: nat) {
    if n == 0 then 0
    else
      Span(off, n) + NewBlocks(len, Past(off, n)) +
      (if FillsEntry(len, Past(off, n)) then 1 else 0) + (if len < off + n then 1 else 0)
  }

  /** The blocks allocated: data blocks, and the indirect block if the file had none. */
  function NewBlocks(len: nat, past: nat): (k: nat) { Needed(len, past, Ceil(len) <= NDIRECT) }

  function Needed(len: nat, past: nat, noIndirect: bool): (k: nat) {
    Max(Ceil(len), past) - Ceil(len) + (if FillsEntry(len, past) && noIndirect then 1 else 0)
  }

  /** The blocks allocated for one block of a file: none if it is there, else it and perhaps the indirect block. */
  function RoundNeeds(bn: nat, has: bool, noIndirect: bool): (k: nat) {
    if has then 0 else if NDIRECT <= bn && noIndirect then 2 else 1
  }

  lemma NeededNext(len: nat, bn: nat, noIndirect: bool, missing: bool)
    requires missing <==> noIndirect && !FillsEntry(len, bn)
    ensures Needed(len, bn + 1, noIndirect) == Needed(len, bn, noIndirect) + RoundNeeds(bn, bn < Ceil(len), missing)
  {
  }

  lemma NeededGrows(len: nat, past: nat, more: nat, noIndirect: bool)
    requires past <= more
    ensures Needed(len, past, noIndirect) <= Needed(len, more, noIndirect)
    ensures past <= Ceil(len) ==> Needed(len, past, noIndirect) == 0
  {
  }

  /** Two writes one after the other allocate what one would. */
  lemma ChunksNeed(len: nat, off: nat, i: nat, n: nat)
    requires off <= len && 0 < n
    ensures Past(off + i, n) == Past(off, i + n)
    ensures NewBlocks(len, Past(off, i + n)) ==
            NewBlocks(len, Past(off, i)) + NewBlocks(Max(len, off + i), Past(off + i, n))
  {
    assert off + i + n - 1 == off + (i + n) - 1;
    assert Ceil(Max(len, off + i)) == Max(Ceil(len), Past(off, i)) by {
      if 0 < i {
        assert (off + i + BSIZE - 1) / BSIZE == (off + i - 1) / BSIZE + 1;
      }
    }
    assert Past(off, i) <= Past(off, i + n);
    hide Past, Ceil;
  }

  lemma SpanIs(off: nat, n: nat)
    requires 0 < n
    ensures Span(off, n) == (off % BSIZE + n - 1) / BSIZE + 1
  {
    var q, r := off / BSIZE, off % BSIZE;
    assert off == q * BSIZE + r;
    assert (q * BSIZE + (r + n - 1)) / BSIZE == q + (r + n - 1) / BSIZE;
  }

  lemma PartBlock(len: nat, off: nat)
    requires off <= len
    ensures First(off) <= Ceil(len) && (off % BSIZE != 0 ==> First(off) < Ceil(len))
  {
  }

  /** A chunk of filewrite fits the log. */
  lemma ChunkFits(len: nat, off: nat, n: nat)
    requires n <= MAXWRITE && off <= len
    ensures WriteCost(len, off, n) <= LOGSIZE
  {
    if 0 < n {
      SpanIs(off, n);
      PartBlock(len, off);
    }
  }

  /**
   And only just, if it spans 14 blocks of which all but the first are new, and the indirect block too: then
   the bound is the size of the log.
   */
  lemma ChunkWorstIff(len: nat, off: nat, n: nat)
    requires n <= MAXWRITE && off <= len
    ensures WriteCost(len, off, n) == LOGSIZE <==>
            && 0 < n && Span(off, n) == 14 && Ceil(len) == First(off) + 1
            && Ceil(len) <= NDIRECT < Past(off, n)
  {
    if 0 < n {
      SpanIs(off, n);
      PartBlock(len, off);
    }
  }

  /**
   The writes of eleven blocks and more, of ten if the file grows, of nine if a block is new, and of eight if an
   entry of the indirect block is.
   */
  predicate Overruns(len: nat, off: nat, n: nat) {
    || Span(off, n) > 10
    || (Span(off, n) == 10 && len < off + n)
    || (Span(off, n) == 9 && Ceil(len) < Past(off, n))
    || (Span(off, n) == 8 && FillsEntry(len, Past(off, n)))
  }

  /** On a disk with one bitmap block, exactly these log more blocks than begin_op reserves for an operation. */
  lemma OverrunIff(len: nat, off: nat, n: nat)
    requires 0 < n && off <= len
    ensures LogCount(len, off, n) > MAXOPBLOCKS <==> Overruns(len, off, n)
  {
    if Ceil(len) < Past(off, n) {
      assert len <= Ceil(len) * BSIZE <= (Past(off, n) - 1) * BSIZE <= off + n - 1;
    }
  }

  /** The smallest file written at once that overruns: nine blocks. */
  lemma NineBlocksOverrun()
    ensures LogCount(0, 0, 9 * BSIZE) == 11
    ensures forall n | 0 <= n <= 8 * BSIZE :: LogCount(0, 0, n) <= MAXOPBLOCKS
  {
    forall n | 0 <= n <= 8 * BSIZE ensures LogCount(0, 0, n) <= MAXOPBLOCKS {
      if 0 < n {
        SpanIs(0, n);
      }
    }
  }

  /** With one bitmap block a chunk logs at most 17 blocks. */
  lemma ChunkOneBitmap(len: nat, off: nat, n: nat)
    requires n <= MAXWRITE && off <= len
    ensures LogCount(len, off, n) <= 17
    ensures LogCount(1, 1, MAXWRITE) == 17
  {
    if 0 < n {
      SpanIs(off, n);
    }
  }

  // Which blocks those are.

  /** The bitmap block that holds a block's bit, BBLOCK. */
  function BitBlock(bm: nat, b: nat): (n: nat)
    ensures n == bm + Bitmap.HomeBlock(b)
  {
    bm + b / Bitmap.BPB
  }

  ghost function BitBlocks(bm: nat, bs: set<nat>): (r: set<nat>) {
    set b | b in bs :: BitBlock(bm, b)
  }

  /** Between two points the blocks `added` were allocated; they, their bits and `extra` were logged, and no more. */
  ghost predicate Logs(l: set<nat>, l': set<nat>, k: set<nat>, k': set<nat>, bm: nat, added: set<nat>,
                       extra: set<nat>) {
    && k' == k + added && added !! k
    && l' == l + added + BitBlocks(bm, added) + extra
  }

  lemma LogsThen(l: set<nat>, l': set<nat>, l'': set<nat>, k: set<nat>, k': set<nat>, k'': set<nat>, bm: nat,
                 f: set<nat>, f': set<nat>, e: set<nat>, e': set<nat>)
    requires Logs(l, l', k, k', bm, f, e) && Logs(l', l'', k', k'', bm, f', e')
    ensures Logs(l, l'', k, k'', bm, f + f', e + e')
  {
    assert BitBlocks(bm, f + f') == BitBlocks(bm, f) + BitBlocks(bm, f');
  }

  lemma LogsNothing(l: set<nat>, k: set<nat>, bm: nat, e: set<nat>)
    ensures Logs(l, l + e, k, k, bm, {}, e)
  {
    assert BitBlocks(bm, {}) == {};
  }

  /** Giving a free block to somebody. */
  lemma LogsTaken(s: State, meta: nat, owner: map<nat, Slot>, l: set<nat>, bm: nat, b: nat, slot: Slot, e: set<nat>)
    requires Owned(s, meta, owner) && b < |s.used| && !s.used[b]
    ensures Logs(l, l + {BitBlock(bm, b), b} + e, owner.Keys, owner[b := slot].Keys, bm, {b}, e)
    ensures Logs(l, l + {BitBlock(bm, b), b}, owner.Keys, owner[b := slot].Keys, bm, {b}, {})
  {
    assert b !in owner;
    assert BitBlocks(bm, {b}) == {BitBlock(bm, b)};
  }

  /** Blocks lo .. hi of a file. */
  ghost function BlocksIn(s: State, meta: nat, ino: nat, lo: nat, hi: nat): (r: set<nat>)
    requires Shape(s, meta) && ino < |s.inodes| && hi <= MAXFILE
  {
    set m | lo <= m < hi :: BlockOf(s, meta, ino, m)
  }

  ghost function IndirectOf(s: State, ino: nat): (b: nat)
    requires ino < |s.inodes| && |s.inodes[ino].addrs| == NDIRECT + 1
  {
    s.inodes[ino].addrs[NDIRECT]
  }

  /** What one round of writei's loop does to the map of the file and to the log. */
  ghost predicate Round(s: State, s': State, meta: nat, ino: nat, bn: nat, exists_: bool, bm: nat,
                        l: set<nat>, l': set<nat>, k: set<nat>, k': set<nat>)
  {
    && Shape(s, meta) && Shape(s', meta) && ino < |s.inodes| == |s'.inodes| && bn < MAXFILE
    && (forall m | 0 <= m < MAXFILE && m != bn :: BlockOf(s', meta, ino, m) == BlockOf(s, meta, ino, m))
    && (IndirectOf(s, ino) != 0 || bn < NDIRECT || exists_ ==> IndirectOf(s', ino) == IndirectOf(s, ino))
    && (NDIRECT <= bn ==> IndirectOf(s', ino) != 0)
    && var addr := BlockOf(s', meta, ino, bn);
       && addr != 0
       && if exists_ then Logs(l, l', k, k', bm, {}, {addr})
          else Logs(l, l', k, k', bm, FreshIn(s, s', ino, bn, addr), {addr} + EntryIn(s', ino, bn))
  }

  ghost function FreshIn(s: State, s': State, ino: nat, bn: nat, addr: nat): (r: set<nat>)
    requires ino < |s.inodes| == |s'.inodes| && |s.inodes[ino].addrs| == |s'.inodes[ino].addrs| == NDIRECT + 1
  {
    {addr} + (if NDIRECT <= bn && IndirectOf(s, ino) == 0 then {IndirectOf(s', ino)} else {})
  }

  ghost function EntryIn(s': State, ino: nat, bn: nat): (r: set<nat>)
    requires ino < |s'.inodes| && |s'.inodes[ino].addrs| == NDIRECT + 1
  {
    if NDIRECT <= bn then {IndirectOf(s', ino)} else {}
  }

  /** What the rounds so far did: blocks first .. past were written, those beyond the old length are new. */
  ghost predicate Rounds(s: State, s': State, meta: nat, ino: nat, len: nat, first: nat, past: nat, bm: nat,
                         l: set<nat>, l': set<nat>, k: set<nat>, k': set<nat>)
  {
    && Shape(s, meta) && Shape(s', meta) && ino < |s.inodes| == |s'.inodes| && past <= MAXFILE && Ceil(len) <= MAXFILE
    && (IndirectOf(s, ino) != 0 || !FillsEntry(len, past) ==> IndirectOf(s', ino) == IndirectOf(s, ino))
    && (FillsEntry(len, past) ==> IndirectOf(s', ino) != 0)
    && (forall m | 0 <= m < MAXFILE && first <= m < past :: BlockOf(s', meta, ino, m) != 0)
    && Logs(l, l', k, k', bm, Fresh(s, s', meta, ino, len, past),
            BlocksIn(s', meta, ino, first, past) + Filled(s', ino, len, past))
  }

  ghost function Fresh(s: State, s': State, meta: nat, ino: nat, len: nat, past: nat): (r: set<nat>)
    requires Shape(s, meta) && Shape(s', meta) && ino < |s.inodes| == |s'.inodes| && past <= MAXFILE
    requires Ceil(len) <= MAXFILE
  {
    BlocksIn(s', meta, ino, Ceil(len), past) +
    (if FillsEntry(len, past) && IndirectOf(s, ino) == 0 then {IndirectOf(s', ino)} else {})
  }

  ghost function Filled(s': State, ino: nat, len: nat, past: nat): (r: set<nat>)
    requires ino < |s'.inodes| && |s'.inodes[ino].addrs| == NDIRECT + 1
  {
    if FillsEntry(len, past) then {IndirectOf(s', ino)} else {}
  }

  lemma RoundsStart(s: State, meta: nat, ino: nat, len: nat, first: nat, bm: nat, l: set<nat>, k: set<nat>)
    requires Shape(s, meta) && ino < |s.inodes| && first <= Ceil(len) <= MAXFILE
    ensures Rounds(s, s, meta, ino, len, first, first, bm, l, l, k, k)
  {
    LogsNothing(l, k, bm, {});
    assert l + {} == l;
    assert BlocksIn(s, meta, ino, Ceil(len), first) == {} && BlocksIn(s, meta, ino, first, first) == {};
  }

  /** The indirect block is missing as long as it was and no entry has been filled. */
  lemma RoundsIndirect(s: State, s': State, meta: nat, ino: nat, len: nat, first: nat, past: nat, bm: nat,
                       l: set<nat>, l': set<nat>, k: set<nat>, k': set<nat>)
    requires Rounds(s, s', meta, ino, len, first, past, bm, l, l', k, k')
    ensures ino < |s.inodes| && ino < |s'.inodes| && |s.inodes[ino].addrs| == |s'.inodes[ino].addrs| == NDIRECT + 1
    ensures s'.inodes[ino].addrs[NDIRECT] == 0 <==> s.inodes[ino].addrs[NDIRECT] == 0 && !FillsEntry(len, past)
  {
    hide Logs, Fresh, BlocksIn;
  }

  lemma BlocksInNext(s: State, s': State, meta: nat, ino: nat, lo: nat, hi: nat)
    requires Shape(s, meta) && Shape(s', meta) && ino < |s.inodes| == |s'.inodes| && hi < MAXFILE
    requires forall m | 0 <= m < MAXFILE && m != hi :: BlockOf(s', meta, ino, m) == BlockOf(s, meta, ino, m)
    ensures BlocksIn(s', meta, ino, lo, hi) == BlocksIn(s, meta, ino, lo, hi)
    ensures lo <= hi ==>
            BlocksIn(s', meta, ino, lo, hi + 1) == BlocksIn(s, meta, ino, lo, hi) + {BlockOf(s', meta, ino, hi)}
    ensures lo > hi ==> BlocksIn(s', meta, ino, lo, hi + 1) == BlocksIn(s, meta, ino, lo, hi) == {}
  {
    hide BlockOf, Shape;
  }

  lemma RoundsNext(s: State, s1: State, s2: State, meta: nat, ino: nat, len: nat, first: nat, bn: nat, bm: nat,
                   l: set<nat>, l1: set<nat>, l2: set<nat>, k: set<nat>, k1: set<nat>, k2: set<nat>)
    requires Rounds(s, s1, meta, ino, len, first, bn, bm, l, l1, k, k1) && first <= bn
    requires Round(s1, s2, meta, ino, bn, bn < Ceil(len), bm, l1, l2, k1, k2)
    ensures Rounds(s, s2, meta, ino, len, first, bn + 1, bm, l, l2, k, k2)
  {
    hide BlockOf, Logs, BlocksIn, Ceil;
    BlocksInNext(s1, s2, meta, ino, first, bn);
    BlocksInNext(s1, s2, meta, ino, Ceil(len), bn);
    var addr := BlockOf(s2, meta, ino, bn);
    var added := if bn < Ceil(len) then {} else FreshIn(s1, s2, ino, bn, addr);
    var extra := if bn < Ceil(len) then {addr} else {addr} + EntryIn(s2, ino, bn);
    var f, e := Fresh(s, s1, meta, ino, len, bn), BlocksIn(s1, meta, ino, first, bn) + Filled(s1, ino, len, bn);
    LogsThen(l, l1, l2, k, k1, k2, bm, f, added, e, extra);
    assert f + added == Fresh(s, s2, meta, ino, len, bn + 1);
    assert e + extra == BlocksIn(s2, meta, ino, first, bn + 1) + Filled(s2, ino, len, bn + 1);
  }

  // Counting them.

  lemma LastIsNew(s: State, meta: nat, owner: map<nat, Slot>, ino: nat, lo: nat, hi: nat)
    requires Owned(s, meta, owner) && ino < |s.inodes| && lo <= hi < MAXFILE
    requires forall m | lo <= m <= hi :: BlockOf(s, meta, ino, m) != 0
    ensures BlockOf(s, meta, ino, hi) !in BlocksIn(s, meta, ino, lo, hi)
  {
    forall m | lo <= m < hi ensures BlockOf(s, meta, ino, m) != BlockOf(s, meta, ino, hi) {
      OneFile(s, meta, owner, ino, m, ino, hi);
    }
  }

  lemma {:induction false} CountBlocks(s: State, meta: nat, owner: map<nat, Slot>, ino: nat, lo: nat, hi: nat)
    requires Owned(s, meta, owner) && ino < |s.inodes| && lo <= hi <= MAXFILE
    requires forall m | lo <= m < hi :: BlockOf(s, meta, ino, m) != 0
    ensures |BlocksIn(s, meta, ino, lo, hi)| == hi - lo
    decreases hi
  {
    hide Owned, BlockOf, Shape, BlocksIn;
    OwnedShape(s, meta, owner);
    if lo < hi {
      LastIsNew(s, meta, owner, ino, lo, hi - 1);
      BlocksInNext(s, s, meta, ino, lo, hi - 1);
      CountBlocks(s, meta, owner, ino, lo, hi - 1);
    } else {
      NoBlocksIn(s, meta, ino, lo);
    }
  }

  lemma OwnedShape(s: State, meta: nat, owner: map<nat, Slot>)
    requires Owned(s, meta, owner)
    ensures Shape(s, meta)
  {
  }

  lemma NoBlocksIn(s: State, meta: nat, ino: nat, lo: nat)
    requires Shape(s, meta) && ino < |s.inodes| && lo <= MAXFILE
    ensures BlocksIn(s, meta, ino, lo, lo) == {}
  {
  }

  lemma DataBlocks(s: State, meta: nat, owner: map<nat, Slot>, ino: nat, lo: nat, hi: nat)
    requires Owned(s, meta, owner) && ino < |s.inodes| && lo <= hi <= MAXFILE
    requires forall m | lo <= m < hi :: BlockOf(s, meta, ino, m) != 0
    ensures forall b | b in BlocksIn(s, meta, ino, lo, hi) :: meta <= b < |s.data| && b != IndirectOf(s, ino)
    ensures IndirectOf(s, ino) == 0 || meta <= IndirectOf(s, ino) < |s.data|
  {
    assert Held(s, meta, Indirect(ino)) == IndirectOf(s, ino);
    forall m | lo <= m < hi
      ensures meta <= BlockOf(s, meta, ino, m) < |s.data| && BlockOf(s, meta, ino, m) != IndirectOf(s, ino)
    {
      IsBlockSlot(s, ino, m);
    }
  }

  lemma {:induction false} BitCount(bm: nat, bs: set<nat>)
    ensures |BitBlocks(bm, bs)| <= |bs|
  {
    hide BitBlock;
    if bs != {} {
      var b :| b in bs;
      BitCount(bm, bs - {b});
      assert BitBlocks(bm, bs) == BitBlocks(bm, bs - {b}) + {BitBlock(bm, b)};
    }
  }

  /** The parts of the set do not overlap, so that their sizes add up. */
  lemma PartsAddUp(a: set<nat>, b: set<nat>, c: set<nat>, d: set<nat>)
    requires a !! b && (a + b) !! c && (a + b + c) !! d
    ensures |a + b + c + d| == |a| + |b| + |c| + |d|
  {
  }

  lemma PartsBound(a: set<nat>, b: set<nat>, c: set<nat>, d: set<nat>)
    ensures |a + b + c + d| <= |a| + |b| + |c| + |d|
  {
  }

  /** Where the blocks of the file system lie: inodes, then the bitmap, then data. */
  ghost predicate InodeBlock(inode: nat, bm: nat, meta: nat, size: nat) {
    inode < bm < meta && forall b | 0 <= b < size :: BitBlock(bm, b) < meta
  }

  /** The set of blocks a write logs. */
  ghost function LoggedSet(s: State, s': State, meta: nat, ino: nat, len: nat, off: nat, n: nat, bm: nat,
                           inode: nat): (r: set<nat>)
    requires Shape(s, meta) && Shape(s', meta) && ino < |s.inodes| == |s'.inodes| && Past(off, n) <= MAXFILE
    requires Ceil(len) <= MAXFILE
  {
    BlocksIn(s', meta, ino, First(off), Past(off, n)) + Filled(s', ino, len, Past(off, n)) +
    BitBlocks(bm, Fresh(s, s', meta, ino, len, Past(off, n))) + (if len < off + n then {inode} else {})
  }

  lemma WrittenCount(s: State, s': State, meta: nat, owner: map<nat, Slot>, ino: nat, len: nat, off: nat, n: nat,
                     bm: nat, inode: nat, l: set<nat>, l': set<nat>, k: set<nat>, k': set<nat>)
    requires 0 < n && off <= len && Rounds(s, s', meta, ino, len, First(off), Past(off, n), bm, l, l', k, k')
    requires Owned(s', meta, owner) && (IndirectOf(s, ino) == 0 <==> Ceil(len) <= NDIRECT)
    ensures var w := LoggedSet(s, s', meta, ino, len, off, n, bm, inode);
            && |w| <= WriteCost(len, off, n)
            && (InodeBlock(inode, bm, meta, |s'.data|) && |s'.data| <= Bitmap.BPB ==> |w| == LogCount(len, off, n))
  {
    hide Logs, BlockOf, Owned, BlocksIn, BitBlocks, Fresh, Ceil, First, Past, Rounds, Shape;
    RoundsFacts(s, s', meta, ino, len, First(off), Past(off, n), bm, l, l', k, k');
    PartBlock(len, off);
    CountBlocks(s', meta, owner, ino, First(off), Past(off, n));
    DataBlocks(s', meta, owner, ino, First(off), Past(off, n));
    FreshCount(s, s', meta, owner, ino, len, First(off), Past(off, n));
    SumUp(BlocksIn(s', meta, ino, First(off), Past(off, n)), Filled(s', ino, len, Past(off, n)),
          Fresh(s, s', meta, ino, len, Past(off, n)), IndirectOf(s', ino), meta, bm, inode, |s'.data|, len, off, n);
  }

  lemma RoundsFacts(s: State, s': State, meta: nat, ino: nat, len: nat, first: nat, past: nat, bm: nat,
                    l: set<nat>, l': set<nat>, k: set<nat>, k': set<nat>)
    requires Rounds(s, s', meta, ino, len, first, past, bm, l, l', k, k')
    ensures Shape(s, meta) && Shape(s', meta)
    ensures ino < |s.inodes| == |s'.inodes| && past <= MAXFILE && Ceil(len) <= MAXFILE
    ensures |s.inodes[ino].addrs| == |s'.inodes[ino].addrs| == NDIRECT + 1
    ensures forall m | 0 <= m < MAXFILE && first <= m < past :: BlockOf(s', meta, ino, m) != 0
    ensures FillsEntry(len, past) ==> IndirectOf(s', ino) != 0
    ensures !FillsEntry(len, past) ==> IndirectOf(s', ino) == IndirectOf(s, ino)
  {
  }

  lemma FilledLong(len: nat, off: nat, n: nat)
    requires 0 < n && FillsEntry(len, Past(off, n))
    ensures NDIRECT * BSIZE < off + n
  {
  }

  /** The same over plain sets: data blocks, the indirect block, the bitmap blocks of the new ones, the inode. */
  lemma SumUp(touched: set<nat>, filled: set<nat>, added: set<nat>, ind: nat, meta: nat, bm: nat, inode: nat, size: nat,
              len: nat, off: nat, n: nat)
    requires 0 < n && |touched| == Span(off, n) && filled == if FillsEntry(len, Past(off, n)) then {ind} else {}
    requires |added| <= NewBlocks(len, Past(off, n)) && (added == {} <==> Past(off, n) <= Ceil(len))
    requires (forall b | b in touched :: meta <= b && b != ind) && (filled != {} ==> meta <= ind)
    requires forall b | b in added :: b < size
    ensures var node := if len < off + n then {inode} else {}; var w := touched + filled + BitBlocks(bm, added) + node;
            && |w| <= WriteCost(len, off, n)
            && (InodeBlock(inode, bm, meta, size) && size <= Bitmap.BPB ==> |w| == LogCount(len, off, n))
  {
    hide BitBlock, BitBlocks, Past, First, Ceil, FillsEntry, Span, NewBlocks;
    var node := if len < off + n then {inode} else {};
    BitCount(bm, added);
    PartsBound(touched, filled, BitBlocks(bm, added), node);
    if InodeBlock(inode, bm, meta, size) && size <= Bitmap.BPB {
      OneBitBlock(bm, added, size);
      PartsAddUp(touched, filled, BitBlocks(bm, added), node);
    }
  }

  lemma FreshCount(s: State, s': State, meta: nat, owner: map<nat, Slot>, ino: nat, len: nat, first: nat, past: nat)
    requires Shape(s, meta) && Owned(s', meta, owner) && ino < |s.inodes| == |s'.inodes| && past <= MAXFILE
    requires first <= Ceil(len) <= MAXFILE && (IndirectOf(s, ino) == 0 <==> Ceil(len) <= NDIRECT)
    requires forall m | 0 <= m < MAXFILE && first <= m < past :: BlockOf(s', meta, ino, m) != 0
    requires FillsEntry(len, past) ==> IndirectOf(s', ino) != 0
    ensures |Fresh(s, s', meta, ino, len, past)| <= NewBlocks(len, past)
    ensures Fresh(s, s', meta, ino, len, past) == {} <==> past <= Ceil(len)
    ensures forall b | b in Fresh(s, s', meta, ino, len, past) :: b < |s'.data|
  {
    hide Ceil;
    var lo := Ceil(len);
    if lo < past {
      CountBlocks(s', meta, owner, ino, lo, past);
      DataBlocks(s', meta, owner, ino, lo, past);
      assert BlockOf(s', meta, ino, lo) in BlocksIn(s', meta, ino, lo, past);
    } else {
      assert BlocksIn(s', meta, ino, lo, past) == {};
    }
    hide Owned, BlockOf, BlocksIn;
  }

  lemma OneBitBlock(bm: nat, added: set<nat>, size: nat)
    requires size <= Bitmap.BPB && forall b | b in added :: b < size
    ensures BitBlocks(bm, added) == if added == {} then {} else {bm}
  {
    if added != {} {
      var b :| b in added;
      assert b / Bitmap.BPB == 0;
      assert BitBlock(bm, b) in BitBlocks(bm, added);
    }
  }

  lemma NothingWritten(len: nat, off: nat)
    ensures WriteCost(len, off, 0) == 0 && LogCount(len, off, 0) == 0 && Past(off, 0) == First(off)
  {
  }

  /** Together the rounds, and the inode if the file grew, log exactly that set. */
  lemma WrittenAll(s: State, s': State, meta: nat, owner: map<nat, Slot>, ino: nat, len: nat, off: nat, n: nat, bm: nat,
                   inode: nat, l: set<nat>, l': set<nat>, k: set<nat>, k': set<nat>)
    requires 0 < n && off <= len && Rounds(s, s', meta, ino, len, First(off), Past(off, n), bm, l, l', k, k')
    requires Owned(s', meta, owner) && (IndirectOf(s, ino) == 0 <==> Ceil(len) <= NDIRECT)
    ensures Shape(s, meta) && Shape(s', meta) && ino < |s.inodes| == |s'.inodes| && Ceil(len) <= MAXFILE
    ensures var w := LoggedSet(s, s', meta, ino, len, off, n, bm, inode);
            && l + w == l' + (if len < off + n then {inode} else {})
            && |w| <= WriteCost(len, off, n)
            && (InodeBlock(inode, bm, meta, |s'.data|) && |s'.data| <= Bitmap.BPB ==> |w| == LogCount(len, off, n))
  {
    WrittenCount(s, s', meta, owner, ino, len, off, n, bm, inode, l, l', k, k');
    hide BlockOf, Owned, BitBlocks, WriteCost, LogCount;
    PartBlock(len, off);
    var past := Past(off, n);
    hide Ceil, First, Past, Shape;
    assert BlocksIn(s', meta, ino, Ceil(len), past) <= BlocksIn(s', meta, ino, First(off), past);
    hide BlocksIn;
  }

  lemma WrittenResized(s: State, s': State, s'': State, meta: nat, ino: nat, len: nat, off: nat, n: nat, bm: nat,
                       inode: nat)
    requires Shape(s, meta) && Shape(s', meta) && ino < |s.inodes| == |s'.inodes| && Past(off, n) <= MAXFILE
    requires Ceil(len) <= MAXFILE
    requires Shape(s'', meta) && s''.data == s'.data && |s''.inodes| == |s'.inodes|
    requires s''.inodes[ino].addrs == s'.inodes[ino].addrs
    ensures LoggedSet(s, s'', meta, ino, len, off, n, bm, inode) == LoggedSet(s, s', meta, ino, len, off, n, bm, inode)
  {
    assert forall m | 0 <= m < MAXFILE :: BlockOf(s'', meta, ino, m) == BlockOf(s', meta, ino, m);
    hide BlockOf, Shape, Past, First, Ceil, BitBlock;
    assert forall lo, hi: nat | hi <= MAXFILE :: BlocksIn(s'', meta, ino, lo, hi) == BlocksIn(s', meta, ino, lo, hi);
  }

  /** A round from its two parts: the block map, then the data block. */
  lemma RoundDone(s: State, s1: State, s2: State, meta: nat, ino: nat, bn: nat, exists_: bool, bm: nat,
                  l: set<nat>, l1: set<nat>, l2: set<nat>, k: set<nat>, k1: set<nat>)
    requires Shape(s, meta) && Shape(s1, meta) && Shape(s2, meta) && ino < |s.inodes| == |s1.inodes| && bn < MAXFILE
    requires s2.inodes == s1.inodes
    requires forall m | 0 <= m < MAXFILE :: BlockOf(s2, meta, ino, m) == BlockOf(s1, meta, ino, m)
    requires forall m | 0 <= m < MAXFILE && m != bn :: BlockOf(s1, meta, ino, m) == BlockOf(s, meta, ino, m)
    requires IndirectOf(s, ino) != 0 || bn < NDIRECT || exists_ ==> IndirectOf(s1, ino) == IndirectOf(s, ino)
    requires (NDIRECT <= bn ==> IndirectOf(s1, ino) != 0) && BlockOf(s1, meta, ino, bn) != 0
    requires var addr := BlockOf(s1, meta, ino, bn);
             && Logs(l1, l2, k1, k1, bm, {}, {addr})
             && if exists_ then l1 == l && k1 == k
                else Logs(l, l1, k, k1, bm, FreshIn(s, s1, ino, bn, addr), EntryIn(s1, ino, bn))
    ensures Round(s, s2, meta, ino, bn, exists_, bm, l, l2, k, k1)
  {
    var addr := BlockOf(s1, meta, ino, bn);
    hide BlockOf, Logs;
    if !exists_ {
      LogsThen(l, l1, l2, k, k1, k1, bm, FreshIn(s, s1, ino, bn, addr), {}, EntryIn(s1, ino, bn), {addr});
      assert FreshIn(s, s1, ino, bn, addr) + {} == FreshIn(s, s2, ino, bn, addr);
      assert EntryIn(s1, ino, bn) + {addr} == {addr} + EntryIn(s2, ino, bn);
    }
  }

  // filewrite's chunks.

  /** How many of n bytes filewrite can put at `off` of a file of `len` bytes: all, or the whole chunks that fit. */
  function Accepted(len: nat, off: nat, n: nat): (a: nat)
    requires len <= MAXFILE * BSIZE
    ensures a <= n && (a < n && off <= len ==> a % MAXWRITE == 0)
    ensures if len < off then a == 0 else if off + n <= MAXFILE * BSIZE then a == n
            else off + a <= MAXFILE * BSIZE < off + a + MAXWRITE
  {
    if len < off then 0
    else if off + n <= MAXFILE * BSIZE then n
    else (MAXFILE * BSIZE - off) / MAXWRITE * MAXWRITE
  }

  /** writei takes the bytes. */
  predicate Accepts(len: nat, off: nat, n: nat) {
    off <= len && off + n <= MAXFILE * BSIZE
  }

  /** The blocks it allocates. */
  function ChunkNeeds(len: nat, off: nat, n: nat): (k: nat) {
    if Accepts(len, off, n) then NewBlocks(len, Past(off, n)) else 0
  }

  /** The blocks that writing the first i bytes has taken. */
  function Spent(len: nat, off: nat, i: nat): (k: nat) {
    if i == 0 then 0 else NewBlocks(len, Past(off, i))
  }

  /** The number of chunks in i bytes. */
  function Chunks(i: nat): (k: nat) { (i + MAXWRITE - 1) / MAXWRITE }

  /** What the transaction of chunk j logs, with one bitmap block: nothing if writei refuses the chunk. */
  function ChunkLog(len: nat, off: nat, n: nat, j: nat): (k: nat)
    requires j * MAXWRITE < n
  {
    var i := j * MAXWRITE;
    var n1 := Min(n - i, MAXWRITE);
    if off <= len && off + i + n1 <= MAXFILE * BSIZE then LogCount(Max(len, off + i), off + i, n1) else 0
  }

  /** Each transaction fits the log; with one bitmap block it logs exactly what its chunk needs. */
  ghost predicate TxnsRight(txns: seq<set<nat>>, len: nat, off: nat, n: nat, oneBitmap: bool) {
    forall j | 0 <= j < |txns| ::
      j * MAXWRITE < n && |txns[j]| <= LOGSIZE && (oneBitmap ==> |txns[j]| == ChunkLog(len, off, n, j))
  }

  lemma NoChunks(len: nat, off: nat, n: nat, oneBitmap: bool)
    ensures Chunks(0) == 0 && TxnsRight([], len, off, n, oneBitmap)
  {
  }

  lemma TxnsNext(txns: seq<set<nat>>, t: set<nat>, len: nat, off: nat, n: nat, oneBitmap: bool)
    requires TxnsRight(txns, len, off, n, oneBitmap) && |txns| * MAXWRITE < n && |t| <= LOGSIZE
    requires oneBitmap ==> |t| == ChunkLog(len, off, n, |txns|)
    ensures TxnsRight(txns + [t], len, off, n, oneBitmap)
  {
    hide ChunkLog;
  }

  lemma ChunkStep(n: nat, i: nat)
    requires i < n && i % MAXWRITE == 0
    ensures Chunks(i) * MAXWRITE == i
    ensures var n1 := Min(n - i, MAXWRITE);
            0 < n1 && (i + n1 < n ==> (i + n1) % MAXWRITE == 0) && Chunks(i + n1) == Chunks(i) + 1
  {
    var k := i / MAXWRITE;
    assert i == k * MAXWRITE;
  }

  /** A chunk that fits the file is among the bytes accepted. */
  lemma ChunkAccepted(len: nat, off: nat, n: nat, i: nat)
    requires len <= MAXFILE * BSIZE && off <= len && i % MAXWRITE == 0 && i < n
    requires off + i + Min(n - i, MAXWRITE) <= MAXFILE * BSIZE
    ensures i + Min(n - i, MAXWRITE) <= Accepted(len, off, n)
  {
    if off + n > MAXFILE * BSIZE {
      var k := i / MAXWRITE;
      assert i == k * MAXWRITE;
      assert (k + 1) * MAXWRITE <= MAXFILE * BSIZE - off;
    }
  }

  lemma ChunkRefused(len: nat, off: nat, n: nat, i: nat)
    requires len <= MAXFILE * BSIZE && off <= len && i % MAXWRITE == 0 && i < n && off + i <= MAXFILE * BSIZE
    requires off + i + Min(n - i, MAXWRITE) > MAXFILE * BSIZE
    ensures Accepted(len, off, n) == i
  {
    var k := i / MAXWRITE;
    assert i == k * MAXWRITE;
    assert k * MAXWRITE <= MAXFILE * BSIZE - off < (k + 1) * MAXWRITE;
  }

  /** Where the chunks end: with all bytes, or before the first that writei refuses. */
  lemma AcceptedIs(len: nat, off: nat, n: nat, i: nat)
    requires len <= MAXFILE * BSIZE && i <= n && (0 < i ==> off <= len && off + i <= MAXFILE * BSIZE)
    requires i < n ==> i % MAXWRITE == 0 && (len < off || !Accepts(Max(len, off + i), off + i, Min(n - i, MAXWRITE)))
    ensures Accepted(len, off, n) == i
  {
    if i < n && off <= len {
      ChunkRefused(len, off, n, i);
    }
  }

  lemma ChunkLogs(len: nat, off: nat, n: nat, i: nat)
    requires i < n && i % MAXWRITE == 0
    ensures Chunks(i) * MAXWRITE == i
    ensures var n1 := Min(n - i, MAXWRITE);
            ChunkLog(len, off, n, Chunks(i)) ==
            if off <= len && Accepts(Max(len, off + i), off + i, n1)
            then LogCount(Max(len, off + i), off + i, n1) else 0
  {
    hide LogCount;
    ChunkStep(n, i);
  }

  /** What a chunk spends is what the bytes up to its end need, less what those before it did. */
  lemma ChunkSpends(len: nat, off: nat, n: nat, i: nat)
    requires off <= len <= MAXFILE * BSIZE && i < n && i % MAXWRITE == 0
    ensures var n1 := Min(n - i, MAXWRITE);
      if Accepts(Max(len, off + i), off + i, n1) then
        && Spent(len, off, i + n1) == Spent(len, off, i) + ChunkNeeds(Max(len, off + i), off + i, n1)
        && i + n1 <= Accepted(len, off, n) && Spent(len, off, i + n1) <= Spent(len, off, Accepted(len, off, n))
      else ChunkNeeds(Max(len, off + i), off + i, n1) == 0
  {
    var n1 := Min(n - i, MAXWRITE);
    if Accepts(Max(len, off + i), off + i, n1) {
      ChunkAccepted(len, off, n, i);
      ChunksNeed(len, off, i, n1);
      var a := Accepted(len, off, n);
      assert Past(off, i + n1) <= Past(off, a);
      assert NewBlocks(len, Past(off, 0)) == 0;
      hide Past, Ceil, Accepted;
      NeededGrows(len, Past(off, i + n1), Past(off, a), Ceil(len) <= NDIRECT);
    }
  }
}
