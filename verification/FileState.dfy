/**
 Blocks and files (fs.c) as values: which block belongs to which file, and what a file
 contains.  A slot is a place that can hold a block number: a direct address of an inode,
 its indirect address, or an entry of its indirect block.
 */
module FileState {

  const BSIZE: nat := 512
  const NDIRECT: nat := 12
  const NINDIRECT: nat := 128
  const MAXFILE: nat := 140        // NDIRECT + NINDIRECT

  type byte = b: int | 0 <= b < 256

  function Zeros(n: nat): (z: seq<byte>)
    ensures |z| == n && forall i | 0 <= i < n :: z[i] == 0
  {
    if n == 0 then [] else Zeros(n - 1) + [0]
  }

  type Block = b: seq<byte> | |b| == 512 witness Zeros(512)

  // The uint entries of an indirect block.

  function Entry(b: Block, i: nat): (v: nat)
    requires i < NINDIRECT
  {
    b[4 * i] as int + 0x100 * (b[4 * i + 1] as int) +
    0x1_0000 * (b[4 * i + 2] as int) + 0x100_0000 * (b[4 * i + 3] as int)
  }

  function Bytes4(v: nat): (s: seq<byte>)
    ensures |s| == 4
  {
    [v % 0x100, v / 0x100 % 0x100, v / 0x1_0000 % 0x100, v / 0x100_0000 % 0x100]
  }

  function SetEntry(b: Block, i: nat, v: nat): (r: Block)
    requires i < NINDIRECT
  {
    b[..4 * i] + Bytes4(v) + b[4 * i + 4..]
  }

  lemma EntrySet(b: Block, i: nat, v: nat, j: nat)
    requires i < NINDIRECT && j < NINDIRECT && v < 0x1_0000_0000
    ensures Entry(SetEntry(b, i, v), j) == if i == j then v else Entry(b, j)
  {
    var r := SetEntry(b, i, v);
    if i == j {
      assert r[4 * i] == Bytes4(v)[0] && r[4 * i + 1] == Bytes4(v)[1];
      assert r[4 * i + 2] == Bytes4(v)[2] && r[4 * i + 3] == Bytes4(v)[3];
      assert v == v % 0x100 + 0x100 * (v / 0x100);
      assert v / 0x100 == v / 0x100 % 0x100 + 0x100 * (v / 0x1_0000);
      assert v / 0x1_0000 == v / 0x1_0000 % 0x100 + 0x100 * (v / 0x100_0000);
    } else {
      assert forall k | 4 * j <= k < 4 * j + 4 :: r[k] == b[k];
    }
  }

  /** An entry as mkfs writes it: the lowest byte first. */
  lemma EntryBytes(b: Block, i: nat)
    requires i < NINDIRECT
    ensures var v := Entry(b, i);
            && v < 0x1_0000_0000
            && b[4 * i] as int == v % 0x100 && b[4 * i + 1] as int == v / 0x100 % 0x100
            && b[4 * i + 2] as int == v / 0x1_0000 % 0x100 && b[4 * i + 3] as int == v / 0x100_0000
  {
    var v := Entry(b, i);
    var x, y, z := b[4 * i] as int, b[4 * i + 1] as int, b[4 * i + 2] as int;
    assert v / 0x100 == y + 0x100 * z + 0x1_0000 * (b[4 * i + 3] as int);
    assert v / 0x1_0000 == z + 0x100 * (b[4 * i + 3] as int);
  }

  lemma EntryZero(j: nat)
    requires j < NINDIRECT
    ensures Entry(Zeros(BSIZE), j) == 0
  {
  }

  // Inodes and slots.

  /** An inode: `info` stands for type, major, minor and nlink, which are only ever copied. */
  datatype Inode = Inode(info: int, size: nat, addrs: seq<nat>)

  datatype Slot = Direct(ino: nat, i: nat) | Indirect(ino: nat) | InBlock(ino: nat, j: nat)

  /** Block and bitmap contents and the inodes; 0 is "no block". */
  datatype State = State(used: seq<bool>, data: seq<Block>, inodes: seq<Inode>)

  ghost predicate IsSlot(s: State, t: Slot) {
    t.ino < |s.inodes| && (t.Direct? ==> t.i < NDIRECT) && (t.InBlock? ==> t.j < NINDIRECT)
  }

  /** Sizes fit, and every block number an inode holds is a data block. */
  ghost predicate Shape(s: State, meta: nat) {
    && |s.used| == |s.data| < 0x1_0000_0000 && 1 <= meta <= |s.data|
    && forall k | 0 <= k < |s.inodes| ::
         |s.inodes[k].addrs| == NDIRECT + 1 &&
         forall i | 0 <= i <= NDIRECT :: s.inodes[k].addrs[i] == 0 || meta <= s.inodes[k].addrs[i] < |s.data|
  }

  /** The block number a slot holds. */
  ghost function Held(s: State, meta: nat, t: Slot): (b: nat)
    requires Shape(s, meta) && IsSlot(s, t)
  {
    if t.Direct? then s.inodes[t.ino].addrs[t.i]
    else if t.Indirect? || s.inodes[t.ino].addrs[NDIRECT] == 0 then s.inodes[t.ino].addrs[NDIRECT]
    else Entry(s.data[s.inodes[t.ino].addrs[NDIRECT]], t.j)
  }

  /**
   Block ownership: the bitmap marks exactly the metadata blocks and the blocks that some
   slot holds, and each of those is held by one slot, the one `owner` names.
   */
  ghost predicate Owned(s: State, meta: nat, owner: map<nat, Slot>) {
    && Shape(s, meta)
    && (forall b | 0 <= b < |s.used| :: s.used[b] <==> b < meta || b in owner)
    && (forall b | b in owner :: meta <= b < |s.data| && IsSlot(s, owner[b]) && Held(s, meta, owner[b]) == b)
    && (forall t | IsSlot(s, t) && Held(s, meta, t) != 0 :: Held(s, meta, t) in owner && owner[Held(s, meta, t)] == t)
  }

  /** The slot of the n-th block of a file. */
  function SlotOf(ino: nat, n: nat): (t: Slot)
    requires n < MAXFILE
  {
    if n < NDIRECT then Direct(ino, n) else InBlock(ino, n - NDIRECT)
  }

  // Giving a block to a slot.

  /** The change filled one slot with b and left all others as they were. */
  ghost predicate Fills(s: State, s': State, meta: nat, t: Slot, b: nat) {
    && Shape(s, meta) && Shape(s', meta) && |s'.inodes| == |s.inodes| && |s'.data| == |s.data|
    && IsSlot(s, t) && Held(s, meta, t) == 0 && Held(s', meta, t) == b
    && forall u | IsSlot(s, u) && u != t :: Held(s', meta, u) == Held(s, meta, u)
  }

  lemma FillOwned(s: State, s': State, meta: nat, owner: map<nat, Slot>, t: Slot, b: nat)
    requires Owned(s, meta, owner) && Fills(s, s', meta, t, b) && meta <= b < |s.data|
    requires !s.used[b] && s'.used == s.used[b := true]
    ensures Owned(s', meta, owner[b := t])
  {
    var owner' := owner[b := t];
    forall x | x in owner'
      ensures meta <= x < |s'.data| && IsSlot(s', owner'[x]) && Held(s', meta, owner'[x]) == x
    {
      if x != b {
        assert owner[x] != t;
      }
    }
  }

  /** The state after balloc: b marked and zeroed. */
  ghost function Allocated(s: State, b: nat): (r: State)
    requires b < |s.used| == |s.data|
  {
    State(s.used[b := true], s.data[b := Zeros(BSIZE)], s.inodes)
  }

  function WithAddr(ip: Inode, i: nat, b: nat): (r: Inode)
    requires i < |ip.addrs|
  {
    Inode(ip.info, ip.size, ip.addrs[i := b])
  }

  ghost function SetAddr(s: State, ino: nat, i: nat, b: nat): (r: State)
    requires ino < |s.inodes| && i < |s.inodes[ino].addrs|
  {
    State(s.used, s.data, s.inodes[ino := WithAddr(s.inodes[ino], i, b)])
  }

  /** Zeroing a free block changes what no slot holds. */
  lemma AllocatedHeld(s: State, meta: nat, owner: map<nat, Slot>, b: nat, u: Slot)
    requires Owned(s, meta, owner) && meta <= b < |s.data| && !s.used[b] && IsSlot(s, u)
    ensures Shape(Allocated(s, b), meta) && Held(Allocated(s, b), meta, u) == Held(s, meta, u)
  {
    if u.InBlock? {
      assert Held(s, meta, Indirect(u.ino)) != b;
    }
  }

  lemma FillDirect(s: State, meta: nat, owner: map<nat, Slot>, ino: nat, i: nat, b: nat)
    requires Owned(s, meta, owner) && meta <= b < |s.data| && !s.used[b]
    requires ino < |s.inodes| && i < NDIRECT && s.inodes[ino].addrs[i] == 0
    ensures Owned(SetAddr(Allocated(s, b), ino, i, b), meta, owner[b := Direct(ino, i)])
    ensures Fills(s, SetAddr(Allocated(s, b), ino, i, b), meta, Direct(ino, i), b)
  {
    hide Entry, SetEntry, Zeros;
    var s' := SetAddr(Allocated(s, b), ino, i, b);
    forall u | IsSlot(s, u) && u != Direct(ino, i) ensures Held(s', meta, u) == Held(s, meta, u) {
      AllocatedHeld(s, meta, owner, b, u);
    }
    FillOwned(s, s', meta, owner, Direct(ino, i), b);
  }

  lemma FillIndirect(s: State, meta: nat, owner: map<nat, Slot>, ino: nat, b: nat)
    requires Owned(s, meta, owner) && meta <= b < |s.data| && !s.used[b]
    requires ino < |s.inodes| && s.inodes[ino].addrs[NDIRECT] == 0
    ensures Owned(SetAddr(Allocated(s, b), ino, NDIRECT, b), meta, owner[b := Indirect(ino)])
    ensures Fills(s, SetAddr(Allocated(s, b), ino, NDIRECT, b), meta, Indirect(ino), b)
  {
    hide Entry, SetEntry, Zeros;
    var s' := SetAddr(Allocated(s, b), ino, NDIRECT, b);
    forall u | IsSlot(s, u) && u != Indirect(ino) ensures Held(s', meta, u) == Held(s, meta, u) {
      AllocatedHeld(s, meta, owner, b, u);
      if u.InBlock? && u.ino == ino {
        EntryZero(u.j);
      }
    }
    FillOwned(s, s', meta, owner, Indirect(ino), b);
  }

  /** Entry j of the block at `ind` set to b. */
  ghost function Pointed(data: seq<Block>, ind: nat, j: nat, b: nat): (r: seq<Block>)
    requires ind < |data| && j < NINDIRECT
  {
    data[ind := SetEntry(data[ind], j, b)]
  }

  ghost function SetInBlock(s: State, ino: nat, j: nat, b: nat): (r: State)
    requires ino < |s.inodes| && |s.inodes[ino].addrs| == NDIRECT + 1 && s.inodes[ino].addrs[NDIRECT] < |s.data|
    requires j < NINDIRECT
  {
    State(s.used, Pointed(s.data, s.inodes[ino].addrs[NDIRECT], j, b), s.inodes)
  }

  lemma FillInBlock(s: State, meta: nat, owner: map<nat, Slot>, ino: nat, j: nat, b: nat)
    requires Owned(s, meta, owner) && meta <= b < |s.data| && !s.used[b]
    requires ino < |s.inodes| && s.inodes[ino].addrs[NDIRECT] != 0 && j < NINDIRECT
    requires Held(s, meta, InBlock(ino, j)) == 0
    ensures Owned(SetInBlock(Allocated(s, b), ino, j, b), meta, owner[b := InBlock(ino, j)])
    ensures Fills(s, SetInBlock(Allocated(s, b), ino, j, b), meta, InBlock(ino, j), b)
  {
    hide Entry, SetEntry, Zeros;
    var s1 := Allocated(s, b);
    var s' := SetInBlock(s1, ino, j, b);
    var ind := s.inodes[ino].addrs[NDIRECT];
    assert Held(s, meta, Indirect(ino)) == ind;
    forall u | IsSlot(s, u) && u != InBlock(ino, j) ensures Held(s', meta, u) == Held(s, meta, u) {
      AllocatedHeld(s, meta, owner, b, u);
      if u.InBlock? {
        assert u.ino != ino ==> Held(s, meta, Indirect(u.ino)) != ind;
        if u.ino == ino {
          EntrySet(s1.data[ind], j, b, u.j);
        }
      }
    }
    EntrySet(s1.data[ind], j, b, j);
    FillOwned(s, s', meta, owner, InBlock(ino, j), b);
  }

  /** Blocks that hold file bytes keep them. */
  ghost predicate DataKept(s: State, s': State, meta: nat)
    requires Shape(s, meta)
  {
    && |s'.data| == |s.data|
    && forall t | IsSlot(s, t) && !t.Indirect? && 0 < Held(s, meta, t) < |s.data| ::
         s'.data[Held(s, meta, t)] == s.data[Held(s, meta, t)]
  }

  lemma AllocatedData(s: State, meta: nat, owner: map<nat, Slot>, b: nat)
    requires Owned(s, meta, owner) && meta <= b < |s.data| && !s.used[b]
    ensures DataKept(s, Allocated(s, b), meta)
  {
  }

  lemma PointedData(s: State, meta: nat, owner: map<nat, Slot>, ino: nat, j: nat, b: nat)
    requires Owned(s, meta, owner) && meta <= b < |s.data| && !s.used[b]
    requires ino < |s.inodes| && s.inodes[ino].addrs[NDIRECT] != 0 && j < NINDIRECT
    ensures DataKept(s, SetInBlock(Allocated(s, b), ino, j, b), meta)
    ensures SetInBlock(Allocated(s, b), ino, j, b).data[b] == Zeros(BSIZE)
  {
    assert Held(s, meta, Indirect(ino)) == s.inodes[ino].addrs[NDIRECT];
  }

  // What a file contains.

  ghost function BlockOf(s: State, meta: nat, ino: nat, n: nat): (b: nat)
    requires Shape(s, meta) && ino < |s.inodes| && n < MAXFILE
  {
    Held(s, meta, SlotOf(ino, n))
  }

  /** Where the disk has the n-th block of a file: in the inode, or in its indirect block. */
  lemma BlockIs(s: State, meta: nat, ino: nat, n: nat)
    requires Shape(s, meta) && ino < |s.inodes| && n < MAXFILE
    ensures n < NDIRECT ==> BlockOf(s, meta, ino, n) == s.inodes[ino].addrs[n]
    ensures NDIRECT <= n ==>
              var ind := s.inodes[ino].addrs[NDIRECT];
              BlockOf(s, meta, ino, n) == if ind == 0 then 0 else Entry(s.data[ind], n - NDIRECT)
  {
  }

  /** A file of `len` bytes has its first blocks, exactly as many as the length needs. */
  ghost predicate Extent(s: State, meta: nat, ino: nat, len: nat) {
    && Shape(s, meta) && ino < |s.inodes| && len <= MAXFILE * BSIZE
    && forall n | 0 <= n < MAXFILE ::
         BlockOf(s, meta, ino, n) < |s.data| && (BlockOf(s, meta, ino, n) != 0 <==> n * BSIZE < len)
  }

  /** The bytes of file `ino` are c. */
  ghost predicate IsFile(s: State, meta: nat, ino: nat, c: seq<byte>) {
    && Extent(s, meta, ino, |c|)
    && forall o | 0 <= o < |c| :: c[o] == s.data[BlockOf(s, meta, ino, o / BSIZE)][o % BSIZE]
  }

  ghost predicate AreFiles(s: State, meta: nat, files: seq<seq<byte>>) {
    |files| == |s.inodes| && forall k | 0 <= k < |files| :: IsFile(s, meta, k, files[k])
  }

  lemma FileKept(s: State, s': State, meta: nat, k: nat, c: seq<byte>)
    requires IsFile(s, meta, k, c) && Shape(s', meta) && k < |s'.inodes| && |s'.data| == |s.data|
    requires forall n | 0 <= n < MAXFILE :: BlockOf(s', meta, k, n) == BlockOf(s, meta, k, n)
    requires forall n | 0 <= n < MAXFILE && BlockOf(s, meta, k, n) != 0 ::
               s'.data[BlockOf(s, meta, k, n)] == s.data[BlockOf(s, meta, k, n)]
    ensures IsFile(s', meta, k, c)
  {
    hide Held, SlotOf, BlockOf, Shape;
    forall o | 0 <= o < |c| ensures c[o] == s'.data[BlockOf(s', meta, k, o / BSIZE)][o % BSIZE] {
      var n := o / BSIZE;
      assert BlockOf(s, meta, k, n) != 0 <==> n * BSIZE < |c|;
    }
  }

  lemma FileGrown(s: State, s': State, meta: nat, k: nat, c: seq<byte>, n: nat)
    requires IsFile(s, meta, k, c) && Shape(s', meta) && k < |s'.inodes| && |s'.data| == |s.data|
    requires n < MAXFILE && |c| == n * BSIZE
    requires 0 < BlockOf(s', meta, k, n) < |s.data| && s'.data[BlockOf(s', meta, k, n)] == Zeros(BSIZE)
    requires forall m | 0 <= m < MAXFILE && m != n :: BlockOf(s', meta, k, m) == BlockOf(s, meta, k, m)
    requires forall m | 0 <= m < MAXFILE && BlockOf(s, meta, k, m) != 0 ::
               s'.data[BlockOf(s, meta, k, m)] == s.data[BlockOf(s, meta, k, m)]
    ensures IsFile(s', meta, k, c + [0])
  {
    hide Held, SlotOf, BlockOf, Shape;
    var c' := c + [0];
    forall o | 0 <= o < |c'| ensures c'[o] == s'.data[BlockOf(s', meta, k, o / BSIZE)][o % BSIZE] {
      var m := o / BSIZE;
      if o < |c| {
        assert m < n;
        assert BlockOf(s, meta, k, m) != 0 <==> m * BSIZE < |c|;
      } else {
        assert m == n && o % BSIZE == 0;
      }
    }
  }

  lemma IsBlockSlot(s: State, ino: nat, n: nat)
    requires ino < |s.inodes| && n < MAXFILE
    ensures IsSlot(s, SlotOf(ino, n)) && !SlotOf(ino, n).Indirect? && SlotOf(ino, n).ino == ino
  {
  }

  lemma SlotOfInjective(ino: nat, n: nat, ino': nat, n': nat)
    requires n < MAXFILE && n' < MAXFILE && SlotOf(ino, n) == SlotOf(ino', n')
    ensures ino == ino' && n == n'
  {
  }

  /** Giving the next block to a file appends a zero byte to it and leaves the others. */
  lemma FillFiles(s: State, s': State, meta: nat, files: seq<seq<byte>>, ino: nat, n: nat, b: nat)
    requires AreFiles(s, meta, files) && ino < |files| && n < MAXFILE && |files[ino]| == n * BSIZE
    requires Fills(s, s', meta, SlotOf(ino, n), b) && DataKept(s, s', meta)
    requires 0 < b < |s.data| && s'.data[b] == Zeros(BSIZE)
    ensures AreFiles(s', meta, files[ino := files[ino] + [0]])
  {
    hide Held, SlotOf, Shape, IsSlot;
    var files' := files[ino := files[ino] + [0]];
    forall k | 0 <= k < |files| ensures IsFile(s', meta, k, files'[k]) {
      assert IsFile(s, meta, k, files[k]);
      forall m | 0 <= m < MAXFILE
        ensures k != ino || m != n ==> BlockOf(s', meta, k, m) == BlockOf(s, meta, k, m)
        ensures BlockOf(s, meta, k, m) != 0 ==> s'.data[BlockOf(s, meta, k, m)] == s.data[BlockOf(s, meta, k, m)]
      {
        IsBlockSlot(s, k, m);
        if SlotOf(k, m) == SlotOf(ino, n) {
          SlotOfInjective(k, m, ino, n);
        }
      }
      if k == ino {
        FileGrown(s, s', meta, k, files[k], n);
      } else {
        FileKept(s, s', meta, k, files[k]);
      }
    }
  }

  /** Giving a file its indirect block changes no file. */
  lemma FillIndirectFiles(s: State, s': State, meta: nat, files: seq<seq<byte>>, ino: nat, b: nat)
    requires AreFiles(s, meta, files) && ino < |files|
    requires Fills(s, s', meta, Indirect(ino), b) && DataKept(s, s', meta)
    ensures AreFiles(s', meta, files)
  {
    hide Held, SlotOf, Shape, IsSlot;
    forall k | 0 <= k < |files| ensures IsFile(s', meta, k, files[k]) {
      assert IsFile(s, meta, k, files[k]);
      forall m | 0 <= m < MAXFILE
        ensures BlockOf(s', meta, k, m) == BlockOf(s, meta, k, m)
        ensures BlockOf(s, meta, k, m) != 0 ==> s'.data[BlockOf(s, meta, k, m)] == s.data[BlockOf(s, meta, k, m)]
      {
        IsBlockSlot(s, k, m);
      }
      FileKept(s, s', meta, k, files[k]);
    }
  }

  lemma GrowDirect(s: State, meta: nat, owner: map<nat, Slot>, files: seq<seq<byte>>, ino: nat, n: nat, b: nat)
    requires Owned(s, meta, owner) && AreFiles(s, meta, files) && b < |s.data| && !s.used[b]
    requires ino < |s.inodes| && n < NDIRECT && s.inodes[ino].addrs[n] == 0 && |files[ino]| == n * BSIZE
    ensures var s' := SetAddr(Allocated(s, b), ino, n, b);
            && meta <= b && Owned(s', meta, owner[b := Direct(ino, n)]) && BlockOf(s', meta, ino, n) == b
            && (forall m | 0 <= m < MAXFILE && m != n :: BlockOf(s', meta, ino, m) == BlockOf(s, meta, ino, m))
            && AreFiles(s', meta, files[ino := files[ino] + [0]])
  {
    FillDirect(s, meta, owner, ino, n, b);
    AllocatedData(s, meta, owner, b);
    FillFiles(s, SetAddr(Allocated(s, b), ino, n, b), meta, files, ino, n, b);
  }

  lemma GrowIndirect(s: State, meta: nat, owner: map<nat, Slot>, files: seq<seq<byte>>, ino: nat, b: nat)
    requires Owned(s, meta, owner) && AreFiles(s, meta, files) && b < |s.data| && !s.used[b]
    requires ino < |s.inodes| && s.inodes[ino].addrs[NDIRECT] == 0
    ensures var s' := SetAddr(Allocated(s, b), ino, NDIRECT, b);
            && meta <= b && Owned(s', meta, owner[b := Indirect(ino)]) && AreFiles(s', meta, files)
            && (forall m | 0 <= m < MAXFILE :: BlockOf(s', meta, ino, m) == BlockOf(s, meta, ino, m))
  {
    FillIndirect(s, meta, owner, ino, b);
    AllocatedData(s, meta, owner, b);
    FillIndirectFiles(s, SetAddr(Allocated(s, b), ino, NDIRECT, b), meta, files, ino, b);
  }

  lemma GrowEntry(s: State, meta: nat, owner: map<nat, Slot>, files: seq<seq<byte>>, ino: nat, j: nat, b: nat)
    requires Owned(s, meta, owner) && AreFiles(s, meta, files) && b < |s.data| && !s.used[b]
    requires ino < |s.inodes| && s.inodes[ino].addrs[NDIRECT] != 0 && j < NINDIRECT
    requires BlockOf(s, meta, ino, NDIRECT + j) == 0 && |files[ino]| == (NDIRECT + j) * BSIZE
    ensures var s' := SetInBlock(Allocated(s, b), ino, j, b);
            && meta <= b && Owned(s', meta, owner[b := InBlock(ino, j)]) && BlockOf(s', meta, ino, NDIRECT + j) == b
            && (forall m | 0 <= m < MAXFILE && m != NDIRECT + j ::
                  BlockOf(s', meta, ino, m) == BlockOf(s, meta, ino, m))
            && AreFiles(s', meta, files[ino := files[ino] + [0]])
  {
    FillInBlock(s, meta, owner, ino, j, b);
    PointedData(s, meta, owner, ino, j, b);
    var s' := SetInBlock(Allocated(s, b), ino, j, b);
    assert Fills(s, s', meta, SlotOf(ino, NDIRECT + j), b);
    hide Held, Shape, Owned, SetEntry, Entry;
    FillFiles(s, s', meta, files, ino, NDIRECT + j, b);
  }

  // Writing bytes into a block of a file.

  /** c with the bytes w from position `off` on; it grows if w reaches past its end. */
  function Splice(c: seq<byte>, off: nat, w: seq<byte>): (r: seq<byte>)
    requires off <= |c|
    ensures |r| == if |c| < off + |w| then off + |w| else |c|
    ensures forall o | 0 <= o < |r| :: r[o] == if off <= o < off + |w| then w[o - off] else c[o]
  {
    c[..off] + w + (if off + |w| < |c| then c[off + |w|..] else [])
  }

  ghost function Written(s: State, a: nat, at: nat, w: seq<byte>): (r: State)
    requires a < |s.data| && at + |w| <= BSIZE
  {
    State(s.used, s.data[a := Splice(s.data[a], at, w)], s.inodes)
  }

  lemma WrittenHeld(s: State, meta: nat, owner: map<nat, Slot>, ino: nat, n: nat, at: nat, w: seq<byte>)
    requires Owned(s, meta, owner) && ino < |s.inodes| && n < MAXFILE && at + |w| <= BSIZE
    requires 0 < BlockOf(s, meta, ino, n) < |s.data|
    ensures Shape(Written(s, BlockOf(s, meta, ino, n), at, w), meta)
    ensures forall u | IsSlot(s, u) :: Held(Written(s, BlockOf(s, meta, ino, n), at, w), meta, u) == Held(s, meta, u)
    ensures Owned(Written(s, BlockOf(s, meta, ino, n), at, w), meta, owner)
  {
    var a := BlockOf(s, meta, ino, n);
    assert owner[a] == SlotOf(ino, n);
    var s' := Written(s, a, at, w);
    forall u | IsSlot(s, u) ensures Held(s', meta, u) == Held(s, meta, u) {
      if u.InBlock? {
        assert Held(s, meta, Indirect(u.ino)) != a;
      }
    }
  }

  lemma WrittenFile(s: State, s': State, meta: nat, ino: nat, c: seq<byte>, off: nat, w: seq<byte>)
    requires IsFile(s, meta, ino, c) && Shape(s', meta) && off <= |c| && off / BSIZE * BSIZE < |c|
    requires off % BSIZE + |w| <= BSIZE && 0 < |w|
    requires s' == Written(s, BlockOf(s, meta, ino, off / BSIZE), off % BSIZE, w)
    requires forall n | 0 <= n < MAXFILE :: BlockOf(s', meta, ino, n) == BlockOf(s, meta, ino, n)
    requires forall n | 0 <= n < MAXFILE && n != off / BSIZE && BlockOf(s, meta, ino, n) != 0 ::
               BlockOf(s, meta, ino, n) != BlockOf(s, meta, ino, off / BSIZE)
    ensures IsFile(s', meta, ino, Splice(c, off, w))
  {
    hide Held, SlotOf, BlockOf, Shape;
    var c', here := Splice(c, off, w), off / BSIZE;
    assert off == here * BSIZE + off % BSIZE;
    assert |c'| <= MAXFILE * BSIZE;
    forall n | 0 <= n < MAXFILE ensures BlockOf(s', meta, ino, n) != 0 <==> n * BSIZE < |c'| {
      assert BlockOf(s, meta, ino, n) != 0 <==> n * BSIZE < |c|;
      assert n <= here || (here + 1) * BSIZE <= n * BSIZE;
    }
    forall o | 0 <= o < |c'| ensures c'[o] == s'.data[BlockOf(s', meta, ino, o / BSIZE)][o % BSIZE] {
      var n := o / BSIZE;
      assert o == n * BSIZE + o % BSIZE;
      assert BlockOf(s, meta, ino, n) != 0 <==> n * BSIZE < |c|;
    }
  }

  /** Copying bytes into the block under `off` splices them into that file and leaves the others. */
  lemma WrittenFiles(s: State, meta: nat, owner: map<nat, Slot>, files: seq<seq<byte>>, ino: nat, off: nat,
                     w: seq<byte>)
    requires Owned(s, meta, owner) && AreFiles(s, meta, files) && ino < |files|
    requires off <= |files[ino]| && off / BSIZE * BSIZE < |files[ino]|
    requires off % BSIZE + |w| <= BSIZE && 0 < |w|
    ensures 0 < BlockOf(s, meta, ino, off / BSIZE) < |s.data|
    ensures AreFiles(Written(s, BlockOf(s, meta, ino, off / BSIZE), off % BSIZE, w), meta,
                     files[ino := Splice(files[ino], off, w)])
  {
    var here := off / BSIZE;
    assert IsFile(s, meta, ino, files[ino]);
    assert BlockOf(s, meta, ino, here) != 0;
    var a := BlockOf(s, meta, ino, here);
    WrittenHeld(s, meta, owner, ino, here, off % BSIZE, w);
    var s' := Written(s, a, off % BSIZE, w);
    forall k, n | 0 <= k < |files| && 0 <= n < MAXFILE
      ensures BlockOf(s', meta, k, n) == BlockOf(s, meta, k, n)
      ensures BlockOf(s, meta, k, n) == a ==> k == ino && n == here
    {
      IsBlockSlot(s, k, n);
      OneFile(s, meta, owner, ino, here, k, n);
    }
    hide Held, SlotOf, Shape, BlockOf, Owned;
    var files' := files[ino := Splice(files[ino], off, w)];
    forall k | 0 <= k < |files| ensures IsFile(s', meta, k, files'[k]) {
      assert IsFile(s, meta, k, files[k]);
      if k == ino {
        WrittenFile(s, s', meta, ino, files[ino], off, w);
      } else {
        FileKept(s, s', meta, k, files[k]);
      }
    }
  }

  /** A block belongs to one place in one file. */
  lemma OneFile(s: State, meta: nat, owner: map<nat, Slot>, ino: nat, n: nat, ino': nat, n': nat)
    requires Owned(s, meta, owner) && ino < |s.inodes| && ino' < |s.inodes| && n < MAXFILE && n' < MAXFILE
    requires BlockOf(s, meta, ino, n) != 0
    ensures BlockOf(s, meta, ino, n) == BlockOf(s, meta, ino', n') ==> ino == ino' && n == n'
  {
    IsBlockSlot(s, ino, n);
    IsBlockSlot(s, ino', n');
    if BlockOf(s, meta, ino, n) == BlockOf(s, meta, ino', n') {
      SlotOfInjective(ino, n, ino', n');
    }
  }

  lemma SplicePast(c: seq<byte>, w: seq<byte>)
    requires 0 < |w|
    ensures Splice(c + [0], |c|, w) == Splice(c, |c|, w)
  {
  }

  lemma SpliceOn(c: seq<byte>, off: nat, u: seq<byte>, v: seq<byte>)
    requires off <= |c|
    ensures Splice(Splice(c, off, u), off + |u|, v) == Splice(c, off, u + v)
  {
  }

  lemma SpliceNothing(c: seq<byte>, off: nat)
    requires off <= |c|
    ensures Splice(c, off, []) == c
  {
  }

  /** The size field of an inode holds no block. */
  lemma Resized(s: State, s': State, meta: nat, owner: map<nat, Slot>, files: seq<seq<byte>>, ino: nat)
    requires Owned(s, meta, owner) && AreFiles(s, meta, files) && ino < |s.inodes|
    requires s'.used == s.used && s'.data == s.data && |s'.inodes| == |s.inodes|
    requires forall k | 0 <= k < |s.inodes| :: s'.inodes[k].addrs == s.inodes[k].addrs
    ensures Shape(s', meta) && Owned(s', meta, owner) && AreFiles(s', meta, files)
  {
    assert forall t | IsSlot(s, t) :: Held(s', meta, t) == Held(s, meta, t);
    forall k | 0 <= k < |files| ensures IsFile(s', meta, k, files[k]) {
      assert IsFile(s, meta, k, files[k]);
      FileKept(s, s', meta, k, files[k]);
    }
  }

  // Taking blocks away.

  /** The change emptied the slots that held a block of `gone`, freed those blocks, and nothing else. */
  ghost predicate Drops(s: State, s': State, meta: nat, gone: set<nat>) {
    && Shape(s, meta) && Shape(s', meta) && |s'.inodes| == |s.inodes| && s'.data == s.data
    && (forall u | IsSlot(s, u) :: Held(s', meta, u) == if Held(s, meta, u) in gone then 0 else Held(s, meta, u))
    && (forall b | 0 <= b < |s.used| :: s'.used[b] <==> s.used[b] && b !in gone)
  }

  lemma DropOwned(s: State, s': State, meta: nat, owner: map<nat, Slot>, gone: set<nat>)
    requires Owned(s, meta, owner) && Drops(s, s', meta, gone) && gone <= owner.Keys
    ensures Owned(s', meta, owner - gone)
  {
    forall b | b in owner - gone
      ensures meta <= b < |s'.data| && IsSlot(s', owner[b]) && Held(s', meta, owner[b]) == b
    {
      assert IsSlot(s, owner[b]) && Held(s, meta, owner[b]) == b;
    }
  }

  /** The blocks a file holds, its indirect block among them. */
  ghost function BlocksOf(owner: map<nat, Slot>, ino: nat): (r: set<nat>) {
    set b | b in owner && owner[b].ino == ino
  }

  /** Taking all its blocks away empties a file and leaves the others. */
  lemma DropFiles(s: State, s': State, meta: nat, owner: map<nat, Slot>, files: seq<seq<byte>>, ino: nat)
    requires Owned(s, meta, owner) && AreFiles(s, meta, files) && ino < |files|
    requires Drops(s, s', meta, BlocksOf(owner, ino))
    ensures Owned(s', meta, owner - BlocksOf(owner, ino))
    ensures AreFiles(s', meta, files[ino := []])
  {
    DropOwned(s, s', meta, owner, BlocksOf(owner, ino));
    var files' := files[ino := []];
    forall k | 0 <= k < |files| ensures IsFile(s', meta, k, files'[k]) {
      assert IsFile(s, meta, k, files[k]);
      forall m | 0 <= m < MAXFILE
        ensures BlockOf(s', meta, k, m) == if k == ino then 0 else BlockOf(s, meta, k, m)
      {
        IsBlockSlot(s, k, m);
        assert Held(s, meta, SlotOf(k, m)) != 0 ==> owner[Held(s, meta, SlotOf(k, m))] == SlotOf(k, m);
      }
      if k != ino {
        FileKept(s, s', meta, k, files[k]);
      }
    }
  }

  /** The blocks of a file's first i direct slots and first j indirect entries, and its indirect block. */
  ghost function Gone(owner: map<nat, Slot>, ino: nat, i: nat, j: nat, ind: bool): (r: set<nat>) {
    set b | b in owner && owner[b].ino == ino &&
            (if owner[b].Direct? then owner[b].i < i else if owner[b].InBlock? then owner[b].j < j else ind)
  }

  lemma GoneNothing(owner: map<nat, Slot>, ino: nat)
    ensures Gone(owner, ino, 0, 0, false) == {}
  {
  }

  lemma GoneDirect(s: State, meta: nat, owner: map<nat, Slot>, ino: nat, i: nat)
    requires Owned(s, meta, owner) && ino < |s.inodes| && i < NDIRECT
    ensures var b := s.inodes[ino].addrs[i];
            && Gone(owner, ino, i + 1, 0, false) == Gone(owner, ino, i, 0, false) + (if b == 0 then {} else {b})
            && (b != 0 ==> b < |s.used| && s.used[b] && b !in Gone(owner, ino, i, 0, false))
  {
    var b := s.inodes[ino].addrs[i];
    assert Held(s, meta, Direct(ino, i)) == b;
    forall x | x in owner && owner[x] == Direct(ino, i) ensures x == b {
      assert Held(s, meta, owner[x]) == x;
    }
  }

  lemma GoneEntry(s: State, meta: nat, owner: map<nat, Slot>, ino: nat, j: nat)
    requires Owned(s, meta, owner) && ino < |s.inodes| && s.inodes[ino].addrs[NDIRECT] != 0 && j < NINDIRECT
    ensures var b := Entry(s.data[s.inodes[ino].addrs[NDIRECT]], j);
            && Gone(owner, ino, NDIRECT, j + 1, false) ==
               Gone(owner, ino, NDIRECT, j, false) + (if b == 0 then {} else {b})
            && (b != 0 ==> b < |s.used| && s.used[b] && b !in Gone(owner, ino, NDIRECT, j, false))
  {
    hide Entry;
    var b := Entry(s.data[s.inodes[ino].addrs[NDIRECT]], j);
    assert Held(s, meta, InBlock(ino, j)) == b;
    forall x | x in owner && owner[x] == InBlock(ino, j) ensures x == b {
      assert Held(s, meta, owner[x]) == x;
    }
  }

  lemma GoneAll(s: State, meta: nat, owner: map<nat, Slot>, ino: nat)
    requires Owned(s, meta, owner) && ino < |s.inodes|
    ensures var b := s.inodes[ino].addrs[NDIRECT];
            && (b == 0 ==> BlocksOf(owner, ino) == Gone(owner, ino, NDIRECT, 0, false))
            && (b != 0 ==> BlocksOf(owner, ino) == Gone(owner, ino, NDIRECT, NINDIRECT, false) + {b})
            && (b != 0 ==> b < |s.used| && s.used[b] && b !in Gone(owner, ino, NDIRECT, NINDIRECT, false))
  {
    var b := s.inodes[ino].addrs[NDIRECT];
    assert Held(s, meta, Indirect(ino)) == b;
    forall x | x in owner && owner[x].ino == ino
      ensures b == 0 ==> owner[x].Direct?
      ensures owner[x].Indirect? ==> x == b
    {
      assert Held(s, meta, owner[x]) == x;
    }
  }

  /** Clearing the addresses of a file and the bits of its blocks takes exactly its blocks away. */
  lemma TruncDrops(s: State, s': State, meta: nat, owner: map<nat, Slot>, ino: nat)
    requires Owned(s, meta, owner) && ino < |s.inodes|
    requires s'.data == s.data && |s'.used| == |s.used| && |s'.inodes| == |s.inodes|
    requires forall k | 0 <= k < |s.inodes| && k != ino :: s'.inodes[k] == s.inodes[k]
    requires |s'.inodes[ino].addrs| == NDIRECT + 1 && forall i | 0 <= i <= NDIRECT :: s'.inodes[ino].addrs[i] == 0
    requires forall b | 0 <= b < |s.used| :: s'.used[b] <==> s.used[b] && b !in BlocksOf(owner, ino)
    ensures Drops(s, s', meta, BlocksOf(owner, ino))
  {
    hide Entry;
    forall u | IsSlot(s, u)
      ensures Held(s', meta, u) == if Held(s, meta, u) in BlocksOf(owner, ino) then 0 else Held(s, meta, u)
    {
      var b := Held(s, meta, u);
      assert b != 0 ==> owner[b] == u;
      assert b == 0 ==> b !in owner;
    }
  }

  lemma Truncated(s: State, s': State, meta: nat, owner: map<nat, Slot>, files: seq<seq<byte>>, ino: nat)
    requires Owned(s, meta, owner) && AreFiles(s, meta, files) && ino < |s.inodes| == |files|
    requires s'.data == s.data && |s'.used| == |s.used| && |s'.inodes| == |s.inodes|
    requires forall k | 0 <= k < |s.inodes| && k != ino :: s'.inodes[k] == s.inodes[k]
    requires |s'.inodes[ino].addrs| == NDIRECT + 1 && forall i | 0 <= i <= NDIRECT :: s'.inodes[ino].addrs[i] == 0
    requires forall b | 0 <= b < |s.used| :: s'.used[b] <==> s.used[b] && b !in BlocksOf(owner, ino)
    ensures Shape(s', meta) && Owned(s', meta, owner - BlocksOf(owner, ino)) && AreFiles(s', meta, files[ino := []])
  {
    hide Held, AreFiles, Owned, BlocksOf;
    TruncDrops(s, s', meta, owner, ino);
    DropFiles(s, s', meta, owner, files, ino);
  }

  /** The part of a file inside one block. */
  lemma ReadSlice(s: State, meta: nat, ino: nat, c: seq<byte>, o: nat, m: nat)
    requires IsFile(s, meta, ino, c) && o % BSIZE + m <= BSIZE && o + m <= |c| && 0 < m
    ensures BlockOf(s, meta, ino, o / BSIZE) < |s.data|
    ensures s.data[BlockOf(s, meta, ino, o / BSIZE)][o % BSIZE..o % BSIZE + m] == c[o..o + m]
  {
    hide BlockOf, Shape;
    var q, r := o / BSIZE, o % BSIZE;
    var here, there := s.data[BlockOf(s, meta, ino, q)][r..r + m], c[o..o + m];
    forall i | 0 <= i < m ensures here[i] == there[i] {
      assert o + i == q * BSIZE + (r + i);
      assert (o + i) / BSIZE == q && (o + i) % BSIZE == r + i;
    }
  }
}
