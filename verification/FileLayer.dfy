/**
 Allocating, mapping, reading and writing the blocks of files (fs.c, file.c), one inode
 operation at a time under its lock and inside a transaction.  The bitmap, the blocks and the
 inodes are what the buffer cache and the log show; `logged` collects the block numbers given
 to log_write.  `files` is the specification: the bytes of every file.
 */
module FileLayer {
  import opened Common
  import opened FileState
  import opened LogShare
  import Bitmap

  const IPB: nat := 8                   // inodes per block

  function Wrap(x: nat): (r: nat) { x % 0x1_0000_0000 }

  /** Each round of writei's loop reaches the end of a block or of the bytes. */
  lemma PastStep(len: nat, off: nat, tot: nat, n: nat, m: nat)
    requires tot < n && (tot == 0 || (off + tot) % BSIZE == 0) && off <= len
    requires m == Min(n - tot, BSIZE - (off + tot) % BSIZE)
    ensures 0 < m <= n - tot && (off + tot) % BSIZE + m <= BSIZE && (tot + m == n || (off + tot + m) % BSIZE == 0)
    ensures Past(off, tot) == First(off + tot) && Past(off, tot + m) == First(off + tot) + 1
    ensures off + n <= MAXFILE * BSIZE ==> First(off + tot) < MAXFILE
    ensures First(off + tot) * BSIZE < Max(len, off + tot) <==> First(off + tot) < Ceil(len)
    ensures NDIRECT <= First(off + tot) ==> NDIRECT * BSIZE < off + tot + m
  {
    var q, r := (off + tot) / BSIZE, (off + tot) % BSIZE;
    assert off + tot == q * BSIZE + r;
    assert (q * BSIZE + (r + m - 1)) / BSIZE == q;
    if tot + m != n {
      assert off + tot + m == (q + 1) * BSIZE;
    }
  }

  lemma NothingNeeded(len: nat, off: nat)
    requires off <= len
    ensures NewBlocks(len, Past(off, 0)) == 0
  {
  }

  lemma PastGrows(off: nat, i: nat, n: nat)
    requires i <= n
    ensures Past(off, i) <= Past(off, n)
  {
  }

  lemma PastStart(len: nat, off: nat)
    requires off <= len <= MAXFILE * BSIZE
    ensures Past(off, 0) == First(off) <= Ceil(len) <= MAXFILE
  {
  }

  /** An inode at rest, its copy on disk and the bytes of its file: sizes agree, no block too many, copies equal. */
  ghost predicate Settled(ip: Inode, dip: Inode, c: seq<byte>) {
    && ip.size == |c| && dip == ip
    && (|ip.addrs| == NDIRECT + 1 && ip.addrs[NDIRECT] != 0 ==> NDIRECT * BSIZE < |c|)
  }

  /** The files after the bytes w went to `off` of one of them. */
  ghost function After(files: seq<seq<byte>>, ino: nat, off: nat, w: seq<byte>): (r: seq<seq<byte>>)
    requires ino < |files| && (w != [] ==> off <= |files[ino]|)
  {
    if w == [] then files else files[ino := Splice(files[ino], off, w)]
  }

  lemma AfterNothing(files: seq<seq<byte>>, ino: nat, off: nat)
    requires ino < |files|
    ensures After(files, ino, off, []) == files
  {
  }

  lemma AfterChunk(files: seq<seq<byte>>, ino: nat, off: nat, w: seq<byte>, i: nat, n1: nat)
    requires ino < |files| && off <= |files[ino]| && i + n1 <= |w| && 0 < n1
    ensures var now := After(files, ino, off, w[..i]);
            && |now| == |files| && |now[ino]| == Max(|files[ino]|, off + i)
            && now[ino := Splice(now[ino], off + i, w[i..i + n1])] == After(files, ino, off, w[..i + n1])
  {
    SpliceOn(files[ino], off, w[..i], w[i..i + n1]);
    SpliceNothing(files[ino], off);
    assert w[..i] + w[i..i + n1] == w[..i + n1];
  }

  class OpenFile {
    const ino: nat
    const readable: bool
    const writable: bool
    var off: nat

    constructor (ino: nat, readable: bool, writable: bool)
      ensures this.ino == ino && this.readable == readable && this.writable == writable && off == 0
    {
      this.ino, this.readable, this.writable, off := ino, readable, writable, 0;
    }
  }

  class FileSystem {
    const size: nat
    const meta: nat                     // blocks before the first data block
    const inodestart: nat
    const bmapstart: nat

    var bitmap: Bitmap.BitBlocks
    var data: seq<Block>
    var inodes: seq<Inode>              // in memory
    var dinodes: seq<Inode>             // on disk

    ghost var used: seq<bool>           // the bitmap's bits
    ghost var owner: map<nat, Slot>
    ghost var files: seq<seq<byte>>
    ghost var logged: set<nat>

    /** A disk on which only the metadata blocks are in use and every file is empty. */
    constructor (size: nat, meta: nat, inodestart: nat, bmapstart: nat, bitmap: Bitmap.BitBlocks, ninodes: nat)
      requires 1 <= meta <= size < 0x1_0000_0000 && Bitmap.IsBits(bitmap, seq(size, b => b < meta))
      requires forall k | 0 <= k < ninodes :: InodeBlock(inodestart + k / IPB, bmapstart, meta, size)
      ensures Valid() && this.size == size && this.meta == meta && |inodes| == |files| == ninodes
      ensures this.inodestart == inodestart && this.bmapstart == bmapstart
      ensures forall k | 0 <= k < ninodes :: files[k] == []
      ensures Bitmap.NFree(used) == size - meta
    {
      Bitmap.FreeBehind(seq(size, b => b < meta), meta);
      this.size, this.meta, this.inodestart, this.bmapstart := size, meta, inodestart, bmapstart;
      this.bitmap := bitmap;
      data := seq(size, _ => Zeros(BSIZE));
      inodes := seq(ninodes, _ => Inode(0, 0, seq(NDIRECT + 1, _ => 0)));
      dinodes := seq(ninodes, _ => Inode(0, 0, seq(NDIRECT + 1, _ => 0)));
      used := seq(size, b => b < meta);
      owner, files, logged := map[], seq(ninodes, _ => []), {};
    }

    /** The block that holds an inode, IBLOCK. */
    function InodeHome(ino: nat): (b: nat) { inodestart + ino / IPB }

    ghost function Now(): (s: State)
      reads this`used, this`data, this`inodes
    {
      State(used, data, inodes)
    }

    /** What holds between the steps of an operation. */
    ghost predicate Consistent()
      reads this`bitmap, this`data, this`inodes, this`dinodes, this`used, this`owner, this`files
    {
      && Bitmap.IsBits(bitmap, used) && |used| == size
      && Shape(Now(), meta) && (forall k | 0 <= k < |inodes| :: |inodes[k].addrs| == NDIRECT + 1)
      && Owned(Now(), meta, owner) && AreFiles(Now(), meta, files)
      && |dinodes| == |inodes| == |files|
    }

    ghost predicate Valid()
      reads this`bitmap, this`data, this`inodes, this`dinodes, this`used, this`owner, this`files
    {
      && Consistent() && (forall k | 0 <= k < |inodes| :: Settled(inodes[k], dinodes[k], files[k]))
      && forall k | 0 <= k < |inodes| :: InodeBlock(InodeHome(k), bmapstart, meta, size)
    }

    /** Only inode `ino` may have changed, and not its size or type. */
    twostate predicate OnlyMapping(ino: nat)
      reads this
    {
      && |inodes| == |old(inodes)| && dinodes == old(dinodes)
      && (forall k | 0 <= k < |inodes| && k != ino :: inodes[k] == old(inodes)[k])
      && (ino < |inodes| ==> inodes[ino].size == old(inodes)[ino].size && inodes[ino].info == old(inodes)[ino].info)
    }

    /** No block of the file but perhaps the n-th was given to it or moved. */
    twostate predicate Others(ino: nat, n: nat)
      requires ino < |inodes| && ino < |old(inodes)| && Shape(Now(), meta) && Shape(old(Now()), meta)
      reads this
    {
      forall m | 0 <= m < MAXFILE && m != n :: BlockOf(Now(), meta, ino, m) == BlockOf(old(Now()), meta, ino, m)
    }

    ghost predicate Full()
      reads this
    {
      forall b | 0 <= b < |used| :: used[b]
    }

    // Blocks.

    /** balloc: the first free block, marked and zeroed; not ok is the panic for a full disk. */
    method Balloc() returns (b: nat, ok: bool)
      requires Bitmap.IsBits(bitmap, used) && |used| == |data| == size
      modifies this`bitmap, this`data, this`used, this`logged
      ensures Bitmap.IsBits(bitmap, used)
      ensures !ok ==> used == old(used) && Full()
      ensures (ok <==> 1 <= Bitmap.NFree(old(used))) && (ok ==> Bitmap.NFree(used) == Bitmap.NFree(old(used)) - 1)
      ensures ok ==> b < size && !old(used)[b] && forall c | 0 <= c < b :: old(used)[c]
      ensures ok ==> used == old(used)[b := true] && data == old(data)[b := Zeros(BSIZE)]
      ensures ok ==> logged == old(logged) + {BitBlock(bmapstart, b), b}
    {
      b := Bitmap.FirstFree(bitmap, size, used);
      ok := b < size;
      if !ok {
        Bitmap.NoneLeft(used);
      } else {
        Bitmap.TakingOne(used, b);
        Bitmap.PutOne(bitmap, used, b, true);
        bitmap := Bitmap.PutBit(bitmap, b, true);
        used := used[b := true];
        logged := logged + {BitBlock(bmapstart, b)};
        data := data[b := Zeros(BSIZE)];
        logged := logged + {b};
      }
    }

    /** bfree; the block must be in use, or the kernel panics. */
    method Bfree(b: nat)
      requires Bitmap.IsBits(bitmap, used) && b < |used| && used[b]
      modifies this`bitmap, this`used, this`logged
      ensures Bitmap.IsBits(bitmap, used) && used == old(used)[b := false]
      ensures logged == old(logged) + {BitBlock(bmapstart, b)}
    {
      Bitmap.PutOne(bitmap, used, b, false);
      bitmap := Bitmap.PutBit(bitmap, b, false);
      used := used[b := false];
      logged := logged + {BitBlock(bmapstart, b)};
    }

    /** iupdate: the inode in memory to the disk. */
    method Iupdate(ino: nat)
      requires ino < |inodes| == |dinodes|
      modifies this`dinodes, this`logged
      ensures dinodes == old(dinodes)[ino := inodes[ino]]
      ensures logged == old(logged) + {InodeHome(ino)}
    {
      dinodes := dinodes[ino := inodes[ino]];
      logged := logged + {InodeHome(ino)};
    }

    // bmap, case by case.

    method MapDirect(ino: nat, bn: nat) returns (addr: nat, ok: bool)
      requires Consistent() && ino < |inodes| && bn < NDIRECT
      requires inodes[ino].addrs[bn] == 0 && |files[ino]| == bn * BSIZE
      modifies this
      ensures !ok ==> Full()
      ensures (ok <==> 1 <= Bitmap.NFree(old(used))) && (ok ==> Bitmap.NFree(used) == Bitmap.NFree(old(used)) - 1)
      ensures ok ==> Consistent() && OnlyMapping(ino) && addr == BlockOf(Now(), meta, ino, bn) != 0
      ensures ok ==> Others(ino, bn)
      ensures ok ==> files == old(files)[ino := old(files[ino]) + [0]]
      ensures ok ==> inodes[ino].addrs[NDIRECT] == old(inodes[ino].addrs[NDIRECT])
      ensures ok ==> Logs(old(logged), logged, old(owner).Keys, owner.Keys, bmapstart, {addr}, {})
    {
      hide AreFiles, Held, Entry, SetEntry, Zeros, Bitmap.IsBits, Bitmap.NFree, Owned, Logs;
      ghost var before := Now();
      addr, ok := Balloc();
      if ok {
        GrowDirect(before, meta, owner, files, ino, bn, addr);
        LogsTaken(before, meta, owner, old(logged), bmapstart, addr, Direct(ino, bn), {});
        inodes := inodes[ino := WithAddr(inodes[ino], bn, addr)];
        owner := owner[addr := Direct(ino, bn)];
        files := files[ino := files[ino] + [0]];
      }
    }

    method MapIndirect(ino: nat) returns (addr: nat, ok: bool)
      requires Consistent() && ino < |inodes| && inodes[ino].addrs[NDIRECT] == 0
      modifies this
      ensures !ok ==> Full()
      ensures (ok <==> 1 <= Bitmap.NFree(old(used))) && (ok ==> Bitmap.NFree(used) == Bitmap.NFree(old(used)) - 1)
      ensures ok ==> Consistent() && OnlyMapping(ino) && files == old(files)
      ensures ok ==> addr == inodes[ino].addrs[NDIRECT] != 0 && Others(ino, MAXFILE)
      ensures ok ==> Logs(old(logged), logged, old(owner).Keys, owner.Keys, bmapstart, {addr}, {})
    {
      hide AreFiles, Held, Entry, SetEntry, Zeros, Bitmap.IsBits, Bitmap.NFree, Owned, Logs;
      ghost var before := Now();
      addr, ok := Balloc();
      if ok {
        GrowIndirect(before, meta, owner, files, ino, addr);
        LogsTaken(before, meta, owner, old(logged), bmapstart, addr, Indirect(ino), {});
        inodes := inodes[ino := WithAddr(inodes[ino], NDIRECT, addr)];
        owner := owner[addr := Indirect(ino)];
      }
    }

    method MapEntry(ino: nat, j: nat) returns (addr: nat, ok: bool)
      requires Consistent() && ino < |inodes| && inodes[ino].addrs[NDIRECT] != 0 && j < NINDIRECT
      requires BlockOf(Now(), meta, ino, NDIRECT + j) == 0 && |files[ino]| == (NDIRECT + j) * BSIZE
      modifies this
      ensures !ok ==> Full()
      ensures (ok <==> 1 <= Bitmap.NFree(old(used))) && (ok ==> Bitmap.NFree(used) == Bitmap.NFree(old(used)) - 1)
      ensures ok ==> Consistent() && inodes == old(inodes) && dinodes == old(dinodes)
      ensures ok ==> addr == BlockOf(Now(), meta, ino, NDIRECT + j) != 0
      ensures ok ==> Others(ino, NDIRECT + j)
      ensures ok ==> files == old(files)[ino := old(files[ino]) + [0]]
      ensures ok ==>
              Logs(old(logged), logged, old(owner).Keys, owner.Keys, bmapstart, {addr}, {inodes[ino].addrs[NDIRECT]})
    {
      hide AreFiles, Held, Entry, SetEntry, Zeros, Bitmap.IsBits, Bitmap.NFree, Owned, Logs;
      ghost var before := Now();
      addr, ok := Balloc();
      if ok {
        GrowEntry(before, meta, owner, files, ino, j, addr);
        var ind := inodes[ino].addrs[NDIRECT];
        LogsTaken(before, meta, owner, old(logged), bmapstart, addr, InBlock(ino, j), {ind});
        data := data[ind := SetEntry(data[ind], j, addr)];
        logged := logged + {ind};
        assert Now() == SetInBlock(Allocated(before, addr), ino, j, addr);
        owner := owner[addr := InBlock(ino, j)];
        files := files[ino := files[ino] + [0]];
      }
    }

    /** bmap: the block under the bn-th block of a file, allocated if it is the next one. */
    method Bmap(ino: nat, bn: nat) returns (addr: nat, ok: bool)
      requires Consistent() && ino < |inodes| && bn < MAXFILE && bn * BSIZE <= |files[ino]|
      modifies this
      ensures !ok ==> Full()
      ensures var k := RoundNeeds(bn, bn * BSIZE < |old(files[ino])|, old(inodes[ino].addrs[NDIRECT]) == 0);
        && (ok <==> k <= Bitmap.NFree(old(used)))
        && (ok ==> Bitmap.NFree(used) == Bitmap.NFree(old(used)) - k)
      ensures ok ==> Consistent() && OnlyMapping(ino) && addr == BlockOf(Now(), meta, ino, bn) != 0 && Others(ino, bn)
      ensures bn * BSIZE < |old(files[ino])| ==>
              ok && Now() == old(Now()) && files == old(files) && logged == old(logged)
      ensures bn * BSIZE < |old(files[ino])| ==> owner == old(owner) && bitmap == old(bitmap)
      ensures ok && bn * BSIZE == |old(files[ino])| ==>
                && files == old(files)[ino := old(files[ino]) + [0]]
                && Logs(old(logged), logged, old(owner).Keys, owner.Keys, bmapstart,
                        FreshIn(old(Now()), Now(), ino, bn, addr), EntryIn(Now(), ino, bn))
      ensures ok && (old(inodes[ino].addrs[NDIRECT]) != 0 || bn < NDIRECT) ==>
                inodes[ino].addrs[NDIRECT] == old(inodes[ino].addrs[NDIRECT])
      ensures ok && NDIRECT <= bn ==> inodes[ino].addrs[NDIRECT] != 0
    {
      hide Entry, SetEntry, Zeros, Bitmap.IsBits, Logs, Bitmap.NFree, Owned;
      assert IsFile(Now(), meta, ino, files[ino]);
      assert BlockOf(Now(), meta, ino, bn) != 0 <==> bn * BSIZE < |files[ino]|;
      ok := true;
      if bn < NDIRECT {
        addr := inodes[ino].addrs[bn];
        if addr == 0 {
          addr, ok := MapDirect(ino, bn);
          assert ok ==> FreshIn(old(Now()), Now(), ino, bn, addr) == {addr};
        }
        return;
      }
      ghost var l, k := logged, owner.Keys;
      addr := inodes[ino].addrs[NDIRECT];
      if addr == 0 {
        addr, ok := MapIndirect(ino);
        if !ok {
          return;
        }
        assert IsFile(Now(), meta, ino, files[ino]);
        assert BlockOf(Now(), meta, ino, bn) != 0 <==> bn * BSIZE < |files[ino]|;
      }
      ghost var ind, l1, k1 := addr, logged, owner.Keys;
      addr := Entry(data[addr], bn - NDIRECT);
      if addr == 0 {
        addr, ok := MapEntry(ino, bn - NDIRECT);
        if ok {
          if old(inodes[ino].addrs[NDIRECT]) == 0 {
            LogsThen(l, l1, logged, k, k1, owner.Keys, bmapstart, {ind}, {addr}, {}, {ind});
            assert {ind} + {addr} == FreshIn(old(Now()), Now(), ino, bn, addr) && {} + {ind} == EntryIn(Now(), ino, bn);
          } else {
            assert FreshIn(old(Now()), Now(), ino, bn, addr) == {addr};
          }
        }
      }
    }

    // writei and readi.

    /** One round of writei's loop: the block under `off`, the bytes copied into it, logged. */
    method WriteBlock(ino: nat, off: nat, w: seq<byte>) returns (ok: bool)
      requires Consistent() && ino < |inodes| && 0 < |w| && off % BSIZE + |w| <= BSIZE
      requires off <= |files[ino]| && off < MAXFILE * BSIZE
      modifies this
      ensures !ok ==> Full()
      ensures var has, none := First(off) * BSIZE < |old(files[ino])|, old(inodes[ino].addrs[NDIRECT]) == 0;
        var k := RoundNeeds(First(off), has, none);
        && (ok <==> k <= Bitmap.NFree(old(used)))
        && (ok ==> Bitmap.NFree(used) == Bitmap.NFree(old(used)) - k)
      ensures ok ==> Consistent() && OnlyMapping(ino) && Others(ino, First(off))
      ensures ok ==> files == old(files)[ino := Splice(old(files[ino]), off, w)]
      ensures ok ==> Round(old(Now()), Now(), meta, ino, First(off), First(off) * BSIZE < |old(files[ino])|, bmapstart,
                           old(logged), logged, old(owner).Keys, owner.Keys)
      ensures ok && |files[ino]| == |old(files[ino])| ==> inodes == old(inodes)
    {
      hide Entry, SetEntry, Zeros, Held, AreFiles, Owned, Shape, Splice, Bitmap.IsBits, Logs, Bitmap.NFree, RoundNeeds;
      var addr;
      addr, ok := Bmap(ino, off / BSIZE);
      if ok {
        ghost var here, l, k := Now(), logged, owner.Keys;
        WrittenFiles(here, meta, owner, files, ino, off, w);
        WrittenHeld(here, meta, owner, ino, off / BSIZE, off % BSIZE, w);
        SplicePast(old(files[ino]), w);
        data := data[addr := Splice(data[addr], off % BSIZE, w)];
        logged := logged + {addr};
        files := files[ino := Splice(files[ino], off, w)];
        LogsNothing(l, k, bmapstart, {addr});
        RoundDone(old(Now()), here, Now(), meta, ino, First(off), First(off) * BSIZE < |old(files[ino])|, bmapstart,
                  old(logged), l, logged, old(owner).Keys, k);
      }
    }

    /** writei's loop. */
    method WriteAll(ino: nat, off: nat, src: seq<byte>) returns (ok: bool)
      requires Consistent() && ino < |inodes| && off <= |files[ino]| && off + |src| <= MAXFILE * BSIZE
      modifies this
      ensures !ok ==> Full()
      ensures var k := Needed(|old(files[ino])|, Past(off, |src|), old(inodes[ino].addrs[NDIRECT]) == 0);
        && (ok <==> k <= Bitmap.NFree(old(used)))
        && (ok ==> Bitmap.NFree(used) == Bitmap.NFree(old(used)) - k)
      ensures ok ==> Consistent() && OnlyMapping(ino)
      ensures ok ==> files == old(files)[ino := Splice(old(files[ino]), off, src)]
      ensures ok ==> Past(off, |src|) <= MAXFILE
      ensures ok ==> Rounds(old(Now()), Now(), meta, ino, |old(files[ino])|, First(off), Past(off, |src|), bmapstart,
                            old(logged), logged, old(owner).Keys, owner.Keys)
      ensures ok && |files[ino]| == |old(files[ino])| ==> inodes == old(inodes)
    {
      hide Entry, SetEntry, Zeros, Held, AreFiles, IsFile, Bitmap.IsBits, BlockOf, First, Past, Ceil, Splice, Owned,
           Shape, Round, Rounds, Bitmap.NFree, Needed, RoundNeeds, FillsEntry, Consistent;
      var n, tot := |src|, 0;
      SizeBound(ino);
      ghost var len, none := |files[ino]|, inodes[ino].addrs[NDIRECT] == 0;
      ok := true;
      SpliceNothing(files[ino], off);
      PastStart(len, off);
      NeededGrows(len, First(off), First(off), none);
      RoundsStart(Now(), meta, ino, len, First(off), bmapstart, logged, owner.Keys);
      while tot < n
        invariant tot <= n && (tot < n ==> tot == 0 || (off + tot) % BSIZE == 0)
        invariant Consistent() && OnlyMapping(ino)
        invariant files == old(files)[ino := Splice(old(files[ino]), off, src[..tot])]
        invariant Past(off, tot) <= MAXFILE
        invariant Rounds(old(Now()), Now(), meta, ino, len, First(off), Past(off, tot), bmapstart,
                         old(logged), logged, old(owner).Keys, owner.Keys)
        invariant |files[ino]| == |old(files[ino])| ==> inodes == old(inodes)
        invariant Bitmap.NFree(used) == Bitmap.NFree(old(used)) - Needed(len, Past(off, tot), none)
      {
        SizeBound(ino);
        ghost var here, l, k := Now(), logged, owner.Keys;
        var m := Min(n - tot, BSIZE - (off + tot) % BSIZE);
        PastStep(len, off, tot, n, m);
        SpliceOn(old(files[ino]), off, src[..tot], src[tot..tot + m]);
        assert src[..tot] + src[tot..tot + m] == src[..tot + m];
        RoundsIndirect(old(Now()), here, meta, ino, len, First(off), Past(off, tot), bmapstart,
                       old(logged), l, old(owner).Keys, k);
        NeededNext(len, First(off + tot), none, inodes[ino].addrs[NDIRECT] == 0);
        PastGrows(off, tot + m, n);
        NeededGrows(len, Past(off, tot + m), Past(off, n), none);
        ok := WriteBlock(ino, off + tot, src[tot..tot + m]);
        if !ok {
          return;
        }
        RoundsNext(old(Now()), here, Now(), meta, ino, len, First(off), First(off + tot), bmapstart,
                   old(logged), l, logged, old(owner).Keys, k, owner.Keys);
        tot := tot + m;
      }
      assert src[..n] == src;
    }

    /** The end of writei for a file that grew: its new size, in memory and on disk. */
    method SetSize(ino: nat, n: nat)
      requires Consistent() && ino < |inodes|
      modifies this`inodes, this`dinodes, this`logged
      ensures Consistent() && logged == old(logged) + {InodeHome(ino)}
      ensures inodes == old(inodes)[ino := Inode(old(inodes)[ino].info, n, old(inodes)[ino].addrs)]
      ensures dinodes == old(dinodes)[ino := inodes[ino]] && |inodes[ino].addrs| == NDIRECT + 1
    {
      hide AreFiles, Owned, Bitmap.IsBits, Held, Entry;
      ghost var before := Now();
      inodes := inodes[ino := Inode(inodes[ino].info, n, inodes[ino].addrs)];
      Resized(before, Now(), meta, owner, files, ino);
      Iupdate(ino);
    }

    /** writei after its checks: the loop, and the new size if the file grew. */
    method WriteRange(ino: nat, off: nat, src: seq<byte>) returns (ok: bool, ghost wrote: set<nat>)
      requires Valid() && ino < |inodes| && off <= |files[ino]| && off + |src| <= MAXFILE * BSIZE && src != []
      modifies this
      ensures !ok ==> Full()
      ensures var k := NewBlocks(|old(files[ino])|, Past(off, |src|));
        && (ok <==> k <= Bitmap.NFree(old(used)))
        && (ok ==> Bitmap.NFree(used) == Bitmap.NFree(old(used)) - k)
      ensures ok ==> Valid() && |inodes| == old(|inodes|) &&
                     Past(off, |src|) <= MAXFILE && Ceil(|old(files[ino])|) <= MAXFILE
      ensures ok ==> files == old(files)[ino := Splice(old(files[ino]), off, src)]
      ensures ok ==> logged == old(logged) + wrote
      ensures ok ==>
                wrote ==
                LoggedSet(old(Now()), Now(), meta, ino, |old(files[ino])|, off, |src|, bmapstart, InodeHome(ino))
      ensures ok ==> |wrote| <= WriteCost(|old(files[ino])|, off, |src|)
      ensures ok && size <= Bitmap.BPB ==> |wrote| == LogCount(|old(files[ino])|, off, |src|)
    {
      hide Entry, SetEntry, Zeros, Held, AreFiles, Bitmap.IsBits, Shape, Owned, Past, First, Ceil, Rounds, LogCount,
           WriteCost, InodeBlock, LoggedSet, Bitmap.NFree, Needed;
      var n := |src|;
      wrote := {};
      ghost var len := |files[ino]|;
      assert Settled(inodes[ino], dinodes[ino], files[ino]);
      HasIndirect(ino);
      ok := WriteAll(ino, off, src);
      if ok {
        SizesAgree();
        RoundsFacts(old(Now()), Now(), meta, ino, len, First(off), Past(off, n), bmapstart,
                    old(logged), logged, old(owner).Keys, owner.Keys);
        if FillsEntry(len, Past(off, n)) {
          FilledLong(len, off, n);
        }
        ghost var before := Now();
        WrittenAll(old(Now()), before, meta, owner, ino, len, off, n, bmapstart, InodeHome(ino),
                   old(logged), logged, old(owner).Keys, owner.Keys);
        wrote := LoggedSet(old(Now()), before, meta, ino, len, off, n, bmapstart, InodeHome(ino));
        if off + n > inodes[ino].size {
          SetSize(ino, off + n);
          SizeBound(ino);
          WrittenResized(old(Now()), before, Now(), meta, ino, len, off, n, bmapstart, InodeHome(ino));
        }
      }
    }

    /**
     writei: all bytes or none.  The 32-bit sum in its checks never lets a wrong range through, and the
     inode on disk follows the one in memory, although it is written only when the file grew.
     */
    method WriteI(ino: nat, off: nat, src: seq<byte>) returns (r: int, ok: bool, ghost wrote: set<nat>)
      requires Valid() && ino < |inodes| && off < 0x1_0000_0000 && |src| < 0x1_0000_0000
      modifies this
      ensures !ok ==> Full()
      ensures var k := if off <= |old(files[ino])| && off + |src| <= MAXFILE * BSIZE
                       then NewBlocks(|old(files[ino])|, Past(off, |src|)) else 0;
        && (ok <==> k <= Bitmap.NFree(old(used)))
        && (ok ==> Bitmap.NFree(used) == Bitmap.NFree(old(used)) - k)
      ensures ok ==> Valid() && |inodes| == old(|inodes|)
      ensures ok ==> r == if off <= |old(files[ino])| && off + |src| <= MAXFILE * BSIZE then |src| else -1
      ensures r < 0 ==>
              ok && Now() == old(Now()) && files == old(files) && dinodes == old(dinodes) && logged == old(logged)
      ensures ok && 0 <= r ==> files == old(files)[ino := Splice(old(files[ino]), off, src)]
      ensures ok && 0 <= r ==> Past(off, |src|) <= MAXFILE && Ceil(|old(files[ino])|) <= MAXFILE
      ensures ok ==> logged == old(logged) + wrote
      ensures ok ==> wrote == if r <= 0 then {} else
                LoggedSet(old(Now()), Now(), meta, ino, |old(files[ino])|, off, |src|, bmapstart, InodeHome(ino))
      ensures ok && 0 <= r ==> |wrote| <= WriteCost(|old(files[ino])|, off, |src|)
      ensures ok && 0 <= r && size <= Bitmap.BPB ==> |wrote| == LogCount(|old(files[ino])|, off, |src|)
      ensures ok && 0 < r && size <= Bitmap.BPB ==>
                (|wrote| > MAXOPBLOCKS <==> Overruns(|old(files[ino])|, off, |src|))
    {
      hide Consistent, Past, First, Ceil, LogCount, WriteCost, InodeBlock, LoggedSet, Splice, Overruns, Bitmap.NFree,
           NewBlocks;
      var n := |src|;
      ok, wrote := true, {};
      SizeBound(ino);
      assert Settled(inodes[ino], dinodes[ino], files[ino]);
      if off > inodes[ino].size || Wrap(off + n) < off {
        r := -1;
        return;
      }
      if Wrap(off + n) > MAXFILE * BSIZE {
        r := -1;
        return;
      }
      r := n;
      NothingWritten(|files[ino]|, off);
      PastStart(|files[ino]|, off);
      NothingNeeded(|files[ino]|, off);
      if n == 0 {
        SpliceNothing(files[ino], off);
        assert src == [] && files[ino := files[ino]] == files;
        return;
      }
      OverrunIff(|files[ino]|, off, n);
      ok, wrote := WriteRange(ino, off, src);
    }

    /** One round of readi's loop. */
    method ReadBlock(ino: nat, o: nat, left: nat) returns (piece: seq<byte>)
      requires Consistent() && ino < |inodes| && o < |files[ino]| && 0 < left <= |files[ino]| - o
      modifies this
      ensures Consistent() && Now() == old(Now())
      ensures files == old(files) && dinodes == old(dinodes) && logged == old(logged)
      ensures owner == old(owner) && bitmap == old(bitmap)
      ensures 0 < |piece| <= left && piece == files[ino][o..o + |piece|]
    {
      hide Entry, SetEntry, Zeros, Held, Bitmap.IsBits, Shape, Owned, BlockOf;
      assert IsFile(Now(), meta, ino, files[ino]);
      var addr, ok := Bmap(ino, o / BSIZE);
      var m := Min(left, BSIZE - o % BSIZE);
      ReadSlice(Now(), meta, ino, files[ino], o, m);
      piece := data[addr][o % BSIZE..o % BSIZE + m];
    }

    /** readi: the part of the file from `off` on, up to n bytes; nothing changes. */
    method ReadI(ino: nat, off: nat, n: nat) returns (r: int, dst: seq<byte>)
      requires Valid() && ino < |inodes| && off < 0x1_0000_0000 && n < 0x1_0000_0000
      modifies this
      ensures Valid() && Now() == old(Now()) && files == old(files) && dinodes == old(dinodes) && logged == old(logged)
      ensures owner == old(owner) && bitmap == old(bitmap)
      ensures off <= |files[ino]| && off + n < 0x1_0000_0000 ==>
              r == |dst| && dst == files[ino][off..Min(off + n, |files[ino]|)]
      ensures !(off <= |files[ino]| && off + n < 0x1_0000_0000) ==> r == -1 && dst == []
    {
      hide Consistent, AreFiles, IsFile;
      dst := [];
      SizeBound(ino);
      assert Settled(inodes[ino], dinodes[ino], files[ino]);
      if off > inodes[ino].size || Wrap(off + n) < off {
        r := -1;
        return;
      }
      var todo := if Wrap(off + n) > inodes[ino].size then inodes[ino].size - off else n;
      var tot := 0;
      while tot < todo
        invariant Consistent() && Now() == old(Now()) && files == old(files) && dinodes == old(dinodes)
        invariant logged == old(logged)
        invariant tot <= todo && off + todo <= |files[ino]|
        invariant owner == old(owner) && bitmap == old(bitmap)
        invariant dst == files[ino][off..off + tot]
      {
        var piece := ReadBlock(ino, off + tot, todo - tot);
        dst := dst + piece;
        tot := tot + |piece|;
      }
      r := todo;
    }

    /** itrunc: the file is empty, exactly its blocks are free, and bfree never met a free block. */
    method Itrunc(ino: nat)
      requires Valid() && ino < |inodes|
      modifies this
      ensures Valid() && |inodes| == old(|inodes|) && files == old(files)[ino := []]
      ensures forall b | 0 <= b < |used| :: used[b] <==> old(used)[b] && b !in BlocksOf(old(owner), ino)
      ensures data == old(data) && owner == old(owner) - BlocksOf(old(owner), ino)
      ensures forall k | 0 <= k < |inodes| && k != ino :: inodes[k] == old(inodes)[k]
    {
      hide Bitmap.IsBits, AreFiles, BlocksOf, Owned, Shape;
      ghost var s := Now();
      FreeBlocks(ino);
      inodes := inodes[ino := Inode(inodes[ino].info, 0, inodes[ino].addrs)];
      Truncated(s, Now(), meta, owner, files, ino);
      owner := owner - BlocksOf(owner, ino);
      files := files[ino := []];
      Iupdate(ino);
    }

    method FreeBlocks(ino: nat)
      requires Consistent() && ino < |inodes|
      modifies this`bitmap, this`used, this`logged, this`inodes
      ensures Bitmap.IsBits(bitmap, used) && |used| == size && |inodes| == |old(inodes)|
      ensures forall k | 0 <= k < |inodes| && k != ino :: inodes[k] == old(inodes)[k]
      ensures inodes[ino].info == old(inodes)[ino].info && |inodes[ino].addrs| == NDIRECT + 1
      ensures forall k | 0 <= k <= NDIRECT :: inodes[ino].addrs[k] == 0
      ensures forall b | 0 <= b < |used| :: used[b] <==> old(used)[b] && b !in BlocksOf(owner, ino)
    {
      hide Entry, Held, Bitmap.IsBits, AreFiles, Gone, BlocksOf, Owned, Shape;
      ghost var s := Now();
      FreeDirect(ino);
      GoneAll(s, meta, owner, ino);
      if inodes[ino].addrs[NDIRECT] != 0 {
        FreeIndirect(s, ino);
        Bfree(inodes[ino].addrs[NDIRECT]);
        inodes := inodes[ino := WithAddr(inodes[ino], NDIRECT, 0)];
      }
    }

    /** itrunc's loop over the direct addresses. */
    method FreeDirect(ino: nat)
      requires Consistent() && ino < |inodes|
      modifies this`bitmap, this`used, this`logged, this`inodes
      ensures Bitmap.IsBits(bitmap, used) && |used| == size && |inodes| == |old(inodes)|
      ensures forall k | 0 <= k < |inodes| && k != ino :: inodes[k] == old(inodes)[k]
      ensures inodes[ino].info == old(inodes)[ino].info && |inodes[ino].addrs| == NDIRECT + 1
      ensures forall k | 0 <= k < NDIRECT :: inodes[ino].addrs[k] == 0
      ensures inodes[ino].addrs[NDIRECT] == old(inodes)[ino].addrs[NDIRECT]
      ensures forall b | 0 <= b < |used| :: used[b] <==> old(used)[b] && b !in Gone(owner, ino, NDIRECT, 0, false)
    {
      hide Entry, Held, Bitmap.IsBits, AreFiles, Gone, Owned, Shape;
      ghost var s := Now();
      var i := 0;
      GoneNothing(owner, ino);
      while i < NDIRECT
        invariant i <= NDIRECT && Bitmap.IsBits(bitmap, used) && |used| == size && |inodes| == |s.inodes|
        invariant forall k | 0 <= k < |inodes| && k != ino :: inodes[k] == s.inodes[k]
        invariant inodes[ino].info == s.inodes[ino].info && |inodes[ino].addrs| == NDIRECT + 1
        invariant forall k | 0 <= k <= NDIRECT :: inodes[ino].addrs[k] == if k < i then 0 else s.inodes[ino].addrs[k]
        invariant forall b | 0 <= b < |used| :: used[b] <==> s.used[b] && b !in Gone(owner, ino, i, 0, false)
      {
        GoneDirect(s, meta, owner, ino, i);
        if inodes[ino].addrs[i] != 0 {
          Bfree(inodes[ino].addrs[i]);
          inodes := inodes[ino := WithAddr(inodes[ino], i, 0)];
        }
        i := i + 1;
      }
    }

    /** itrunc's loop over the entries of the indirect block, which it does not clear. */
    method FreeIndirect(ghost s: State, ino: nat)
      requires Owned(s, meta, owner) && ino < |s.inodes| == |inodes| && |used| == |s.used| == size && data == s.data
      requires Bitmap.IsBits(bitmap, used) && |inodes[ino].addrs| == NDIRECT + 1
      requires inodes[ino].addrs[NDIRECT] == s.inodes[ino].addrs[NDIRECT] != 0
      requires forall b | 0 <= b < |used| :: used[b] <==> s.used[b] && b !in Gone(owner, ino, NDIRECT, 0, false)
      modifies this`bitmap, this`used, this`logged
      ensures Bitmap.IsBits(bitmap, used) && |used| == size
      ensures forall b | 0 <= b < |used| :: used[b] <==> s.used[b] && b !in Gone(owner, ino, NDIRECT, NINDIRECT, false)
    {
      hide Entry, Held, Bitmap.IsBits, Gone;
      var ind := inodes[ino].addrs[NDIRECT];
      var j := 0;
      while j < NINDIRECT
        invariant j <= NINDIRECT && Bitmap.IsBits(bitmap, used) && |used| == size
        invariant forall b | 0 <= b < |used| :: used[b] <==> s.used[b] && b !in Gone(owner, ino, NDIRECT, j, false)
      {
        GoneEntry(s, meta, owner, ino, j);
        if Entry(data[ind], j) != 0 {
          Bfree(Entry(data[ind], j));
        }
        j := j + 1;
      }
    }

    // Open files.

    /** fileread on an inode. */
    method FileRead(f: OpenFile, n: nat) returns (r: int, dst: seq<byte>)
      requires Valid() && f.ino < |inodes| && f.off < 0x1_0000_0000 && n < 0x8000_0000
      modifies this, f
      ensures Valid() && files == old(files)
      ensures f.readable && old(f.off) <= |files[f.ino]| ==>
                dst == files[f.ino][old(f.off)..Min(old(f.off) + n, |files[f.ino]|)] &&
                r == |dst| && f.off == old(f.off) + |dst|
      ensures !(f.readable && old(f.off) <= |files[f.ino]|) ==> r == -1 && dst == [] && f.off == old(f.off)
    {
      if !f.readable {
        return -1, [];
      }
      assert Settled(inodes[f.ino], dinodes[f.ino], files[f.ino]);
      assert IsFile(Now(), meta, f.ino, files[f.ino]);
      r, dst := ReadI(f.ino, f.off, n);
      if r > 0 {
        f.off := f.off + r;
      }
    }

    /** One chunk of filewrite, a transaction of its own: writei at the offset, which then moves on. */
    method WriteChunk(f: OpenFile, w: seq<byte>) returns (r: int, ok: bool, ghost txn: set<nat>)
      requires Valid() && f.ino < |inodes| && f.off < 0x1_0000_0000 && 0 < |w| <= MAXWRITE
      modifies this, f
      ensures !ok ==> Full() && f.off == old(f.off)
      ensures ok ==> Valid() && |inodes| == old(|inodes|)
      ensures ok <==> ChunkNeeds(|old(files[f.ino])|, old(f.off), |w|) <= Bitmap.NFree(old(used))
      ensures ok ==>
        Bitmap.NFree(used) == Bitmap.NFree(old(used)) - ChunkNeeds(|old(files[f.ino])|, old(f.off), |w|)
      ensures ok && Accepts(|old(files[f.ino])|, old(f.off), |w|) ==>
        && r == |w| && f.off == old(f.off) + |w|
        && files == old(files)[f.ino := Splice(old(files[f.ino]), old(f.off), w)]
      ensures ok && !Accepts(|old(files[f.ino])|, old(f.off), |w|) ==>
        r == -1 && files == old(files) && f.off == old(f.off)
      ensures ok ==> |txn| <= LOGSIZE
      ensures ok && size <= Bitmap.BPB ==>
        |txn| == if Accepts(|old(files[f.ino])|, old(f.off), |w|)
                 then LogCount(|old(files[f.ino])|, old(f.off), |w|) else 0
    {
      hide Consistent, Splice, Settled, LogCount, WriteCost, LoggedSet, InodeBlock, Bitmap.NFree, NewBlocks, First,
           Past, Ceil, Overruns;
      SizeBound(f.ino);
      if f.off <= |files[f.ino]| {
        ChunkFits(|files[f.ino]|, f.off, |w|);
      }
      logged := {};
      r, ok, txn := WriteI(f.ino, f.off, w);
      if ok && r > 0 {
        f.off := f.off + r;
      }
    }

    /**
     filewrite on an inode: chunk by chunk, each a transaction that fits the log.  Together the chunks
     write what one writei would have, or the whole chunks before the one that does not fit the file; they
     succeed exactly when the free blocks suffice for that.
     */
    method FileWrite(f: OpenFile, addr: seq<byte>) returns (r: int, ok: bool, ghost txns: seq<set<nat>>)
      requires Valid() && f.ino < |inodes| && f.off < 0x1_0000_0000 && |addr| < 0x8000_0000
      modifies this, f
      ensures !ok ==> Full()
      ensures !f.writable ==> ok && r == -1 && files == old(files) && f.off == old(f.off) && txns == []
      ensures ok ==> Valid()
      ensures |old(files)[f.ino]| <= MAXFILE * BSIZE
      ensures f.writable ==>
                var a := Accepted(|old(files)[f.ino]|, old(f.off), |addr|);
                ok <==> Spent(|old(files)[f.ino]|, old(f.off), a) <= Bitmap.NFree(old(used))
      ensures ok && f.writable ==>
                var a := Accepted(|old(files)[f.ino]|, old(f.off), |addr|);
                && r == (if a == |addr| then a else -1) && f.off == old(f.off) + a
                && files == After(old(files), f.ino, old(f.off), addr[..a])
                && |txns| == Chunks(a) + (if a < |addr| then 1 else 0)
      ensures !ok ==> |txns| * MAXWRITE < |addr| && f.off == old(f.off) + |txns| * MAXWRITE
      ensures TxnsRight(txns, |old(files)[f.ino]|, old(f.off), |addr|, size <= Bitmap.BPB)
    {
      hide Consistent, First, Past, LogCount, Splice, After, Settled, TxnsRight, Chunks, Ceil, InodeBlock, Bitmap.NFree,
           NewBlocks, Accepted, ChunkLog;
      SizeBound(f.ino);
      ghost var len, start, one, spare := |files[f.ino]|, f.off, size <= Bitmap.BPB, Bitmap.NFree(used);
      var n, i := |addr|, 0;
      r, ok, txns := 0, true, [];
      NoChunks(len, start, n, one);
      if !f.writable {
        r := -1;
        return;
      }
      AfterNothing(files, f.ino, start);
      while i < n
        invariant i <= n && (i < n ==> i % MAXWRITE == 0) && 0 <= r && ok
        invariant Valid() && f.ino < |inodes| == |files| && f.off == start + i
        invariant 0 < i ==> start <= len && start + i <= MAXFILE * BSIZE
        invariant files == After(old(files), f.ino, start, addr[..i])
        invariant |txns| == Chunks(i) && TxnsRight(txns, len, start, n, one)
        invariant Bitmap.NFree(used) == spare - Spent(len, start, i)
      {
        var n1 := Min(n - i, MAXWRITE);
        ChunkStep(n, i);
        ChunkLogs(len, start, n, i);
        if start <= len {
          AfterChunk(old(files), f.ino, start, addr, i, n1);
          ChunkSpends(len, start, n, i);
        }
        ghost var txn;
        r, ok, txn := WriteChunk(f, addr[i..i + n1]);
        if !ok {
          return;
        }
        TxnsNext(txns, txn, len, start, n, one);
        txns := txns + [txn];
        if r < 0 {
          break;
        }
        i := i + r;
      }
      AcceptedIs(len, start, n, i);
      r := if i == n then n else -1;
    }

    /** A file at rest has an indirect block exactly when it is longer than its direct blocks. */
    lemma HasIndirect(k: nat)
      requires Consistent() && k < |inodes| && Settled(inodes[k], dinodes[k], files[k])
      ensures inodes[k].addrs[NDIRECT] == 0 <==> Ceil(|files[k]|) <= NDIRECT
    {
      assert IsFile(Now(), meta, k, files[k]);
      assert BlockOf(Now(), meta, k, NDIRECT) != 0 <==> NDIRECT * BSIZE < |files[k]|;
    }

    lemma SizesAgree()
      requires Consistent()
      ensures |data| == |used| == size
    {
    }

    lemma SizeBound(k: nat)
      requires Consistent() && k < |inodes|
      ensures |files[k]| <= MAXFILE * BSIZE && |files| == |dinodes| == |inodes|
      ensures |inodes[k].addrs| == NDIRECT + 1 && Shape(Now(), meta)
    {
      assert IsFile(Now(), meta, k, files[k]);
    }
  }

  /**
   On the disk that mkfs makes, with 1000 blocks of which 59 are metadata: a write of nine blocks to an empty file
   succeeds and logs eleven, one more than begin_op reserved for it.
   */
  method NineBlocks(src: seq<byte>) returns (r: int, ok: bool, ghost wrote: set<nat>)
    requires |src| == 9 * BSIZE
    ensures ok && r == |src| && |wrote| == 11 == MAXOPBLOCKS + 1
  {
    hide Bitmap.IsBits, LoggedSet;
    var bits := Bitmap.MkfsBitmap(59, 1000);
    var fs := new FileSystem(1000, 59, 32, 58, [bits], 200);
    NineBlocksOverrun();
    r, ok, wrote := fs.WriteI(0, 0, src);
  }
}
