/**
 The redo log in memory (log.c): log_write, commit and recovery as they run over the
 buffer cache.  Each method states exactly which disk writes it makes, in order, so that
 the crash theorems of RedoLog apply to every point of its execution.
 */
module Log {
  import opened Common
  import opened Disk
  import opened RedoLog
  import opened BufferCache

  /** The logical content of the logged blocks, in header order. */
  ghost function Contents(view: seq<Block>, blocks: seq<nat>): (data: seq<Block>)
    requires forall i | 0 <= i < |blocks| :: blocks[i] < |view|
    ensures |data| == |blocks|
  {
    seq(|blocks|, i requires 0 <= i < |blocks| => view[blocks[i]])
  }

  /** Nobody holds or waits for a buffer. */
  ghost predicate Quiet(v: View) {
    v.refs == multiset{} && v.held == {} && v.touched == {}
  }

  lemma {:induction false} SizeOfDistinct(s: seq<nat>, items: set<nat>)
    requires NoRepeats(s) && items == set x | x in s
    ensures |items| == |s|
  {
    if s != [] {
      var last := |s| - 1;
      var rest := set x | x in s[..last];
      SizeOfDistinct(s[..last], rest);
      assert items == rest + {s[last]};
      assert s[last] !in rest;
    }
  }

  /** When the view differs from the disk in the logged blocks only, the transaction is the view. */
  lemma ViewInstalled(lay: Layout, d: seq<Block>, view: seq<Block>, blocks: seq<nat>)
    requires |view| == |d| && NoRepeats(blocks) && Loggable(lay, d, blocks)
    requires forall bn | 0 <= bn < |d| && bn !in blocks :: view[bn] == d[bn]
    ensures Installed(d, blocks, Contents(view, blocks)) == view
  {
    var data := Contents(view, blocks);
    forall bn | 0 <= bn < |d| ensures Installed(d, blocks, data)[bn] == view[bn] {
      InstalledAt(d, blocks, data, bn);
      if bn in blocks {
        var k :| 0 <= k < |blocks| && blocks[k] == bn;
        assert bn !in blocks[k + 1..];
      }
    }
  }

  lemma {:induction false} CommitDone(lay: Layout, d: seq<Block>, view: seq<Block>, blocks: seq<nat>)
    requires |view| == |d| && NoRepeats(blocks) && Loggable(lay, d, blocks)
    requires forall bn | 0 <= bn < |d| && bn !in blocks :: view[bn] == d[bn]
    requires CanCommit(lay, d, blocks, Contents(view, blocks))
    ensures var ws := CommitWrites(lay, d, blocks, Contents(view, blocks));
            InRange(ws, |d|) && LogEmpty(lay, Apply(d, ws)) && SameHome(lay, Apply(d, ws), view)
  {
    hide Apply, CommitWrites, SameHome, Installed, Contents;
    var data := Contents(view, blocks);
    var ws := CommitWrites(lay, d, blocks, data);
    CommitInRange(lay, d, blocks, data);
    CompleteCommit(lay, d, blocks, data);
    assert ws[..|ws|] == ws;
    ViewInstalled(lay, d, view, blocks);
  }

  /** Power lost after k writes of commit: recovery shows the disk before it, or what the cache showed, whole. */
  lemma CrashShowsOldOrNew(lay: Layout, d: seq<Block>, view: seq<Block>, blocks: seq<nat>, k: nat)
    requires |view| == |d| && NoRepeats(blocks) && Loggable(lay, d, blocks)
    requires forall bn | 0 <= bn < |d| && bn !in blocks :: view[bn] == d[bn]
    requires CanCommit(lay, d, blocks, Contents(view, blocks))
    requires k <= |CommitWrites(lay, d, blocks, Contents(view, blocks))|
    ensures var e := CrashedCommit(lay, d, blocks, Contents(view, blocks), k);
            ValidHead(lay, e) && SameHome(lay, Recovered(lay, e), if k <= |blocks| then d else view)
  {
    hide Apply, CommitWrites, SameHome, Installed, Contents, CrashedCommit, Recovered, ValidHead;
    CrashAtomicity(lay, d, blocks, Contents(view, blocks), k);
    ViewInstalled(lay, d, view, blocks);
  }

  /** The pinned blocks that installing has not reached after `tail` rounds. */
  ghost function Remaining(lh: seq<nat>, tail: nat, pinned: set<nat>): (r: set<nat>)
    requires tail <= |lh|
  {
    var rest := lh[tail..];
    if pinned == {} then {} else set x | x in rest
  }

  lemma RemainingPins(lh: seq<nat>, tail: nat, pinned: set<nat>, nbuf: nat)
    requires tail < |lh|
    requires if pinned == {} then nbuf >= 2 else NoRepeats(lh) && |lh| < nbuf
    ensures var rest := Remaining(lh, tail, pinned);
            && |rest| + (if lh[tail] in rest then 0 else 1) < nbuf
            && rest - {lh[tail]} == Remaining(lh, tail + 1, pinned)
            && forall x | x in rest :: x in lh
  {
    if pinned != {} {
      SizeOfDistinct(lh[tail..], Remaining(lh, tail, pinned));
      assert lh[tail..] == [lh[tail]] + lh[tail + 1..];
    }
  }

  lemma RemainingEnds(lh: seq<nat>, pinned: set<nat>)
    ensures Remaining(lh, 0, pinned) == if pinned == {} then {} else set x | x in lh
    ensures Remaining(lh, |lh|, pinned) == {}
  {
    assert lh[0..] == lh;
  }

  class Log {
    const cache: Cache
    const lay: Layout
    var lh: seq<nat>       // lh.block[0..lh.n]
    var outstanding: nat

    /** initlog on a machine just started: the log is recovered before anything else runs. */
    constructor (cache: Cache, lay: Layout)
      requires cache.Valid() && Quiet(cache.view) && cache.view.pinned == {} && cache.nbuf >= 2
      requires ValidHead(lay, cache.disk.blocks)
      modifies cache, cache.disk
      ensures Valid() && this.cache == cache && this.lay == lay && lh == [] && outstanding == 0
      ensures cache.disk.writes == old(cache.disk.writes) + RecoveryWrites(lay, old(cache.disk.blocks))
      ensures cache.disk.blocks == Recovered(lay, old(cache.disk.blocks)) && Quiet(cache.view)
    {
      this.cache, this.lay := cache, lay;
      lh, outstanding := [], 0;
      new;
      RecoverFromLog();
    }

    ghost predicate Valid()
      reads this, cache, cache.disk
    {
      && cache.Valid()
      && LogEmpty(lay, cache.disk.blocks)
      && Loggable(lay, cache.disk.blocks, lh) && NoRepeats(lh)
      && cache.view.pinned == set x | x in lh
    }

    /** One pass of begin_op's loop: the operation starts, or has to wait for space. */
    method BeginOp() returns (ok: bool)
      requires Valid()
      modifies this`outstanding
      ensures Valid() && (ok <==> |lh| + (old(outstanding) + 1) * MAXOPBLOCKS <= LOGSIZE)
      ensures outstanding == old(outstanding) + if ok then 1 else 0
    {
      ok := |lh| + (outstanding + 1) * MAXOPBLOCKS <= LOGSIZE;
      if ok {
        outstanding := outstanding + 1;
      }
    }

    /** end_op: the last operation to end commits for all. */
    method EndOp()
      requires Valid() && outstanding >= 1 && (outstanding == 1 ==> Quiet(cache.view) && |lh| < cache.nbuf)
      modifies this, cache, cache.disk
      ensures Valid() && outstanding == old(outstanding) - 1 && (outstanding == 0 ==> lh == [] && Quiet(cache.view))
      ensures outstanding > 0 ==> lh == old(lh) && cache.view == old(cache.view) && cache.bufs == old(cache.bufs)
      ensures outstanding > 0 ==>
              cache.disk.blocks == old(cache.disk.blocks) && cache.disk.writes == old(cache.disk.writes)
      ensures outstanding == 0 ==>
              var d := old(cache.disk.blocks); var data := Contents(old(cache.view).blocks, old(lh));
        && CanCommit(lay, d, old(lh), data)
        && cache.disk.writes == old(cache.disk.writes) + CommitWrites(lay, d, old(lh), data)
      ensures outstanding == 0 ==> SameHome(lay, cache.disk.blocks, old(cache.view).blocks)
    {
      hide Cache.Valid, Contents, CommitWrites, SameHome, CanCommit;
      outstanding := outstanding - 1;
      if outstanding == 0 {
        Commit();
      }
    }

    /** log_write: record the block once, and pin its buffer. */
    method LogWrite(b: nat)
      requires Valid() && b < |cache.bufs| && cache.Holds(b, cache.bufs[b].blockno)
      requires IsHome(lay, cache.disk.blocks, cache.bufs[b].blockno)
      requires |lh| < LOGSIZE && |lh| < lay.size - 1 && outstanding >= 1
      modifies this`lh, cache`bufs, cache`view
      ensures Valid() && cache.Holds(b, old(cache.bufs)[b].blockno)
      ensures var bn := old(cache.bufs)[b].blockno;
        && lh == (if bn in old(lh) then old(lh) else old(lh) + [bn])
        && cache.view ==
           old(cache.view).(pinned := old(cache.view).pinned + {bn}, touched := old(cache.view).touched - {bn})
    {
      hide Cache.Valid, Kept;
      var bn := cache.bufs[b].blockno;
      var i := 0;
      while i < |lh| && lh[i] != bn
        invariant 0 <= i <= |lh| && bn !in lh[..i]
      {
        i := i + 1;
      }
      ghost var before := lh;
      lh := if i == |lh| then lh + [bn] else lh[i := bn];
      if i == |before| {
        assert before[..i] == before;
        assert forall x :: x in lh <==> x in before || x == bn;
      } else {
        assert before[i] in before && lh == before;
      }
      assert Loggable(lay, cache.disk.blocks, lh) && NoRepeats(lh);
      cache.Pin(b);
    }

    /** Copy one held buffer into another, write that one, and release both. */
    method Transfer(from: nat, ghost src: nat, to: nat, ghost dst: nat)
      requires cache.Valid() && cache.Holds(from, src) && cache.Holds(to, dst) && src != dst
      requires cache.view.refs == multiset{src, dst} && cache.view.held == {src, dst} && cache.view.touched == {}
      modifies cache, cache.disk
      ensures cache.Valid() && Quiet(cache.view) && cache.view.pinned == old(cache.view).pinned - {dst}
      ensures dst < |old(cache.disk.blocks)| && src < |old(cache.view).blocks|
      ensures var data := old(cache.view).blocks[src];
        && cache.view.blocks == old(cache.view).blocks[dst := data]
        && cache.disk.blocks == old(cache.disk.blocks)[dst := data]
        && cache.disk.writes == old(cache.disk.writes) + [Write(dst, data)]
    {
      hide Cache.Valid;
      cache.Usable();
      cache.Store(to, cache.bufs[from].data);
      cache.Bwrite(to);
      cache.Brelse(from);
      cache.Brelse(to);
    }

    /** One round of write_log: copy a block from the cache to the log. */
    method CopyToLog(tail: nat)
      requires cache.Valid() && Quiet(cache.view) && FitsDisk(lay, cache.disk.blocks)
      requires tail < |lh| && Loggable(lay, cache.disk.blocks, lh)
      requires lh[tail] in cache.view.pinned && |cache.view.pinned| < cache.nbuf
      requires forall x | x in cache.view.pinned :: IsHome(lay, cache.disk.blocks, x)
      modifies cache, cache.disk
      ensures cache.Valid() && cache.view == old(cache.view).(blocks := cache.view.blocks)
      ensures var w := Write(lay.start + 1 + tail, old(cache.view).blocks[lh[tail]]);
        && cache.view.blocks == old(cache.view).blocks[w.blockno := w.data]
        && cache.disk.blocks == old(cache.disk.blocks)[w.blockno := w.data]
        && cache.disk.writes == old(cache.disk.writes) + [w]
    {
      hide Cache.Valid, Kept;
      cache.Usable();
      var to := cache.Bread(lay.start + tail + 1);
      cache.Usable();
      var from := cache.Bread(lh[tail]);
      Transfer(from, lh[tail], to, lay.start + tail + 1);
    }

    /** write_log: the logged blocks go from the cache to the log area. */
    method WriteLog()
      requires Valid() && Quiet(cache.view) && |lh| < cache.nbuf
      modifies cache, cache.disk
      ensures cache.Valid() && cache.view == old(cache.view).(blocks := cache.view.blocks)
      ensures SameHome(lay, cache.view.blocks, old(cache.view).blocks)
      ensures var ws := LogCopies(lay, Contents(old(cache.view).blocks, lh));
        && InRange(ws, |old(cache.disk.blocks)|)
        && cache.disk.blocks == Apply(old(cache.disk.blocks), ws)
        && cache.disk.writes == old(cache.disk.writes) + ws
    {
      hide Cache.Valid, Kept, Apply;
      SizeOfDistinct(lh, cache.view.pinned);
      cache.Usable();
      ghost var d, h, v := cache.disk.blocks, cache.disk.writes, cache.view;
      ghost var ws := LogCopies(lay, Contents(v.blocks, lh));
      ApplyNone(d);
      var tail := 0;
      while tail < |lh|
        invariant 0 <= tail <= |lh|
        invariant cache.Valid() && cache.view == v.(blocks := cache.view.blocks)
        invariant |cache.disk.blocks| == |d| && SameHome(lay, cache.view.blocks, v.blocks)
        invariant cache.disk.blocks == Apply(d, ws[..tail])
        invariant cache.disk.writes == h + ws[..tail]
      {
        CopyToLog(tail);
        assert ws[tail] == Write(lay.start + 1 + tail, v.blocks[lh[tail]]);
        assert ws[..tail + 1] == ws[..tail] + [ws[tail]];
        ApplyNext(d, ws, tail);
        tail := tail + 1;
      }
      assert ws[..tail] == ws;
    }

    /** write_head: the in-memory header goes to the header block. */
    method WriteHead()
      requires cache.Valid() && Quiet(cache.view) && FitsDisk(lay, cache.disk.blocks)
      requires |lh| <= LOGSIZE && |cache.view.pinned| < cache.nbuf
      requires lay.start !in cache.view.pinned
      modifies cache, cache.disk
      ensures cache.Valid() && cache.view == old(cache.view).(blocks := cache.view.blocks)
      ensures var w := Write(lay.start, EncodeHead(old(cache.disk.blocks)[lay.start], lh));
        && cache.view.blocks == old(cache.view).blocks[w.blockno := w.data]
        && cache.disk.blocks == old(cache.disk.blocks)[w.blockno := w.data]
        && cache.disk.writes == old(cache.disk.writes) + [w]
    {
      hide Cache.Valid, Kept;
      cache.Usable();
      var b := cache.Bread(lay.start);
      var hb := EncodeHeader(cache.bufs[b].data);
      cache.Store(b, hb);
      cache.Bwrite(b);
      cache.Brelse(b);
    }

    /** The assignments to hb->n and hb->block[] in write_head. */
    method EncodeHeader(old_: Block) returns (hb: Block)
      requires |lh| <= LOGSIZE
      ensures hb == EncodeHead(old_, lh)
    {
      hb := old_[0 := |lh|];
      var i := 0;
      while i < |lh|
        invariant 0 <= i <= |lh|
        invariant hb == [|lh|] + lh[..i] + old_[1 + i..]
      {
        hb := hb[1 + i := lh[i]];
        i := i + 1;
      }
    }

    /** One round of install_trans: copy a block from the log to its home. */
    method InstallOne(tail: nat)
      requires cache.Valid() && Quiet(cache.view) && FitsDisk(lay, cache.disk.blocks)
      requires tail < |lh| && Loggable(lay, cache.disk.blocks, lh)
      requires |cache.view.pinned| + (if lh[tail] in cache.view.pinned then 0 else 1) < cache.nbuf
      requires forall x | x in cache.view.pinned :: IsHome(lay, cache.disk.blocks, x)
      modifies cache, cache.disk
      ensures cache.Valid()
      ensures cache.view == old(cache.view).(blocks := cache.view.blocks, pinned := old(cache.view).pinned - {lh[tail]})
      ensures var w := Write(lh[tail], old(cache.disk.blocks)[lay.start + 1 + tail]);
        && cache.view.blocks == old(cache.view).blocks[w.blockno := w.data]
        && cache.disk.blocks == old(cache.disk.blocks)[w.blockno := w.data]
        && cache.disk.writes == old(cache.disk.writes) + [w]
    {
      hide Cache.Valid, Kept;
      cache.Usable();
      var lbuf := cache.Bread(lay.start + tail + 1);
      cache.Usable();
      var dbuf := cache.Bread(lh[tail]);
      Transfer(lbuf, lay.start + tail + 1, dbuf, lh[tail]);
    }

    /** read_head: the header block gives the in-memory header. */
    method ReadHead()
      requires cache.Valid() && Quiet(cache.view) && cache.view.pinned == {} && cache.nbuf >= 1
      requires ValidHead(lay, cache.disk.blocks)
      modifies this`lh, cache, cache.disk
      ensures cache.Valid() && cache.view == old(cache.view)
      ensures cache.disk.blocks == old(cache.disk.blocks) && cache.disk.writes == old(cache.disk.writes)
      ensures lh == HeadBlocks(lay, cache.disk.blocks)
    {
      hide Cache.Valid, Kept;
      cache.Usable();
      var b := cache.Bread(lay.start);
      ghost var blocks := HeadBlocks(lay, cache.disk.blocks);
      var hb, i := cache.bufs[b].data, 0;
      var read: seq<nat> := [];
      while i < hb[0]
        invariant 0 <= i <= |blocks| && read == blocks[..i]
      {
        assert hb[1 + i] == blocks[i];
        read := read + [hb[1 + i]];
        i := i + 1;
      }
      lh := read;
      cache.Brelse(b);
    }

    /**
     install_trans: every logged block goes from the log area to its home.  Run by commit,
     when the home blocks are exactly the pinned ones, and by recovery, when none is.
     */
    method InstallTrans()
      requires cache.Valid() && Quiet(cache.view) && FitsDisk(lay, cache.disk.blocks)
      requires Loggable(lay, cache.disk.blocks, lh)
      requires if cache.view.pinned == {} then cache.nbuf >= 2
               else NoRepeats(lh) && cache.view.pinned == (set x | x in lh) && |lh| < cache.nbuf
      modifies cache, cache.disk
      ensures cache.Valid() && Quiet(cache.view) && cache.view.pinned == {}
      ensures var ws := HomeCopies(lh, old(cache.disk.blocks)[lay.start + 1 .. lay.start + 1 + |lh|]);
        && InRange(ws, |old(cache.disk.blocks)|)
        && cache.disk.blocks == Apply(old(cache.disk.blocks), ws)
        && cache.disk.writes == old(cache.disk.writes) + ws
    {
      hide Cache.Valid, Remaining, Apply;
      ghost var d, h, v := cache.disk.blocks, cache.disk.writes, cache.view;
      ghost var ws := HomeCopies(lh, d[lay.start + 1 .. lay.start + 1 + |lh|]);
      var tail := 0;
      RemainingEnds(lh, v.pinned);
      ApplyNone(d);
      while tail < |lh|
        invariant 0 <= tail <= |lh|
        invariant cache.Valid() && Quiet(cache.view) && |cache.disk.blocks| == |d|
        invariant cache.view.pinned == Remaining(lh, tail, v.pinned)
        invariant forall bn: nat | InLog(lay, bn) :: cache.disk.blocks[bn] == d[bn]
        invariant cache.disk.blocks == Apply(d, ws[..tail])
        invariant cache.disk.writes == h + ws[..tail]
      {
        RemainingPins(lh, tail, v.pinned, cache.nbuf);
        InstallOne(tail);
        assert ws[tail] == Write(lh[tail], d[lay.start + 1 + tail]);
        assert ws[..tail + 1] == ws[..tail] + [ws[tail]];
        ApplyNext(d, ws, tail);
        tail := tail + 1;
      }
      assert ws[..tail] == ws;
    }

    /** recover_from_log: exactly the recovery writes, after which the log is empty. */
    method RecoverFromLog()
      requires cache.Valid() && Quiet(cache.view) && cache.view.pinned == {} && cache.nbuf >= 2
      requires ValidHead(lay, cache.disk.blocks)
      modifies this`lh, cache, cache.disk
      ensures Valid() && lh == [] && Quiet(cache.view)
      ensures cache.disk.writes == old(cache.disk.writes) + RecoveryWrites(lay, old(cache.disk.blocks))
      ensures cache.disk.blocks == Recovered(lay, old(cache.disk.blocks))
    {
      hide Cache.Valid, Kept, Apply, Recovered, RecoveryWrites;
      ghost var d := cache.disk.blocks;
      RecoveryPhases(lay, d);
      RecoverInstalls(lay, d);
      ReadHead();
      InstallTrans();
      lh := [];
      WriteHead();
    }

    /**
     commit: exactly the commit writes.  Users of the cache see no change to any home block;
     the disk itself ends up with every home block as they saw it.
     */
    method Commit()
      requires Valid() && Quiet(cache.view) && |lh| < cache.nbuf
      modifies this`lh, cache, cache.disk
      ensures Valid() && lh == [] && Quiet(cache.view)
      ensures var d := old(cache.disk.blocks); var data := Contents(old(cache.view).blocks, old(lh));
        && CanCommit(lay, d, old(lh), data)
        && InRange(CommitWrites(lay, d, old(lh), data), |d|)
        && cache.disk.writes == old(cache.disk.writes) + CommitWrites(lay, d, old(lh), data)
        && cache.disk.blocks == Apply(d, CommitWrites(lay, d, old(lh), data))
      ensures SameHome(lay, cache.view.blocks, old(cache.view).blocks)
      ensures SameHome(lay, cache.disk.blocks, old(cache.view).blocks)
    {
      if |lh| > 0 {
        CommitSome();
      }
    }

    /** The body of commit, for a transaction that is not empty. */
    method CommitSome()
      requires Valid() && Quiet(cache.view) && 0 < |lh| < cache.nbuf
      modifies this`lh, cache, cache.disk
      ensures Valid() && lh == [] && Quiet(cache.view)
      ensures var d := old(cache.disk.blocks); var data := Contents(old(cache.view).blocks, old(lh));
        && CanCommit(lay, d, old(lh), data)
        && InRange(CommitWrites(lay, d, old(lh), data), |d|)
        && cache.disk.writes == old(cache.disk.writes) + CommitWrites(lay, d, old(lh), data)
        && cache.disk.blocks == Apply(d, CommitWrites(lay, d, old(lh), data))
      ensures SameHome(lay, cache.view.blocks, old(cache.view).blocks)
    {
      hide Cache.Valid, Kept, Apply, CommitWrites, EncodeHead, SameHome, Installed;
      ghost var d, v, blocks := cache.disk.blocks, cache.view, lh;
      cache.Usable();
      ghost var data := Contents(v.blocks, blocks);
      CommitPhases(lay, d, blocks, data);
      SizeOfDistinct(lh, v.pinned);
      WriteLog();
      WriteHead();
      InstallTrans();
      lh := [];
      WriteHead();
      CommitDone(lay, d, v.blocks, blocks);
      cache.Usable();
      assert cache.view.blocks == cache.disk.blocks;
    }
  }
}
