/**
 The on-disk protocol of the redo log (log.c): which blocks commit() and
 recover_from_log() write, in which order, and what a crash leaves behind.

 The main results are CrashAtomicity (one transaction) and RunsAreAtomic (every
 run of commits, crashes at any write, crashed recoveries and recoveries).
 */
module RedoLog {
  import opened Common
  import opened Disk

  /** Where the log lives: block `start` is the header, the next `size - 1` blocks hold data. */
  datatype Layout = Layout(start: nat, size: nat)

  ghost predicate InLog(lay: Layout, bn: nat) {
    lay.start <= bn < lay.start + lay.size
  }

  ghost predicate FitsDisk(lay: Layout, d: seq<Block>) {
    1 <= lay.size && lay.start + lay.size <= |d|
  }

  /** A home block: a block of the disk outside the log area. */
  ghost predicate IsHome(lay: Layout, d: seq<Block>, bn: int) {
    0 <= bn < |d| && !InLog(lay, bn)
  }

  ghost predicate SameHome(lay: Layout, d: seq<Block>, e: seq<Block>) {
    |d| == |e| && forall bn :: IsHome(lay, d, bn) ==> d[bn] == e[bn]
  }

  lemma SameHomeTrans(lay: Layout, a: seq<Block>, b: seq<Block>, c: seq<Block>)
    requires SameHome(lay, a, b) && (SameHome(lay, b, c) || SameHome(lay, c, b))
    ensures SameHome(lay, a, c)
  {
    forall bn | IsHome(lay, a, bn) ensures a[bn] == c[bn] {
      assert IsHome(lay, b, bn) && IsHome(lay, c, bn);
    }
  }

  // The header block: word 0 is n, words 1..n are the home block numbers.

  /** What write_head puts in the header block: words beyond 1..n keep their old content. */
  ghost function EncodeHead(old_: Block, blocks: seq<nat>): (b: Block)
    requires |blocks| <= LOGSIZE
  {
    [|blocks|] + blocks + old_[1 + |blocks|..]
  }

  /** The header names `blocks`: the count and the block numbers that read_head loads. */
  ghost predicate HeadNames(b: Block, blocks: seq<nat>) {
    |blocks| <= LOGSIZE && b[0] == |blocks| && forall i | 0 <= i < |blocks| :: b[1 + i] == blocks[i]
  }

  /** A transaction that fits the log and names home blocks only. */
  ghost predicate Loggable(lay: Layout, d: seq<Block>, blocks: seq<nat>) {
    && |blocks| <= LOGSIZE
    && |blocks| <= lay.size - 1
    && forall i | 0 <= i < |blocks| :: IsHome(lay, d, blocks[i])
  }

  /** The header on disk is one that recovery can follow. */
  ghost predicate ValidHead(lay: Layout, d: seq<Block>) {
    && FitsDisk(lay, d)
    && var b := d[lay.start];
      && 0 <= b[0] <= LOGSIZE && b[0] <= lay.size - 1
      && forall i | 1 <= i <= b[0] :: IsHome(lay, d, b[i])
  }

  /** The block numbers that read_head loads from the header. */
  ghost function HeadBlocks(lay: Layout, d: seq<Block>): (blocks: seq<nat>)
    requires ValidHead(lay, d)
    ensures HeadNames(d[lay.start], blocks) && Loggable(lay, d, blocks)
  {
    var b := d[lay.start];
    seq(b[0], i requires 0 <= i < b[0] => assert IsHome(lay, d, b[1 + i]); b[1 + i])
  }

  // The writes of commit() and of recover_from_log().

  ghost function LogCopies(lay: Layout, data: seq<Block>): (ws: seq<Write>) {
    seq(|data|, i requires 0 <= i < |data| => Write(lay.start + 1 + i, data[i]))
  }

  ghost function HomeCopies(blocks: seq<nat>, data: seq<Block>): (ws: seq<Write>)
    requires |blocks| == |data|
  {
    seq(|data|, i requires 0 <= i < |data| => Write(blocks[i], data[i]))
  }

  /** The order of writes of commit(): log blocks, header, home blocks, cleared header. */
  ghost function CommitWrites(lay: Layout, d: seq<Block>, blocks: seq<nat>, data: seq<Block>): (ws: seq<Write>)
    requires FitsDisk(lay, d) && |blocks| == |data| <= LOGSIZE
    ensures |ws| == if blocks == [] then 0 else 2 * |blocks| + 2
  {
    if blocks == [] then []
    else
      var head := EncodeHead(d[lay.start], blocks);
      LogCopies(lay, data) + [Write(lay.start, head)] + HomeCopies(blocks, data)
      + [Write(lay.start, EncodeHead(head, []))]
  }

  /** The data blocks of the transaction named by the header. */
  ghost function LoggedData(lay: Layout, d: seq<Block>): (data: seq<Block>)
    requires ValidHead(lay, d)
    ensures |data| == |HeadBlocks(lay, d)|
  {
    var n := |HeadBlocks(lay, d)|;
    d[lay.start + 1 .. lay.start + 1 + n]
  }

  /** The order of writes of recover_from_log(): home blocks, then the cleared header. */
  ghost function RecoveryWrites(lay: Layout, d: seq<Block>): (ws: seq<Write>)
    requires ValidHead(lay, d)
    ensures InRange(ws, |d|)
  {
    HomeCopies(HeadBlocks(lay, d), LoggedData(lay, d)) + [Write(lay.start, EncodeHead(d[lay.start], []))]
  }

  /** The disk after one complete recovery. */
  ghost function Recovered(lay: Layout, d: seq<Block>): (r: seq<Block>)
    requires ValidHead(lay, d)
    ensures |r| == |d|
  {
    Apply(d, RecoveryWrites(lay, d))
  }

  /** Recovery as its two phases: installing, then clearing the header it found. */
  lemma {:induction false} RecoveryPhases(lay: Layout, d: seq<Block>)
    requires ValidHead(lay, d)
    ensures var hc := HomeCopies(HeadBlocks(lay, d), LoggedData(lay, d));
            && InRange(hc, |d|) && Apply(d, hc)[lay.start] == d[lay.start]
            && Recovered(lay, d) == Apply(d, hc)[lay.start := EncodeHead(d[lay.start], [])]
            && RecoveryWrites(lay, d) == hc + [Write(lay.start, EncodeHead(d[lay.start], []))]
  {
    var hc := HomeCopies(HeadBlocks(lay, d), LoggedData(lay, d));
    ApplyUntouched(d, hc, lay.start);
    assert RecoveryWrites(lay, d)[..|hc|] == hc;
  }

  /** What the transaction means: all its blocks replaced at once. */
  ghost function Installed(d: seq<Block>, blocks: seq<nat>, data: seq<Block>): (r: seq<Block>)
    requires |blocks| == |data|
    requires forall i | 0 <= i < |blocks| :: blocks[i] < |d|
    ensures |r| == |d|
  {
    Apply(d, HomeCopies(blocks, data))
  }

  /** Installed, block by block: a named block gets its last data, others keep theirs. */
  lemma InstalledAt(d: seq<Block>, blocks: seq<nat>, data: seq<Block>, bn: nat)
    requires |blocks| == |data| && bn < |d|
    requires forall i | 0 <= i < |blocks| :: blocks[i] < |d|
    ensures bn !in blocks ==> Installed(d, blocks, data)[bn] == d[bn]
    ensures forall k | 0 <= k < |blocks| && blocks[k] == bn && bn !in blocks[k + 1..] ::
              Installed(d, blocks, data)[bn] == data[k]
  {
    var ws := HomeCopies(blocks, data);
    if bn !in blocks {
      ApplyUntouched(d, ws, bn);
    }
    forall k | 0 <= k < |blocks| && blocks[k] == bn && bn !in blocks[k + 1..]
      ensures Installed(d, blocks, data)[bn] == data[k]
    {
      forall i | k < i < |ws| ensures ws[i].blockno != bn {
        assert blocks[i] == blocks[k + 1..][i - k - 1];
      }
      ApplyLast(d, ws, k);
    }
  }

  /** A disk whose header is empty: the state between transactions. */
  ghost predicate LogEmpty(lay: Layout, d: seq<Block>) {
    FitsDisk(lay, d) && HeadNames(d[lay.start], [])
  }

  // Facts about a header.

  lemma EncodedHead(old_: Block, blocks: seq<nat>)
    requires |blocks| <= LOGSIZE
    ensures HeadNames(EncodeHead(old_, blocks), blocks)
  {
  }

  lemma HeadIs(lay: Layout, d: seq<Block>, blocks: seq<nat>)
    requires FitsDisk(lay, d) && HeadNames(d[lay.start], blocks) && Loggable(lay, d, blocks)
    ensures ValidHead(lay, d) && HeadBlocks(lay, d) == blocks
  {
    var b := d[lay.start];
    forall i | 1 <= i <= b[0] ensures IsHome(lay, d, b[i]) {
      assert b[1 + (i - 1)] == blocks[i - 1];
    }
    assert HeadBlocks(lay, d) == blocks;
  }

  /** Recovery empties the log and installs exactly the logged transaction. */
  lemma RecoverInstalls(lay: Layout, d: seq<Block>)
    requires ValidHead(lay, d)
    ensures LogEmpty(lay, Recovered(lay, d))
    ensures SameHome(lay, Recovered(lay, d), Installed(d, HeadBlocks(lay, d), LoggedData(lay, d)))
  {
    RecoveryPhases(lay, d);
    EncodedHead(d[lay.start], []);
  }

  /** Recovering a disk with an empty log changes no home block and leaves the log empty. */
  lemma RecoverEmpty(lay: Layout, d: seq<Block>)
    requires LogEmpty(lay, d)
    ensures ValidHead(lay, d)
    ensures SameHome(lay, Recovered(lay, d), d) && LogEmpty(lay, Recovered(lay, d))
  {
    HeadIs(lay, d, []);
    RecoverInstalls(lay, d);
    assert HomeCopies(HeadBlocks(lay, d), LoggedData(lay, d)) == [];
  }

  // Crashes during recovery.

  /** A crash after j < n + 1 home writes of recovery leaves header and log untouched. */
  lemma {:induction false} PartialRecoveryKeepsLog(lay: Layout, d: seq<Block>, j: nat)
    requires ValidHead(lay, d) && j <= |HeadBlocks(lay, d)|
    ensures var e := Apply(d, RecoveryWrites(lay, d)[..j]);
            && (forall bn | lay.start <= bn < lay.start + lay.size :: e[bn] == d[bn])
            && ValidHead(lay, e) && HeadBlocks(lay, e) == HeadBlocks(lay, d)
            && LoggedData(lay, e) == LoggedData(lay, d)
  {
    var ws := RecoveryWrites(lay, d)[..j];
    var e := Apply(d, ws);
    forall bn | lay.start <= bn < lay.start + lay.size ensures e[bn] == d[bn] {
      assert forall i | 0 <= i < |ws| :: ws[i].blockno == HeadBlocks(lay, d)[i];
      ApplyUntouched(d, ws, bn);
    }
    HeadIs(lay, e, HeadBlocks(lay, d));
    assert LoggedData(lay, e) == LoggedData(lay, d);
  }

  /** Recovery restarted after a crash at any of its writes gives the same home blocks. */
  lemma {:induction false} CrashedRecovery(lay: Layout, d: seq<Block>, j: nat)
    requires ValidHead(lay, d) && j <= |RecoveryWrites(lay, d)|
    ensures var e := Apply(d, RecoveryWrites(lay, d)[..j]);
            && ValidHead(lay, e)
            && SameHome(lay, Recovered(lay, e), Recovered(lay, d))
  {
    var rw := RecoveryWrites(lay, d);
    if j == |rw| {
      assert rw[..j] == rw;
      RecoverInstalls(lay, d);
      RecoverEmpty(lay, Recovered(lay, d));
    } else {
      PartialRecoveryKeepsLog(lay, d, j);
      ReplayedHome(lay, d, j);
    }
  }

  lemma {:induction false} ReplayedHome(lay: Layout, d: seq<Block>, j: nat)
    requires ValidHead(lay, d) && j <= |HeadBlocks(lay, d)|
    requires var e := Apply(d, RecoveryWrites(lay, d)[..j]);
             && ValidHead(lay, e) && HeadBlocks(lay, e) == HeadBlocks(lay, d)
             && LoggedData(lay, e) == LoggedData(lay, d)
    ensures SameHome(lay, Recovered(lay, Apply(d, RecoveryWrites(lay, d)[..j])), Recovered(lay, d))
  {
    hide Apply, ValidHead, Recovered;
    var hc := HomeCopies(HeadBlocks(lay, d), LoggedData(lay, d));
    assert RecoveryWrites(lay, d)[..j] == hc[..j];
    var e := Apply(d, hc[..j]);
    RecoverInstalls(lay, d);
    RecoverInstalls(lay, e);
    forall bn | IsHome(lay, d, bn) ensures Apply(e, hc)[bn] == Apply(d, hc)[bn] {
      ReplayAgrees(d, hc, j, bn);
    }
  }

  /** Replaying a whole list of writes over a prefix of it already performed. */
  lemma {:induction false} ReplayAgrees(d: seq<Block>, ws: seq<Write>, j: nat, bn: nat)
    requires InRange(ws, |d|) && j <= |ws| && bn < |d|
    ensures Apply(Apply(d, ws[..j]), ws)[bn] == Apply(d, ws)[bn]
  {
    if forall i | 0 <= i < j :: ws[i].blockno != bn {
      ApplyUntouched(d, ws[..j], bn);
    }
    ApplyAgree(Apply(d, ws[..j]), d, ws, bn);
  }

  // Crashes during commit.

  ghost predicate CanCommit(lay: Layout, d: seq<Block>, blocks: seq<nat>, data: seq<Block>) {
    LogEmpty(lay, d) && Loggable(lay, d, blocks) && |data| == |blocks|
  }

  lemma CommitInRange(lay: Layout, d: seq<Block>, blocks: seq<nat>, data: seq<Block>)
    requires CanCommit(lay, d, blocks, data)
    ensures InRange(CommitWrites(lay, d, blocks, data), |d|)
  {
  }

  /** The disk left by a crash after k writes of commit(). */
  ghost function CrashedCommit(lay: Layout, d: seq<Block>, blocks: seq<nat>, data: seq<Block>, k: nat): (r: seq<Block>)
    requires CanCommit(lay, d, blocks, data) && k <= |CommitWrites(lay, d, blocks, data)|
    ensures |r| == |d|
  {
    CommitInRange(lay, d, blocks, data);
    Apply(d, CommitWrites(lay, d, blocks, data)[..k])
  }

  /** Up to the header write, commit changes log blocks only. */
  lemma BeforeCommitPoint(lay: Layout, d: seq<Block>, blocks: seq<nat>, data: seq<Block>, k: nat)
    requires CanCommit(lay, d, blocks, data) && k <= |blocks|
    ensures k <= |CommitWrites(lay, d, blocks, data)|
    ensures var e := CrashedCommit(lay, d, blocks, data, k);
            SameHome(lay, e, d) && LogEmpty(lay, e)
  {
    var ws := CommitWrites(lay, d, blocks, data)[..k];
    CommitInRange(lay, d, blocks, data);
    assert forall i | 0 <= i < |ws| :: ws[i].blockno == lay.start + 1 + i;
    forall bn | 0 <= bn < |d| && (bn <= lay.start || bn > lay.start + k) ensures Apply(d, ws)[bn] == d[bn] {
      ApplyUntouched(d, ws, bn);
    }
  }

  /** The disk just after the header write: the log holds the transaction, home blocks are old. */
  lemma AtCommitPoint(lay: Layout, d: seq<Block>, blocks: seq<nat>, data: seq<Block>)
    requires CanCommit(lay, d, blocks, data) && blocks != []
    ensures var e := CrashedCommit(lay, d, blocks, data, |blocks| + 1);
            && SameHome(lay, e, d) && ValidHead(lay, e)
            && HeadBlocks(lay, e) == blocks && LoggedData(lay, e) == data
            && e[lay.start] == EncodeHead(d[lay.start], blocks)
  {
    var n := |blocks|;
    var lc := LogCopies(lay, data);
    var ws := CommitWrites(lay, d, blocks, data)[..n + 1];
    CommitInRange(lay, d, blocks, data);
    BeforeCommitPoint(lay, d, blocks, data, n);
    assert CommitWrites(lay, d, blocks, data)[..n] == lc;
    assert ws[..|ws| - 1] == lc;
    var e := Apply(d, ws);
    assert e == Apply(d, lc)[lay.start := EncodeHead(d[lay.start], blocks)];
    EncodedHead(d[lay.start], blocks);
    HeadIs(lay, e, blocks);
    forall i | 0 <= i < n ensures LoggedData(lay, e)[i] == data[i] {
      ApplyLast(d, lc, i);
    }
  }

  /** The writes of commit() after the header write. */
  lemma CommitTail(lay: Layout, d: seq<Block>, blocks: seq<nat>, data: seq<Block>)
    requires FitsDisk(lay, d) && |blocks| == |data| <= LOGSIZE && blocks != []
    ensures CommitWrites(lay, d, blocks, data)[|blocks| + 1..]
         == HomeCopies(blocks, data) + [Write(lay.start, EncodeHead(EncodeHead(d[lay.start], blocks), []))]
  {
    var front := LogCopies(lay, data) + [Write(lay.start, EncodeHead(d[lay.start], blocks))];
    var tail := HomeCopies(blocks, data) + [Write(lay.start, EncodeHead(EncodeHead(d[lay.start], blocks), []))];
    assert CommitWrites(lay, d, blocks, data) == front + tail;
  }

  lemma {:induction false} ApplySplit(d: seq<Block>, ws: seq<Write>, i: nat, k: nat)
    requires InRange(ws, |d|) && i <= k <= |ws|
    ensures Apply(d, ws[..k]) == Apply(Apply(d, ws[..i]), ws[i..][..k - i])
  {
    var u, v := ws[..i], ws[i..][..k - i];
    assert forall j | 0 <= j < |v| :: v[j] == ws[i + j];
    assert ws[..k] == u + v;
    ApplyAppend(d, u, v);
  }

  /** From the header write on, commit performs exactly the writes of recovery. */
  lemma AfterCommitPoint(lay: Layout, d: seq<Block>, blocks: seq<nat>, data: seq<Block>, k: nat)
    requires CanCommit(lay, d, blocks, data) && blocks != []
    requires |blocks| < k <= |CommitWrites(lay, d, blocks, data)|
    ensures var p := CrashedCommit(lay, d, blocks, data, |blocks| + 1);
            && ValidHead(lay, p) && |RecoveryWrites(lay, p)| == |blocks| + 1
            && CrashedCommit(lay, d, blocks, data, k) == Apply(p, RecoveryWrites(lay, p)[..k - |blocks| - 1])
  {
    CommitInRange(lay, d, blocks, data);
    AtCommitPoint(lay, d, blocks, data);
    CommitTail(lay, d, blocks, data);
    ApplySplit(d, CommitWrites(lay, d, blocks, data), |blocks| + 1, k);
  }

  /**
   Crash atomicity of one transaction.  A crash after any number k of the writes of
   commit(), followed by a complete recovery, leaves every home block as it was before
   the transaction when the header write had not happened, and as the transaction made
   it when the header write had happened; either way the log is empty again.
   */
  lemma CrashAtomicity(lay: Layout, d: seq<Block>, blocks: seq<nat>, data: seq<Block>, k: nat)
    requires CanCommit(lay, d, blocks, data) && k <= |CommitWrites(lay, d, blocks, data)|
    ensures var e := CrashedCommit(lay, d, blocks, data, k);
            && ValidHead(lay, e)
            && LogEmpty(lay, Recovered(lay, e))
            && SameHome(lay, Recovered(lay, e), if k <= |blocks| then d else Installed(d, blocks, data))
  {
    hide *;
    var e := CrashedCommit(lay, d, blocks, data, k);
    if k <= |blocks| {
      BeforeCommitPoint(lay, d, blocks, data, k);
      RecoverEmpty(lay, e);
      SameHomeTrans(lay, Recovered(lay, e), e, d);
    } else {
      CommittedSurvives(lay, d, blocks, data, k);
      RecoverInstalls(lay, e);
    }
  }

  lemma CommittedSurvives(lay: Layout, d: seq<Block>, blocks: seq<nat>, data: seq<Block>, k: nat)
    requires CanCommit(lay, d, blocks, data) && blocks != []
    requires |blocks| < k <= |CommitWrites(lay, d, blocks, data)|
    ensures var e := CrashedCommit(lay, d, blocks, data, k);
            ValidHead(lay, e) && SameHome(lay, Recovered(lay, e), Installed(d, blocks, data))
  {
    hide *;
    var p := CrashedCommit(lay, d, blocks, data, |blocks| + 1);
    AtCommitPoint(lay, d, blocks, data);
    AfterCommitPoint(lay, d, blocks, data, k);
    RecoverAfterCommitPoint(lay, p, d, k - |blocks| - 1);
  }

  /** Recovery of a disk `p` that holds a logged transaction, after a crash at write j of installing it. */
  lemma {:induction false} RecoverAfterCommitPoint(lay: Layout, p: seq<Block>, d: seq<Block>, j: nat)
    requires ValidHead(lay, p) && SameHome(lay, p, d) && j <= |RecoveryWrites(lay, p)|
    ensures var e := Apply(p, RecoveryWrites(lay, p)[..j]);
            && ValidHead(lay, e)
            && SameHome(lay, Recovered(lay, e), Installed(d, HeadBlocks(lay, p), LoggedData(lay, p)))
  {
    hide Apply, RecoveryWrites, Recovered, Installed, LoggedData, SameHome;
    CrashedRecovery(lay, p, j);
    RecoverInstalls(lay, p);
    var blocks, data := HeadBlocks(lay, p), LoggedData(lay, p);
    InstalledAgrees(lay, p, d, blocks, data);
    var e := Apply(p, RecoveryWrites(lay, p)[..j]);
    SameHomeTrans(lay, Recovered(lay, e), Recovered(lay, p), Installed(p, blocks, data));
    SameHomeTrans(lay, Recovered(lay, e), Installed(p, blocks, data), Installed(d, blocks, data));
  }

  lemma InstalledAgrees(lay: Layout, d: seq<Block>, e: seq<Block>, blocks: seq<nat>, data: seq<Block>)
    requires SameHome(lay, d, e) && |blocks| == |data|
    requires forall i | 0 <= i < |blocks| :: IsHome(lay, d, blocks[i])
    ensures SameHome(lay, Installed(d, blocks, data), Installed(e, blocks, data))
  {
    forall bn | IsHome(lay, d, bn)
      ensures Installed(d, blocks, data)[bn] == Installed(e, blocks, data)[bn]
    {
      ApplyAgree(d, e, HomeCopies(blocks, data), bn);
    }
  }

  /** A commit that runs to its end has installed its transaction and emptied the log. */
  lemma CompleteCommit(lay: Layout, d: seq<Block>, blocks: seq<nat>, data: seq<Block>)
    requires CanCommit(lay, d, blocks, data)
    ensures var e := CrashedCommit(lay, d, blocks, data, |CommitWrites(lay, d, blocks, data)|);
            LogEmpty(lay, e) && SameHome(lay, e, Installed(d, blocks, data))
  {
    if blocks == [] {
      assert HomeCopies(blocks, data) == [];
    } else {
      CompleteNonEmpty(lay, d, blocks, data);
    }
  }

  lemma CompleteNonEmpty(lay: Layout, d: seq<Block>, blocks: seq<nat>, data: seq<Block>)
    requires CanCommit(lay, d, blocks, data) && blocks != []
    ensures var e := CrashedCommit(lay, d, blocks, data, |CommitWrites(lay, d, blocks, data)|);
            LogEmpty(lay, e) && SameHome(lay, e, Installed(d, blocks, data))
  {
    hide Apply, CrashedCommit, RecoveryWrites, Installed, SameHome, LogEmpty, ValidHead;
    var p := CrashedCommit(lay, d, blocks, data, |blocks| + 1);
    AtCommitPoint(lay, d, blocks, data);
    AfterCommitPoint(lay, d, blocks, data, 2 * |blocks| + 2);
    assert RecoveryWrites(lay, p)[..|blocks| + 1] == RecoveryWrites(lay, p);
    RecoverInstalls(lay, p);
    InstalledAgrees(lay, p, d, blocks, data);
    SameHomeTrans(lay, Recovered(lay, p), Installed(p, blocks, data), Installed(d, blocks, data));
  }

  /** Commit as its four phases. */
  lemma CommitPhases(lay: Layout, d: seq<Block>, blocks: seq<nat>, data: seq<Block>)
    requires CanCommit(lay, d, blocks, data) && blocks != []
    ensures var lc, hc := LogCopies(lay, data), HomeCopies(blocks, data);
            var head := EncodeHead(d[lay.start], blocks);
            var cw := CommitWrites(lay, d, blocks, data);
            && InRange(lc, |d|) && InRange(hc, |d|) && InRange(cw, |d|)
            && var logged := Apply(d, lc)[lay.start := head];
              && Apply(d, lc)[lay.start] == d[lay.start]
              && Apply(logged, hc)[lay.start] == head
              && logged[lay.start + 1 .. lay.start + 1 + |blocks|] == data
              && cw == lc + [Write(lay.start, head)] + hc + [Write(lay.start, EncodeHead(head, []))]
              && Apply(d, cw) == Apply(logged, hc)[lay.start := EncodeHead(head, [])]
  {
    hide Apply, EncodeHead;
    var lc, hc := LogCopies(lay, data), HomeCopies(blocks, data);
    var head := EncodeHead(d[lay.start], blocks);
    var w, clear := Write(lay.start, head), Write(lay.start, EncodeHead(head, []));
    ApplySnoc(d, lc, w);
    ApplyAppend(d, lc + [w], hc);
    ApplySnoc(d, lc + [w] + hc, clear);
    var logged := Apply(d, lc + [w]);
    ApplyUntouched(d, lc, lay.start);
    ApplyUntouched(logged, hc, lay.start);
    forall i | 0 <= i < |blocks| ensures logged[lay.start + 1 + i] == data[i] {
      assert lc[i] == Write(lay.start + 1 + i, data[i]);
      ApplyLast(d, lc, i);
    }
  }

  // Runs: any number of transactions, crashes and recoveries.

  datatype Event =
    | Commit(blocks: seq<nat>, data: seq<Block>)
    | CrashInCommit(blocks: seq<nat>, data: seq<Block>, k: nat)  // power lost after k writes
    | CrashIdle                                                 // power lost between transactions
    | CrashInRecovery(j: nat)                                   // power lost after j writes of recovery
    | Recover                                                   // recovery runs to its end

  /** The machine: its disk and whether it is up (recovered) or was just powered on. */
  datatype Machine = Machine(disk: seq<Block>, up: bool)

  /** One event can happen: transactions need a machine that is up, recovery one that is not. */
  ghost predicate Enabled(lay: Layout, m: Machine, e: Event) {
    match e
    case Commit(blocks, data) => m.up && CanCommit(lay, m.disk, blocks, data)
    case CrashInCommit(blocks, data, k) =>
      m.up && CanCommit(lay, m.disk, blocks, data) && k <= |CommitWrites(lay, m.disk, blocks, data)|
    case CrashIdle => m.up
    case CrashInRecovery(j) => !m.up && ValidHead(lay, m.disk) && j <= |RecoveryWrites(lay, m.disk)|
    case Recover => !m.up && ValidHead(lay, m.disk)
  }

  ghost function Next(lay: Layout, m: Machine, e: Event): (r: Machine)
    requires Enabled(lay, m, e)
  {
    match e
    case Commit(blocks, data) =>
      Machine(CrashedCommit(lay, m.disk, blocks, data, |CommitWrites(lay, m.disk, blocks, data)|), true)
    case CrashInCommit(blocks, data, k) => Machine(CrashedCommit(lay, m.disk, blocks, data, k), false)
    case CrashIdle => m.(up := false)
    case CrashInRecovery(j) => Machine(Apply(m.disk, RecoveryWrites(lay, m.disk)[..j]), false)
    case Recover => Machine(Recovered(lay, m.disk), true)
  }

  /** The same event on a disk whose transactions are atomic and whose crashes lose nothing committed. */
  ghost function AtomicNext(spec: seq<Block>, e: Event): (r: seq<Block>)
    ensures |r| == |spec|
  {
    if (e.Commit? || (e.CrashInCommit? && e.k > |e.blocks|)) && |e.blocks| == |e.data|
       && forall i | 0 <= i < |e.blocks| :: e.blocks[i] < |spec|
    then Installed(spec, e.blocks, e.data)
    else spec
  }

  ghost predicate Step(lay: Layout, m: Machine, e: Event, m': Machine) {
    Enabled(lay, m, e) && m' == Next(lay, m, e)
  }

  /** `es` can happen from `m` and leads to `m'`. */
  ghost predicate IsRun(lay: Layout, m: Machine, es: seq<Event>, m': Machine)
    decreases |es|
  {
    if es == [] then m' == m
    else
      var before, last := es[..|es| - 1], es[|es| - 1];
      exists mid :: IsRun(lay, m, before, mid) && Step(lay, mid, last, m')
  }

  ghost function AtomicRun(spec: seq<Block>, es: seq<Event>): (r: seq<Block>)
    ensures |r| == |spec|
    decreases |es|
  {
    if es == [] then spec else AtomicNext(AtomicRun(spec, es[..|es| - 1]), es[|es| - 1])
  }

  /** The relation between the machine and the atomic disk that every event keeps. */
  ghost predicate Refines(lay: Layout, m: Machine, spec: seq<Block>) {
    && ValidHead(lay, m.disk)
    && SameHome(lay, Recovered(lay, m.disk), spec)
    && (m.up ==> LogEmpty(lay, m.disk) && SameHome(lay, m.disk, spec))
  }

  lemma EventRefines(lay: Layout, m: Machine, spec: seq<Block>, e: Event)
    requires Refines(lay, m, spec) && Enabled(lay, m, e)
    ensures Refines(lay, Next(lay, m, e), AtomicNext(spec, e))
  {
    hide Apply, CommitWrites, RecoveryWrites, Recovered, Installed, CrashedCommit, ValidHead;
    match e
    case Commit(blocks, data) =>
      CompleteCommit(lay, m.disk, blocks, data);
      InstalledAgrees(lay, m.disk, spec, blocks, data);
      RecoverEmpty(lay, Next(lay, m, e).disk);
    case CrashInCommit(blocks, data, k) =>
      CrashAtomicity(lay, m.disk, blocks, data, k);
      InstalledAgrees(lay, m.disk, spec, blocks, data);
    case CrashIdle =>
    case CrashInRecovery(j) => CrashedRecovery(lay, m.disk, j);
    case Recover =>
      RecoverInstalls(lay, m.disk);
      RecoverEmpty(lay, Next(lay, m, e).disk);
  }

  /**
   Every run refines an atomic disk.  From a machine that is up with an empty log, after
   any run of transactions, crashes at any block write, crashed recoveries and recoveries:
   recovery is always possible, it yields exactly the transactions whose header write had
   happened, all of them whole and in order, and a machine that is up already shows them.
   */
  lemma {:induction false} RunsAreAtomic(lay: Layout, m: Machine, es: seq<Event>, m': Machine)
    requires m.up && LogEmpty(lay, m.disk) && IsRun(lay, m, es, m')
    ensures Refines(lay, m', AtomicRun(m.disk, es))
    decreases |es|
  {
    if es == [] {
      RecoverEmpty(lay, m.disk);
    } else {
      var n := |es| - 1;
      var mid :| IsRun(lay, m, es[..n], mid) && Step(lay, mid, es[n], m');
      RunsAreAtomic(lay, m, es[..n], mid);
      EventRefines(lay, mid, AtomicRun(m.disk, es[..n]), es[n]);
    }
  }
}
