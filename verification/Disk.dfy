/**
 The disk as the redo log sees it: a sequence of blocks changed only by
 single-block writes, each of them atomic.  A crash can fall between any two
 writes, so a run of the kernel is described by the sequence of its writes and
 a crash by a prefix of that sequence.
 */
module Disk {

  /** A disk block: BSIZE = 512 bytes, seen as 128 machine words. */
  type Block = b: seq<int> | |b| == 128 witness seq(128, _ => 0)

  datatype Write = Write(blockno: nat, data: Block)

  /** Every write of `ws` names a block of a disk with `size` blocks. */
  ghost predicate InRange(ws: seq<Write>, size: nat) {
    forall i | 0 <= i < |ws| :: ws[i].blockno < size
  }

  /** The disk left by performing the writes of `ws` in order. */
  ghost function Apply(d: seq<Block>, ws: seq<Write>): (r: seq<Block>)
    requires InRange(ws, |d|)
    ensures |r| == |d|
    decreases |ws|
  {
    if ws == [] then d
    else
      var last := ws[|ws| - 1];
      Apply(d, ws[..|ws| - 1])[last.blockno := last.data]
  }

  /** Performing two sequences of writes one after the other. */
  lemma {:induction false} ApplyAppend(d: seq<Block>, u: seq<Write>, v: seq<Write>)
    requires InRange(u, |d|) && InRange(v, |d|)
    ensures InRange(u + v, |d|)
    ensures Apply(d, u + v) == Apply(Apply(d, u), v)
    decreases |v|
  {
    if v == [] {
      assert u + v == u;
    } else {
      assert (u + v)[..|u + v| - 1] == u + v[..|v| - 1];
      ApplyAppend(d, u, v[..|v| - 1]);
    }
  }

  lemma {:induction false} ApplyNone(d: seq<Block>)
    ensures Apply(d, []) == d
  {
  }

  lemma {:induction false} ApplySnoc(d: seq<Block>, ws: seq<Write>, w: Write)
    requires InRange(ws, |d|) && w.blockno < |d|
    ensures InRange(ws + [w], |d|) && Apply(d, ws + [w]) == Apply(d, ws)[w.blockno := w.data]
  {
    assert (ws + [w])[..|ws|] == ws;
  }

  /** The next write of a sequence. */
  lemma {:induction false} ApplyNext(d: seq<Block>, ws: seq<Write>, k: nat)
    requires InRange(ws, |d|) && k < |ws|
    ensures Apply(d, ws[..k + 1]) == Apply(d, ws[..k])[ws[k].blockno := ws[k].data]
  {
    assert ws[..k + 1][..k] == ws[..k];
  }

  /** A block that no write names keeps its content. */
  lemma {:induction false} ApplyUntouched(d: seq<Block>, ws: seq<Write>, bn: nat)
    requires InRange(ws, |d|) && bn < |d|
    requires forall i | 0 <= i < |ws| :: ws[i].blockno != bn
    ensures Apply(d, ws)[bn] == d[bn]
    decreases |ws|
  {
    if ws != [] {
      ApplyUntouched(d, ws[..|ws| - 1], bn);
    }
  }

  /** The last write to a block decides its content. */
  lemma {:induction false} ApplyLast(d: seq<Block>, ws: seq<Write>, k: nat)
    requires InRange(ws, |d|) && k < |ws|
    requires forall i | k < i < |ws| :: ws[i].blockno != ws[k].blockno
    ensures Apply(d, ws)[ws[k].blockno] == ws[k].data
    decreases |ws|
  {
    if k < |ws| - 1 {
      ApplyLast(d, ws[..|ws| - 1], k);
    }
  }

  /** Two disks that agree outside a set of blocks still do so after the same writes. */
  lemma {:induction false} ApplyAgree(d: seq<Block>, e: seq<Block>, ws: seq<Write>, bn: nat)
    requires |d| == |e| && InRange(ws, |d|) && bn < |d|
    requires d[bn] == e[bn] || exists i :: 0 <= i < |ws| && ws[i].blockno == bn
    ensures Apply(d, ws)[bn] == Apply(e, ws)[bn]
    decreases |ws|
  {
    if ws != [] && ws[|ws| - 1].blockno != bn {
      ApplyAgree(d, e, ws[..|ws| - 1], bn);
    }
  }
}
