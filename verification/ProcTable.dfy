/**
 proc.c as it runs: the queues are a two-dimensional array with a fill marker per level,
 searched and shifted by loops.  Every method is proved to perform the corresponding step
 of the Scheduler model, so the run theorems there apply to it.
 */
module ProcTable {
  import opened Common
  import opened Scheduler
  import PC = PriorityChanges

  const MOD: int := 65

  /** priority_q and marker. */
  class RunQueues {
    const q: array2<nat>
    const marker: array<nat>

    constructor ()
      ensures Valid() && fresh(q) && fresh(marker) && Queues() == [[], [], [], [], []]
    {
      q := new nat[PLEVELS, NPROC]((_, _) => 0);
      marker := new nat[PLEVELS](_ => 0);
    }

    ghost predicate Valid()
      reads this, q, marker
    {
      && q.Length0 == PLEVELS && q.Length1 == NPROC && marker.Length == PLEVELS
      && forall l | 0 <= l < PLEVELS :: marker[l] <= NPROC
    }

    /** The processes queued at level l, first one first. */
    ghost function Level(l: nat): (s: seq<nat>)
      requires Valid() && l < PLEVELS
      reads this, q, marker
      ensures |s| == marker[l] && forall i | 0 <= i < |s| :: s[i] == q[l, i]
    {
      seq(marker[l], i requires 0 <= i < marker[l] <= q.Length1 reads q, marker => q[l, i])
    }

    ghost function Queues(): (s: seq<seq<nat>>)
      requires Valid()
      reads this, q, marker
      ensures |s| == PLEVELS && forall l: nat | l < PLEVELS :: s[l] == Level(l)
    {
      [Level(0), Level(1), Level(2), Level(3), Level(4)]
    }

    /** The search loop shared by add and remove. */
    method Search(procs: seq<Proc>, pid: int, pr: nat) returns (i: nat)
      requires Valid() && pr < PLEVELS && forall j | 0 <= j < marker[pr] :: q[pr, j] < |procs|
      ensures i == FindPid(procs, Level(pr), pid)
    {
      i := 0;
      ghost var s := Level(pr);
      while i < marker[pr] && procs[q[pr, i]].pid != pid
        invariant 0 <= i <= marker[pr] && forall j | 0 <= j < i :: procs[s[j]].pid != pid
      {
        i := i + 1;
      }
      FoundFirst(procs, s, pid, i);
    }

    method AddProcessToQueue(procs: seq<Proc>, p: nat, pr: nat) returns (res: int)
      requires Valid() && pr < PLEVELS && p < |procs| && forall j | 0 <= j < marker[pr] :: q[pr, j] < |procs|
      requires marker[pr] < NPROC || FindPid(procs, Level(pr), procs[p].pid) < marker[pr]
      modifies q, marker
      ensures Valid() && Queues() == old(Queues())[pr := Added(procs, old(Level(pr)), p)]
      ensures res == if FindPid(procs, old(Level(pr)), procs[p].pid) < |old(Level(pr))| then -1 else 1
      ensures res == -1 <==> Queues() == old(Queues())
    {
      ghost var before := Queues();
      var i := Search(procs, procs[p].pid, pr);
      if i < marker[pr] {
        assert before[pr := Level(pr)] == before;
        res := -1;
        return;
      }
      q[pr, marker[pr]] := p;
      marker[pr] := marker[pr] + 1;
      assert Level(pr) == before[pr] + [p];
      forall l: nat | l < PLEVELS && l != pr ensures Level(l) == before[l] {
      }
      res := 1;
    }

    /** The shift loop of remove: entries above i move down by one. */
    method ShiftDown(pr: nat, i: nat)
      requires Valid() && pr < PLEVELS && i < marker[pr]
      modifies q
      ensures Valid()
      ensures forall l, k | 0 <= l < PLEVELS && 0 <= k < NPROC && l != pr :: q[l, k] == old(q[l, k])
      ensures forall k | 0 <= k < i :: q[pr, k] == old(q[pr, k])
      ensures forall k | i <= k < marker[pr] - 1 :: q[pr, k] == old(q[pr, k + 1])
    {
      var j := i;
      while j < marker[pr] - 1
        invariant i <= j <= marker[pr] - 1
        invariant forall l, k | 0 <= l < PLEVELS && 0 <= k < NPROC && (l != pr || k < i || k >= j) ::
                  q[l, k] == old(q[l, k])
        invariant forall k | i <= k < j :: q[pr, k] == old(q[pr, k + 1])
      {
        q[pr, j] := q[pr, j + 1];
        j := j + 1;
      }
    }

    method RemoveProcessFromQueue(procs: seq<Proc>, pid: int, pr: nat) returns (found: int)
      requires Valid() && pr < PLEVELS && forall j | 0 <= j < marker[pr] :: q[pr, j] < |procs|
      modifies q, marker
      ensures Valid() && Queues() == old(Queues())[pr := Removed(procs, old(Level(pr)), pid)]
      ensures found == if FindPid(procs, old(Level(pr)), pid) < |old(Level(pr))| then 1 else -1
    {
      ghost var before := Queues();
      var i := Search(procs, pid, pr);
      if i == marker[pr] {
        assert before[pr := Level(pr)] == before;
        return -1;
      }
      ShiftDown(pr, i);
      marker[pr] := marker[pr] - 1;
      ghost var s := before[pr];
      forall k | 0 <= k < marker[pr] ensures Level(pr)[k] == (s[..i] + s[i + 1..])[k] {
      }
      assert Level(pr) == s[..i] + s[i + 1..];
      forall l: nat | l < PLEVELS && l != pr ensures Level(l) == before[l] {
      }
      return 1;
    }
  }

  /** ptable, the run queues and what the CPUs are doing. */
  class PTable {
    const rq: RunQueues
    var procs: seq<Proc>
    var nextpid: int
    var initproc: int
    var cpus: seq<Cpu>

    constructor (ncpu: nat)
      ensures rq.Valid() && fresh(rq) && fresh(rq.q) && fresh(rq.marker)
      ensures Inv(Model()) && CpusMatch(Model()) && |cpus| == ncpu
    {
      rq := new RunQueues();
      procs, nextpid, initproc := seq(NPROC, _ => Proc(UNUSED, 0, 0, -1, 0)), 1, 0;
      cpus := seq(ncpu, _ => Cpu(-1, -1));
      new;
      BootKeepsInv(ncpu);
    }

    ghost function Model(): (t: Table)
      requires rq.Valid()
      reads this, rq, rq.q, rq.marker
      ensures t.queues == rq.Queues() && |t.queues| == PLEVELS
    {
      Table(procs, rq.Queues(), nextpid, initproc, cpus)
    }

    lemma Queued(l: nat)
      requires rq.Valid() && Shape(Model()) && l < PLEVELS
      ensures |procs| == NPROC && forall j | 0 <= j < rq.marker[l] :: rq.q[l, j] < |procs|
    {
      forall j | 0 <= j < rq.marker[l] ensures rq.q[l, j] < |procs| {
        assert rq.q[l, j] == Model().queues[l][j];
      }
    }

    /** p->state = RUNNABLE and the add that follows it everywhere; the failure branches are dead. */
    method MakeReady(p: nat)
      requires rq.Valid() && Inv(Model()) && p < NPROC
      requires procs[p].state != RUNNABLE && procs[p].state != UNUSED
      modifies this`procs, rq.q, rq.marker
      ensures rq.Valid() && Model() == Ready(old(Model()), p)
    {
      hide Inv, Shape, GoodPriorities;
      InvBasics(Model());
      ReadyAppends(Model(), p);
      var pr := PriorityOf(p);
      Queued(pr - 1);
      procs := procs[p := procs[p].(state := RUNNABLE)];
      ghost var t := Model();
      ReadyFinds(old(Model()), p);
      var res := rq.AddProcessToQueue(procs, p, pr - 1);
      assert res == 1;  // "Unable to create process" is not reached
    }

    method PriorityOf(p: nat) returns (pr: nat)
      requires rq.Valid() && Inv(Model()) && p < |procs| && procs[p].state != UNUSED
      ensures pr == procs[p].priority && 1 <= pr <= PLEVELS
    {
      pr := procs[p].priority;
    }

    /** wakeup1: every sleeper on the channel, in table order. */
    method Wakeup1(chan: int)
      requires rq.Valid() && Inv(Model())
      modifies this`procs, rq.q, rq.marker
      ensures rq.Valid() && Inv(Model()) && Model() == WakeFrom(old(Model()), chan, 0)
    {
      hide Inv, Ready, GoodPriorities;
      InvBasics(Model());
      ghost var t := Model();
      var i := 0;
      while i < NPROC
        invariant i <= NPROC && rq.Valid() && Inv(Model())
        invariant Shape(Model()) && GoodPriorities(Model())
        invariant WakeFrom(Model(), chan, i) == WakeFrom(t, chan, 0)
      {
        if procs[i].state == SLEEPING && procs[i].chan == chan {
          ReadyKeepsInv(Model(), i);
          MakeReady(i);
          InvBasics(Model());
        }
        i := i + 1;
      }
    }

    /** One pass of the loop of scheduler() on an idle CPU, up to the switch. */
    method SchedulerPass(c: nat)
      requires rq.Valid() && Inv(Model()) && c < |cpus|
      modifies this`procs, this`cpus, rq.q, rq.marker
      ensures rq.Valid() && Inv(Model()) && Model() == Dispatch(old(Model()), c)
    {
      hide Inv, FindPid, FirstLevel;
      InvBasics(Model());
      DispatchKeepsInv(Model(), c);
      ghost var t := Model();
      var i := FirstNonEmpty();
      var p := cpus[c].last;
      if i < PLEVELS {
        Queued(i);
        p := rq.q[i, 0];
        assert p == t.queues[i][0];
        var _ := rq.RemoveProcessFromQueue(procs, procs[p].pid, i);
      }
      if p >= 0 && procs[p].state == RUNNABLE {
        cpus := cpus[c := Cpu(p, p)];
        procs := procs[p := procs[p].(state := RUNNING)];
      } else {
        cpus := cpus[c := cpus[c].(last := p)];
      }
      assert Model() == Dispatch(t, c);
    }

    /** The scan for the lowest level whose marker is not zero. */
    method FirstNonEmpty() returns (i: nat)
      requires rq.Valid()
      ensures i == FirstLevel(rq.Queues(), 0) && (i < PLEVELS ==> rq.marker[i] > 0)
    {
      ghost var qs := rq.Queues();
      i := 0;
      while i < PLEVELS && rq.marker[i] == 0
        invariant i <= PLEVELS && FirstLevel(qs, 0) == FirstLevel(qs, i)
      {
        assert qs[i] == [];
        i := i + 1;
      }
      assert i < PLEVELS ==> qs[i] != [];
    }

    // The operations of processes and the parent.

    method AllocProc() returns (p: int)
      requires rq.Valid() && Shape(Model())
      modifies this`procs, this`nextpid
      ensures Model() == AllocOf(old(Model()))
      ensures p == if FirstUnused(old(procs), 0) == NPROC then -1 else FirstUnused(old(procs), 0)
    {
      p := 0;
      while p < NPROC && procs[p].state != UNUSED
        invariant 0 <= p <= NPROC && FirstUnused(procs, 0) == FirstUnused(procs, p)
      {
        p := p + 1;
      }
      if p == NPROC {
        return -1;
      }
      procs := procs[p := procs[p].(state := EMBRYO, pid := nextpid, priority := 3)];
      nextpid := nextpid + 1;
    }

    method Yield(c: nat)
      requires rq.Valid() && Inv(Model()) && Running(Model(), c)
      modifies this`procs, this`cpus, rq.q, rq.marker
      ensures rq.Valid() && Model() == Step(old(Model()), Scheduler.Yield(c))
    {
      hide Inv, Ready;
      InvBasics(Model());
      MakeReady(cpus[c].running);
      cpus := cpus[c := cpus[c].(running := -1)];
    }

    method Exit(c: nat)
      requires rq.Valid() && Inv(Model()) && Running(Model(), c)
      modifies this`procs, this`cpus, rq.q, rq.marker
      ensures rq.Valid() && Model() == ExitOf(old(Model()), c)
    {
      hide Inv, GoodPriorities, WakeFrom;
      InvBasics(Model());
      ghost var t := Model();
      var p := cpus[c].running;
      Wakeup1(procs[p].parent);
      PassToInit(p);
      InvBasics(Model());
      procs := procs[p := procs[p].(state := ZOMBIE)];
      cpus := cpus[c := cpus[c].(running := -1)];
    }

    /** exit() hands abandoned children to init. */
    method PassToInit(me: nat)
      requires rq.Valid() && Inv(Model())
      modifies this`procs, rq.q, rq.marker
      ensures rq.Valid() && Inv(Model()) && Model() == Abandon(old(Model()), me, 0)
    {
      hide Inv, GoodPriorities, WakeFrom;
      InvBasics(Model());
      ghost var t := Model();
      var i := 0;
      while i < NPROC
        invariant i <= NPROC && rq.Valid() && Inv(Model()) && Shape(Model()) && GoodPriorities(Model())
        invariant Model().initproc == t.initproc && Abandon(Model(), me, i) == Abandon(t, me, 0)
      {
        if procs[i].parent == me {
          ReparentKeepsInv(Model(), i, initproc);
          procs := procs[i := procs[i].(parent := initproc)];
          InvBasics(Model());
          if procs[i].state == ZOMBIE {
            Wakeup1(initproc);
            InvBasics(Model());
          }
        }
        i := i + 1;
      }
    }

    /** The part of wait() that frees the zombie p; its search of the queue never finds anything. */
    method Reap(p: nat)
      requires rq.Valid() && Inv(Model()) && p < NPROC && procs[p].state == ZOMBIE
      modifies this`procs, rq.q, rq.marker
      ensures rq.Valid() && Model() == ReapOf(old(Model()), p) && rq.Queues() == old(rq.Queues())
    {
      hide Inv, FindPid;
      InvBasics(Model());
      ReapKeepsInv(Model(), p);
      var pr := PriorityOf(p);
      Queued(pr - 1);
      procs := procs[p := procs[p].(state := UNUSED, pid := 0, parent := -1)];
      var _ := rq.RemoveProcessFromQueue(procs, procs[p].pid, pr - 1);
    }

    // kill() and nice().

    /** The table scan of kill() and nice(). */
    method FindProc(pid: int) returns (p: nat)
      requires |procs| == NPROC
      ensures p == PC.FirstPid(procs, pid, 0)
    {
      p := 0;
      while p < NPROC && procs[p].pid != pid
        invariant p <= NPROC && PC.FirstPid(procs, pid, 0) == PC.FirstPid(procs, pid, p)
      {
        p := p + 1;
      }
    }

    /** add_process_to_queue on a queue without repeats, which has room. */
    method AddTo(p: nat, l: nat) returns (res: int)
      requires rq.Valid() && Shape(Model()) && p < NPROC && l < PLEVELS && NoRepeats(Model().queues[l])
      modifies rq.q, rq.marker
      ensures rq.Valid() && (res == -1 <==> rq.Queues() == old(rq.Queues()))
      ensures Model() == old(Model()).(queues := old(Model()).queues[l := Added(procs, old(Model()).queues[l], p)])
    {
      hide FindPid, Added;
      Queued(l);
      RoomOrFound(Model(), procs, p, l);
      res := rq.AddProcessToQueue(procs, p, l);
    }

    method TakeFrom(pid: int, l: nat)
      requires rq.Valid() && Shape(Model()) && l < PLEVELS
      modifies rq.q, rq.marker
      ensures rq.Valid()
      ensures Model() == old(Model()).(queues := old(Model()).queues[l := Removed(procs, old(Model()).queues[l], pid)])
    {
      hide FindPid, Removed;
      Queued(l);
      var _ := rq.RemoveProcessFromQueue(procs, pid, l);
    }

    /**
     kill.  `exits`: the caller itself is made to exit, because the target was already queued.  `wild`: the
     target's priority is no index into the queues, and the code would use memory outside them.
     */
    method Kill(pid: int) returns (r: int, exits: bool, wild: bool)
      requires rq.Valid() && PC.Weak(Model()) && Shape(Model())
      modifies this`procs, rq.q, rq.marker
      ensures rq.Valid() && (wild <==> PC.Kill(old(Model()), pid).Wild?)
      ensures !wild ==> Model() == PC.Kill(old(Model()), pid).t
      ensures !wild ==> r == if PC.Found(old(Model()), pid) then 0 else -1
      ensures !wild ==> (exits <==> PC.Found(old(Model()), pid) && rq.Queues() == old(rq.Queues()))
    {
      hide PC.WeakExcept, FindPid, PC.FirstPid, Added, PC.Kill;
      PC.WeakBasics(Model(), {});
      PC.KillCases(Model(), pid);
      var p := FindProc(pid);
      if p == NPROC {
        return -1, false, false;
      }
      var pr := procs[p].priority;
      if pr < 1 || pr > PLEVELS {
        return 0, false, true;
      }
      if procs[p].state == SLEEPING {
        procs := procs[p := procs[p].(state := RUNNABLE)];
      }
      PC.KillQueues(old(Model()), pid, procs);
      var res := AddTo(p, pr - 1);
      return 0, res == -1, false;
    }

    /**
     nice, if nothing else interleaves with it after it released the lock.  `exits`: the caller is made to exit,
     for a bad priority or an unknown pid.  `wild` as for kill.
     */
    method Nice(pid: int, v: int) returns (r: int, exits: bool, wild: bool)
      requires rq.Valid() && PC.Weak(Model()) && Shape(Model())
      modifies this`procs, rq.q, rq.marker
      ensures rq.Valid() && (exits <==> v < 1 || v > PLEVELS || !PC.Found(old(Model()), pid))
      ensures exits ==> Model() == old(Model()) && !wild
      ensures !exits ==> (wild <==> PC.Nice(old(Model()), pid, v).Wild?)
      ensures !exits && !wild ==> Model() == PC.Nice(old(Model()), pid, v).t
      ensures !exits && !wild ==> r == pid * MOD + old(procs)[PC.FirstPid(old(procs), pid, 0)].priority
    {
      if v < 1 || v > PLEVELS {
        return 0, true, false;
      }
      hide PC.WeakExcept, FindPid, PC.FirstPid, Added, Removed;
      PC.WeakBasics(Model(), {});
      var p := FindProc(pid);
      if p == NPROC {
        return 0, true, false;
      }
      var oldPriority := procs[p].priority;
      if oldPriority < 0 || oldPriority >= PLEVELS || v >= PLEVELS {
        return 0, false, true;
      }
      PC.RetagKeepsWeak(Model(), p, v, {});
      procs := procs[p := procs[p].(priority := v)];
      ghost var t0 := Model();
      TakeFrom(procs[p].pid, oldPriority);
      PC.RemovedShape(t0, oldPriority, pid, Model());
      var res := AddTo(p, v);
      return pid * MOD + oldPriority, false, false;
    }
  }

  /** A queue without repeats has room for p unless it already lists it. */
  lemma {:induction false} RoomOrFound(t: Table, procs: seq<Proc>, p: nat, l: nat)
    requires Shape(t) && |procs| == NPROC && p < NPROC && l < PLEVELS && NoRepeats(t.queues[l])
    ensures |t.queues[l]| < NPROC || FindPid(procs, t.queues[l], procs[p].pid) < |t.queues[l]|
  {
    var q := t.queues[l];
    if p !in q {
      RoomFor(q, p);
    }
  }

  lemma ReadyFinds(t: Table, p: nat)
    requires Inv(t) && p < NPROC && t.procs[p].state != RUNNABLE && t.procs[p].state != UNUSED
    ensures var l := t.procs[p].priority - 1; var procs := t.procs[p := t.procs[p].(state := RUNNABLE)];
            FindPid(procs, t.queues[l], procs[p].pid) == |t.queues[l]|
  {
    ReadyAppends(t, p);
    FindsItself(t.procs[p := t.procs[p].(state := RUNNABLE)], t.queues[t.procs[p].priority - 1], p);
  }

  lemma {:induction false} FoundFirst(procs: seq<Proc>, s: seq<nat>, pid: int, i: nat)
    requires forall j | 0 <= j < |s| :: s[j] < |procs|
    requires i <= |s| && (forall j | 0 <= j < i :: procs[s[j]].pid != pid) && (i < |s| ==> procs[s[i]].pid == pid)
    ensures i == FindPid(procs, s, pid)
  {
  }
}
