/**
 The priority scheduler (proc.c, the branch compiled without CUSTOM_SCHEDULER) as atomic
 steps under ptable.lock, for any number of CPUs and any run length.

 A process is the index of its slot in the process table.  Queues are searched by pid, as
 the code does; that this never confuses two processes is part of what is proved.
 */
module Scheduler {
  import opened Common

  const NPROC: nat := 64
  const PLEVELS: nat := 5

  datatype ProcState = UNUSED | EMBRYO | SLEEPING | RUNNABLE | RUNNING | ZOMBIE

  /** struct proc; `parent` is a slot or -1, `chan` a wait channel (slot i stands for its own address). */
  datatype Proc = Proc(state: ProcState, pid: int, priority: int, parent: int, chan: int)

  /** A CPU: the process it runs, and the local variable p of scheduler(), both -1 for none. */
  datatype Cpu = Cpu(running: int, last: int)

  datatype Table = Table(procs: seq<Proc>, queues: seq<seq<nat>>, nextpid: int, initproc: int, cpus: seq<Cpu>)

  ghost predicate Shape(t: Table) {
    && |t.procs| == NPROC && |t.queues| == PLEVELS
    && (forall l, i | 0 <= l < PLEVELS && 0 <= i < |t.queues[l]| :: t.queues[l][i] < NPROC)
    && (forall c | 0 <= c < |t.cpus| :: t.cpus[c].running < NPROC && t.cpus[c].last < NPROC)
  }

  // The queue operations.

  /** The first position of a queue whose process has the given pid, or its length. */
  function FindPid(procs: seq<Proc>, q: seq<nat>, pid: int): (i: nat)
    requires forall j | 0 <= j < |q| :: q[j] < |procs|
    ensures i <= |q| && (i < |q| ==> procs[q[i]].pid == pid) && forall j | 0 <= j < i :: procs[q[j]].pid != pid
  {
    if q == [] then 0
    else if procs[q[0]].pid == pid then 0
    else 1 + FindPid(procs, q[1..], pid)
  }

  function Added(procs: seq<Proc>, q: seq<nat>, p: nat): (r: seq<nat>)
    requires p < |procs| && forall j | 0 <= j < |q| :: q[j] < |procs|
  {
    if FindPid(procs, q, procs[p].pid) < |q| then q else q + [p]
  }

  function Removed(procs: seq<Proc>, q: seq<nat>, pid: int): (r: seq<nat>)
    requires forall j | 0 <= j < |q| :: q[j] < |procs|
  {
    var i := FindPid(procs, q, pid);
    if i < |q| then q[..i] + q[i + 1..] else q
  }

  /** add_process_to_queue(p, level), as the callers use it. */
  ghost function Enqueue(t: Table, p: nat, level: int): (r: Table)
    requires Shape(t) && p < NPROC && 0 <= level < PLEVELS
    ensures Shape(r)
  {
    t.(queues := t.queues[level := Added(t.procs, t.queues[level], p)])
  }

  /** Whoever is in use, and whoever has a pid, has a priority: a slot given back keeps both. */
  ghost predicate GoodPriorities(t: Table) {
    forall p | 0 <= p < |t.procs| && (t.procs[p].state != UNUSED || t.procs[p].pid != 0) ::
      1 <= t.procs[p].priority <= PLEVELS
  }

  /** Make p RUNNABLE and put it on the queue of its priority. */
  ghost function Ready(t: Table, p: nat): (r: Table)
    requires Shape(t) && p < NPROC && 1 <= t.procs[p].priority <= PLEVELS
    ensures Shape(r) && (GoodPriorities(t) ==> GoodPriorities(r))
    ensures r.procs == t.procs[p := t.procs[p].(state := RUNNABLE)]
    ensures r.cpus == t.cpus && r.nextpid == t.nextpid && r.initproc == t.initproc
  {
    var t' := t.(procs := t.procs[p := t.procs[p].(state := RUNNABLE)]);
    Enqueue(t', p, t.procs[p].priority - 1)
  }

  predicate SleepsOn(p: Proc, chan: int) {
    p.state == SLEEPING && p.chan == chan
  }

  /** wakeup1(chan), from slot i on. */
  ghost function WakeFrom(t: Table, chan: int, i: nat): (r: Table)
    requires Shape(t) && GoodPriorities(t) && i <= NPROC
    ensures Shape(r) && GoodPriorities(r)
    ensures r.cpus == t.cpus && r.nextpid == t.nextpid && r.initproc == t.initproc
    ensures forall p | 0 <= p < NPROC :: r.procs[p] ==
              if p >= i && SleepsOn(t.procs[p], chan) then t.procs[p].(state := RUNNABLE) else t.procs[p]
    decreases NPROC - i
  {
    if i == NPROC then t
    else if SleepsOn(t.procs[i], chan) then WakeFrom(Ready(t, i), chan, i + 1)
    else WakeFrom(t, chan, i + 1)
  }

  /** The lowest level with a process in it, or PLEVELS. */
  function FirstLevel(queues: seq<seq<nat>>, l: nat): (r: nat)
    requires |queues| == PLEVELS && l <= PLEVELS
    ensures l <= r <= PLEVELS && (r < PLEVELS ==> queues[r] != []) && forall k | l <= k < r :: queues[k] == []
    decreases PLEVELS - l
  {
    if l == PLEVELS || queues[l] != [] then l else FirstLevel(queues, l + 1)
  }

  // The invariant.

  /** No two slots share a pid, except for pid 0, which says that a slot is free. */
  ghost predicate PidsUnique(procs: seq<Proc>) {
    forall p, q | 0 <= p < q < |procs| && procs[p].pid == procs[q].pid :: procs[p].pid == 0
  }

  /** Slot p is queued at level l exactly when it is RUNNABLE with that priority. */
  ghost predicate QueuedRight(t: Table, l: nat, p: nat)
    requires |t.queues| == PLEVELS && l < PLEVELS && p < |t.procs|
  {
    p in t.queues[l] <==> t.procs[p].state == RUNNABLE && t.procs[p].priority == l + 1
  }

  ghost predicate Inv(t: Table) {
    && Shape(t) && GoodPriorities(t)
    && (forall l | 0 <= l < PLEVELS :: NoRepeats(t.queues[l]))
    && (forall l: nat, p: nat | l < PLEVELS && p < NPROC :: QueuedRight(t, l, p))
    && (forall p | 0 <= p < NPROC :: 0 <= t.procs[p].pid < t.nextpid)
    && (forall p | 0 <= p < NPROC && t.procs[p].state != UNUSED :: t.procs[p].pid != 0)
    && PidsUnique(t.procs)
    && t.nextpid > 0
  }

  /** Which process each CPU runs: RUNNING processes and busy CPUs correspond one to one. */
  ghost predicate CpusMatch(t: Table) {
    && Shape(t)
    && (forall c | 0 <= c < |t.cpus| && t.cpus[c].running >= 0 :: t.procs[t.cpus[c].running].state == RUNNING)
    && (forall c, d | 0 <= c < d < |t.cpus| && t.cpus[c].running >= 0 :: t.cpus[c].running != t.cpus[d].running)
    && (forall p | 0 <= p < NPROC && t.procs[p].state == RUNNING ::
          exists c :: 0 <= c < |t.cpus| && t.cpus[c].running == p)
  }

  // Searching by pid finds the process itself.

  lemma {:induction false} FindsItself(procs: seq<Proc>, q: seq<nat>, p: nat)
    requires p < |procs| && procs[p].pid != 0 && PidsUnique(procs) && forall i | 0 <= i < |q| :: q[i] < |procs|
    ensures var i := FindPid(procs, q, procs[p].pid);
            (i < |q| <==> p in q) && (i < |q| ==> q[i] == p)
  {
    var i := FindPid(procs, q, procs[p].pid);
    if i < |q| {
      assert procs[q[i]].pid == procs[p].pid;
    }
  }

  /** A queue that lists distinct slots without p has room for one more: markers stay within NPROC. */
  lemma {:induction false} RoomFor(q: seq<nat>, p: nat)
    requires NoRepeats(q) && p !in q && p < NPROC && forall i | 0 <= i < |q| :: q[i] < NPROC
    ensures |q| < NPROC
  {
    DistinctFit(q + [p], NPROC);
  }

  lemma {:induction false} DistinctFit(q: seq<nat>, n: nat)
    requires NoRepeats(q) && forall i | 0 <= i < |q| :: q[i] < n
    ensures |q| <= n
    decreases n
  {
    if q != [] {
      assert q[0] < n;
      if n - 1 in q {
        var k :| 0 <= k < |q| && q[k] == n - 1;
        var r := q[..k] + q[k + 1..];
        assert forall i | 0 <= i < |r| :: r[i] == q[if i < k then i else i + 1];
        DistinctFit(r, n - 1);
      } else {
        DistinctFit(q, n - 1);
      }
    }
  }

  // What every operation keeps.

  /** A slot that is not RUNNABLE before or after can change state freely. */
  lemma ChangeKeepsInv(t: Table, p: nat, s: ProcState, chan: int, parent: int)
    requires Inv(t) && p < NPROC && t.procs[p].state != RUNNABLE && s != RUNNABLE
    requires s == UNUSED || t.procs[p].state != UNUSED
    ensures Inv(t.(procs := t.procs[p := t.procs[p].(state := s, chan := chan, parent := parent)]))
  {
    var t' := t.(procs := t.procs[p := t.procs[p].(state := s, chan := chan, parent := parent)]);
    forall l: nat, x: nat | l < PLEVELS && x < NPROC ensures QueuedRight(t', l, x) {
      assert QueuedRight(t, l, x);
    }
  }

  lemma ReparentKeepsInv(t: Table, p: nat, parent: int)
    requires Inv(t) && p < NPROC
    ensures Inv(t.(procs := t.procs[p := t.procs[p].(parent := parent)]))
  {
    var t' := t.(procs := t.procs[p := t.procs[p].(parent := parent)]);
    forall l: nat, x: nat | l < PLEVELS && x < NPROC ensures QueuedRight(t', l, x) {
      assert QueuedRight(t, l, x);
    }
  }

  /** Everything in a queue is RUNNABLE. */
  lemma QueuedIsRunnable(t: Table, l: nat)
    requires Inv(t) && l < PLEVELS
    ensures forall i | 0 <= i < |t.queues[l]| ::
              t.procs[t.queues[l][i]].state == RUNNABLE && t.procs[t.queues[l][i]].priority == l + 1
  {
    forall i | 0 <= i < |t.queues[l]|
      ensures t.procs[t.queues[l][i]].state == RUNNABLE && t.procs[t.queues[l][i]].priority == l + 1
    {
      assert QueuedRight(t, l, t.queues[l][i]);
    }
  }

  /** Adding a process to its queue never fails, and the queue has room. */
  lemma ReadyAppends(t: Table, p: nat)
    requires Inv(t) && p < NPROC && t.procs[p].state != RUNNABLE && t.procs[p].state != UNUSED
    ensures var l := t.procs[p].priority - 1;
            p !in t.queues[l] && |t.queues[l]| < NPROC && Ready(t, p).queues == t.queues[l := t.queues[l] + [p]]
  {
    var l := t.procs[p].priority - 1;
    var t1 := t.(procs := t.procs[p := t.procs[p].(state := RUNNABLE)]);
    assert QueuedRight(t, l, p);
    QueuedIsRunnable(t, l);
    FindsItself(t1.procs, t.queues[l], p);
    RoomFor(t.queues[l], p);
  }

  /**
   Making a process RUNNABLE keeps the invariant; the add never fails, the queue has room,
   and the process lands at the end of the queue of its priority.
   */
  lemma ReadyKeepsInv(t: Table, p: nat)
    requires Inv(t) && p < NPROC && t.procs[p].state != RUNNABLE && t.procs[p].state != UNUSED
    ensures Inv(Ready(t, p))
  {
    hide Ready, Added, FindPid, Enqueue;
    var l := t.procs[p].priority - 1;
    var t' := Ready(t, p);
    ReadyAppends(t, p);
    forall k: nat, x: nat | k < PLEVELS && x < NPROC ensures QueuedRight(t', k, x) {
      assert QueuedRight(t, k, x);
    }
  }

  lemma InvBasics(t: Table)
    requires Inv(t)
    ensures Shape(t) && GoodPriorities(t)
  {
  }

  lemma {:induction false} WakeKeepsInv(t: Table, chan: int, i: nat)
    requires Inv(t) && i <= NPROC
    ensures Inv(WakeFrom(t, chan, i))
    decreases NPROC - i
  {
    hide Inv, Ready, Shape, GoodPriorities;
    InvBasics(t);
    if i < NPROC {
      assert |t.procs| == NPROC by { TableSize(t); }
      if SleepsOn(t.procs[i], chan) {
        ReadyKeepsInv(t, i);
        WakeKeepsInv(Ready(t, i), chan, i + 1);
      } else {
        WakeKeepsInv(t, chan, i + 1);
      }
    }
  }

  lemma TableSize(t: Table)
    requires Shape(t)
    ensures |t.procs| == NPROC
  {
  }

  // scheduler().

  /** The scan of the levels: the table without the chosen process, and the new value of p. */
  ghost function Pick(t: Table, last: int): (r: (Table, int))
    requires Shape(t)
  {
    var l := FirstLevel(t.queues, 0);
    if l < PLEVELS then
      var p := t.queues[l][0];
      (t.(queues := t.queues[l := Removed(t.procs, t.queues[l], t.procs[p].pid)]), p)
    else (t, last)
  }

  /** One pass of the scheduler loop on CPU c, up to the switch. */
  ghost function Dispatch(t: Table, c: nat): (r: Table)
    requires Shape(t) && c < |t.cpus|
  {
    var (t', p) := Pick(t, t.cpus[c].last);
    if p >= 0 && t'.procs[p].state == RUNNABLE then
      t'.(procs := t'.procs[p := t'.procs[p].(state := RUNNING)], cpus := t'.cpus[c := Cpu(p, p)])
    else t'.(cpus := t'.cpus[c := t'.cpus[c].(last := p)])
  }

  /**
   What one pass of the scheduler does: with nothing RUNNABLE it changes nothing, stale p or
   not; otherwise it runs the head of the lowest nonempty level, which has the smallest
   priority number of all RUNNABLE processes.
   */
  lemma DispatchIsRight(t: Table, c: nat)
    requires Inv(t) && c < |t.cpus|
    ensures var l := FirstLevel(t.queues, 0);
      if l == PLEVELS then
        && Dispatch(t, c) == t
        && forall p | 0 <= p < NPROC :: t.procs[p].state != RUNNABLE
      else
        var p := t.queues[l][0];
        && Dispatch(t, c) == t.(procs := t.procs[p := t.procs[p].(state := RUNNING)],
                                queues := t.queues[l := t.queues[l][1..]], cpus := t.cpus[c := Cpu(p, p)])
        && t.procs[p].state == RUNNABLE && t.procs[p].priority == l + 1
        && forall q | 0 <= q < NPROC && t.procs[q].state == RUNNABLE :: t.procs[p].priority <= t.procs[q].priority
  {
    var l := FirstLevel(t.queues, 0);
    forall q | 0 <= q < NPROC && t.procs[q].state == RUNNABLE ensures l < t.procs[q].priority {
      assert QueuedRight(t, t.procs[q].priority - 1, q);
    }
    if l < PLEVELS {
      QueuedIsRunnable(t, l);
      var q := t.queues[l];
      assert q[..0] + q[1..] == q[1..];
    } else {
      assert t.cpus[c := t.cpus[c]] == t.cpus;
    }
  }

  lemma DispatchKeepsInv(t: Table, c: nat)
    requires Inv(t) && c < |t.cpus|
    ensures Inv(Dispatch(t, c))
  {
    hide Dispatch, FirstLevel, FindPid;
    DispatchIsRight(t, c);
    var l := FirstLevel(t.queues, 0);
    if l < PLEVELS {
      var p := t.queues[l][0];
      var t' := Dispatch(t, c);
      forall k: nat, x: nat | k < PLEVELS && x < NPROC ensures QueuedRight(t', k, x) {
        assert QueuedRight(t, k, x) && QueuedRight(t, l, x);
        assert x in t.queues[l][1..] <==> x in t.queues[l] && x != p by {
          assert t.queues[l] == [p] + t.queues[l][1..];
        }
      }
    }
  }

  // The other events.

  datatype Event =
    | Alloc                         // allocproc: the first UNUSED slot becomes an EMBRYO
    | AllocAbort(p: nat)            // fork or allocproc gives the slot back
    | Start(p: nat, parent: int)    // the end of fork and of userinit
    | Yield(c: nat)
    | Sleep(c: nat, chan: int)
    | Wakeup(chan: int)
    | Exit(c: nat)
    | Reap(c: nat, p: nat)          // wait() finds the zombie p
    | Schedule(c: nat)              // one pass of scheduler() on an idle CPU

  function FirstUnused(procs: seq<Proc>, i: nat): (r: nat)
    requires i <= |procs|
    ensures i <= r <= |procs| && (r < |procs| ==> procs[r].state == UNUSED)
    ensures forall j | i <= j < r :: procs[j].state != UNUSED
    decreases |procs| - i
  {
    if i == |procs| || procs[i].state == UNUSED then i else FirstUnused(procs, i + 1)
  }

  /** CPU c is running a process. */
  ghost predicate Running(t: Table, c: nat)
    requires Shape(t)
  {
    c < |t.cpus| && 0 <= t.cpus[c].running && t.procs[t.cpus[c].running].state == RUNNING
  }

  ghost predicate ZombieChild(t: Table, x: int) {
    exists y :: 0 <= y < |t.procs| && t.procs[y].parent == x && t.procs[y].state == ZOMBIE
  }

  /**
   A process sleeps on a slot only in wait(), on its own, and after it found no zombie among its children.
   fork() makes the process that runs the parent, userinit() gives init none.
   */
  ghost predicate Enabled(t: Table, e: Event)
    requires Shape(t)
  {
    match e
    case Alloc => true
    case AllocAbort(p) => p < NPROC && t.procs[p].state == EMBRYO
    case Start(p, parent) =>
      p < NPROC && t.procs[p].state == EMBRYO && parent != p && (p == t.initproc ==> parent < 0)
    case Yield(c) => Running(t, c)
    case Sleep(c, chan) => Running(t, c) && (0 <= chan < NPROC ==> chan == t.cpus[c].running && !ZombieChild(t, chan))
    case Wakeup(chan) => true
    case Exit(c) => Running(t, c) && t.cpus[c].running != t.initproc
    case Reap(c, p) =>
      Running(t, c) && p < NPROC && t.procs[p].state == ZOMBIE && t.procs[p].parent == t.cpus[c].running
    case Schedule(c) => c < |t.cpus| && t.cpus[c].running < 0
  }

  ghost function Idle(t: Table, c: nat): (r: Table)
    requires c < |t.cpus|
  {
    t.(cpus := t.cpus[c := t.cpus[c].(running := -1)])
  }

  /** exit() hands the children of `me` to init, waking init for each zombie, from slot i on. */
  ghost function Abandon(t: Table, me: nat, i: nat): (r: Table)
    requires Shape(t) && GoodPriorities(t) && i <= NPROC
    ensures Shape(r) && GoodPriorities(r) && r.cpus == t.cpus && r.initproc == t.initproc
    ensures forall p | 0 <= p < NPROC && t.procs[p].state !in {SLEEPING, RUNNABLE} ::
            r.procs[p].state == t.procs[p].state
    ensures forall p | 0 <= p < NPROC && t.procs[p].state in {SLEEPING, RUNNABLE} ::
            r.procs[p].state in {SLEEPING, RUNNABLE}
    decreases NPROC - i
  {
    if i == NPROC then t
    else if t.procs[i].parent == me then
      var t1 := t.(procs := t.procs[i := t.procs[i].(parent := t.initproc)]);
      if t1.procs[i].state == ZOMBIE then Abandon(WakeFrom(t1, t.initproc, 0), me, i + 1)
      else Abandon(t1, me, i + 1)
    else Abandon(t, me, i + 1)
  }

  ghost function AllocOf(t: Table): (r: Table)
    requires Shape(t)
  {
    var p := FirstUnused(t.procs, 0);
    if p == NPROC then t
    else t.(procs := t.procs[p := t.procs[p].(state := EMBRYO, pid := t.nextpid, priority := 3)],
            nextpid := t.nextpid + 1)
  }

  ghost function ExitOf(t: Table, c: nat): (r: Table)
    requires Shape(t) && GoodPriorities(t) && Running(t, c)
  {
    var p := t.cpus[c].running;
    var t2 := Abandon(WakeFrom(t, t.procs[p].parent, 0), p, 0);
    Idle(t2.(procs := t2.procs[p := t2.procs[p].(state := ZOMBIE)]), c)
  }

  /** wait() clears the pid before it searches the queue, so it searches for pid 0. */
  ghost function ReapOf(t: Table, p: nat): (r: Table)
    requires Shape(t) && p < NPROC && 1 <= t.procs[p].priority <= PLEVELS
  {
    var procs := t.procs[p := t.procs[p].(state := UNUSED, pid := 0, parent := -1)];
    var l := t.procs[p].priority - 1;
    t.(procs := procs, queues := t.queues[l := Removed(procs, t.queues[l], 0)])
  }

  ghost function Step(t: Table, e: Event): (r: Table)
    requires Shape(t) && GoodPriorities(t) && Enabled(t, e)
  {
    match e
    case Alloc => AllocOf(t)
    case AllocAbort(p) => t.(procs := t.procs[p := t.procs[p].(state := UNUSED)])
    case Start(p, parent) => Ready(t.(procs := t.procs[p := t.procs[p].(parent := parent)]), p)
    case Yield(c) => Idle(Ready(t, t.cpus[c].running), c)
    case Sleep(c, chan) =>
      var p := t.cpus[c].running;
      Idle(t.(procs := t.procs[p := t.procs[p].(state := SLEEPING, chan := chan)]), c)
    case Wakeup(chan) => WakeFrom(t, chan, 0)
    case Exit(c) => ExitOf(t, c)
    case Reap(c, p) => ReapOf(t, p)
    case Schedule(c) => Dispatch(t, c)
  }

  lemma IdleKeepsInv(t: Table, c: nat)
    requires Inv(t) && c < |t.cpus|
    ensures Inv(Idle(t, c))
  {
    forall l: nat, x: nat | l < PLEVELS && x < NPROC ensures QueuedRight(Idle(t, c), l, x) {
      assert QueuedRight(t, l, x);
    }
  }

  lemma {:induction false} AbandonKeepsInv(t: Table, me: nat, i: nat)
    requires Inv(t) && i <= NPROC
    ensures Inv(Abandon(t, me, i))
    decreases NPROC - i
  {
    hide Inv, GoodPriorities, WakeFrom;
    InvBasics(t);
    if i < NPROC {
      if t.procs[i].parent == me {
        ReparentKeepsInv(t, i, t.initproc);
        var t1 := t.(procs := t.procs[i := t.procs[i].(parent := t.initproc)]);
        InvBasics(t1);
        WakeKeepsInv(t1, t.initproc, 0);
        AbandonKeepsInv(WakeFrom(t1, t.initproc, 0), me, i + 1);
        AbandonKeepsInv(t1, me, i + 1);
      } else {
        AbandonKeepsInv(t, me, i + 1);
      }
    }
  }

  lemma AllocKeepsInv(t: Table)
    requires Inv(t)
    ensures Inv(AllocOf(t))
  {
    forall l: nat, x: nat | l < PLEVELS && x < NPROC ensures QueuedRight(AllocOf(t), l, x) {
      assert QueuedRight(t, l, x);
    }
  }

  lemma ReapKeepsInv(t: Table, p: nat)
    requires Inv(t) && p < NPROC && t.procs[p].state == ZOMBIE
    ensures Inv(ReapOf(t, p)) && ReapOf(t, p).queues == t.queues
  {
    var l := t.procs[p].priority - 1;
    var t' := ReapOf(t, p);
    QueuedIsRunnable(t, l);
    assert FindPid(t'.procs, t.queues[l], 0) == |t.queues[l]|;
    assert t'.queues == t.queues;
    forall k: nat, x: nat | k < PLEVELS && x < NPROC ensures QueuedRight(t', k, x) {
      assert QueuedRight(t, k, x);
    }
  }

  lemma ExitKeepsInv(t: Table, c: nat)
    requires Inv(t) && Running(t, c)
    ensures Inv(ExitOf(t, c))
  {
    hide Inv, WakeFrom, Abandon;
    InvBasics(t);
    var p := t.cpus[c].running;
    var t1 := WakeFrom(t, t.procs[p].parent, 0);
    WakeKeepsInv(t, t.procs[p].parent, 0);
    AbandonKeepsInv(t1, p, 0);
    var t2 := Abandon(t1, p, 0);
    ChangeKeepsInv(t2, p, ZOMBIE, t2.procs[p].chan, t2.procs[p].parent);
    IdleKeepsInv(t2.(procs := t2.procs[p := t2.procs[p].(state := ZOMBIE)]), c);
  }

  /** Every event keeps the invariant. */
  lemma StepKeepsInv(t: Table, e: Event)
    requires Inv(t) && Enabled(t, e)
    ensures Inv(Step(t, e))
  {
    hide Inv, WakeFrom, ExitOf, ReapOf, AllocOf, Dispatch, Ready, Idle;
    InvBasics(t);
    match e
    case Alloc => AllocKeepsInv(t);
    case AllocAbort(p) => ChangeKeepsInv(t, p, UNUSED, t.procs[p].chan, t.procs[p].parent);
    case Start(p, parent) =>
      ReparentKeepsInv(t, p, parent);
      ReadyKeepsInv(t.(procs := t.procs[p := t.procs[p].(parent := parent)]), p);
    case Yield(c) =>
      ReadyKeepsInv(t, t.cpus[c].running);
      IdleKeepsInv(Ready(t, t.cpus[c].running), c);
    case Sleep(c, chan) =>
      var p := t.cpus[c].running;
      ChangeKeepsInv(t, p, SLEEPING, chan, t.procs[p].parent);
      IdleKeepsInv(t.(procs := t.procs[p := t.procs[p].(state := SLEEPING, chan := chan)]), c);
    case Wakeup(chan) => WakeKeepsInv(t, chan, 0);
    case Exit(c) => ExitKeepsInv(t, c);
    case Reap(c, p) => ReapKeepsInv(t, p);
    case Schedule(c) => DispatchKeepsInv(t, c);
  }

  // Which process each CPU runs.

  /** Nobody started or stopped running. */
  ghost predicate SameRunning(t: Table, t': Table) {
    && Shape(t) && Shape(t') && t'.cpus == t.cpus
    && forall p | 0 <= p < NPROC :: t'.procs[p].state == RUNNING <==> t.procs[p].state == RUNNING
  }

  lemma SameRunningKeepsCpus(t: Table, t': Table)
    requires CpusMatch(t) && SameRunning(t, t')
    ensures CpusMatch(t')
  {
  }

  /** The process on CPU c stops running; `others` says what else may have changed. */
  lemma StopKeepsCpus(t: Table, t': Table, c: nat)
    requires CpusMatch(t) && Running(t, c) && Shape(t')
    requires t'.cpus == t.cpus[c := t.cpus[c].(running := -1)]
    requires forall p | 0 <= p < NPROC ::
      t'.procs[p].state == RUNNING <==> t.procs[p].state == RUNNING && p != t.cpus[c].running
    ensures CpusMatch(t')
  {
    forall p | 0 <= p < NPROC && t'.procs[p].state == RUNNING
      ensures exists d :: 0 <= d < |t'.cpus| && t'.cpus[d].running == p
    {
      var d :| 0 <= d < |t.cpus| && t.cpus[d].running == p;
      assert t'.cpus[d].running == p;
    }
  }

  /** A process is dispatched only if it runs nowhere. */
  lemma DispatchKeepsCpus(t: Table, c: nat)
    requires CpusMatch(t) && c < |t.cpus| && t.cpus[c].running < 0 && Shape(Dispatch(t, c))
    ensures CpusMatch(Dispatch(t, c))
  {
    hide FirstLevel, Removed;
    var t' := Dispatch(t, c);
    forall x | 0 <= x < NPROC && t'.procs[x].state == RUNNING
      ensures exists d :: 0 <= d < |t'.cpus| && t'.cpus[d].running == x
    {
      if t.procs[x].state == RUNNING {
        var d :| 0 <= d < |t.cpus| && t.cpus[d].running == x;
        assert t'.cpus[d].running == x;
      } else {
        assert t'.cpus[c].running == x;
      }
    }
  }

  /** For this the queues may hold anything: it needs no more of them than that they hold slots. */
  lemma StepKeepsCpus(t: Table, e: Event)
    requires Shape(t) && CpusMatch(t) && GoodPriorities(t) && Enabled(t, e) && Shape(Step(t, e))
    ensures CpusMatch(Step(t, e))
  {
    hide CpusMatch, GoodPriorities;
    if e.Schedule? {
      DispatchKeepsCpus(t, e.c);
    } else if e.Yield? || e.Sleep? || e.Exit? {
      StopsRunning(t, e);
      StopKeepsCpus(t, Step(t, e), e.c);
    } else {
      NobodyStops(t, e);
      SameRunningKeepsCpus(t, Step(t, e));
    }
  }

  lemma StopsRunning(t: Table, e: Event)
    requires Shape(t) && GoodPriorities(t) && Enabled(t, e) && (e.Yield? || e.Sleep? || e.Exit?) && Shape(Step(t, e))
    ensures var t' := Step(t, e);
      && t'.cpus == t.cpus[e.c := t.cpus[e.c].(running := -1)]
      && forall p | 0 <= p < NPROC ::
           t'.procs[p].state == RUNNING <==> t.procs[p].state == RUNNING && p != t.cpus[e.c].running
  {
    hide GoodPriorities, WakeFrom, Abandon, Ready;
  }

  lemma NobodyStops(t: Table, e: Event)
    requires Shape(t) && GoodPriorities(t) && Enabled(t, e) && !(e.Yield? || e.Sleep? || e.Exit? || e.Schedule?)
    requires Shape(Step(t, e))
    ensures SameRunning(t, Step(t, e))
  {
    hide GoodPriorities, WakeFrom, Ready, Removed, FindPid;
  }

  // Runs.

  ghost predicate StepTo(t: Table, e: Event, t': Table) {
    Shape(t) && GoodPriorities(t) && Enabled(t, e) && t' == Step(t, e)
  }

  ghost predicate IsRun(t: Table, es: seq<Event>, t': Table)
    decreases |es|
  {
    if es == [] then t' == t
    else
      var before, last := es[..|es| - 1], es[|es| - 1];
      exists m :: IsRun(t, before, m) && StepTo(m, last, t')
  }

  /**
   The scheduler invariant over every run: a process is RUNNABLE exactly when it is queued,
   once, at the level of its priority; pids in use are unique; busy CPUs and RUNNING
   processes correspond one to one.
   */
  lemma {:induction false} RunsKeepInv(t: Table, es: seq<Event>, t': Table)
    requires Inv(t) && CpusMatch(t) && IsRun(t, es, t')
    ensures Inv(t') && CpusMatch(t')
    decreases |es|
  {
    hide Inv, CpusMatch, StepTo;
    if es != [] {
      var before, last := es[..|es| - 1], es[|es| - 1];
      var m :| IsRun(t, before, m) && StepTo(m, last, t');
      RunsKeepInv(t, before, m);
      StepToKeeps(m, last, t');
    }
  }

  lemma StepToKeeps(t: Table, e: Event, t': Table)
    requires Inv(t) && CpusMatch(t) && StepTo(t, e, t')
    ensures Inv(t') && CpusMatch(t')
  {
    StepKeepsInv(t, e);
    StepKeepsCpus(t, e);
  }

  /** The table of n CPUs at boot. */
  ghost function Boot(n: nat): (t: Table) {
    Table(seq(NPROC, _ => Proc(UNUSED, 0, 0, -1, 0)), [[], [], [], [], []], 1, 0, seq(n, _ => Cpu(-1, -1)))
  }

  /** An empty table satisfies the invariant, whatever the CPUs. */
  lemma BootKeepsInv(n: nat)
    ensures Inv(Boot(n)) && CpusMatch(Boot(n))
  {
  }

  // Dispatch order.

  /** The event takes a process off level l. */
  ghost predicate Dispatches(t: Table, e: Event, l: nat) {
    e.Schedule? && |t.queues| == PLEVELS && FirstLevel(t.queues, 0) == l
  }

  lemma {:induction false} WakeAppends(t: Table, chan: int, i: nat, l: nat)
    requires Inv(t) && i <= NPROC && l < PLEVELS
    ensures t.queues[l] <= WakeFrom(t, chan, i).queues[l]
    decreases NPROC - i
  {
    hide Inv, Ready, GoodPriorities;
    InvBasics(t);
    if i < NPROC {
      if SleepsOn(t.procs[i], chan) {
        ReadyKeepsInv(t, i);
        ReadyAppends(t, i);
        WakeAppends(Ready(t, i), chan, i + 1, l);
      } else {
        WakeAppends(t, chan, i + 1, l);
      }
    }
  }

  lemma {:induction false} AbandonAppends(t: Table, me: nat, i: nat, l: nat)
    requires Inv(t) && i <= NPROC && l < PLEVELS
    ensures t.queues[l] <= Abandon(t, me, i).queues[l]
    decreases NPROC - i
  {
    hide Inv, GoodPriorities, WakeFrom;
    InvBasics(t);
    if i < NPROC {
      if t.procs[i].parent == me {
        var t1 := t.(procs := t.procs[i := t.procs[i].(parent := t.initproc)]);
        ReparentKeepsInv(t, i, t.initproc);
        InvBasics(t1);
        WakeKeepsInv(t1, t.initproc, 0);
        WakeAppends(t1, t.initproc, 0, l);
        AbandonAppends(WakeFrom(t1, t.initproc, 0), me, i + 1, l);
        AbandonAppends(t1, me, i + 1, l);
      } else {
        AbandonAppends(t, me, i + 1, l);
      }
    }
  }

  /** Each queue is first in, first out: an event appends to it, or takes its head when it dispatches. */
  lemma QueuesAreFifo(t: Table, e: Event, l: nat)
    requires Inv(t) && Enabled(t, e) && l < PLEVELS
    ensures var q := Step(t, e).queues;
            |q| == PLEVELS && if Dispatches(t, e, l) then q[l] == t.queues[l][1..] else t.queues[l] <= q[l]
  {
    hide Inv, WakeFrom, Abandon, Dispatch, Ready, ReapOf, GoodPriorities, FirstLevel;
    InvBasics(t);
    StepKeepsInv(t, e);
    InvBasics(Step(t, e));
    match e
    case Alloc =>
    case AllocAbort(p) =>
    case Sleep(c, chan) =>
    case Start(p, parent) =>
      ReparentKeepsInv(t, p, parent);
      ReadyAppends(t.(procs := t.procs[p := t.procs[p].(parent := parent)]), p);
    case Yield(c) => ReadyAppends(t, t.cpus[c].running);
    case Wakeup(chan) => WakeAppends(t, chan, 0, l);
    case Exit(c) =>
      var p := t.cpus[c].running;
      WakeKeepsInv(t, t.procs[p].parent, 0);
      WakeAppends(t, t.procs[p].parent, 0, l);
      AbandonAppends(WakeFrom(t, t.procs[p].parent, 0), p, 0, l);
    case Reap(c, p) => ReapKeepsInv(t, p);
    case Schedule(c) => DispatchIsRight(t, c);
  }

  /** A run in which n events dispatch from level l. */
  ghost predicate CountedRun(t: Table, es: seq<Event>, t': Table, l: nat, n: nat)
    decreases |es|
  {
    if es == [] then t' == t && n == 0
    else
      var before, last := es[..|es| - 1], es[|es| - 1];
      exists m: Table, k: nat :: CountedRun(t, before, m, l, k) && StepTo(m, last, t')
                     && n == k + if Dispatches(m, last, l) then 1 else 0
  }

  /**
   Dispatch order over every run: the process at position k of a level moves up by one with
   each dispatch from that level and in no other way, so exactly k dispatches from the level
   come before its own.
   */
  lemma {:induction false} PositionCountsDispatches(t: Table, es: seq<Event>, t': Table, l: nat, n: nat, k: nat)
    requires Inv(t) && CpusMatch(t) && l < PLEVELS && k < |t.queues[l]|
    requires CountedRun(t, es, t', l, n) && n <= k
    ensures Inv(t') && CpusMatch(t')
    ensures k - n < |t'.queues[l]| && t'.queues[l][k - n] == t.queues[l][k]
    decreases |es|
  {
    hide Inv, CpusMatch, StepTo, Dispatches;
    if es != [] {
      var before, last := es[..|es| - 1], es[|es| - 1];
      var m: Table, i: nat :| CountedRun(t, before, m, l, i) && StepTo(m, last, t')
                  && n == i + if Dispatches(m, last, l) then 1 else 0;
      PositionCountsDispatches(t, before, m, l, i, k);
      MovesUp(m, last, t', l, k - i);
    }
  }

  /** The process at position k is at the head of its level after k dispatches from it, and not before. */
  lemma {:induction false} HeadAfterExactlyK(t: Table, es: seq<Event>, t': Table, l: nat, n: nat, k: nat)
    requires Inv(t) && CpusMatch(t) && l < PLEVELS && k < |t.queues[l]|
    requires CountedRun(t, es, t', l, n) && n <= k
    ensures |t'.queues| == PLEVELS && t'.queues[l] != []
    ensures t'.queues[l][0] == t.queues[l][k] <==> n == k
  {
    PositionCountsDispatches(t, es, t', l, n, k);
    hide CountedRun;
    assert NoRepeats(t'.queues[l]);
  }

  lemma MovesUp(t: Table, e: Event, t': Table, l: nat, k: nat)
    requires Inv(t) && CpusMatch(t) && StepTo(t, e, t') && l < PLEVELS && k < |t.queues[l]|
    requires Dispatches(t, e, l) ==> k > 0
    ensures Inv(t') && CpusMatch(t')
    ensures var j := if Dispatches(t, e, l) then k - 1 else k;
            j < |t'.queues[l]| && t'.queues[l][j] == t.queues[l][k]
  {
    hide Inv, CpusMatch, Step, FirstLevel;
    StepToKeeps(t, e, t');
    QueuesAreFifo(t, e, l);
  }
}
