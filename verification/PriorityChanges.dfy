/**
 nice() and kill() (proc.c) against the scheduler invariant.

 nice() numbers queues by priority where all other code uses priority - 1, and it and
 kill() queue a process whatever its state.  The two exact conditions below say when the
 invariant survives.  kill() runs under ptable.lock; nice() releases it before it touches
 priority and queues, and what is said of it here is about a call that nothing else
 interleaves with.  NiceSteps has its steps one by one, and what survives in runs.
 */
module PriorityChanges {
  import opened Common
  import opened Scheduler

  function FirstPid(procs: seq<Proc>, pid: int, i: nat): (r: nat)
    requires i <= |procs|
    ensures i <= r <= |procs| && (r < |procs| ==> procs[r].pid == pid) && forall j | i <= j < r :: procs[j].pid != pid
    decreases |procs| - i
  {
    if i == |procs| || procs[i].pid == pid then i else FirstPid(procs, pid, i + 1)
  }

  ghost predicate Found(t: Table, pid: int) {
    FirstPid(t.procs, pid, 0) < |t.procs|
  }

  /** What nice() and kill() do: change the table, or use an index outside the queue array. */
  datatype Effect = Done(t: Table) | Wild

  ghost predicate KeepsInv(e: Effect) {
    e.Done? && Inv(e.t)
  }

  // kill().

  ghost function Kill(t: Table, pid: int): (r: Effect)
    requires Shape(t)
    ensures r.Done? ==> Shape(r.t)
  {
    var p := FirstPid(t.procs, pid, 0);
    if p == NPROC then Done(t)
    else if t.procs[p].priority < 1 || t.procs[p].priority > PLEVELS then Wild
    else if t.procs[p].state == SLEEPING then Done(Ready(t, p))
    else Done(Enqueue(t, p, t.procs[p].priority - 1))
  }

  lemma {:induction false} KillCases(t: Table, pid: int)
    requires Shape(t)
    ensures !Found(t, pid) ==> Kill(t, pid) == Done(t)
    ensures Found(t, pid) ==>
              (Kill(t, pid).Done? <==> 1 <= t.procs[FirstPid(t.procs, pid, 0)].priority <= PLEVELS)
  {
  }

  /** Both branches of kill() queue the process; one also changes its state. */
  lemma {:induction false} KillQueues(t: Table, pid: int, procs: seq<Proc>)
    requires Shape(t) && Found(t, pid) && Kill(t, pid).Done?
    requires var p := FirstPid(t.procs, pid, 0);
             procs == if t.procs[p].state == SLEEPING then t.procs[p := t.procs[p].(state := RUNNABLE)] else t.procs
    ensures var p := FirstPid(t.procs, pid, 0); var l := t.procs[p].priority - 1;
            && 1 <= t.procs[p].priority <= PLEVELS
            && Kill(t, pid).t == t.(procs := procs, queues := t.queues[l := Added(procs, t.queues[l], p)])
  {
  }

  /** kill() keeps the invariant exactly when its target is asleep or already queued, or there is none. */
  lemma {:induction false} KillKeepsInvIff(t: Table, pid: int)
    requires Inv(t)
    ensures KeepsInv(Kill(t, pid)) <==>
            !Found(t, pid) || t.procs[FirstPid(t.procs, pid, 0)].state in {SLEEPING, RUNNABLE}
  {
    hide FirstPid;
    var p := FirstPid(t.procs, pid, 0);
    if p < NPROC && Kill(t, pid).Done? {
      var l := t.procs[p].priority - 1;
      if t.procs[p].state == SLEEPING {
        ReadyKeepsInv(t, p);
      } else if t.procs[p].state == RUNNABLE {
        assert QueuedRight(t, l, p);
        FindsItself(t.procs, t.queues[l], p);
        assert t.queues[l := t.queues[l]] == t.queues;
      } else {
        NotQueuedAppends(t, p, l);
        assert !QueuedRight(Kill(t, pid).t, l, p);
      }
    }
  }

  /**
   kill() leaves the queue array exactly when the pid is 0 and the first slot with it was never given a
   priority: a slot keeps its priority when it loses its pid, and no slot has a pid without one.
   */
  lemma {:induction false} KillWildIff(t: Table, pid: int)
    requires Inv(t)
    ensures Kill(t, pid).Wild? <==>
            pid == 0 && Found(t, 0) && !(1 <= t.procs[FirstPid(t.procs, 0, 0)].priority <= PLEVELS)
  {
    hide FirstPid;
  }

  /** The input: kill(0) at boot finds the first slot, which never had a priority. */
  lemma KillWildAtBoot(n: nat)
    ensures Inv(Boot(n)) && Kill(Boot(n), 0).Wild?
  {
    BootKeepsInv(n);
  }

  /** A process that is in no queue is found in none. */
  lemma NotQueuedAppends(t: Table, p: nat, l: nat)
    requires Inv(t) && p < NPROC && l < PLEVELS && t.procs[p].state != RUNNABLE
    ensures p in Added(t.procs, t.queues[l], p)
  {
    QueuedIsRunnable(t, l);
    assert QueuedRight(t, l, p);
    if t.procs[p].pid != 0 {
      FindsItself(t.procs, t.queues[l], p);
    }
  }

  // nice().

  /** Its levels are the old and the new priority as they are, not less one. */
  ghost function Nice(t: Table, pid: int, v: int): (r: Effect)
    requires Shape(t) && 1 <= v <= PLEVELS
    ensures r.Done? ==> Shape(r.t)
  {
    var p := FirstPid(t.procs, pid, 0);
    if p == NPROC then Done(t)
    else
      var old_ := t.procs[p].priority;
      if old_ < 0 || old_ >= PLEVELS || v >= PLEVELS then Wild
      else
        var procs := t.procs[p := t.procs[p].(priority := v)];
        var t1 := t.(procs := procs, queues := t.queues[old_ := Removed(procs, t.queues[old_], pid)]);
        Done(Enqueue(t1, p, v))
  }

  /** nice() never keeps the invariant when it finds its process, whatever the state and the value. */
  lemma NiceKeepsInvIff(t: Table, pid: int, v: int)
    requires Inv(t) && 1 <= v <= PLEVELS
    ensures KeepsInv(Nice(t, pid, v)) <==> !Found(t, pid)
  {
    hide FirstPid;
    var p := FirstPid(t.procs, pid, 0);
    if p < NPROC && Nice(t, pid, v).Done? {
      NiceMisplaces(t, pid, v);
      assert !QueuedRight(Nice(t, pid, v).t, v, p);
    }
  }

  /**
   What it does instead.  For a process in use, it leaves the queue array exactly if the old or the new
   priority is 5; otherwise the process ends up queued one level too low for its new priority.
   */
  lemma {:induction false} NiceMisplaces(t: Table, pid: int, v: int)
    requires Inv(t) && 1 <= v <= PLEVELS && Found(t, pid)
    ensures var p := FirstPid(t.procs, pid, 0); var e := Nice(t, pid, v);
            && (t.procs[p].state != UNUSED ==> (e.Wild? <==> v == PLEVELS || t.procs[p].priority == PLEVELS))
            && (e.Done? ==> e.t.procs[p].priority == v < PLEVELS && p in e.t.queues[v])
  {
    hide FirstPid, Inv, FindPid, Added;
    InvBasics(t);
    var p := FirstPid(t.procs, pid, 0);
    if Nice(t, pid, v).Done? {
      var old_ := t.procs[p].priority;
      var procs := t.procs[p := t.procs[p].(priority := v)];
      var q := if old_ == v then Removed(procs, t.queues[v], pid) else t.queues[v];
      SamePidIsSame(t, p, v);
      RemovedSubset(procs, t.queues[v], pid);
      AddedContains(procs, q, p);
    }
  }

  /** A queued process with the pid of p is p. */
  lemma SamePidIsSame(t: Table, p: nat, l: nat)
    requires Inv(t) && p < NPROC && l < PLEVELS
    ensures forall x | x in t.queues[l] && t.procs[x].pid == t.procs[p].pid :: x == p
  {
    forall x | x in t.queues[l] && t.procs[x].pid == t.procs[p].pid ensures x == p {
      assert QueuedRight(t, l, x);
    }
  }

  lemma RemovedSubset(procs: seq<Proc>, q: seq<nat>, pid: int)
    requires forall j | 0 <= j < |q| :: q[j] < |procs|
    ensures forall x | x in Removed(procs, q, pid) :: x in q
  {
  }

  lemma AddedContains(procs: seq<Proc>, q: seq<nat>, p: nat)
    requires p < |procs| && forall j | 0 <= j < |q| :: q[j] < |procs|
    requires forall x | x in q && procs[x].pid == procs[p].pid :: x == p
    ensures p in Added(procs, q, p)
  {
    var i := FindPid(procs, q, procs[p].pid);
    if i < |q| {
      assert q[i] in q;
    }
  }

  // What survives nice() and kill().

  ghost predicate Queued(queues: seq<seq<nat>>, p: nat) {
    exists l :: 0 <= l < |queues| && p in queues[l]
  }

  /** No slot is listed twice in one queue, pids are unique, and every RUNNABLE process but `spares` is queued. */
  ghost predicate WeakExcept(t: Table, spares: set<nat>) {
    && Shape(t) && GoodPriorities(t) && PidsUnique(t.procs)
    && (forall l | 0 <= l < PLEVELS :: NoRepeats(t.queues[l]))
    && (forall p: nat | p < NPROC && t.procs[p].state == RUNNABLE && p !in spares :: Queued(t.queues, p))
    && (forall p | 0 <= p < NPROC :: 0 <= t.procs[p].pid < t.nextpid)
    && (forall p | 0 <= p < NPROC && t.procs[p].state != UNUSED :: t.procs[p].pid != 0)
  }

  ghost predicate Weak(t: Table) {
    WeakExcept(t, {})
  }

  lemma WeakBasics(t: Table, spares: set<nat>)
    requires WeakExcept(t, spares)
    ensures Shape(t) && GoodPriorities(t) && forall l | 0 <= l < PLEVELS :: NoRepeats(t.queues[l])
  {
  }

  /** Adding a process to any queue, it need not be spared any longer. */
  lemma EnqueueKeepsWeak(t: Table, p: nat, l: nat, spares: set<nat>)
    requires WeakExcept(t, spares + {p}) && p < NPROC && l < PLEVELS
    ensures WeakExcept(Enqueue(t, p, l), spares)
  {
    var q := t.queues[l];
    var t' := Enqueue(t, p, l);
    assert p in q ==> FindPid(t.procs, q, t.procs[p].pid) < |q|;
    forall x: nat | x < NPROC && t.procs[x].state == RUNNABLE && x !in spares ensures Queued(t'.queues, x) {
      if x == p {
        FindsItself(t.procs, q, p);
        assert p in t'.queues[l];
      } else {
        var k :| 0 <= k < |t.queues| && x in t.queues[k];
        assert x in t'.queues[k];
      }
    }
  }

  /** Changing a slot without making it RUNNABLE, its pid and queues kept. */
  lemma ChangeKeepsWeak(t: Table, p: nat, c: Proc, spares: set<nat>)
    requires WeakExcept(t, spares) && p < NPROC && c.pid == t.procs[p].pid
    requires c.priority == t.procs[p].priority && (c.state == UNUSED || t.procs[p].state != UNUSED)
    ensures WeakExcept(t.(procs := t.procs[p := c]), spares + {p})
    ensures c.state != RUNNABLE || t.procs[p].state == RUNNABLE ==> WeakExcept(t.(procs := t.procs[p := c]), spares)
  {
    var t' := t.(procs := t.procs[p := c]);
  }

  lemma ReadyKeepsWeak(t: Table, p: nat, spares: set<nat>)
    requires WeakExcept(t, spares) && p < NPROC && t.procs[p].state != UNUSED
    ensures WeakExcept(Ready(t, p), spares)
  {
    hide WeakExcept, Enqueue;
    WeakBasics(t, spares);
    ChangeKeepsWeak(t, p, t.procs[p].(state := RUNNABLE), spares);
    EnqueueKeepsWeak(t.(procs := t.procs[p := t.procs[p].(state := RUNNABLE)]), p, t.procs[p].priority - 1, spares);
  }

  lemma {:induction false} WakeKeepsWeak(t: Table, chan: int, i: nat, spares: set<nat>)
    requires WeakExcept(t, spares) && i <= NPROC
    ensures WeakExcept(WakeFrom(t, chan, i), spares)
    decreases NPROC - i
  {
    hide WeakExcept, Ready, GoodPriorities;
    WeakBasics(t, spares);
    if i < NPROC {
      if SleepsOn(t.procs[i], chan) {
        ReadyKeepsWeak(t, i, spares);
        WakeKeepsWeak(Ready(t, i), chan, i + 1, spares);
      } else {
        WakeKeepsWeak(t, chan, i + 1, spares);
      }
    }
  }

  lemma {:induction false} AbandonKeepsWeak(t: Table, me: nat, i: nat, spares: set<nat>)
    requires WeakExcept(t, spares) && i <= NPROC
    ensures WeakExcept(Abandon(t, me, i), spares)
    decreases NPROC - i
  {
    hide WeakExcept, GoodPriorities, WakeFrom;
    WeakBasics(t, spares);
    if i < NPROC {
      if t.procs[i].parent == me {
        var t1 := t.(procs := t.procs[i := t.procs[i].(parent := t.initproc)]);
        ReparentKeepsWeak(t, i, t.initproc, spares);
        WeakBasics(t1, spares);
        WakeKeepsWeak(t1, t.initproc, 0, spares);
        AbandonKeepsWeak(WakeFrom(t1, t.initproc, 0), me, i + 1, spares);
        AbandonKeepsWeak(t1, me, i + 1, spares);
      } else {
        AbandonKeepsWeak(t, me, i + 1, spares);
      }
    }
  }

  lemma ReparentKeepsWeak(t: Table, p: nat, parent: int, spares: set<nat>)
    requires WeakExcept(t, spares) && p < NPROC
    ensures WeakExcept(t.(procs := t.procs[p := t.procs[p].(parent := parent)]), spares)
  {
    var t' := t.(procs := t.procs[p := t.procs[p].(parent := parent)]);
  }

  lemma IdleKeepsWeak(t: Table, c: nat, spares: set<nat>)
    requires WeakExcept(t, spares) && c < |t.cpus|
    ensures WeakExcept(Idle(t, c), spares)
  {
    var t' := Idle(t, c);
  }

  /** Taking one entry out of a queue leaves every other process queued. */
  lemma RemoveKeepsWeak(t: Table, l: nat, i: nat, t': Table, spares: set<nat>)
    requires WeakExcept(t, spares) && l < PLEVELS && i < |t.queues[l]|
    requires t' == t.(queues := t.queues[l := t.queues[l][..i] + t.queues[l][i + 1..]])
    ensures WeakExcept(t', spares + {t.queues[l][i]})
  {
    var p, q := t.queues[l][i], t.queues[l];
    var r := q[..i] + q[i + 1..];
    assert forall j | 0 <= j < |r| :: r[j] == q[if j < i then j else j + 1];
    forall x: nat | x < NPROC && t.procs[x].state == RUNNABLE && x != p && x !in spares ensures Queued(t'.queues, x) {
      assert Queued(t.queues, x);
      var k :| 0 <= k < |t.queues| && x in t.queues[k];
      if k == l {
        var j :| 0 <= j < |q| && q[j] == x;
        assert r[if j < i then j else j - 1] == x;
      }
      assert x in t'.queues[k];
    }
  }

  /** Whoever is not RUNNABLE, or queued, need not be spared. */
  lemma SpareIsDone(t: Table, p: nat, spares: set<nat>)
    requires WeakExcept(t, spares + {p}) && (p < NPROC && t.procs[p].state == RUNNABLE ==> Queued(t.queues, p))
    ensures WeakExcept(t, spares)
  {
  }

  lemma WeakSpare(t: Table, spares: set<nat>, more: set<nat>)
    requires WeakExcept(t, spares) && spares <= more
    ensures WeakExcept(t, more)
  {
  }

  /** Only an entry with that pid can be taken out by a search for it. */
  lemma RemovedKeepsWeak(t: Table, l: nat, pid: int, t': Table, spares: set<nat>)
    requires WeakExcept(t, spares) && l < PLEVELS
    requires t' == t.(queues := t.queues[l := Removed(t.procs, t.queues[l], pid)])
    ensures || WeakExcept(t', spares)
            || exists x: nat :: x < NPROC && t.procs[x].pid == pid && WeakExcept(t', spares + {x})
  {
    var i := FindPid(t.procs, t.queues[l], pid);
    if i < |t.queues[l]| {
      RemoveKeepsWeak(t, l, i, t', spares);
      assert t.procs[t.queues[l][i]].pid == pid;
    } else {
      assert t.queues[l := t.queues[l]] == t.queues;
    }
  }

  lemma DispatchKeepsWeak(t: Table, c: nat, spares: set<nat>)
    requires WeakExcept(t, spares) && c < |t.cpus|
    ensures WeakExcept(Dispatch(t, c), spares)
  {
    var l := FirstLevel(t.queues, 0);
    if l < PLEVELS {
      var p, q := t.queues[l][0], t.queues[l];
      assert q[..0] + q[1..] == Removed(t.procs, q, t.procs[p].pid);
      var t1 := t.(queues := t.queues[l := q[..0] + q[1..]]);
      RemoveKeepsWeak(t, l, 0, t1, spares);
      AfterPick(t1, p, c, spares);
    } else {
      var p := t.cpus[c].last;
      if p >= 0 {
        WeakSpare(t, spares, spares + {p});
        AfterPick(t, p, c, spares);
      } else {
        PickNobody(t, c, spares);
      }
    }
  }

  lemma AfterPick(t: Table, p: nat, c: nat, spares: set<nat>)
    requires WeakExcept(t, spares + {p}) && p < NPROC && c < |t.cpus|
    ensures if t.procs[p].state == RUNNABLE
            then WeakExcept(t.(procs := t.procs[p := t.procs[p].(state := RUNNING)], cpus := t.cpus[c := Cpu(p, p)]),
                            spares)
            else WeakExcept(t.(cpus := t.cpus[c := t.cpus[c].(last := p)]), spares)
  {
    var t' := if t.procs[p].state == RUNNABLE
              then t.(procs := t.procs[p := t.procs[p].(state := RUNNING)], cpus := t.cpus[c := Cpu(p, p)])
              else t.(cpus := t.cpus[c := t.cpus[c].(last := p)]);
  }

  lemma PickNobody(t: Table, c: nat, spares: set<nat>)
    requires WeakExcept(t, spares) && c < |t.cpus|
    ensures WeakExcept(t.(cpus := t.cpus[c := t.cpus[c].(last := t.cpus[c].last)]), spares)
  {
    assert t.cpus[c := t.cpus[c]] == t.cpus;
  }

  /** Clearing a zombie's slot, before its queue is searched for pid 0. */
  lemma ClearedKeepsWeak(t: Table, p: nat, spares: set<nat>)
    requires WeakExcept(t, spares) && p < NPROC && t.procs[p].state == ZOMBIE
    ensures WeakExcept(t.(procs := t.procs[p := t.procs[p].(state := UNUSED, pid := 0, parent := -1)]), spares)
  {
  }

  lemma ReapKeepsWeak(t: Table, p: nat, spares: set<nat>)
    requires WeakExcept(t, spares) && p < NPROC && t.procs[p].state == ZOMBIE
    ensures WeakExcept(ReapOf(t, p), spares)
  {
    var t1 := t.(procs := t.procs[p := t.procs[p].(state := UNUSED, pid := 0, parent := -1)]);
    ClearedKeepsWeak(t, p, spares);
    RemovedKeepsWeak(t1, t.procs[p].priority - 1, 0, ReapOf(t, p), spares);
    NoPidNotRunnable(t1, spares);
    hide WeakExcept, Removed;
    if !WeakExcept(ReapOf(t, p), spares) {
      var x: nat :| x < NPROC && t1.procs[x].pid == 0 && WeakExcept(ReapOf(t, p), spares + {x});
      WeakBasics(ReapOf(t, p), spares + {x});
      SpareIsDone(ReapOf(t, p), x, spares);
    }
  }

  lemma NoPidNotRunnable(t: Table, spares: set<nat>)
    requires WeakExcept(t, spares)
    ensures Shape(t) && forall x | 0 <= x < NPROC && t.procs[x].pid == 0 :: t.procs[x].state != RUNNABLE
  {
  }

  lemma AllocKeepsWeak(t: Table, spares: set<nat>)
    requires WeakExcept(t, spares)
    ensures WeakExcept(AllocOf(t), spares)
  {
    var t' := AllocOf(t);
  }

  lemma ExitKeepsWeak(t: Table, c: nat, spares: set<nat>)
    requires WeakExcept(t, spares) && Running(t, c)
    ensures WeakExcept(ExitOf(t, c), spares)
  {
    hide WeakExcept, WakeFrom, Abandon;
    WeakBasics(t, spares);
    var p := t.cpus[c].running;
    var t1 := WakeFrom(t, t.procs[p].parent, 0);
    WakeKeepsWeak(t, t.procs[p].parent, 0, spares);
    AbandonKeepsWeak(t1, p, 0, spares);
    var t2 := Abandon(t1, p, 0);
    ChangeKeepsWeak(t2, p, t2.procs[p].(state := ZOMBIE), spares);
    IdleKeepsWeak(t2.(procs := t2.procs[p := t2.procs[p].(state := ZOMBIE)]), c, spares);
  }

  /** The events under ptable.lock lose nobody, whoever is spared. */
  lemma StepKeepsWeak(t: Table, e: Event, spares: set<nat>)
    requires WeakExcept(t, spares) && Enabled(t, e)
    ensures WeakExcept(Step(t, e), spares)
  {
    hide WeakExcept, WakeFrom, ExitOf, ReapOf, AllocOf, Dispatch, Ready, Idle;
    WeakBasics(t, spares);
    match e
    case Alloc => AllocKeepsWeak(t, spares);
    case AllocAbort(p) => ChangeKeepsWeak(t, p, t.procs[p].(state := UNUSED), spares);
    case Start(p, parent) =>
      ReparentKeepsWeak(t, p, parent, spares);
      ReadyKeepsWeak(t.(procs := t.procs[p := t.procs[p].(parent := parent)]), p, spares);
    case Yield(c) =>
      ReadyKeepsWeak(t, t.cpus[c].running, spares);
      IdleKeepsWeak(Ready(t, t.cpus[c].running), c, spares);
    case Sleep(c, chan) =>
      var p := t.cpus[c].running;
      ChangeKeepsWeak(t, p, t.procs[p].(state := SLEEPING, chan := chan), spares);
      IdleKeepsWeak(t.(procs := t.procs[p := t.procs[p].(state := SLEEPING, chan := chan)]), c, spares);
    case Wakeup(chan) => WakeKeepsWeak(t, chan, 0, spares);
    case Exit(c) => ExitKeepsWeak(t, c, spares);
    case Reap(c, p) => ReapKeepsWeak(t, p, spares);
    case Schedule(c) => DispatchKeepsWeak(t, c, spares);
  }

  lemma KillKeepsWeak(t: Table, pid: int, spares: set<nat>)
    requires Shape(t) && WeakExcept(t, spares)
    ensures Kill(t, pid).Done? ==> WeakExcept(Kill(t, pid).t, spares)
  {
    hide WeakExcept, Ready, Enqueue, FirstPid;
    WeakBasics(t, spares);
    var p := FirstPid(t.procs, pid, 0);
    if p < NPROC && Kill(t, pid).Done? {
      WeakSpare(t, spares, spares + {p});
      if t.procs[p].state == SLEEPING {
        ReadyKeepsWeak(t, p, spares);
      } else {
        EnqueueKeepsWeak(t, p, t.procs[p].priority - 1, spares);
      }
    }
  }

  /** Giving a slot a priority. */
  lemma RetagKeepsWeak(t: Table, p: nat, v: int, spares: set<nat>)
    requires WeakExcept(t, spares) && p < NPROC && 1 <= v <= PLEVELS
    ensures WeakExcept(t.(procs := t.procs[p := t.procs[p].(priority := v)]), spares)
  {
    var t0 := t.(procs := t.procs[p := t.procs[p].(priority := v)]);
  }

  lemma RemovedShape(t: Table, l: nat, pid: int, t': Table)
    requires Weak(t) && l < PLEVELS && t' == t.(queues := t.queues[l := Removed(t.procs, t.queues[l], pid)])
    ensures Shape(t') && forall k | 0 <= k < PLEVELS :: NoRepeats(t'.queues[k])
  {
    hide WeakExcept;
    WeakBasics(t, {});
    RemovedKeepsWeak(t, l, pid, t', {});
    if WeakExcept(t', {}) {
      WeakBasics(t', {});
    } else {
      var x: nat :| x < NPROC && t.procs[x].pid == pid && WeakExcept(t', {} + {x});
      WeakBasics(t', {} + {x});
    }
  }

  /** A table that satisfies the scheduler invariant has lost nobody. */
  lemma InvIsWeak(t: Table)
    requires Inv(t)
    ensures Weak(t)
  {
    forall p: nat | p < NPROC && t.procs[p].state == RUNNABLE ensures Queued(t.queues, p) {
      assert QueuedRight(t, t.procs[p].priority - 1, p);
    }
  }
}
