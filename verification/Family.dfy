/**
 What the events of the scheduler (proc.c) do to each process, and what parents can rely on:
 nobody sleeps in wait() while a child of theirs is a zombie.
 */
module Family {
  import opened Common
  import opened Scheduler
  import opened PriorityChanges
  import opened NiceSteps

  // exit().

  ghost predicate ZombieFrom(t: Table, me: int, i: nat) {
    exists y :: i <= y < |t.procs| && t.procs[y].parent == me && t.procs[y].state == ZOMBIE
  }

  /** A child of `me` becomes one of init's. */
  function Adopted(p: Proc, me: int, init: int): (r: Proc) {
    if p.parent == me then p.(parent := init) else p
  }

  function WokenIf(p: Proc, wakes: bool): (r: Proc) {
    if wakes then p.(state := RUNNABLE) else p
  }

  /** One round of exit()'s loop over the children. */
  lemma AbandonOne(t: Table, me: nat, i: nat) returns (t': Table)
    requires Shape(t) && GoodPriorities(t) && i < NPROC
    ensures Shape(t') && GoodPriorities(t') && t'.initproc == t.initproc && Abandon(t, me, i) == Abandon(t', me, i + 1)
    ensures forall x | 0 <= x < NPROC ::
              t'.procs[x] ==
              WokenIf(if x == i then Adopted(t.procs[x], me, t.initproc) else t.procs[x],
                      SleepsOn(t.procs[x], t.initproc) && t.procs[i].parent == me && t.procs[i].state == ZOMBIE)
  {
    hide GoodPriorities, WakeFrom;
    t' := t;
    if t.procs[i].parent == me {
      t' := t.(procs := t.procs[i := t.procs[i].(parent := t.initproc)]);
      SameInUse(t, t');
      if t.procs[i].state == ZOMBIE {
        t' := WakeFrom(t', t.initproc, 0);
      }
    }
  }

  lemma {:induction false} AbandonIs(t: Table, me: nat, i: nat, x: nat)
    requires Shape(t) && GoodPriorities(t) && i <= NPROC && x < NPROC
    ensures Abandon(t, me, i).procs[x] ==
            WokenIf(if x < i then t.procs[x] else Adopted(t.procs[x], me, t.initproc),
                    SleepsOn(t.procs[x], t.initproc) && ZombieFrom(t, me, i))
    decreases NPROC - i
  {
    if i == NPROC {
      NoZombies(t, me);
    } else {
      hide GoodPriorities, ZombieFrom, Abandon, Shape;
      Sized(t);
      ZombieNext(t, me, i);
      var t' := AbandonOne(t, me, i);
      Sized(t');
      AbandonIs(t', me, i + 1, x);
      SameZombies(t, t', me, i + 1);
    }
  }

  lemma Sized(t: Table)
    requires Shape(t)
    ensures |t.procs| == NPROC
  {
  }

  lemma ZombieNext(t: Table, me: int, i: nat)
    requires i < |t.procs|
    ensures ZombieFrom(t, me, i) <==>
            (t.procs[i].parent == me && t.procs[i].state == ZOMBIE) || ZombieFrom(t, me, i + 1)
  {
  }

  lemma NoZombies(t: Table, me: int)
    ensures !ZombieFrom(t, me, |t.procs|)
  {
  }

  lemma SameInUse(t: Table, t': Table)
    requires GoodPriorities(t) && |t'.procs| == |t.procs|
    requires forall x | 0 <= x < |t.procs| ::
      && t'.procs[x].state == t.procs[x].state && t'.procs[x].pid == t.procs[x].pid
      && t'.procs[x].priority == t.procs[x].priority
    ensures GoodPriorities(t')
  {
  }

  lemma SameZombies(t: Table, t': Table, me: int, i: nat)
    requires |t'.procs| == |t.procs|
    requires forall y | i <= y < |t.procs| ::
      t'.procs[y].parent == t.procs[y].parent && (t'.procs[y].state == ZOMBIE <==> t.procs[y].state == ZOMBIE)
    ensures ZombieFrom(t', me, i) <==> ZombieFrom(t, me, i)
  {
  }

  // Every event, process by process.

  /** Whom exit() of `me` wakes: who sleeps on its parent, and who sleeps on init if a child of it is a zombie. */
  ghost predicate ExitWakes(t: Table, me: nat, p: Proc)
    requires me < |t.procs|
  {
    SleepsOn(p, t.procs[me].parent) || (SleepsOn(p, t.initproc) && ZombieChild(t, me))
  }

  /** What becomes of process x. */
  ghost function Fate(t: Table, e: Event, x: nat): (r: Proc)
    requires Shape(t) && Enabled(t, e) && x < NPROC
  {
    var p := t.procs[x];
    match e
    case Alloc =>
      if p.state == UNUSED && (forall j | 0 <= j < x :: t.procs[j].state != UNUSED)
      then p.(state := EMBRYO, pid := t.nextpid, priority := 3) else p
    case AllocAbort(y) => if x == y then p.(state := UNUSED) else p
    case Start(y, parent) => if x == y then p.(state := RUNNABLE, parent := parent) else p
    case Yield(c) => if x == t.cpus[c].running then p.(state := RUNNABLE) else p
    case Sleep(c, chan) => if x == t.cpus[c].running then p.(state := SLEEPING, chan := chan) else p
    case Wakeup(chan) => if SleepsOn(p, chan) then p.(state := RUNNABLE) else p
    case Exit(c) =>
      var me := t.cpus[c].running;
      var q := Adopted(p, me, t.initproc);
      if x == me then q.(state := ZOMBIE) else WokenIf(q, ExitWakes(t, me, p))
    case Reap(c, y) => if x == y then p.(state := UNUSED, pid := 0, parent := -1) else p
    case Schedule(c) => if Picked(t, c) == x && p.state == RUNNABLE then p.(state := RUNNING) else p
  }

  /** The head of the best queue, or whom the scheduler had last. */
  ghost function Picked(t: Table, c: nat): (p: int)
    requires Shape(t) && c < |t.cpus|
  {
    var l := FirstLevel(t.queues, 0);
    if l < PLEVELS then t.queues[l][0] else t.cpus[c].last
  }

  lemma ExitIs(t: Table, c: nat, x: nat)
    requires Shape(t) && GoodPriorities(t) && Enabled(t, Exit(c)) && x < NPROC
    ensures |ExitOf(t, c).procs| == NPROC && ExitOf(t, c).procs[x] == Fate(t, Exit(c), x)
  {
    var me := t.cpus[c].running;
    var t1 := WakeFrom(t, t.procs[me].parent, 0);
    AbandonIs(t1, me, 0, x);
    SameZombies(t, t1, me, 0);
    assert ZombieFrom(t, me, 0) <==> ZombieChild(t, me);
    hide GoodPriorities, WakeFrom, Abandon, ZombieFrom, ZombieChild;
  }

  /** The events do that and no more. */
  lemma StepIs(t: Table, e: Event, x: nat)
    requires Shape(t) && GoodPriorities(t) && Enabled(t, e) && x < NPROC
    ensures |Step(t, e).procs| == NPROC && Step(t, e).procs[x] == Fate(t, e, x)
  {
    hide GoodPriorities, WakeFrom, Abandon, Removed, FindPid;
    if e.Exit? {
      ExitIs(t, e.c, x);
    }
  }

  /** kill() makes a sleeper RUNNABLE and changes no other process. */
  lemma {:induction false} KillIs(t: Table, pid: int, x: nat)
    requires Shape(t) && x < NPROC && Kill(t, pid).Done?
    ensures Kill(t, pid).t.procs[x] ==
            WokenIf(t.procs[x], x == FirstPid(t.procs, pid, 0) && t.procs[x].state == SLEEPING)
  {
    hide FirstPid, FindPid;
  }

  ghost predicate ListedBy(procs: seq<Proc>, q: seq<nat>, pid: int) {
    exists i :: 0 <= i < |q| && q[i] < |procs| && procs[q[i]].pid == pid
  }

  lemma {:induction false} AddedLists(procs: seq<Proc>, q: seq<nat>, p: nat)
    requires p < |procs| && forall j | 0 <= j < |q| :: q[j] < |procs|
    ensures ListedBy(procs, Added(procs, q, p), procs[p].pid)
  {
    var i := FindPid(procs, q, procs[p].pid);
    assert Added(procs, q, p)[i] == if i < |q| then q[i] else p;
  }

  /** Whoever it finds is listed afterwards, by pid, in the queue of its priority. */
  lemma {:induction false} KillLists(t: Table, pid: int)
    requires Shape(t) && Kill(t, pid).Done? && Found(t, pid)
    ensures var x, t' := FirstPid(t.procs, pid, 0), Kill(t, pid).t;
            1 <= t.procs[x].priority <= PLEVELS && ListedBy(t'.procs, t'.queues[t.procs[x].priority - 1], pid)
  {
    hide FirstPid, FindPid, Added, ListedBy;
    var x, t' := FirstPid(t.procs, pid, 0), Kill(t, pid).t;
    AddedLists(t'.procs, t.queues[t.procs[x].priority - 1], x);
  }

  // Parents.

  /** Nobody sleeps in wait() while a child of theirs is a zombie. */
  ghost predicate Waits(t: Table) {
    forall x | 0 <= x < |t.procs| && SleepsOn(t.procs[x], x) :: !ZombieChild(t, x)
  }

  /** Nobody is their own parent, and init has none. */
  ghost predicate Kin(t: Table) {
    forall x | 0 <= x < |t.procs| :: t.procs[x].parent != x && (x == t.initproc ==> t.procs[x].parent < 0)
  }

  lemma StepKeepsKin(t: Table, e: Event)
    requires Shape(t) && GoodPriorities(t) && Enabled(t, e) && Kin(t)
    ensures Kin(Step(t, e))
  {
    var t' := Step(t, e);
    assert t'.initproc == t.initproc by {
      SameInit(t, e);
    }
    hide Step, GoodPriorities;
    StepIs(t, e, 0);
    forall x | 0 <= x < NPROC ensures t'.procs[x].parent != x && (x == t.initproc ==> t'.procs[x].parent < 0) {
      StepIs(t, e, x);
    }
  }

  lemma SameInit(t: Table, e: Event)
    requires Shape(t) && GoodPriorities(t) && Enabled(t, e)
    ensures Step(t, e).initproc == t.initproc
  {
    hide GoodPriorities, WakeFrom, Abandon, Removed, FindPid;
  }

  /** Nobody began to sleep on their own slot, and nobody became a zombie or one's child. */
  lemma QuietKeepsWaits(t: Table, t': Table)
    requires Waits(t) && |t'.procs| == |t.procs|
    requires forall x | 0 <= x < |t.procs| && SleepsOn(t'.procs[x], x) :: SleepsOn(t.procs[x], x)
    requires forall y | 0 <= y < |t.procs| && t'.procs[y].state == ZOMBIE ::
               t.procs[y].state == ZOMBIE && t'.procs[y].parent == t.procs[y].parent
    ensures Waits(t')
  {
    forall x | 0 <= x < |t'.procs| && SleepsOn(t'.procs[x], x) ensures !ZombieChild(t', x) {
      assert !ZombieChild(t, x);
    }
  }

  /** exit() wakes the parent, and init for the zombies it inherits. */
  lemma ExitWakesThem(t: Table, c: nat, x: nat, y: nat)
    requires Shape(t) && Enabled(t, Exit(c)) && Waits(t) && Kin(t) && x < NPROC && y < NPROC
    requires SleepsOn(Fate(t, Exit(c), x), x)
    ensures !(Fate(t, Exit(c), y).parent == x && Fate(t, Exit(c), y).state == ZOMBIE)
  {
    var me := t.cpus[c].running;
    assert SleepsOn(t.procs[x], x) && x != me && !ExitWakes(t, me, t.procs[x]);
    assert !ZombieChild(t, x);
    assert t.procs[y].state == ZOMBIE && t.procs[y].parent == me ==> ZombieChild(t, me);
    assert t.procs[y].state == ZOMBIE && t.procs[y].parent == x ==> ZombieChild(t, x);
  }

  lemma ExitKeepsWaits(t: Table, c: nat)
    requires Shape(t) && GoodPriorities(t) && Enabled(t, Exit(c)) && Waits(t) && Kin(t)
    ensures Waits(Step(t, Exit(c)))
  {
    hide Step, GoodPriorities, Fate, Waits;
    var t' := Step(t, Exit(c));
    StepIs(t, Exit(c), 0);
    forall x: nat, y: nat | x < NPROC && y < NPROC && SleepsOn(t'.procs[x], x)
      ensures !(t'.procs[y].parent == x && t'.procs[y].state == ZOMBIE)
    {
      StepIs(t, Exit(c), x);
      StepIs(t, Exit(c), y);
      ExitWakesThem(t, c, x, y);
    }
    WaitsIf(t');
  }

  lemma WaitsIf(t: Table)
    requires forall x: nat, y: nat | x < |t.procs| && y < |t.procs| && SleepsOn(t.procs[x], x) ::
               !(t.procs[y].parent == x && t.procs[y].state == ZOMBIE)
    ensures Waits(t)
  {
  }

  lemma StepKeepsWaits(t: Table, e: Event)
    requires Shape(t) && GoodPriorities(t) && Enabled(t, e) && Waits(t) && Kin(t)
    ensures Waits(Step(t, e))
  {
    hide Step, GoodPriorities;
    if e.Exit? {
      ExitKeepsWaits(t, e.c);
    } else {
      forall x | 0 <= x < NPROC ensures |Step(t, e).procs| == NPROC && Step(t, e).procs[x] == Fate(t, e, x) {
        StepIs(t, e, x);
      }
      StepIs(t, e, 0);
      if e.Sleep? {
        SleepKeepsWaits(t, e.c, e.chan, Step(t, e));
      } else {
        QuietKeepsWaits(t, Step(t, e));
      }
    }
  }

  lemma SleepKeepsWaits(t: Table, c: nat, chan: int, t': Table)
    requires Shape(t) && Enabled(t, Sleep(c, chan)) && Waits(t) && |t'.procs| == NPROC
    requires forall x | 0 <= x < NPROC :: t'.procs[x] == Fate(t, Sleep(c, chan), x)
    ensures Waits(t')
  {
    forall x | 0 <= x < NPROC && SleepsOn(t'.procs[x], x) ensures !ZombieChild(t', x) {
      if y :| 0 <= y < NPROC && t'.procs[y].parent == x && t'.procs[y].state == ZOMBIE {
        assert t.procs[y].state == ZOMBIE && t.procs[y].parent == x;
        assert ZombieChild(t, x);
      }
    }
  }

  // Runs.

  /** In every run nobody sleeps in wait() while a child of theirs is a zombie. */
  lemma {:induction false} ParentsAreWoken(t: Table, es: seq<Event>, t': Table)
    requires Waits(t) && Kin(t) && IsRun(t, es, t')
    ensures Waits(t') && Kin(t')
    decreases |es|
  {
    if es != [] {
      hide Waits, Kin, Step, Enabled;
      var before, last := es[..|es| - 1], es[|es| - 1];
      var m :| IsRun(t, before, m) && StepTo(m, last, t');
      ParentsAreWoken(t, before, m);
      StepKeepsWaits(m, last);
      StepKeepsKin(m, last);
    }
  }

  lemma BootWaits(n: nat)
    ensures Waits(Boot(n)) && Kin(Boot(n))
  {
  }

  /** kill() changes nothing about that. */
  lemma {:induction false} KillKeepsWaits(t: Table, pid: int)
    requires Shape(t) && Waits(t) && Kin(t) && Kill(t, pid).Done?
    ensures Waits(Kill(t, pid).t) && Kin(Kill(t, pid).t)
  {
    var t' := Kill(t, pid).t;
    assert t'.initproc == t.initproc;
    hide Kill, Waits;
    forall x: nat | x < NPROC ensures t'.procs[x] == t.procs[x] || t'.procs[x] == t.procs[x].(state := RUNNABLE) {
      KillIs(t, pid, x);
    }
    QuietKeepsWaits(t, t');
  }

  /** Nor does a step of nice(). */
  lemma GoKeepsWaits(s: State, n: nat, s': State)
    requires Defined(s) && n < |s.calls| && Go(s, n) == Some(s') && Waits(s.t) && Kin(s.t)
    ensures Waits(s'.t) && Kin(s'.t)
  {
    hide FindPid, GoodPriorities, RowsMatch, Waits;
    QuietKeepsWaits(s.t, s'.t);
  }

  lemma YieldsKeepsWaits(s: State, n: nat, c: nat, s': State)
    requires Does(s, Yields(n, c), s') && Waits(s.t) && Kin(s.t)
    ensures Waits(s'.t) && Kin(s'.t)
  {
    hide GoodPriorities, RowsMatch, Waits;
    QuietKeepsWaits(s.t, s'.t);
  }

  lemma ActKeepsWaits(s: State, a: Action, s': State)
    requires Does(s, a, s') && Waits(s.t) && Kin(s.t)
    ensures Waits(s'.t) && Kin(s'.t)
  {
    hide Waits, Kin, Go, Step, Enabled, Kill, HalfYield, GoodPriorities, RowsMatch, FirstPid;
    match a
    case Locked(e) =>
      StepKeepsWaits(s.t, e);
      StepKeepsKin(s.t, e);
    case Kills(pid) => KillKeepsWaits(s.t, pid);
    case Asks(_, _, _) =>
    case Yields(n, c) => YieldsKeepsWaits(s, n, c, s');
    case Goes(n) => GoKeepsWaits(s, n, s');
  }

  /** So it is in every run with kill() and nice(), however they interleave, and even if nice() loses processes. */
  lemma {:induction false} ParentsAreWokenAnyway(s: State, acts: seq<Action>, s': State)
    requires Waits(s.t) && Kin(s.t) && Trace(s, acts, s')
    ensures Waits(s'.t) && Kin(s'.t)
    decreases |acts|
  {
    if acts != [] {
      hide Waits, Kin, Does;
      var before, last := acts[..|acts| - 1], acts[|acts| - 1];
      var m :| Trace(s, before, m) && Does(m, last, s');
      ParentsAreWokenAnyway(s, before, m);
      ActKeepsWaits(m, last, s');
    }
  }
}
