/**
 How nice() loses a process (see NiceSteps): a run from boot, on two CPUs.

 nice() has found its process at some index of a queue.  Before it closes the gap there,
 another CPU takes the head of that queue, everybody moves up, and the entry that nice()
 takes out is that of the process behind.
 */
module NiceRace {
  import opened Common
  import opened Scheduler
  import opened PriorityChanges
  import opened NiceSteps

  lemma {:induction false} RunThen(s: State, acts: seq<Action>, m: State, a: Action, s': State)
    requires Trace(s, acts, m) && Does(m, a, s')
    ensures Trace(s, acts + [a], s')
  {
    hide Does;
    var all := acts + [a];
    assert all[..|all| - 1] == acts && all[|all| - 1] == a;
  }

  lemma {:induction false} RunsJoin(s: State, before: seq<Action>, m: State, after: seq<Action>, s': State)
    requires Trace(s, before, m) && Trace(m, after, s')
    ensures Trace(s, before + after, s')
    decreases |after|
  {
    hide Does;
    if after == [] {
      assert before + after == before;
    } else {
      var k := |after| - 1;
      var m' :| Trace(m, after[..k], m') && Does(m', after[k], s');
      RunsJoin(s, before, m, after[..k], m');
      RunThen(s, before + after[..k], m', after[k], s');
      assert before + after[..k] + [after[k]] == before + after;
    }
  }

  lemma {:induction false} OneStep(s: State, a: Action, s': State)
    requires Does(s, a, s')
    ensures Trace(s, [a], s')
  {
    hide Does;
    assert Trace(s, [a][..0], s);
  }

  /** Where the run starts: nothing in the two best queues, three processes in the third, and an idle CPU. */
  ghost predicate Stage(s: State, c: nat) {
    && Defined(s) && Inv(s.t) && |s.calls| == 1 && s.calls[0].Out?
    && s.t.queues[0] == [] && s.t.queues[1] == [] && |s.t.queues[2]| >= 3
    && c < |s.t.cpus| && s.t.cpus[c].running < 0
  }

  /** The same with another priority for process p. */
  ghost function Retagged(t: Table, p: nat, v: int): (r: Table)
    requires Shape(t) && p < NPROC
    ensures Shape(r)
  {
    t.(procs := t.procs[p := t.procs[p].(priority := v)])
  }

  lemma {:induction false} FindsPid(procs: seq<Proc>, p: nat)
    requires PidsUnique(procs) && p < |procs| && procs[p].pid != 0
    ensures FirstPid(procs, procs[p].pid, 0) == p
  {
    var f := FirstPid(procs, procs[p].pid, 0);
  }

  lemma Four(s: State, a: Action, s1: State, b: Action, s2: State, c: Action, s3: State, d: Action, s4: State)
    returns (acts: seq<Action>)
    requires Does(s, a, s1) && Does(s1, b, s2) && Does(s2, c, s3) && Does(s3, d, s4)
    ensures Trace(s, acts, s4)
  {
    hide Does;
    OneStep(s, a, s1);
    OneStep(s1, b, s2);
    OneStep(s2, c, s3);
    OneStep(s3, d, s4);
    RunsJoin(s, [a], s1, [b], s2);
    RunsJoin(s, [a] + [b], s2, [c], s3);
    RunsJoin(s, [a] + [b] + [c], s3, [d], s4);
    acts := [a] + [b] + [c] + [d];
  }

  // Its steps.

  lemma AskStep(s: State, p: nat, v: int)
    requires Defined(s) && |s.calls| == 1 && s.calls[0].Out? && p < NPROC && 1 <= v <= PLEVELS
    requires FirstPid(s.t.procs, s.t.procs[p].pid, 0) == p
    ensures Does(s, Asks(0, s.t.procs[p].pid, v), s.(calls := [Looked(p, v)])) && Defined(s.(calls := [Looked(p, v)]))
  {
    hide Shape, GoodPriorities, RowsMatch;
    assert |s.t.procs| == NPROC by {
      ShapeSize(s.t);
    }
    assert s.calls[0 := Looked(p, v)] == [Looked(p, v)];
  }

  lemma ShapeSize(t: Table)
    requires Shape(t)
    ensures |t.procs| == NPROC && |t.queues| == PLEVELS
  {
  }

  lemma TagStep(s: State, p: nat, v: int)
    requires Defined(s) && s.calls == [Looked(p, v)]
    ensures p < NPROC && |s.t.procs| == NPROC
    ensures var s' := s.(t := Retagged(s.t, p, v), calls := [Tagged(p, s.t.procs[p].priority, v)]);
            Does(s, Goes(0), s') && Defined(s')
  {
    assert CallFits(s.calls[0]);
    GoDefined(s, 0);
    hide GoodPriorities, RowsMatch;
    assert s.calls[0 := Tagged(p, s.t.procs[p].priority, v)] == [Tagged(p, s.t.procs[p].priority, v)];
  }

  lemma SeekStep(s: State, p: nat, l: nat, v: int)
    requires Defined(s) && s.calls == [Tagged(p, l, v)] && l < PLEVELS
    requires p < |s.t.procs| && s.t.procs[p].pid != 0 && PidsUnique(s.t.procs)
    ensures p !in s.t.queues[l] ==> Does(s, Goes(0), s.(calls := [Gone(p, v)])) && Defined(s.(calls := [Gone(p, v)]))
    ensures forall i: nat | i < |s.t.queues[l]| && s.t.queues[l][i] == p && NoRepeats(s.t.queues[l]) ::
              Does(s, Goes(0), s.(calls := [Hit(p, l, v, i)])) && Defined(s.(calls := [Hit(p, l, v, i)]))
  {
    assert CallFits(s.calls[0]);
    FindsItself(s.t.procs, s.t.queues[l], p);
    GoDefined(s, 0);
    hide GoodPriorities, RowsMatch, FindPid;
    forall i: nat ensures s.calls[0 := Hit(p, l, v, i)] == [Hit(p, l, v, i)] {
    }
    assert s.calls[0 := Gone(p, v)] == [Gone(p, v)];
  }

  lemma LookStep(s: State, p: nat, v: nat)
    requires Defined(s) && s.calls == [Gone(p, v)] && v < PLEVELS
    requires p < |s.t.procs| && s.t.procs[p].pid != 0 && PidsUnique(s.t.procs)
    ensures var c := if p in s.t.queues[v] then Out else Absent(p, v);
            Does(s, Goes(0), s.(calls := [c])) && Defined(s.(calls := [c]))
  {
    assert CallFits(s.calls[0]);
    FindsItself(s.t.procs, s.t.queues[v], p);
    GoDefined(s, 0);
    hide GoodPriorities, RowsMatch, FindPid;
    var c := if p in s.t.queues[v] then Out else Absent(p, v);
    assert s.calls[0 := c] == [c];
  }

  lemma DropStep(s: State, p: nat, l: nat, v: int, i: nat)
    requires Defined(s) && s.calls == [Hit(p, l, v, i)] && l < PLEVELS && i < |s.t.queues[l]|
    ensures var q := s.t.queues[l]; var t' := s.t.(queues := s.t.queues[l := q[..i] + q[i + 1..]]);
            exists rows :: Does(s, Goes(0), State(t', rows, [Gone(p, v)])) && Defined(State(t', rows, [Gone(p, v)]))
  {
    GoDefined(s, 0);
    hide GoodPriorities, RowsMatch, Shape;
    assert s.calls[0 := Gone(p, v)] == [Gone(p, v)];
    var s' := Go(s, 0).value;
    assert s' == State(s'.t, s'.rows, [Gone(p, v)]);
  }

  lemma PutSteps(s: State, p: nat, v: nat)
    returns (m: State, s': State)
    requires Defined(s) && s.calls == [Absent(p, v)] && v < PLEVELS && |s.t.queues[v]| < NPROC
    ensures Does(s, Goes(0), m) && Does(m, Goes(0), s') && Defined(s')
    ensures s'.t == s.t.(queues := s.t.queues[v := s.t.queues[v] + [p]]) && s'.calls == [Out]
  {
    assert CallFits(s.calls[0]);
    GoDefined(s, 0);
    m := Go(s, 0).value;
    GoDefined(m, 0);
    s' := Go(m, 0).value;
    hide GoodPriorities, RowsMatch, Shape;
    assert m.calls == [Placed(p, v, false)];
  }

  /** nice(p, 2) on a process of priority 3: it stays where it is, which now is the level of its priority. */
  lemma FirstCall(s: State, c: nat, p: nat) returns (s': State, acts: seq<Action>)
    requires Stage(s, c) && p == s.t.queues[2][1]
    ensures p < NPROC && Trace(s, acts, s') && s' == s.(t := Retagged(s.t, p, 2)) && Defined(s')
  {
    OnStage(s, c, p);
    var s1 := s.(calls := [Looked(p, 2)]);
    var s2 := s1.(t := Retagged(s.t, p, 2), calls := [Tagged(p, 3, 2)]);
    var s3 := s2.(calls := [Gone(p, 2)]);
    s' := s3.(calls := [Out]);
    hide Does, Defined, Inv, FirstPid, NoRepeats;
    assert s.calls == [Out];
    AskStep(s, p, 2);
    TagStep(s1, p, 2);
    SeekStep(s2, p, 3, 2);
    LookStep(s3, p, 2);
    acts := Four(s, Asks(0, s.t.procs[p].pid, 2), s1, Goes(0), s2, Goes(0), s3, Goes(0), s');
  }

  /** What the run needs to know of its start, for a process in the third queue. */
  lemma OnStage(s: State, c: nat, p: nat)
    requires Stage(s, c) && p in s.t.queues[2]
    ensures Shape(s.t) && p < NPROC && PidsUnique(s.t.procs) && s.t.procs[p].pid != 0
    ensures s.t.procs[p].state == RUNNABLE && s.t.procs[p].priority == 3 && NoRepeats(s.t.queues[2])
    ensures forall l | 0 <= l < PLEVELS && l != 2 :: p !in s.t.queues[l]
    ensures FirstPid(s.t.procs, s.t.procs[p].pid, 0) == p
    ensures forall v :: var t' := Retagged(s.t, p, v);
              PidsUnique(t'.procs) && FirstPid(t'.procs, s.t.procs[p].pid, 0) == p
  {
    QueuedIsRunnable(s.t, 2);
    forall l: nat | l < PLEVELS && l != 2 ensures p !in s.t.queues[l] {
      assert QueuedRight(s.t, l, p);
    }
    assert QueuedRight(s.t, 2, p);
    FindsPid(s.t.procs, p);
    forall v
      ensures var t' := Retagged(s.t, p, v); PidsUnique(t'.procs) && FirstPid(t'.procs, s.t.procs[p].pid, 0) == p
    {
      FindsPid(Retagged(s.t, p, v).procs, p);
    }
  }

  /** nice(p, 1) up to the point where it has found p in the third queue. */
  lemma SecondCall(s: State, c: nat, p: nat, s0: State) returns (s': State, acts: seq<Action>)
    requires Stage(s, c) && p == s.t.queues[2][1] && p < NPROC && s0 == s.(t := Retagged(s.t, p, 2)) && Defined(s0)
    ensures Trace(s0, acts, s') && s' == s.(t := Retagged(s.t, p, 1), calls := [Hit(p, 2, 1, 1)]) && Defined(s')
  {
    OnStage(s, c, p);
    var pid := s.t.procs[p].pid;
    var s1 := s0.(calls := [Looked(p, 1)]);
    var s2 := s1.(t := Retagged(s0.t, p, 1), calls := [Tagged(p, 2, 1)]);
    s' := s2.(calls := [Hit(p, 2, 1, 1)]);
    hide Does, Defined, Inv, FirstPid, NoRepeats;
    assert s2.t == Retagged(s.t, p, 1);
    assert s0.calls == [Out];
    AskStep(s0, p, 1);
    TagStep(s1, p, 1);
    SeekStep(s2, p, 2, 1);
    OneStep(s0, Asks(0, pid, 1), s1);
    RunThen(s0, [Asks(0, pid, 1)], s1, Goes(0), s2);
    RunThen(s0, [Asks(0, pid, 1)] + [Goes(0)], s2, Goes(0), s');
    acts := [Asks(0, pid, 1)] + [Goes(0)] + [Goes(0)];
  }

  lemma StaysGood(t: Table, c: nat)
    requires Shape(t) && GoodPriorities(t) && c < |t.cpus| && FirstLevel(t.queues, 0) < PLEVELS
    ensures GoodPriorities(Dispatch(t, c)) && Shape(Dispatch(t, c))
  {
    TakesHead(t, c, FirstLevel(t.queues, 0));
    hide FirstLevel, FindPid;
  }

  lemma ScheduleDoes(s: State, c: nat)
    requires Defined(s) && c < |s.t.cpus| && s.t.cpus[c].running < 0 && !LockHeld(s.calls)
    requires FitsRows(Dispatch(s.t, c))
    ensures Does(s, Locked(Schedule(c)), Moved(s, Dispatch(s.t, c)))
  {
    hide Dispatch, RowsMatch, GoodPriorities, LockHeld;
  }

  /** Meanwhile another CPU takes the first process off that queue. */
  lemma DispatchStep(s: State, c: nat) returns (s': State)
    requires Defined(s) && c < |s.t.cpus| && s.t.cpus[c].running < 0 && !LockHeld(s.calls)
    requires s.t.queues[0] == [] && s.t.queues[1] == [] && s.t.queues[2] != []
    ensures Does(s, Locked(Schedule(c)), s') && Defined(s') && s'.calls == s.calls
    ensures s'.t.queues == s.t.queues[2 := s.t.queues[2][1..]]
    ensures |s'.t.procs| == NPROC && forall x | 0 <= x < NPROC :: s'.t.procs[x].pid == s.t.procs[x].pid
    ensures forall x | 0 <= x < NPROC && x != s.t.queues[2][0] :: s'.t.procs[x] == s.t.procs[x]
  {
    assert FirstLevel(s.t.queues, 0) == 2;
    hide FirstLevel, FindPid, RowsMatch, GoodPriorities, Dispatch, Does, LockHeld;
    TakesHead(s.t, c, 2);
    var t' := Dispatch(s.t, c);
    StaysGood(s.t, c);
    RowsBound(s.t, s.rows);
    ScheduleDoes(s, c);
    MovedDefined(s, t');
    s' := Moved(s, t');
  }

  /** The call goes on, and takes the third process out instead of p. */
  lemma DropThird(s: State, c: nat, p: nat, m: State) returns (s1: State, s': State)
    requires Stage(s, c) && p == s.t.queues[2][1] && p < NPROC
    requires m == s.(t := Retagged(s.t, p, 1), calls := [Hit(p, 2, 1, 1)]) && Defined(m)
    ensures Does(m, Locked(Schedule(c)), s1) && Does(s1, Goes(0), s')
    ensures Defined(s') && s'.calls == [Gone(p, 1)]
    ensures s'.t.queues == s.t.queues[2 := [p] + s.t.queues[2][3..]] && SamePid(s.t, s'.t)
    ensures s.t.queues[2][2] < NPROC && s'.t.procs[s.t.queues[2][2]].state == RUNNABLE
  {
    var q, d := s.t.queues[2], s.t.queues[2][2];
    OnStage(s, c, p);
    OnStage(s, c, d);
    assert d != q[0] && d != p;
    hide Defined, Inv, FirstPid;
    s1 := DispatchStep(m, c);
    DropStep(s1, p, 2, 1, 1);
    hide Does, Stage;
    var r := q[1..][..1] + q[1..][2..];
    assert r == [p] + q[3..];
    var t' := s1.t.(queues := s1.t.queues[2 := r]);
    var rows :| Does(s1, Goes(0), State(t', rows, [Gone(p, 1)])) && Defined(State(t', rows, [Gone(p, 1)]));
    s' := State(t', rows, [Gone(p, 1)]);
    assert t'.queues == s.t.queues[2 := r];
  }

  ghost predicate SamePid(t: Table, t': Table) {
    |t'.procs| == |t.procs| && forall x | 0 <= x < |t.procs| :: t'.procs[x].pid == t.procs[x].pid
  }

  /** Then it adds p to the second queue, which is empty, and returns. */
  lemma AddToEmpty(s: State, p: nat) returns (s1: State, s2: State, s': State)
    requires Defined(s) && s.calls == [Gone(p, 1)] && s.t.queues[1] == []
    requires p < |s.t.procs| && s.t.procs[p].pid != 0 && PidsUnique(s.t.procs)
    ensures Does(s, Goes(0), s1) && Does(s1, Goes(0), s2) && Does(s2, Goes(0), s')
    ensures s'.t == s.t.(queues := s.t.queues[1 := [p]]) && s'.calls == [Out] && Defined(s')
  {
    LookStep(s, p, 1);
    s1 := s.(calls := [Absent(p, 1)]);
    hide Does, Shape, GoodPriorities, RowsMatch;
    s2, s' := PutSteps(s1, p, 1);
    assert [] + [p] == [p];
  }

  lemma ThirdIsLost(s: State, c: nat, p: nat, m: State) returns (s': State, acts: seq<Action>)
    requires Stage(s, c) && p == s.t.queues[2][1] && p < NPROC
    requires m == s.(t := Retagged(s.t, p, 1), calls := [Hit(p, 2, 1, 1)]) && Defined(m)
    ensures Trace(m, acts, s') && s'.calls == [Out] && Lost(s'.t, s.t.queues[2][2])
  {
    var s1, s2 := DropThird(s, c, p, m);
    OnStage(s, c, p);
    SamePids(s.t.procs, s2.t.procs);
    hide Does, Inv, FirstPid;
    var s3, s4;
    s3, s4, s' := AddToEmpty(s2, p);
    NowhereElse(s, c, p, s'.t);
    hide Defined, Stage, Lost, Trace;
    var before := Four(m, Locked(Schedule(c)), s1, Goes(0), s2, Goes(0), s3, Goes(0), s4);
    RunThen(m, before, s4, Goes(0), s');
    acts := before + [Goes(0)];
  }

  lemma NowhereElse(s: State, c: nat, p: nat, t': Table)
    requires Stage(s, c) && p == s.t.queues[2][1] && Shape(t')
    requires t'.queues == s.t.queues[2 := [p] + s.t.queues[2][3..]][1 := [p]]
    requires s.t.queues[2][2] < NPROC && t'.procs[s.t.queues[2][2]].state == RUNNABLE
    ensures Lost(t', s.t.queues[2][2])
  {
    var q, d := s.t.queues[2], s.t.queues[2][2];
    OnStage(s, c, d);
    assert d != p && d !in q[3..];
    assert forall l | 0 <= l < PLEVELS :: d !in t'.queues[l];
  }

  lemma SamePids(procs: seq<Proc>, procs': seq<Proc>)
    requires PidsUnique(procs) && |procs'| == |procs| && forall x | 0 <= x < |procs| :: procs'[x].pid == procs[x].pid
    ensures PidsUnique(procs')
  {
  }

  ghost predicate Lost(t: Table, d: nat) {
    Shape(t) && d < NPROC && t.procs[d].state == RUNNABLE && !Queued(t.queues, d)
  }

  /** From every such start there is a run, with all calls returned at its end, that loses the third process. */
  lemma StageLoses(s: State, c: nat) returns (acts: seq<Action>, s': State)
    requires Stage(s, c)
    ensures Trace(s, acts, s') && s'.calls == [Out] && Lost(s'.t, s.t.queues[2][2])
  {
    hide Trace, Lost;
    var p := s.t.queues[2][1];
    var m, before := FirstCall(s, c, p);
    var m', between := SecondCall(s, c, p, m);
    var after;
    s', after := ThirdIsLost(s, c, p, m');
    RunsJoin(s, before, m, between, m');
    RunsJoin(s, before + between, m', after, s');
    acts := before + between + after;
  }

  // From boot.

  /** Every run of the scheduler alone is a run here. */
  lemma {:induction false} LockedRun(s: State, es: seq<Event>, t': Table) returns (acts: seq<Action>, s': State)
    requires Safe(s) && !LockHeld(s.calls) && IsRun(s.t, es, t')
    ensures Trace(s, acts, s') && s'.t == t' && s'.calls == s.calls && Safe(s')
    decreases |es|
  {
    hide Safe, Step, Enabled;
    if es == [] {
      acts, s' := [], s;
    } else {
      var before, last := es[..|es| - 1], es[|es| - 1];
      var t :| IsRun(s.t, before, t) && StepTo(t, last, t');
      var most, m := LockedRun(s, before, t);
      LockedStep(m, last);
      s' := Moved(m, t');
      RunThen(s, most, m, Locked(last), s');
      acts := most + [Locked(last)];
    }
  }

  lemma LockedStep(s: State, e: Event)
    requires Safe(s) && !LockHeld(s.calls) && Shape(s.t) && GoodPriorities(s.t) && Enabled(s.t, e)
    ensures FitsRows(Step(s.t, e)) && Defined(s)
    ensures Does(s, Locked(e), Moved(s, Step(s.t, e))) && Safe(Moved(s, Step(s.t, e)))
  {
    hide Step, Enabled, WeakExcept, CpusMatch, RowsMatch;
    LockedFits(s, e);
    LockedKeeps(s, e, Moved(s, Step(s.t, e)));
  }

  /** Boot, and k processes started one after the other. */
  ghost function Crowd(n: nat, k: nat): (t: Table)
    requires k <= NPROC
  {
    Table(seq(NPROC, i requires 0 <= i < NPROC =>
            if i < k then Proc(RUNNABLE, i + 1, 3, -1, 0) else Proc(UNUSED, 0, 0, -1, 0)),
          [[], [], seq(k, i => i), [], []], k + 1, 0, seq(n, _ => Cpu(-1, -1)))
  }

  lemma {:induction false} UnusedAt(procs: seq<Proc>, i: nat, k: nat)
    requires i <= k < |procs| && procs[k].state == UNUSED && forall j | i <= j < k :: procs[j].state != UNUSED
    ensures FirstUnused(procs, i) == k
    decreases k - i
  {
    if i < k {
      UnusedAt(procs, i + 1, k);
    }
  }

  lemma CrowdAllocs(n: nat, k: nat)
    requires k < NPROC && Shape(Crowd(n, k))
    ensures AllocOf(Crowd(n, k)) ==
            Crowd(n, k).(procs := Crowd(n, k).procs[k := Proc(EMBRYO, k + 1, 3, -1, 0)], nextpid := k + 2)
  {
    UnusedAt(Crowd(n, k).procs, 0, k);
  }

  lemma CrowdStarts(n: nat, k: nat, t: Table)
    requires k < NPROC && Shape(t)
    requires t == Crowd(n, k).(procs := Crowd(n, k).procs[k := Proc(EMBRYO, k + 1, 3, -1, 0)], nextpid := k + 2)
    ensures Ready(t, k) == Crowd(n, k + 1)
  {
    var procs := t.procs[k := t.procs[k].(state := RUNNABLE)];
    assert FindPid(procs, t.queues[2], k + 1) == |t.queues[2]|;
    assert t.queues[2] + [k] == Crowd(n, k + 1).queues[2];
    assert procs == Crowd(n, k + 1).procs;
  }

  lemma {:induction false} EventThen(t: Table, es: seq<Event>, m: Table, e: Event, t': Table)
    requires IsRun(t, es, m) && StepTo(m, e, t')
    ensures IsRun(t, es + [e], t')
  {
    hide StepTo;
    var all := es + [e];
    assert all[..|all| - 1] == es && all[|all| - 1] == e;
  }

  lemma {:induction false} CrowdReached(n: nat, k: nat) returns (es: seq<Event>)
    requires k <= NPROC
    ensures IsRun(Boot(n), es, Crowd(n, k))
    decreases k
  {
    if k == 0 {
      assert Crowd(n, 0).procs == Boot(n).procs && Crowd(n, 0).queues[2] == [];
      es := [];
    } else {
      var t := Crowd(n, k - 1);
      var before := CrowdReached(n, k - 1);
      var m, t' := CrowdSteps(n, k - 1);
      hide StepTo, IsRun;
      EventThen(Boot(n), before, t, Alloc, m);
      EventThen(Boot(n), before + [Alloc], m, Start(k - 1, -1), t');
      es := before + [Alloc] + [Start(k - 1, -1)];
    }
  }

  lemma CrowdSteps(n: nat, k: nat) returns (m: Table, t': Table)
    requires k < NPROC
    ensures StepTo(Crowd(n, k), Alloc, m) && StepTo(m, Start(k, -1), t') && t' == Crowd(n, k + 1)
  {
    var t := Crowd(n, k);
    CrowdAllocs(n, k);
    m := AllocOf(t);
    assert m.procs[k := m.procs[k].(parent := -1)] == m.procs;
    hide Ready, AllocOf, FirstUnused;
    CrowdStarts(n, k, m);
    t' := Crowd(n, k + 1);
  }

  /** The kernel at boot: the queue array is all null pointers. */
  ghost function AtBoot(n: nat): (s: State)
    ensures Safe(s)
  {
    BootIsSafe(n);
    State(Boot(n), seq(PLEVELS, _ => seq(NPROC, _ => -1)), [Out])
  }

  lemma BootIsSafe(n: nat)
    ensures Safe(State(Boot(n), seq(PLEVELS, _ => seq(NPROC, _ => -1)), [Out]))
  {
    BootKeepsInv(n);
    hide Inv, CpusMatch;
    InvIsSafe(State(Boot(n), seq(PLEVELS, _ => seq(NPROC, _ => -1)), [Out]));
  }

  /** The first CPU takes the first process. */
  lemma CrowdDispatches(n: nat, k: nat)
    requires 1 <= n && 1 <= k <= NPROC && Inv(Crowd(n, k))
    ensures StepTo(Crowd(n, k), Schedule(0), Dispatch(Crowd(n, k), 0)) && Inv(Dispatch(Crowd(n, k), 0))
    ensures var t := Dispatch(Crowd(n, k), 0); var m := Crowd(n, k);
            t.queues == m.queues[2 := m.queues[2][1..]] && t.cpus == m.cpus[0 := Cpu(0, 0)]
  {
    hide Inv, Dispatch, GoodPriorities;
    InvBasics(Crowd(n, k));
    DispatchIsRight(Crowd(n, k), 0);
    DispatchKeepsInv(Crowd(n, k), 0);
    assert FirstLevel(Crowd(n, k).queues, 0) == 2;
  }

  /** Four processes, the first of which runs on the first of two CPUs. */
  lemma FourStarted() returns (es: seq<Event>, t: Table)
    ensures IsRun(Boot(2), es, t) && Inv(t) && t.queues == [[], [], [1, 2, 3], [], []]
    ensures |t.cpus| == 2 && t.cpus[0].running == 0 && t.cpus[1].running < 0
  {
    hide Inv, CpusMatch, IsRun, Dispatch, StepTo;
    var before := CrowdReached(2, 4);
    BootKeepsInv(2);
    var m := Crowd(2, 4);
    RunsKeepInv(Boot(2), before, m);
    CrowdDispatches(2, 4);
    t := Dispatch(m, 0);
    assert m.queues[2][1..] == [1, 2, 3];
    EventThen(Boot(2), before, m, Schedule(0), t);
    es := before + [Schedule(0)];
  }

  /**
   So nice() does lose processes: a run from boot on two CPUs, with four processes of which the first runs and
   calls nice() twice, and at whose end the fourth is RUNNABLE and in no queue.
   */
  lemma LosesFromBoot() returns (acts: seq<Action>, s': State)
    ensures Trace(AtBoot(2), acts, s') && s'.calls == [Out] && Lost(s'.t, 3)
  {
    var es, t := FourStarted();
    hide CpusMatch, Trace, IsRun, Lost, WeakExcept, Carried;
    var before, m := LockedRun(AtBoot(2), es, t);
    var after;
    after, s' := StageLoses(m, 1);
    RunsJoin(AtBoot(2), before, m, after, s');
    acts := before + after;
  }
}
