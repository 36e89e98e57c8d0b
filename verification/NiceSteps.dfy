/**
 nice() (proc.c) step by step, among everything else that happens.

 nice() looks its process up under ptable.lock, releases the lock, and only then changes the
 priority, removes the process from one queue and adds it to another.  Here those are steps
 of their own, and the events under the lock, kill() and other calls of nice() fall between
 them in every order.  The yield of the timer also comes in two halves, with the lock held in
 between, as another CPU sees it.  The rows of the queue array are there as a whole, since the
 increment of a marker shows whatever stands behind it.
 */
module NiceSteps {
  import opened Common
  import opened Scheduler
  import opened PriorityChanges

  /** Where a call of nice(pid, v) stands; p is the slot it found.  A yield can stand at Placed, with the lock. */
  datatype Call =
    | Out                                          // not called, or returned
    | Looked(p: nat, v: int)                       // the slot is found, the lock released
    | Tagged(p: nat, was: int, v: int)             // the priority is written
    | Hit(p: nat, l: nat, v: int, i: nat)          // remove found the pid at index i of level l
    | Gone(p: nat, v: int)                         // remove is done
    | Absent(p: nat, v: int)                       // add did not find the pid
    | Placed(p: nat, v: int, locked: bool)         // add has written the slot at the marker

  /** `rows` is priority_q, in front of the markers and behind them; -1 is a null pointer. */
  datatype State = State(t: Table, rows: seq<seq<int>>, calls: seq<Call>)

  datatype Action =
    | Locked(e: Event)                    // a critical section of the scheduler
    | Kills(pid: int)
    | Asks(n: nat, pid: int, v: int)      // call n of nice() finds its process
    | Yields(n: nat, c: nat)              // the first half of yield() on CPU c
    | Goes(n: nat)                        // the next step of nice(), or the second half of yield()

  ghost predicate RowsMatch(t: Table, rows: seq<seq<int>>)
    requires |t.queues| == PLEVELS
  {
    && |rows| == PLEVELS
    && forall l | 0 <= l < PLEVELS ::
         && |rows[l]| == NPROC && |t.queues[l]| <= NPROC
         && (forall i | 0 <= i < NPROC :: rows[l][i] < NPROC)
         && (forall i | 0 <= i < |t.queues[l]| :: rows[l][i] == t.queues[l][i])
  }

  predicate CallFits(c: Call) {
    || c.Out?
    || (c.p < NPROC && 0 <= c.v <= PLEVELS && (c.Hit? ==> c.l < PLEVELS) &&
        (if c.Absent? || c.Placed? then c.v < PLEVELS else 1 <= c.v))
  }

  /** What the steps need to be defined: nothing about who is in which queue. */
  ghost predicate Defined(s: State) {
    && Shape(s.t) && GoodPriorities(s.t) && RowsMatch(s.t, s.rows)
    && forall n | 0 <= n < |s.calls| :: CallFits(s.calls[n])
  }

  /** The array when the queues have become `queues`: behind the markers nothing is cleared. */
  ghost function Fit(rows: seq<seq<int>>, queues: seq<seq<nat>>): (r: seq<seq<int>>)
    requires |rows| == |queues| == PLEVELS && forall l | 0 <= l < PLEVELS :: |queues[l]| <= |rows[l]| == NPROC
    ensures |r| == PLEVELS && forall l | 0 <= l < PLEVELS ::
              && |r[l]| == NPROC
              && forall i | 0 <= i < NPROC :: r[l][i] == if i < |queues[l]| then queues[l][i] else rows[l][i]
  {
    seq(PLEVELS, l requires 0 <= l < PLEVELS =>
      seq(NPROC, i requires 0 <= i < NPROC => if i < |queues[l]| then queues[l][i] else rows[l][i]))
  }

  /** What remove leaves of a queue when it closes the gap at i: its last entry is gone if i is past the end. */
  function Dropped(q: seq<nat>, i: nat): (r: seq<nat>)
    requires q != []
  {
    var j := DropIndex(q, i);
    q[..j] + q[j + 1..]
  }

  function DropIndex(q: seq<nat>, i: nat): (j: nat)
    requires q != []
    ensures j < |q|
  {
    if i < |q| then i else |q| - 1
  }

  ghost function Moved(s: State, t': Table): (r: State)
    requires Defined(s) && |t'.queues| == PLEVELS && forall l | 0 <= l < PLEVELS :: |t'.queues[l]| <= NPROC
  {
    s.(t := t', rows := Fit(s.rows, t'.queues))
  }

  /** The next step of call n, or nothing if it would use memory outside the rows or a null pointer. */
  ghost function Go(s: State, n: nat): (r: Option<State>)
    requires Defined(s) && n < |s.calls|
  {
    var t := s.t;
    match s.calls[n]
    case Out => None
    case Looked(p, v) =>
      Some(s.(t := t.(procs := t.procs[p := t.procs[p].(priority := v)]),
              calls := s.calls[n := Tagged(p, t.procs[p].priority, v)]))
    case Tagged(p, was, v) =>
      if was < 0 || was >= PLEVELS then None
      else
        var i := FindPid(t.procs, t.queues[was], t.procs[p].pid);
        Some(s.(calls := s.calls[n := if i < |t.queues[was]| then Hit(p, was, v, i) else Gone(p, v)]))
    case Hit(p, l, v, i) =>
      if t.queues[l] == [] then None
      else
        Some(Moved(s, t.(queues := t.queues[l := Dropped(t.queues[l], i)])).(calls := s.calls[n := Gone(p, v)]))
    case Gone(p, v) =>
      if v >= PLEVELS then None
      else
        var i := FindPid(t.procs, t.queues[v], t.procs[p].pid);
        Some(s.(calls := s.calls[n := if i < |t.queues[v]| then Out else Absent(p, v)]))
    case Absent(p, v) =>
      var k := |t.queues[v]|;
      if k >= NPROC then None
      else Some(s.(rows := s.rows[v := s.rows[v][k := p]], calls := s.calls[n := Placed(p, v, false)]))
    case Placed(p, v, _) =>
      var k := |t.queues[v]|;
      if k >= NPROC || s.rows[v][k] < 0 then None
      else Some(s.(t := t.(queues := t.queues[v := t.queues[v] + [s.rows[v][k]]]), calls := s.calls[n := Out]))
  }

  /** No entry of the level has the pid of p. */
  ghost predicate Unlisted(t: Table, p: nat, l: nat)
    requires Shape(t) && p < NPROC && l < PLEVELS
  {
    forall i | 0 <= i < |t.queues[l]| :: t.procs[t.queues[l][i]].pid != t.procs[p].pid
  }

  /** Somebody is between the halves of yield(), so that nobody else gets the lock. */
  predicate LockHeld(calls: seq<Call>) {
    exists n :: 0 <= n < |calls| && calls[n].Placed? && calls[n].locked
  }

  /** yield() up to the slot at the marker. */
  ghost function HalfYield(t: Table, c: nat): (r: Table)
    requires Shape(t) && Running(t, c)
  {
    var p := t.cpus[c].running;
    Scheduler.Idle(t.(procs := t.procs[p := t.procs[p].(state := RUNNABLE)]), c)
  }

  ghost predicate Does(s: State, a: Action, s': State) {
    && Defined(s) && (a.Goes? || !LockHeld(s.calls))
    && match a
       case Locked(e) =>
         Enabled(s.t, e) && FitsRows(Step(s.t, e)) && s' == Moved(s, Step(s.t, e))
       case Kills(pid) =>
         var k := Kill(s.t, pid); k.Done? && FitsRows(k.t) && s' == Moved(s, k.t)
       case Asks(n, pid, v) =>
         && n < |s.calls| && s.calls[n].Out? && Found(s.t, pid) && 1 <= v <= PLEVELS
         && s' == s.(calls := s.calls[n := Looked(FirstPid(s.t.procs, pid, 0), v)])
       case Yields(n, c) =>
         && n < |s.calls| && s.calls[n].Out? && Running(s.t, c)
         && var p := s.t.cpus[c].running; var l := s.t.procs[p].priority - 1; var k := |s.t.queues[l]|;
            && k < NPROC && Unlisted(s.t, p, l)
            && s' == State(HalfYield(s.t, c), s.rows[l := s.rows[l][k := p]], s.calls[n := Placed(p, l, true)])
       case Goes(n) => n < |s.calls| && Go(s, n) == Some(s')
  }

  ghost predicate FitsRows(t: Table) {
    |t.queues| == PLEVELS && forall l | 0 <= l < PLEVELS :: |t.queues[l]| <= NPROC
  }

  // What is kept.

  /** Taken out of a queue by the call, and to be put into another. */
  predicate Carries(c: Call) {
    c.Gone? || c.Absent? || c.Placed?
  }

  ghost function Carried(calls: seq<Call>): (r: set<nat>) {
    set n | 0 <= n < |calls| && Carries(calls[n]) :: calls[n].p
  }

  /** No RUNNABLE process is missing from the queues, but for those that a call of nice() carries. */
  ghost predicate Safe(s: State) {
    Defined(s) && WeakExcept(s.t, Carried(s.calls)) && CpusMatch(s.t)
  }

  /**
   The steps that do harm: a call takes out the entry of somebody else, who is in no other queue; or its
   increment shows an entry that is in the queue already, or one that is not its own, and its own is nowhere.
   */
  ghost predicate Clobbers(s: State, a: Action)
    requires Defined(s)
  {
    && a.Goes? && a.n < |s.calls|
    && var others := Carried(s.calls[a.n := Out]);
       match s.calls[a.n]
       case Hit(p, l, v, i) =>
         s.t.queues[l] != [] && var x := s.t.queues[l][DropIndex(s.t.queues[l], i)];
         && x != p && s.t.procs[x].state == RUNNABLE && x !in others
         && forall k | 0 <= k < PLEVELS && k != l :: x !in s.t.queues[k]
       case Placed(p, v, _) =>
         |s.t.queues[v]| < NPROC && var x := s.rows[v][|s.t.queues[v]|];
         || (x >= 0 && x in s.t.queues[v])
         || (x != p && s.t.procs[p].state == RUNNABLE && p !in others && !Queued(s.t.queues, p))
       case _ => false
  }

  lemma MovedDefined(s: State, t': Table)
    requires Defined(s) && Shape(t') && GoodPriorities(t') && FitsRows(t')
    ensures Defined(Moved(s, t'))
  {
  }

  /** What the calls carry if the n-th is c, and what the others carry. */
  lemma CarriedWith(calls: seq<Call>, n: nat, c: Call)
    requires n < |calls|
    ensures Carried(calls[n := c]) == if Carries(c) then Carried(calls[n := Out]) + {c.p} else Carried(calls[n := Out])
  {
    var with, without := calls[n := c], calls[n := Out];
    forall x: nat ensures x in Carried(with) <==> x in Carried(without) || (Carries(c) && x == c.p) {
      if x in Carried(with) {
        var m :| 0 <= m < |with| && Carries(with[m]) && with[m].p == x;
        assert m != n ==> Carries(without[m]) && without[m].p == x;
      }
      if x in Carried(without) {
        var m :| 0 <= m < |without| && Carries(without[m]) && without[m].p == x;
        assert Carries(with[m]) && with[m].p == x;
      }
      if Carries(c) && x == c.p {
        assert Carries(with[n]) && with[n].p == x;
      }
    }
  }

  lemma CarriedNow(calls: seq<Call>, n: nat)
    requires n < |calls|
    ensures Carried(calls) ==
            if Carries(calls[n]) then Carried(calls[n := Out]) + {calls[n].p} else Carried(calls[n := Out])
  {
    assert calls[n := calls[n]] == calls;
    CarriedWith(calls, n, calls[n]);
  }

  lemma SameCpus(t: Table, t': Table)
    requires Shape(t) && CpusMatch(t) && Shape(t') && t'.cpus == t.cpus
    requires forall p | 0 <= p < NPROC :: t'.procs[p].state == t.procs[p].state
    ensures CpusMatch(t')
  {
    SameRunningKeepsCpus(t, t');
  }

  /** Taking the j-th entry out of level l, for a call that has p in its hands from now on. */
  lemma DropKeepsIff(t: Table, l: nat, j: nat, t': Table, p: nat, spares: set<nat>)
    requires WeakExcept(t, spares) && l < PLEVELS && j < |t.queues[l]|
    requires t' == t.(queues := t.queues[l := t.queues[l][..j] + t.queues[l][j + 1..]])
    ensures Shape(t') && GoodPriorities(t')
    ensures var x := t.queues[l][j];
            WeakExcept(t', spares + {p}) <==>
            !(x != p && t.procs[x].state == RUNNABLE && x !in spares &&
              forall k | 0 <= k < PLEVELS && k != l :: x !in t.queues[k])
  {
    var x, q := t.queues[l][j], t.queues[l];
    RemoveKeepsWeak(t, l, j, t', spares);
    assert x !in q[..j] + q[j + 1..];
    assert Queued(t'.queues, x) <==> exists k :: 0 <= k < PLEVELS && k != l && x in t.queues[k] by {
      assert forall k | 0 <= k < PLEVELS && k != l :: t'.queues[k] == t.queues[k];
    }
    hide WeakExcept;
    WeakBasics(t', spares + {x});
    if !(t.procs[x].state == RUNNABLE && x !in spares && !Queued(t'.queues, x)) || x == p {
      WeakSpare(t', spares + {x}, spares + {p} + {x});
      if x == p {
        assert spares + {p} + {x} == spares + {p};
      } else if x in spares {
        assert spares + {p} + {x} == spares + {p};
      } else {
        SpareIsDone(t', x, spares + {p});
      }
    } else if WeakExcept(t', spares + {p}) {
      NotLost(t', x, spares + {p});
    }
  }

  lemma NotLost(t: Table, x: nat, spares: set<nat>)
    requires WeakExcept(t, spares) && x < NPROC && t.procs[x].state == RUNNABLE && x !in spares
    ensures Queued(t.queues, x)
  {
  }

  /** Showing the entry x at the end of level l, for a call that had p in its hands until now. */
  lemma ShowKeepsIff(t: Table, l: nat, x: nat, t': Table, p: nat, spares: set<nat>)
    requires WeakExcept(t, spares + {p}) && l < PLEVELS && x < NPROC && p < NPROC
    requires t' == t.(queues := t.queues[l := t.queues[l] + [x]])
    ensures Shape(t') && GoodPriorities(t')
    ensures WeakExcept(t', spares) <==>
            !(x in t.queues[l] ||
              (x != p && t.procs[p].state == RUNNABLE && p !in spares && !Queued(t.queues, p)))
  {
    var q := t.queues[l];
    assert t'.queues[l] == q + [x];
    assert NoRepeats(q + [x]) <==> x !in q by {
      if x in q {
        var i :| 0 <= i < |q| && q[i] == x;
        assert (q + [x])[i] == (q + [x])[|q|];
      }
    }
    assert Queued(t'.queues, p) <==> x == p || Queued(t.queues, p) by {
      ShownQueued(t.queues, l, x, p);
    }
    forall y: nat | y < NPROC && t.procs[y].state == RUNNABLE && y != p && y !in spares ensures Queued(t'.queues, y) {
      assert Queued(t.queues, y);
      ShownQueued(t.queues, l, x, y);
    }
  }

  lemma ShownQueued(queues: seq<seq<nat>>, l: nat, x: nat, y: nat)
    requires l < |queues|
    ensures Queued(queues[l := queues[l] + [x]], y) <==> x == y || Queued(queues, y)
  {
    var after := queues[l := queues[l] + [x]];
    assert x in after[l];
    if Queued(queues, y) {
      var k :| 0 <= k < |queues| && y in queues[k];
      assert y in after[k];
    }
    if Queued(after, y) && x != y {
      var k :| 0 <= k < |after| && y in after[k];
      assert y in queues[k];
    }
  }

  // The steps of a call, one by one.

  lemma LookedKeeps(s: State, n: nat, s': State)
    requires Safe(s) && n < |s.calls| && s.calls[n].Looked? && Go(s, n) == Some(s')
    ensures Safe(s')
  {
    var p, v := s.calls[n].p, s.calls[n].v;
    RetagKeepsWeak(s.t, p, v, Carried(s.calls));
    CarriedNow(s.calls, n);
    CarriedWith(s.calls, n, s'.calls[n]);
    hide WeakExcept, Carried, CpusMatch;
    WeakBasics(s'.t, Carried(s.calls));
    SameCpus(s.t, s'.t);
  }

  lemma TaggedKeeps(s: State, n: nat, s': State)
    requires Safe(s) && n < |s.calls| && s.calls[n].Tagged? && Go(s, n) == Some(s')
    ensures Safe(s')
  {
    hide WeakExcept, Carried, CpusMatch, Shape, GoodPriorities, RowsMatch, FindPid;
    CarriedNow(s.calls, n);
    CarriedWith(s.calls, n, s'.calls[n]);
    WeakSpare(s.t, Carried(s.calls), Carried(s'.calls));
  }

  lemma HitKeepsIff(s: State, n: nat, s': State)
    requires Safe(s) && n < |s.calls| && s.calls[n].Hit? && Go(s, n) == Some(s')
    ensures Safe(s') <==> !Clobbers(s, Goes(n))
  {
    hide WeakExcept, Carried, CpusMatch, GoodPriorities;
    var c := s.calls[n];
    var q := s.t.queues[c.l];
    var j := DropIndex(q, c.i);
    CarriedNow(s.calls, n);
    CarriedWith(s.calls, n, s'.calls[n]);
    DropKeepsIff(s.t, c.l, j, s'.t, c.p, Carried(s.calls));
    MovedDefined(s, s'.t);
    SameCpus(s.t, s'.t);
  }

  lemma GoneKeeps(s: State, n: nat, s': State)
    requires Safe(s) && n < |s.calls| && s.calls[n].Gone? && Go(s, n) == Some(s')
    ensures Safe(s')
  {
    var p, v := s.calls[n].p, s.calls[n].v;
    var i := FindPid(s.t.procs, s.t.queues[v], s.t.procs[p].pid);
    if i < |s.t.queues[v]| && s.t.procs[p].state == RUNNABLE {
      FindsItself(s.t.procs, s.t.queues[v], p);
      assert Queued(s.t.queues, p);
    }
    hide WeakExcept, Carried, CpusMatch, Shape, GoodPriorities, RowsMatch, FindPid;
    CarriedNow(s.calls, n);
    CarriedWith(s.calls, n, s'.calls[n]);
    if s'.calls[n].Out? {
      SpareIsDone(s.t, p, Carried(s'.calls));
    }
  }

  lemma AbsentKeeps(s: State, n: nat, s': State)
    requires Safe(s) && n < |s.calls| && s.calls[n].Absent? && Go(s, n) == Some(s')
    ensures Safe(s')
  {
    hide WeakExcept, Carried, CpusMatch, Shape, GoodPriorities;
    CarriedNow(s.calls, n);
    CarriedWith(s.calls, n, s'.calls[n]);
  }

  lemma PlacedKeepsIff(s: State, n: nat, s': State)
    requires Safe(s) && n < |s.calls| && s.calls[n].Placed? && Go(s, n) == Some(s')
    ensures Safe(s') <==> !Clobbers(s, Goes(n))
  {
    hide WeakExcept, Carried, CpusMatch, GoodPriorities;
    var c := s.calls[n];
    CarriedNow(s.calls, n);
    CarriedWith(s.calls, n, Out);
    ShowKeepsIff(s.t, c.v, s.rows[c.v][|s.t.queues[c.v]|], s'.t, c.p, Carried(s'.calls));
    SameCpus(s.t, s'.t);
  }

  /** The sections under the lock do no harm, wherever the calls stand. */
  lemma LockedKeeps(s: State, e: Event, s': State)
    requires Safe(s) && Does(s, Locked(e), s')
    ensures Safe(s')
  {
    hide WeakExcept, Carried, CpusMatch, Step, GoodPriorities, RowsMatch, Enabled;
    StepKeepsWeak(s.t, e, Carried(s.calls));
    WeakBasics(s'.t, Carried(s.calls));
    StepKeepsCpus(s.t, e);
    MovedDefined(s, s'.t);
  }

  lemma KillKeeps(s: State, pid: int, s': State)
    requires Safe(s) && Does(s, Kills(pid), s')
    ensures Safe(s')
  {
    hide WeakExcept, Carried, CpusMatch, GoodPriorities, RowsMatch, FirstPid, Added;
    KillKeepsWeak(s.t, pid, Carried(s.calls));
    WeakBasics(s'.t, Carried(s.calls));
    SameRunningKeepsCpus(s.t, s'.t);
    MovedDefined(s, s'.t);
  }

  lemma AsksKeeps(s: State, n: nat, pid: int, v: int, s': State)
    requires Safe(s) && Does(s, Asks(n, pid, v), s')
    ensures Safe(s')
  {
    hide WeakExcept, Carried, CpusMatch, GoodPriorities, RowsMatch, FirstPid;
    CarriedNow(s.calls, n);
    CarriedWith(s.calls, n, s'.calls[n]);
  }

  lemma YieldsKeeps(s: State, n: nat, c: nat, s': State)
    requires Safe(s) && Does(s, Yields(n, c), s')
    ensures Safe(s')
  {
    var p := s.t.cpus[c].running;
    var t1 := s.t.(procs := s.t.procs[p := s.t.procs[p].(state := RUNNABLE)]);
    ChangeKeepsWeak(s.t, p, s.t.procs[p].(state := RUNNABLE), Carried(s.calls));
    hide WeakExcept, Carried;
    IdleKeepsWeak(t1, c, Carried(s.calls) + {p});
    WeakBasics(s'.t, Carried(s.calls) + {p});
    StopKeepsCpus(s.t, s'.t, c);
    CarriedNow(s.calls, n);
    CarriedWith(s.calls, n, s'.calls[n]);
    hide CpusMatch, GoodPriorities;
    YieldRows(s, p, s.t.procs[p].priority - 1, s'.t, s'.rows);
  }

  lemma YieldRows(s: State, p: nat, l: nat, t': Table, rows: seq<seq<int>>)
    requires Defined(s) && p < NPROC && l < PLEVELS && |s.t.queues[l]| < NPROC && t'.queues == s.t.queues
    requires rows == s.rows[l := s.rows[l][|s.t.queues[l]| := p]]
    ensures RowsMatch(t', rows)
  {
  }

  lemma Returned(s: State, n: nat)
    requires Defined(s) && n < |s.calls| && s.calls[n].Out?
    ensures Go(s, n) == None
  {
  }

  /** Of all steps, in every order, exactly the clobbering ones lose a process or list one twice. */
  lemma StepKeepsIff(s: State, a: Action, s': State)
    requires Safe(s) && Does(s, a, s')
    ensures Safe(s') <==> !Clobbers(s, a)
  {
    hide WeakExcept, Carried, CpusMatch, Defined, Go;
    match a
    case Locked(e) => LockedKeeps(s, e, s');
    case Kills(pid) => KillKeeps(s, pid, s');
    case Asks(n, pid, v) => AsksKeeps(s, n, pid, v, s');
    case Yields(n, c) => YieldsKeeps(s, n, c, s');
    case Goes(n) =>
      match s.calls[n]
      case Out => Returned(s, n);
      case Looked(_, _) => LookedKeeps(s, n, s');
      case Tagged(_, _, _) => TaggedKeeps(s, n, s');
      case Hit(_, _, _, _) => HitKeepsIff(s, n, s');
      case Gone(_, _) => GoneKeeps(s, n, s');
      case Absent(_, _) => AbsentKeeps(s, n, s');
      case Placed(_, _, _) => PlacedKeepsIff(s, n, s');
  }

  /** The rows are long enough for the sections under the lock, so that none is kept from running. */
  lemma LockedFits(s: State, e: Event)
    requires Safe(s) && Enabled(s.t, e)
    ensures FitsRows(Step(s.t, e))
  {
    hide Step;
    StepKeepsWeak(s.t, e, Carried(s.calls));
    var t' := Step(s.t, e);
    forall l | 0 <= l < PLEVELS ensures |t'.queues[l]| <= NPROC {
      DistinctFit(t'.queues[l], NPROC);
    }
  }

  // Runs.

  ghost predicate Trace(s: State, acts: seq<Action>, s': State)
    decreases |acts|
  {
    if acts == [] then s' == s
    else
      var before, last := acts[..|acts| - 1], acts[|acts| - 1];
      exists m :: Trace(s, before, m) && Does(m, last, s')
  }

  /** A run in which no step clobbers a queue. */
  ghost predicate CleanRun(s: State, acts: seq<Action>, s': State)
    decreases |acts|
  {
    if acts == [] then s' == s
    else
      var before, last := acts[..|acts| - 1], acts[|acts| - 1];
      exists m :: CleanRun(s, before, m) && Does(m, last, s') && !Clobbers(m, last)
  }

  /**
   What holds in every such run, nice() and kill() included, up to the first call that leaves the queue array:
   no RUNNABLE process is missing from the queues but for those that a call of nice() carries, so that none is
   when all calls have returned; no queue lists a slot twice; and although a process can be in two queues, no
   two CPUs run it.
   */
  lemma {:induction false} NeverLost(s: State, acts: seq<Action>, s': State)
    requires Safe(s) && CleanRun(s, acts, s')
    ensures Safe(s')
    ensures (forall n | 0 <= n < |s'.calls| :: s'.calls[n].Out?) ==> Weak(s'.t)
    decreases |acts|
  {
    if acts != [] {
      hide Safe, Does, Clobbers;
      var before, last := acts[..|acts| - 1], acts[|acts| - 1];
      var m :| CleanRun(s, before, m) && Does(m, last, s') && !Clobbers(m, last);
      NeverLost(s, before, m);
      StepKeepsIff(m, last, s');
    }
    NobodyCarried(s');
  }

  lemma NobodyCarried(s: State)
    requires Safe(s)
    ensures (forall n | 0 <= n < |s.calls| :: s.calls[n].Out?) ==> Weak(s.t)
  {
    if forall n | 0 <= n < |s.calls| :: s.calls[n].Out? {
      assert Carried(s.calls) == {};
    }
  }

  /** Where the scheduler invariant holds and nice() is not being called, runs start from a safe state. */
  lemma InvIsSafe(s: State)
    requires Inv(s.t) && CpusMatch(s.t) && RowsMatch(s.t, s.rows) && forall n | 0 <= n < |s.calls| :: s.calls[n].Out?
    ensures Safe(s)
  {
    InvIsWeak(s.t);
    assert Carried(s.calls) == {};
  }

  // Calls that nobody disturbs.

  /** What a call has found out still holds. */
  ghost predicate Intact(s: State, c: Call)
    requires Defined(s) && CallFits(c)
  {
    match c
    case Hit(p, l, v, i) => i < |s.t.queues[l]| && s.t.procs[s.t.queues[l][i]].pid == s.t.procs[p].pid
    case Absent(p, v) => Unlisted(s.t, p, v)
    case Placed(p, v, _) => Unlisted(s.t, p, v) && |s.t.queues[v]| < NPROC && s.rows[v][|s.t.queues[v]|] == p
    case _ => true
  }

  ghost predicate AllIntact(s: State) {
    Defined(s) && forall n | 0 <= n < |s.calls| :: Intact(s, s.calls[n])
  }

  /** If a call stands still in the midst of nice(), the step changes neither queues nor pids. */
  ghost predicate Undisturbed(s: State, a: Action, s': State) {
    (exists m :: 0 <= m < |s.calls| && !s.calls[m].Out? && a != Goes(m)) ==>
      && s'.rows == s.rows && s'.t.queues == s.t.queues && |s'.t.procs| == |s.t.procs|
      && forall p | 0 <= p < |s.t.procs| :: s'.t.procs[p].pid == s.t.procs[p].pid
  }

  /** Then no step clobbers a queue: undisturbed calls lose nobody. */
  lemma IntactClobbersNothing(s: State, a: Action)
    requires Safe(s) && AllIntact(s)
    ensures !Clobbers(s, a)
  {
    if a.Goes? && a.n < |s.calls| {
      assert Intact(s, s.calls[a.n]);
    }
  }

  lemma GoIntact(s: State, n: nat, s': State)
    requires Defined(s) && Defined(s') && n < |s.calls| && Intact(s, s.calls[n]) && Go(s, n) == Some(s')
    ensures n < |s'.calls| && Intact(s', s'.calls[n])
  {
  }

  lemma OthersIntact(s: State, a: Action, s': State, m: nat)
    requires Defined(s) && Defined(s') && Does(s, a, s') && m < |s.calls| == |s'.calls| && s'.calls[m] == s.calls[m]
    requires Intact(s, s.calls[m]) && Undisturbed(s, a, s') && a != Goes(m)
    ensures Intact(s', s'.calls[m])
  {
    hide Does;
  }

  lemma StepsOne(s: State, a: Action, s': State, m: nat)
    requires Does(s, a, s') && m < |s.calls|
    ensures |s'.calls| == |s.calls|
    ensures a != Goes(m) && !((a.Asks? || a.Yields?) && a.n == m) ==> s'.calls[m] == s.calls[m]
    ensures a.Asks? && a.n == m ==> s'.calls[m].Looked?
  {
    hide Step, Kill, Enabled, FindPid;
  }

  lemma StepIntact(s: State, a: Action, s': State)
    requires AllIntact(s) && Does(s, a, s') && Defined(s') && Undisturbed(s, a, s')
    ensures AllIntact(s')
  {
    hide Does, Intact, Undisturbed, Go;
    forall m | 0 <= m < |s'.calls| ensures Intact(s', s'.calls[m]) {
      StepsSize(s, a, s');
      StepsOne(s, a, s', m);
      if a == Goes(m) {
        Took(s, m, s');
        GoIntact(s, m, s');
      } else if a.Asks? && a.n == m {
        JustLooked(s', s'.calls[m]);
      } else if a.Yields? && a.n == m {
        JustPlaced(s, m, a.c, s');
      } else {
        OthersIntact(s, a, s', m);
      }
    }
  }

  lemma StepsSize(s: State, a: Action, s': State)
    requires Does(s, a, s')
    ensures |s'.calls| == |s.calls|
  {
    hide Step, Kill, Enabled, FindPid;
  }

  lemma Took(s: State, m: nat, s': State)
    requires Does(s, Goes(m), s')
    ensures m < |s.calls| && Go(s, m) == Some(s')
  {
  }

  lemma JustPlaced(s: State, n: nat, c: nat, s': State)
    requires Does(s, Yields(n, c), s') && Defined(s')
    ensures n < |s'.calls| && Intact(s', s'.calls[n])
  {
    hide GoodPriorities;
  }

  lemma JustLooked(s: State, c: Call)
    requires Defined(s) && CallFits(c) && c.Looked?
    ensures Intact(s, c)
  {
  }

  /** A run in which nobody touches the queues while a call of nice() is on its way between release and return. */
  ghost predicate UndisturbedRun(s: State, acts: seq<Action>, s': State)
    decreases |acts|
  {
    if acts == [] then s' == s
    else
      var before, last := acts[..|acts| - 1], acts[|acts| - 1];
      exists m :: UndisturbedRun(s, before, m) && Does(m, last, s') && Undisturbed(m, last, s')
  }

  /** Such runs clobber nothing, so that NeverLost is about them. */
  lemma {:induction false} UndisturbedIsClean(s: State, acts: seq<Action>, s': State)
    requires Safe(s) && AllIntact(s) && UndisturbedRun(s, acts, s')
    ensures CleanRun(s, acts, s') && Safe(s') && AllIntact(s')
    decreases |acts|
  {
    if acts != [] {
      hide Does, Undisturbed, Clobbers, WeakExcept, CpusMatch, AllIntact;
      var before, last := acts[..|acts| - 1], acts[|acts| - 1];
      var m :| UndisturbedRun(s, before, m) && Does(m, last, s') && Undisturbed(m, last, s');
      UndisturbedIsClean(s, before, m);
      IntactClobbersNothing(m, last);
      StepKeepsIff(m, last, s');
      StepIntact(m, last, s');
    }
  }

  // What such a call does as a whole.

  function Left(c: Call): (k: nat) {
    match c
    case Looked(_, _) => 6
    case Tagged(_, _, _) => 5
    case Hit(_, _, _, _) => 4
    case Gone(_, _) => 3
    case Absent(_, _) => 2
    case Placed(_, _, _) => 1
    case Out => 0
  }

  lemma GoGoesOn(s: State, n: nat)
    requires Defined(s) && n < |s.calls|
    ensures var g := Go(s, n); g.Some? ==>
              && |g.value.calls| == |s.calls| && Left(g.value.calls[n]) < Left(s.calls[n])
              && CallFits(g.value.calls[n]) && g.value.calls == s.calls[n := g.value.calls[n]]
  {
    hide FindPid, RowsMatch, GoodPriorities;
  }

  lemma GoDefined(s: State, n: nat)
    requires Defined(s) && n < |s.calls|
    ensures var g := Go(s, n); g.Some? ==>
              Defined(g.value) && |g.value.calls| == |s.calls| && Left(g.value.calls[n]) < Left(s.calls[n])
  {
    GoGoesOn(s, n);
    hide FindPid, GoodPriorities, Left;
    if Go(s, n).Some? {
      if s.calls[n].Hit? {
        HitDefined(s, n);
      } else if s.calls[n].Looked? {
        LookedDefined(s, n);
      }
    }
  }

  lemma HitDefined(s: State, n: nat)
    requires Defined(s) && n < |s.calls| && s.calls[n].Hit? && Go(s, n).Some?
    ensures Defined(Go(s, n).value)
  {
    hide GoodPriorities, RowsMatch;
    var c := s.calls[n];
    var t' := s.t.(queues := s.t.queues[c.l := Dropped(s.t.queues[c.l], c.i)]);
    RowsBound(s.t, s.rows);
    assert GoodPriorities(t') by {
      SamePriorities(s.t, t');
    }
    MovedDefined(s, t');
  }

  lemma LookedDefined(s: State, n: nat)
    requires Defined(s) && n < |s.calls| && s.calls[n].Looked? && Go(s, n).Some?
    ensures Defined(Go(s, n).value)
  {
    hide RowsMatch;
    SameRows(s.t, Go(s, n).value.t, s.rows);
  }

  lemma SameRows(t: Table, t': Table, rows: seq<seq<int>>)
    requires |t.queues| == PLEVELS && t'.queues == t.queues && RowsMatch(t, rows)
    ensures RowsMatch(t', rows)
  {
  }

  lemma SamePriorities(t: Table, t': Table)
    requires GoodPriorities(t) && t'.procs == t.procs
    ensures GoodPriorities(t')
  {
  }

  lemma RowsBound(t: Table, rows: seq<seq<int>>)
    requires |t.queues| == PLEVELS && RowsMatch(t, rows)
    ensures forall l | 0 <= l < PLEVELS :: |t.queues[l]| <= NPROC
  {
  }

  /** All steps of call n that are left, one after the other. */
  ghost function Finish(s: State, n: nat): (r: Option<State>)
    requires Defined(s) && n < |s.calls|
    decreases Left(s.calls[n])
  {
    GoDefined(s, n);
    if s.calls[n].Out? then Some(s)
    else
      match Go(s, n)
      case None => None
      case Some(m) => Finish(m, n)
  }

  /** The second half of a call is add_process_to_queue. */
  lemma {:induction false} FinishGone(s: State, n: nat)
    requires Defined(s) && n < |s.calls| && s.calls[n].Gone? && s.calls[n].v < PLEVELS
    requires NoRepeats(s.t.queues[s.calls[n].v])
    ensures var r := Finish(s, n);
            r.Some? && r.value.t == Enqueue(s.t, s.calls[n].p, s.calls[n].v) && r.value.calls == s.calls[n := Out]
  {
    hide GoodPriorities, FindPid;
    var p, v := s.calls[n].p, s.calls[n].v;
    var q := s.t.queues[v];
    GoDefined(s, n);
    var m := Go(s, n).value;
    if m.calls[n].Out? {
      assert s.t.queues[v := q] == s.t.queues;
      assert Finish(m, n) == Some(m);
    } else {
      assert p !in q;
      RoomFor(q, p);
      FinishAbsent(m, n);
      assert Finish(s, n) == Finish(m, n);
    }
  }

  lemma {:induction false} FinishAbsent(s: State, n: nat)
    requires Defined(s) && n < |s.calls| && s.calls[n].Absent? && |s.t.queues[s.calls[n].v]| < NPROC
    ensures var r := Finish(s, n); var v := s.calls[n].v;
            && r.Some? && r.value.calls == s.calls[n := Out]
            && r.value.t == s.t.(queues := s.t.queues[v := s.t.queues[v] + [s.calls[n].p]])
  {
    hide GoodPriorities, FindPid;
    GoDefined(s, n);
    var m := Go(s, n).value;
    GoDefined(m, n);
    var m' := Go(m, n).value;
    assert Finish(m', n) == Some(m');
    assert Finish(m, n) == Finish(m', n);
  }

  /** The first half is remove_process_from_queue. */
  lemma {:induction false} FinishTagged(s: State, n: nat, t': Table)
    requires Defined(s) && n < |s.calls| && s.calls[n].Tagged? && 0 <= s.calls[n].was < PLEVELS
    requires var c := s.calls[n];
             t' == s.t.(queues := s.t.queues[c.was := Removed(s.t.procs, s.t.queues[c.was], s.t.procs[c.p].pid)])
    ensures exists m :: Defined(m) && m.t == t' && m.calls == s.calls[n := Gone(s.calls[n].p, s.calls[n].v)] &&
              Finish(s, n) == Finish(m, n)
  {
    hide GoodPriorities, FindPid;
    GoDefined(s, n);
    var m := Go(s, n).value;
    if m.calls[n].Hit? {
      GoDefined(m, n);
      var m' := Go(m, n).value;
      assert m'.t == t' && m'.calls == s.calls[n := Gone(s.calls[n].p, s.calls[n].v)];
      assert Finish(s, n) == Finish(m, n) == Finish(m', n);
    } else {
      assert s.t.queues[s.calls[n].was := s.t.queues[s.calls[n].was]] == s.t.queues;
      assert Finish(s, n) == Finish(m, n);
    }
  }

  /** Both halves. */
  lemma {:induction false} FinishBoth(s: State, n: nat, t': Table)
    requires Defined(s) && Weak(s.t) && n < |s.calls| && s.calls[n].Tagged? && 0 <= s.calls[n].was < PLEVELS
    requires var c := s.calls[n];
             t' == s.t.(queues := s.t.queues[c.was := Removed(s.t.procs, s.t.queues[c.was], s.t.procs[c.p].pid)])
    ensures Shape(t') && s.calls[n].p < NPROC
    ensures s.calls[n].v >= PLEVELS ==> Finish(s, n) == None
    ensures 0 <= s.calls[n].v < PLEVELS ==>
              && Finish(s, n).Some? && Finish(s, n).value.calls == s.calls[n := Out]
              && Finish(s, n).value.t == Enqueue(t', s.calls[n].p, s.calls[n].v)
  {
    hide WeakExcept, GoodPriorities, FindPid, RowsMatch, Removed, Enqueue, Shape;
    var c := s.calls[n];
    assert CallFits(c);
    WeakBasics(s.t, {});
    RemovedShape(s.t, c.was, s.t.procs[c.p].pid, t');
    FinishTagged(s, n, t');
    var g :| Defined(g) && g.t == t' && g.calls == s.calls[n := Gone(c.p, c.v)] && Finish(s, n) == Finish(g, n);
    if c.v < PLEVELS {
      FinishGone(g, n);
      assert g.calls[n := Out] == s.calls[n := Out];
    }
  }

  /** A call that nothing interleaves with does what Nice says, and leaves the queue array exactly when that says so. */
  lemma {:induction false} CallIsNice(s: State, n: nat, pid: int, v: int, s': State)
    requires Defined(s) && Weak(s.t) && Does(s, Asks(n, pid, v), s')
    ensures Defined(s') && n < |s'.calls|
    ensures match Nice(s.t, pid, v)
            case Wild => Finish(s', n) == None
            case Done(t') => Finish(s', n).Some? && Finish(s', n).value.t == t' && Finish(s', n).value.calls == s.calls
  {
    hide WeakExcept, GoodPriorities, FindPid, FirstPid, RowsMatch, Removed, Enqueue;
    WeakBasics(s.t, {});
    var p := FirstPid(s.t.procs, pid, 0);
    var was := s.t.procs[p].priority;
    GoDefined(s', n);
    var m := Go(s', n).value;
    assert Finish(s', n) == Finish(m, n);
    assert m.calls == s.calls[n := Tagged(p, was, v)];
    if 0 <= was < PLEVELS {
      RetagKeepsWeak(s.t, p, v, {});
      FinishBoth(m, n, m.t.(queues := m.t.queues[was := Removed(m.t.procs, m.t.queues[was], pid)]));
      assert m.calls[n := Out] == s.calls;
    }
  }

  // What disturbs a call.

  /** The scheduler takes the head of the best queue off, and nobody else is touched. */
  lemma TakesHead(t: Table, c: nat, l: nat)
    requires Shape(t) && c < |t.cpus| && l == FirstLevel(t.queues, 0) < PLEVELS
    ensures var q, t' := t.queues[l], Dispatch(t, c);
            && t'.queues == t.queues[l := q[1..]] && |t'.procs| == NPROC
            && (forall x | 0 <= x < NPROC && x != q[0] :: t'.procs[x] == t.procs[x])
            && (forall x | 0 <= x < NPROC :: t'.procs[x].pid == t.procs[x].pid)
  {
    var q := t.queues[l];
    assert Removed(t.procs, q, t.procs[q[0]].pid) == q[1..];
  }

  lemma Scheduled(s: State, c: nat, s': State)
    requires Does(s, Locked(Schedule(c)), s')
    ensures Defined(s) && c < |s.t.cpus| && FitsRows(Dispatch(s.t, c)) && s' == Moved(s, Dispatch(s.t, c))
  {
  }

  /** A process is taken off the queue between the two halves of adding to it: the call then does harm. */
  lemma DispatchSpoils(s: State, n: nat, c: nat, s': State)
    requires Safe(s) && AllIntact(s) && n < |s.calls| && s.calls[n].Placed? && Does(s, Locked(Schedule(c)), s')
    requires var p := s.calls[n].p; s.t.procs[p].state == RUNNABLE && !Queued(s.t.queues, p)
    requires s.calls[n].p !in Carried(s.calls[n := Out]) && FirstLevel(s.t.queues, 0) == s.calls[n].v
    ensures Defined(s') && Clobbers(s', Goes(n))
  {
    hide Carried, WeakExcept, CpusMatch, FirstLevel, GoodPriorities, Dispatch, Does;
    LockedKeeps(s, Schedule(c), s');
    Scheduled(s, c, s');
    var p, v := s.calls[n].p, s.calls[n].v;
    var q := s.t.queues[v];
    assert Intact(s, s.calls[n]);
    TakesHead(s.t, c, v);
    assert p != q[0] by {
      assert q[0] in q;
    }
    NotShown(s.t.queues, v, p);
    assert s'.rows[v][|q| - 1] == q[|q| - 1];
    assert |q| > 1 ==> q[|q| - 1] in q[1..];
  }

  lemma NotShown(queues: seq<seq<nat>>, l: nat, p: nat)
    requires l < |queues| && queues[l] != [] && !Queued(queues, p)
    ensures !Queued(queues[l := queues[l][1..]], p)
  {
    var after := queues[l := queues[l][1..]];
    forall k | 0 <= k < |after| ensures p !in after[k] {
      assert p !in queues[k];
    }
  }

  /** The two halves of yield(), one after the other, are its event. */
  lemma HalvesAreYield(s: State, n: nat, c: nat, s': State)
    requires Does(s, Yields(n, c), s') && Defined(s')
    ensures GoodPriorities(s.t) && Enabled(s.t, Yield(c)) && n < |s'.calls|
    ensures Go(s', n).Some? && Go(s', n).value.t == Step(s.t, Yield(c)) && Go(s', n).value.calls == s.calls
  {
    var p := s.t.cpus[c].running;
    var l := s.t.procs[p].priority - 1;
    var procs := s.t.procs[p := s.t.procs[p].(state := RUNNABLE)];
    assert FindPid(procs, s.t.queues[l], procs[p].pid) == |s.t.queues[l]|;
    assert s'.calls[n := Out] == s.calls;
    hide FindPid, GoodPriorities;
  }

  /**
   Two additions to one queue at once.  A call of nice() is about to write the slot at the marker, another CPU has
   done so for a yielding process and has not yet counted it: the call overwrites the entry, the count shows the
   other process, and the yielding one is lost.
   */
  lemma OverwriteLoses(s: State, n: nat, m: nat, c: nat, s1: State, s2: State)
    requires Safe(s) && n < |s.calls| && s.calls[n].Absent? && Does(s, Yields(m, c), s1) && Does(s1, Goes(n), s2)
    requires var d := s.t.cpus[c].running;
             && s.t.procs[d].priority - 1 == s.calls[n].v && d != s.calls[n].p
             && d !in Carried(s.calls) && !Queued(s.t.queues, d)
    ensures Defined(s2) && Clobbers(s2, Goes(m))
  {
    var d, v := s.t.cpus[c].running, s.calls[n].v;
    YieldsKeeps(s, m, c, s1);
    AbsentKeeps(s1, n, s2);
    assert n != m;
    assert s2.calls == s.calls[m := Placed(d, v, true)][n := Placed(s.calls[n].p, v, false)];
    assert d !in Carried(s2.calls[m := Out]) by {
      var rest := s2.calls[m := Out];
      forall k | 0 <= k < |rest| && Carries(rest[k]) ensures rest[k].p != d {
        assert s.calls[k].p != d;
      }
    }
    hide Carried, WeakExcept, CpusMatch, GoodPriorities;
    assert s2.rows[v][|s.t.queues[v]|] == s.calls[n].p;
  }
}
