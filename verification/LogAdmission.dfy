/**
 Group commit and admission (begin_op, end_op and log_write in log.c) as a state machine
 over the critical sections of log.lock, for any number of processes and any run length.

 An operation may append at most MAXOPBLOCKS entries to the header; that is the promise
 admission relies on.  Its rounds of waiting are events of their own, so the results also
 cover sleep and wakeup on &log.
 */
module LogAdmission {
  import opened Common

  /**
   `ops` holds, for each outstanding operation, how many entries it has appended;
   log.outstanding is |ops|.  `asleep` are the processes sleeping in begin_op.
   */
  datatype State = State(ops: seq<nat>, header: seq<nat>, committing: bool, asleep: set<nat>)

  datatype Event =
    | Begin(p: nat)                  // a pass through the loop of begin_op, by a process awake
    | LogWrite(op: nat, bn: nat)     // log_write by the op-th outstanding operation
    | End(op: nat)                   // the first critical section of end_op
    | CommitDone                     // the second one, after commit() has run

  datatype Outcome = Next(state: State) | Panic

  const Initial := State([], [], false, {})

  predicate MustWait(s: State) {
    s.committing || |s.header| + (|s.ops| + 1) * MAXOPBLOCKS > LOGSIZE
  }

  /** Appending is what spends the budget of an operation; absorption does not. */
  predicate Appends(s: State, e: Event) {
    e.LogWrite? && e.bn !in s.header
  }

  /** What can happen: awake processes begin, outstanding operations log within their budget and end. */
  predicate Enabled(s: State, e: Event) {
    match e
    case Begin(p) => p !in s.asleep
    case LogWrite(op, bn) => op < |s.ops| && (Appends(s, e) ==> s.ops[op] < MAXOPBLOCKS)
    case End(op) => op < |s.ops|
    case CommitDone => s.committing
  }

  /** What the code does, panics included; `size` is log.size. */
  function Step(s: State, e: Event, size: nat): (o: Outcome)
    requires Enabled(s, e)
  {
    match e
    case Begin(p) =>
      if MustWait(s) then Next(s.(asleep := s.asleep + {p}))
      else Next(s.(ops := s.ops + [0]))
    case LogWrite(op, bn) =>
      if |s.header| >= LOGSIZE || |s.header| >= size - 1 then Panic
      else if |s.ops| < 1 then Panic
      else if bn in s.header then Next(s)
      else Next(s.(header := s.header + [bn], ops := s.ops[op := s.ops[op] + 1]))
    case End(op) =>
      var s' := s.(ops := s.ops[..op] + s.ops[op + 1..]);
      if s.committing then Panic
      else if s'.ops == [] then Next(s'.(committing := true))
      else Next(s'.(asleep := {}))
    case CommitDone => Next(s.(header := [], committing := false, asleep := {}))
  }

  ghost predicate StepTo(s: State, e: Event, size: nat, s': State) {
    Enabled(s, e) && Step(s, e, size) == Next(s')
  }

  /** States that some run without a panic leads to. */
  ghost predicate Reachable(s: State, es: seq<Event>, size: nat)
    decreases |es|
  {
    if es == [] then s == Initial
    else
      var before, last := es[..|es| - 1], es[|es| - 1];
      exists m :: Reachable(m, before, size) && StepTo(m, last, size, s)
  }

  /** What the outstanding operations may still append. */
  function Unused(ops: seq<nat>): (u: int) {
    if ops == [] then 0 else Unused(ops[..|ops| - 1]) + (MAXOPBLOCKS - ops[|ops| - 1])
  }

  ghost predicate Inv(s: State) {
    && (forall i | 0 <= i < |s.ops| :: s.ops[i] <= MAXOPBLOCKS)
    && |s.header| + Unused(s.ops) <= LOGSIZE
    && (s.committing ==> s.ops == [])
    && (s.ops == [] && !s.committing ==> s.header == [])
    && NoRepeats(s.header)
    && (s.asleep != {} ==> MustWait(s))
  }

  lemma {:induction false} UnusedBounds(ops: seq<nat>)
    requires forall i | 0 <= i < |ops| :: ops[i] <= MAXOPBLOCKS
    ensures 0 <= Unused(ops) <= |ops| * MAXOPBLOCKS
  {
    if ops != [] {
      UnusedBounds(ops[..|ops| - 1]);
    }
  }

  lemma {:induction false} UnusedAt(ops: seq<nat>, i: nat)
    requires i < |ops| && forall j | 0 <= j < |ops| :: ops[j] <= MAXOPBLOCKS
    ensures Unused(ops[i := ops[i] + 1]) == Unused(ops) - 1
    ensures Unused(ops[..i] + ops[i + 1..]) == Unused(ops) - (MAXOPBLOCKS - ops[i])
    ensures Unused(ops) >= MAXOPBLOCKS - ops[i]
  {
    var front, last := ops[..|ops| - 1], ops[|ops| - 1];
    UnusedBounds(front);
    if i == |ops| - 1 {
      assert ops[i := ops[i] + 1][..i] == front;
      assert ops[..i] + ops[i + 1..] == front;
    } else {
      UnusedAt(front, i);
      assert ops[i := ops[i] + 1][..|ops| - 1] == front[i := ops[i] + 1];
      assert (ops[..i] + ops[i + 1..])[..|ops| - 2] == front[..i] + front[i + 1..];
    }
  }

  lemma BeginKeepsInv(s: State, p: nat, size: nat, s': State)
    requires Inv(s) && StepTo(s, Begin(p), size, s')
    ensures Inv(s')
  {
    UnusedBounds(s.ops);
    assert (s.ops + [0])[..|s.ops|] == s.ops;
  }

  lemma LogWriteKeepsInv(s: State, op: nat, bn: nat, size: nat, s': State)
    requires Inv(s) && StepTo(s, LogWrite(op, bn), size, s')
    ensures Inv(s')
  {
    if bn !in s.header {
      UnusedAt(s.ops, op);
      assert NoRepeats(s.header + [bn]);
    }
  }

  lemma EndKeepsInv(s: State, op: nat, size: nat, s': State)
    requires Inv(s) && StepTo(s, End(op), size, s')
    ensures Inv(s')
  {
    UnusedAt(s.ops, op);
  }

  lemma StepKeepsInv(s: State, e: Event, size: nat, s': State)
    requires Inv(s) && StepTo(s, e, size, s')
    ensures Inv(s')
  {
    match e
    case Begin(p) => BeginKeepsInv(s, p, size, s');
    case LogWrite(op, bn) => LogWriteKeepsInv(s, op, bn, size, s');
    case End(op) => EndKeepsInv(s, op, size, s');
    case CommitDone =>
  }

  /**
   Admission over every run: the header never outgrows LOGSIZE even if every outstanding
   operation uses its whole budget, a commit runs only when no operation is outstanding,
   header entries are distinct, and whoever sleeps in begin_op has to.
   */
  lemma {:induction false} AdmissionHolds(s: State, es: seq<Event>, size: nat)
    requires Reachable(s, es, size)
    ensures Inv(s)
    decreases |es|
  {
    if es != [] {
      var before, last := es[..|es| - 1], es[|es| - 1];
      var m :| Reachable(m, before, size) && StepTo(m, last, size, s);
      AdmissionHolds(m, before, size);
      StepKeepsInv(m, last, size, s);
    }
  }

  /**
   No wakeup is lost: a sleeper in begin_op always has someone left to wake it, namely an
   outstanding operation (its end_op) or the running commit.
   */
  lemma {:induction false} SleepersWillBeWoken(s: State, es: seq<Event>, size: nat)
    requires Reachable(s, es, size) && s.asleep != {}
    ensures s.ops != [] || s.committing
  {
    AdmissionHolds(s, es, size);
  }

  /** end_op and the second panic of log_write cannot fail in any run. */
  lemma {:induction false} OnlyFullLogPanics(s: State, es: seq<Event>, size: nat, e: Event)
    requires Reachable(s, es, size) && Enabled(s, e)
    ensures Step(s, e, size).Panic? <==> e.LogWrite? && (|s.header| >= LOGSIZE || |s.header| >= size - 1)
  {
    AdmissionHolds(s, es, size);
  }

  /** A run that has three operations append `k` blocks, the first one its budget first. */
  function Spread(k: nat): (s: State) {
    State([if k < 10 then k else 10, if k < 10 then 0 else if k < 20 then k - 10 else 10, if k < 20 then 0 else k - 20],
          seq(k, i => i), false, {})
  }

  lemma Extend(m: State, before: seq<Event>, e: Event, size: nat, s: State) returns (es: seq<Event>)
    requires Reachable(m, before, size) && StepTo(m, e, size, s)
    ensures es == before + [e] && Reachable(s, es, size)
  {
    es := before + [e];
    assert es[..|es| - 1] == before;
  }

  function Filler(k: nat): (op: nat) {
    if k < 10 then 0 else if k < 20 then 1 else 2
  }

  lemma SpreadStep(k: nat, size: nat)
    requires k < LOGSIZE && k < size - 1
    ensures StepTo(Spread(k), LogWrite(Filler(k), k), size, Spread(k + 1))
  {
    assert Spread(k + 1).header == Spread(k).header + [k];
  }

  lemma {:induction false} SpreadReachable(k: nat, size: nat) returns (es: seq<Event>)
    requires k <= LOGSIZE && k <= size - 1
    ensures Reachable(Spread(k), es, size)
  {
    if k == 0 {
      es := SpreadStarts(size);
    } else {
      hide Reachable, Step, Spread;
      es := SpreadReachable(k - 1, size);
      SpreadStep(k - 1, size);
      es := Extend(Spread(k - 1), es, LogWrite(Filler(k - 1), k - 1), size, Spread(k));
    }
  }

  lemma SpreadStarts(size: nat) returns (es: seq<Event>)
    ensures Reachable(Spread(0), es, size)
  {
    hide Reachable;
    var one, two := State([0], [], false, {}), State([0, 0], [], false, {});
    es := StartReachable(size);
    assert StepTo(Initial, Begin(0), size, one);
    es := Extend(Initial, es, Begin(0), size, one);
    es := Extend(one, es, Begin(1), size, two);
    es := Extend(two, es, Begin(2), size, Spread(0));
  }

  lemma StartReachable(size: nat) returns (es: seq<Event>)
    ensures Reachable(Initial, es, size)
  {
    es := [];
  }

  ghost predicate AppendsNeverPanic(size: nat) {
    forall s, es, e | Reachable(s, es, size) && Enabled(s, e) && Appends(s, e) :: Step(s, e, size).Next?
  }

  /**
   Within their budgets, operations can append without a panic exactly when the log area
   has more than LOGSIZE blocks (its header is one of them).  mkfs makes it LOGSIZE blocks.
   */
  lemma AppendsSafeIff(size: nat)
    ensures AppendsNeverPanic(size) <==> size > LOGSIZE
  {
    if size > LOGSIZE {
      forall s, es, e | Reachable(s, es, size) && Enabled(s, e) && Appends(s, e)
        ensures Step(s, e, size).Next?
      {
        AdmissionHolds(s, es, size);
        UnusedAt(s.ops, e.op);
      }
    } else {
      var k := if size == 0 then 0 else size - 1;
      var es := [];
      if size == 0 {
        es := SpreadStarts(0);
      } else {
        es := SpreadReachable(k, size);
      }
      assert Enabled(Spread(k), LogWrite(Filler(k), k)) && Appends(Spread(k), LogWrite(Filler(k), k));
    }
  }

  /**
   The size check of log_write comes before absorption, so even with a large log area a
   rewrite of an already logged block panics once the header is full.
   */
  lemma AbsorbedWriteCanPanic(size: nat) returns (s: State, es: seq<Event>, e: Event)
    requires size > LOGSIZE
    ensures Reachable(s, es, size) && Enabled(s, e) && !Appends(s, e) && Step(s, e, size).Panic?
  {
    es := SpreadReachable(LOGSIZE, size);
    s, e := Spread(LOGSIZE), LogWrite(0, 0);
    assert s.header[0] == 0;
  }
}
