/**
 Sleep locks (sleeplock.c) over sleep() and wakeup() (proc.c), interleaved step by step.

 Every process runs acquiresleep and releasesleep on one lock, any number of times, with
 steps as small as single lock operations.  Spin locks are atomic; ptable.lock is also
 taken by unrelated code, and sleepers may be woken by kill(), both as events of their own.
 */
module SleepLock {

  /** Where a process is. "spin" is lk->lk, "pt" is ptable.lock. */
  datatype PC =
    | Outside       // not using the lock
    | WantSpin      // acquiresleep, or the end of sleep: acquire(&lk->lk)
    | Check         // holds spin: while (lk->locked)
    | WantPt        // holds spin: sleep() is about to acquire(&ptable.lock)
    | DropSpin      // holds spin and pt: release(lk)
    | Marking       // holds pt: chan and SLEEPING not yet set
    | Asleep        // SLEEPING on the lock
    | Woken         // RUNNABLE again
    | Resumed       // back from sched(): holds pt, about to release it
    | Inside        // has the sleep lock, between acquiresleep and releasesleep
    | WantSpinRel   // releasesleep: acquire(&lk->lk)
    | Clear         // holds spin: lk->locked = 0
    | WantPtWake    // holds spin: wakeup() is about to acquire(&ptable.lock)
    | Waking        // holds spin and pt: wakeup1(lk)
    | DropSpinRel   // holds spin: release(&lk->lk)

  const FREE: int := -1
  const OTHER: int := -2   // held by code that does not use this lock

  datatype State = State(spin: int, pt: int, locked: bool, pid: int, pcs: seq<PC>)

  datatype Event =
    | Run(p: nat)           // process p takes its next step
    | OtherTakesPt          // scheduler, other sleep and wakeup calls
    | OtherDropsPt
    | OtherWakes(p: nat)    // kill() of a sleeper

  predicate HoldsSpin(c: PC) {
    c.Check? || c.WantPt? || c.DropSpin? || c.Clear? || c.WantPtWake? || c.Waking? || c.DropSpinRel?
  }

  predicate HoldsPt(c: PC) {
    c.DropSpin? || c.Marking? || c.Resumed? || c.Waking?
  }

  /** Has the sleep lock: from the assignment locked = 1 up to locked = 0. */
  predicate Owns(c: PC) {
    c.Inside? || c.WantSpinRel? || c.Clear?
  }

  /** Has decided to sleep and is not yet, or still, asleep. */
  predicate GoingToSleep(c: PC) {
    c.WantPt? || c.DropSpin?
  }

  predicate Sleeps(c: PC) {
    c.Marking? || c.Asleep?
  }

  /** Has cleared the lock and has not yet woken the sleepers. */
  predicate OwesWakeup(c: PC) {
    c.WantPtWake? || c.Waking?
  }

  ghost predicate Enabled(s: State, e: Event) {
    match e
    case Run(p) =>
      && p < |s.pcs|
      && (match s.pcs[p]
          case WantSpin => s.spin == FREE
          case WantSpinRel => s.spin == FREE
          case WantPt => s.pt == FREE
          case WantPtWake => s.pt == FREE
          case Woken => s.pt == FREE
          case Asleep => false
          case _ => true)
    case OtherTakesPt => s.pt == FREE
    case OtherDropsPt => s.pt == OTHER
    case OtherWakes(p) => s.pt == OTHER && p < |s.pcs| && s.pcs[p] == Asleep
  }

  function Awoken(pcs: seq<PC>): (r: seq<PC>)
    ensures |r| == |pcs|
    ensures forall i | 0 <= i < |pcs| :: r[i] == if pcs[i] == Asleep then Woken else pcs[i]
  {
    seq(|pcs|, i requires 0 <= i < |pcs| => if pcs[i] == Asleep then Woken else pcs[i])
  }

  ghost function Step(s: State, e: Event): (r: State)
    requires Enabled(s, e)
  {
    match e
    case OtherTakesPt => s.(pt := OTHER)
    case OtherDropsPt => s.(pt := FREE)
    case OtherWakes(p) => s.(pcs := s.pcs[p := Woken])
    case Run(p) =>
      match s.pcs[p]
      case Outside => s.(pcs := s.pcs[p := WantSpin])
      case WantSpin => s.(spin := p, pcs := s.pcs[p := Check])
      case Check =>
        if s.locked then s.(pcs := s.pcs[p := WantPt])
        else s.(locked := true, pid := p, spin := FREE, pcs := s.pcs[p := Inside])
      case WantPt => s.(pt := p, pcs := s.pcs[p := DropSpin])
      case DropSpin => s.(spin := FREE, pcs := s.pcs[p := Marking])
      case Marking => s.(pt := FREE, pcs := s.pcs[p := Asleep])
      case Woken => s.(pt := p, pcs := s.pcs[p := Resumed])
      case Resumed => s.(pt := FREE, pcs := s.pcs[p := WantSpin])
      case Inside => s.(pcs := s.pcs[p := WantSpinRel])
      case WantSpinRel => s.(spin := p, pcs := s.pcs[p := Clear])
      case Clear => s.(locked := false, pid := 0, pcs := s.pcs[p := WantPtWake])
      case WantPtWake => s.(pt := p, pcs := s.pcs[p := Waking])
      case Waking => s.(pt := FREE, pcs := Awoken(s.pcs)[p := DropSpinRel])
      case DropSpinRel => s.(spin := FREE, pcs := s.pcs[p := Outside])
  }

  ghost predicate Inv(s: State) {
    && (forall p | 0 <= p < |s.pcs| :: HoldsSpin(s.pcs[p]) <==> s.spin == p)
    && (forall p | 0 <= p < |s.pcs| :: HoldsPt(s.pcs[p]) <==> s.pt == p)
    && (forall p | 0 <= p < |s.pcs| && Owns(s.pcs[p]) :: s.locked && s.pid == p)
    && (s.locked ==> 0 <= s.pid < |s.pcs| && Owns(s.pcs[s.pid]))
    && (forall p | 0 <= p < |s.pcs| && GoingToSleep(s.pcs[p]) :: s.locked)
    && (forall p | 0 <= p < |s.pcs| && Sleeps(s.pcs[p]) :: s.locked || WakeupOwed(s))
    && (s.spin == FREE || 0 <= s.spin < |s.pcs|)
    && (s.pt == FREE || s.pt == OTHER || 0 <= s.pt < |s.pcs|)
  }

  ghost predicate WakeupOwed(s: State) {
    0 <= s.spin < |s.pcs| && OwesWakeup(s.pcs[s.spin])
  }

  ghost predicate Initial(s: State) {
    s.spin == FREE && s.pt == FREE && !s.locked && forall p | 0 <= p < |s.pcs| :: s.pcs[p] == Outside
  }

  // One lemma for each place a process can be.

  lemma EnteringKeepsInv(s: State, p: nat)
    requires Inv(s) && Enabled(s, Run(p)) && s.pcs[p] == Outside
    ensures Inv(Step(s, Run(p)))
  {
  }

  lemma TakingSpinKeepsInv(s: State, p: nat)
    requires Inv(s) && Enabled(s, Run(p)) && s.pcs[p] == WantSpin
    ensures Inv(Step(s, Run(p)))
  {
  }

  lemma CheckingKeepsInv(s: State, p: nat)
    requires Inv(s) && Enabled(s, Run(p)) && s.pcs[p] == Check
    ensures Inv(Step(s, Run(p)))
  {
  }

  lemma TakingPtKeepsInv(s: State, p: nat)
    requires Inv(s) && Enabled(s, Run(p)) && s.pcs[p] == WantPt
    ensures Inv(Step(s, Run(p)))
  {
  }

  lemma DroppingSpinKeepsInv(s: State, p: nat)
    requires Inv(s) && Enabled(s, Run(p)) && s.pcs[p] == DropSpin
    ensures Inv(Step(s, Run(p)))
  {
  }

  lemma FallingAsleepKeepsInv(s: State, p: nat)
    requires Inv(s) && Enabled(s, Run(p)) && s.pcs[p] == Marking
    ensures Inv(Step(s, Run(p)))
  {
  }

  lemma ResumingKeepsInv(s: State, p: nat)
    requires Inv(s) && Enabled(s, Run(p)) && s.pcs[p] == Woken
    ensures Inv(Step(s, Run(p)))
  {
  }

  lemma ReturningKeepsInv(s: State, p: nat)
    requires Inv(s) && Enabled(s, Run(p)) && s.pcs[p] == Resumed
    ensures Inv(Step(s, Run(p)))
  {
  }

  lemma LeavingKeepsInv(s: State, p: nat)
    requires Inv(s) && Enabled(s, Run(p)) && s.pcs[p] == Inside
    ensures Inv(Step(s, Run(p)))
  {
  }

  lemma TakingSpinBackKeepsInv(s: State, p: nat)
    requires Inv(s) && Enabled(s, Run(p)) && s.pcs[p] == WantSpinRel
    ensures Inv(Step(s, Run(p)))
  {
  }

  lemma ClearingKeepsInv(s: State, p: nat)
    requires Inv(s) && Enabled(s, Run(p)) && s.pcs[p] == Clear
    ensures Inv(Step(s, Run(p)))
  {
  }

  lemma TakingPtToWakeKeepsInv(s: State, p: nat)
    requires Inv(s) && Enabled(s, Run(p)) && s.pcs[p] == WantPtWake
    ensures Inv(Step(s, Run(p)))
  {
  }

  lemma WakingAllKeepsInv(s: State, p: nat)
    requires Inv(s) && Enabled(s, Run(p)) && s.pcs[p] == Waking
    ensures Inv(Step(s, Run(p)))
  {
  }

  lemma FinishingKeepsInv(s: State, p: nat)
    requires Inv(s) && Enabled(s, Run(p)) && s.pcs[p] == DropSpinRel
    ensures Inv(Step(s, Run(p)))
  {
  }

  lemma OthersKeepInv(s: State, e: Event)
    requires Inv(s) && Enabled(s, e) && !e.Run?
    ensures Inv(Step(s, e))
  {
  }

  lemma StepKeepsInv(s: State, e: Event)
    requires Inv(s) && Enabled(s, e)
    ensures Inv(Step(s, e))
  {
    hide Inv, Step;
    if e.Run? {
      match s.pcs[e.p]
      case Outside => EnteringKeepsInv(s, e.p);
      case WantSpin => TakingSpinKeepsInv(s, e.p);
      case Check => CheckingKeepsInv(s, e.p);
      case WantPt => TakingPtKeepsInv(s, e.p);
      case DropSpin => DroppingSpinKeepsInv(s, e.p);
      case Marking => FallingAsleepKeepsInv(s, e.p);
      case Woken => ResumingKeepsInv(s, e.p);
      case Resumed => ReturningKeepsInv(s, e.p);
      case Inside => LeavingKeepsInv(s, e.p);
      case WantSpinRel => TakingSpinBackKeepsInv(s, e.p);
      case Clear => ClearingKeepsInv(s, e.p);
      case WantPtWake => TakingPtToWakeKeepsInv(s, e.p);
      case Waking => WakingAllKeepsInv(s, e.p);
      case DropSpinRel => FinishingKeepsInv(s, e.p);
    } else {
      OthersKeepInv(s, e);
    }
  }

  ghost predicate StepTo(s: State, e: Event, s': State) {
    Enabled(s, e) && s' == Step(s, e)
  }

  ghost predicate Reachable(s: State, es: seq<Event>)
    decreases |es|
  {
    if es == [] then Initial(s)
    else
      var before, last := es[..|es| - 1], es[|es| - 1];
      exists m :: Reachable(m, before) && StepTo(m, last, s)
  }

  lemma {:induction false} InvHolds(s: State, es: seq<Event>)
    requires Reachable(s, es)
    ensures Inv(s)
    decreases |es|
  {
    if es != [] {
      var before, last := es[..|es| - 1], es[|es| - 1];
      var m :| Reachable(m, before) && StepTo(m, last, s);
      InvHolds(m, before);
      StepKeepsInv(m, last);
    }
  }

  /** At most one process at a time is between acquiresleep and releasesleep. */
  lemma {:induction false} MutualExclusion(s: State, es: seq<Event>, p: nat, q: nat)
    requires Reachable(s, es) && p < |s.pcs| && q < |s.pcs|
    requires s.pcs[p] == Inside && s.pcs[q] == Inside
    ensures p == q && s.locked && s.pid == p
  {
    InvHolds(s, es);
  }

  /** No wakeup is lost: with the inner lock free and the sleep lock free, nobody sleeps on it. */
  lemma {:induction false} NoLostWakeup(s: State, es: seq<Event>, p: nat)
    requires Reachable(s, es) && s.spin == FREE && !s.locked && p < |s.pcs|
    ensures s.pcs[p] != Asleep && s.pcs[p] != Marking
  {
    InvHolds(s, es);
  }

  /**
   A sleeper is never stranded: either some process has the sleep lock and must release it,
   or a release that has cleared it is on its way to wake everybody.
   */
  lemma SleeperHasWaker(s: State, es: seq<Event>, p: nat) returns (w: nat)
    requires Reachable(s, es) && p < |s.pcs| && s.pcs[p] == Asleep
    ensures w < |s.pcs| && w != p && (Owns(s.pcs[w]) || OwesWakeup(s.pcs[w]))
  {
    InvHolds(s, es);
    w := if s.locked then s.pid else s.spin;
  }

  /** There is always a step to take while anyone uses the lock: the protocol cannot deadlock. */
  lemma NoDeadlock(s: State, es: seq<Event>, p: nat) returns (e: Event)
    requires Reachable(s, es) && p < |s.pcs| && s.pcs[p] != Outside
    ensures Enabled(s, e) && !e.OtherTakesPt?
    ensures e.Run? ==> s.pcs[e.p] != Outside
  {
    InvHolds(s, es);
    if s.pt == OTHER {
      e := OtherDropsPt;
    } else if s.pt >= 0 {
      e := Run(s.pt);
    } else if s.spin >= 0 {
      e := Run(s.spin);
    } else if s.pcs[p] == Asleep {
      e := Run(s.pid);
    } else {
      e := Run(p);
    }
  }

  // The way through the lock.

  /** In acquiresleep. */
  predicate Acquiring(c: PC) {
    || c.WantSpin? || c.Check? || c.WantPt? || c.DropSpin? || c.Marking? || c.Asleep? || c.Woken? || c.Resumed?
  }

  /** In releasesleep. */
  predicate Releasing(c: PC) {
    c.WantSpinRel? || c.Clear? || c.WantPtWake? || c.Waking? || c.DropSpinRel?
  }

  /** Whatever step is taken, nobody leaves acquiresleep but with the lock, nor has it for longer than it takes. */
  lemma PathIs(s: State, e: Event, p: nat)
    requires Enabled(s, e) && p < |s.pcs|
    ensures var c, c' := s.pcs[p], Step(s, e).pcs[p];
      && (c.Outside? ==> c'.Outside? || Acquiring(c'))
      && (Acquiring(c) ==> Acquiring(c') || (c'.Inside? && !s.locked && Step(s, e).locked && Step(s, e).pid == p))
      && (c.Inside? ==> c'.Inside? || Releasing(c'))
      && (Releasing(c) ==> Releasing(c') || c'.Outside?)
  {
  }

  /** A run in which p is never inside. */
  ghost predicate RunOutside(s: State, es: seq<Event>, s': State, p: nat)
    decreases |es|
  {
    && p < |s'.pcs| && !s'.pcs[p].Inside?
    && if es == [] then s' == s
       else
         var before, last := es[..|es| - 1], es[|es| - 1];
         exists m :: RunOutside(s, before, m, p) && Enabled(m, last) && s' == Step(m, last)
  }

  /** acquiresleep ends only with the lock: as long as a process that entered has not been inside, it has not left. */
  lemma {:induction false} AcquireEndsInside(s: State, es: seq<Event>, s': State, p: nat)
    requires RunOutside(s, es, s', p) && p < |s.pcs| && Acquiring(s.pcs[p])
    ensures Acquiring(s'.pcs[p])
    decreases |es|
  {
    if es != [] {
      hide Step, Enabled;
      var before, last := es[..|es| - 1], es[|es| - 1];
      var m :| RunOutside(s, before, m, p) && Enabled(m, last) && s' == Step(m, last);
      AcquireEndsInside(s, before, m, p);
      PathIs(m, last, p);
    }
  }
}
