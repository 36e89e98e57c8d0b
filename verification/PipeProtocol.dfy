/**
 Readers and writers of one pipe, running bursts (see Pipe) in every order.
 */
module PipeProtocol {
  import opened Common
  import opened Pipe

  datatype PC =
    | Idle
    | Writing(addr: seq<byte>, i: nat)      // in pipewrite, i bytes put in, wants the lock
    | WriteSleep(addr: seq<byte>, i: nat)   // asleep on &p->nwrite
    | Reading(n: nat)                       // in piperead, wants the lock
    | ReadSleep(n: nat)                     // asleep on &p->nread

  /** The pipe, its users, and everything ever put in and taken out. */
  datatype State = State(buf: seq<byte>, readopen: bool, writeopen: bool, procs: seq<PC>,
                         sent: seq<byte>, got: seq<byte>)

  datatype Event =
    | StartWrite(p: nat, addr: seq<byte>)
    | StartRead(p: nat, n: nat)
    | Burst(p: nat, killed: bool)
    | KillWakes(p: nat)                     // kill() makes a sleeper run on
    | CloseWrite
    | CloseRead

  ghost predicate NoWriters(s: State) {
    forall p | 0 <= p < |s.procs| :: !(s.procs[p].Writing? || s.procs[p].WriteSleep?)
  }

  /** pipeclose runs when the last descriptor for an end is closed, so no call uses that end. */
  ghost predicate Enabled(s: State, e: Event) {
    match e
    case StartWrite(p, addr) => p < |s.procs| && s.procs[p].Idle? && s.writeopen
    case StartRead(p, n) => p < |s.procs| && s.procs[p].Idle? && s.readopen
    case Burst(p, killed) => p < |s.procs| && (s.procs[p].Writing? || s.procs[p].Reading?)
    case KillWakes(p) => p < |s.procs| && (s.procs[p].WriteSleep? || s.procs[p].ReadSleep?)
    case CloseWrite => s.writeopen && NoWriters(s)
    case CloseRead => s.readopen && forall p | 0 <= p < |s.procs| :: !(s.procs[p].Reading? || s.procs[p].ReadSleep?)
  }

  /** wakeup(&p->nread) */
  function WakeReaders(procs: seq<PC>): (r: seq<PC>)
    ensures |r| == |procs|
    ensures forall p | 0 <= p < |r| :: r[p] == if procs[p].ReadSleep? then Reading(procs[p].n) else procs[p]
  {
    seq(|procs|, p requires 0 <= p < |procs| => if procs[p].ReadSleep? then Reading(procs[p].n) else procs[p])
  }

  /** wakeup(&p->nwrite) */
  function WakeWriters(procs: seq<PC>): (r: seq<PC>)
    ensures |r| == |procs|
    ensures forall p | 0 <= p < |r| ::
              r[p] == if procs[p].WriteSleep? then Writing(procs[p].addr, procs[p].i) else procs[p]
  {
    seq(|procs|, p requires 0 <= p < |procs| =>
      if procs[p].WriteSleep? then Writing(procs[p].addr, procs[p].i) else procs[p])
  }

  function Woken(c: PC): (r: PC) {
    match c
    case WriteSleep(addr, i) => Writing(addr, i)
    case ReadSleep(n) => Reading(n)
    case _ => c
  }

  ghost function WriteStep(s: State, p: nat, killed: bool): (r: State)
    requires p < |s.procs| && s.procs[p].Writing? && s.procs[p].i <= |s.procs[p].addr| && |s.buf| <= PIPESIZE
  {
    var addr, i := s.procs[p].addr, s.procs[p].i;
    var j := i + Accepted(s.buf, addr, i);
    var s' := s.(buf := s.buf + addr[i..j], sent := s.sent + addr[i..j]);
    match WriteResult(s.buf, addr, i, s.readopen, killed)
    case WriteDone => s'.(procs := WakeReaders(s.procs)[p := Idle])
    case WriteBlocked => s'.(procs := WakeReaders(s.procs)[p := WriteSleep(addr, j)])
    case WriteFailed => s'.(procs := s.procs[p := Idle])
  }

  ghost function ReadStep(s: State, p: nat, killed: bool): (r: State)
    requires p < |s.procs| && s.procs[p].Reading?
  {
    match ReadResult(s.buf, s.procs[p].n, s.writeopen, killed)
    case ReadDone(bytes) =>
      s.(buf := s.buf[|bytes|..], got := s.got + bytes, procs := WakeWriters(s.procs)[p := Idle])
    case ReadBlocked => s.(procs := s.procs[p := ReadSleep(s.procs[p].n)])
    case ReadFailed => s.(procs := s.procs[p := Idle])
  }

  /** What the code itself checks or starts with: the buffer's size, and no more bytes put in than there are. */
  ghost predicate Bounds(s: State) {
    && |s.buf| <= PIPESIZE
    && forall p | 0 <= p < |s.procs| ::
         match s.procs[p]
         case Writing(addr, i) => i <= |addr|
         case WriteSleep(addr, i) => i <= |addr|
         case _ => true
  }

  ghost function Step(s: State, e: Event): (r: State)
    requires Bounds(s) && Enabled(s, e)
  {
    match e
    case StartWrite(p, addr) => s.(procs := s.procs[p := Writing(addr, 0)])
    case StartRead(p, n) => s.(procs := s.procs[p := Reading(n)])
    case KillWakes(p) => s.(procs := s.procs[p := Woken(s.procs[p])])
    case CloseWrite => s.(writeopen := false, procs := WakeReaders(s.procs))
    case CloseRead => s.(readopen := false, procs := WakeWriters(s.procs))
    case Burst(p, killed) => if s.procs[p].Writing? then WriteStep(s, p, killed) else ReadStep(s, p, killed)
  }

  /** First in, first out: what was taken out, then what is inside, is what was put in. */
  ghost predicate Fifo(s: State) {
    Bounds(s) && s.sent == s.got + s.buf
  }

  /** Whoever sleeps has a reason to. */
  ghost predicate Waiters(s: State) {
    forall p | 0 <= p < |s.procs| ::
      match s.procs[p]
      case WriteSleep(addr, i) => |s.buf| == PIPESIZE && s.readopen && s.writeopen && i < |addr|
      case ReadSleep(n) => s.buf == [] && s.writeopen && s.readopen
      case Writing(addr, i) => s.writeopen
      case Reading(n) => s.readopen
      case Idle => true
  }

  lemma WriteKeepsFifo(s: State, p: nat, killed: bool)
    requires Fifo(s) && p < |s.procs| && s.procs[p].Writing?
    ensures Fifo(WriteStep(s, p, killed))
  {
    var addr, i := s.procs[p].addr, s.procs[p].i;
    var j := i + Accepted(s.buf, addr, i);
    assert s.got + (s.buf + addr[i..j]) == s.sent + addr[i..j];
  }

  lemma StepKeepsFifo(s: State, e: Event)
    requires Fifo(s) && Enabled(s, e)
    ensures Fifo(Step(s, e))
  {
    if e.Burst? {
      if s.procs[e.p].Writing? {
        WriteKeepsFifo(s, e.p, e.killed);
      } else {
        ReadKeepsFifo(s, e.p, e.killed);
      }
    }
  }

  lemma ReadKeepsFifo(s: State, p: nat, killed: bool)
    requires Fifo(s) && p < |s.procs| && s.procs[p].Reading?
    ensures Fifo(ReadStep(s, p, killed))
  {
    var r := ReadResult(s.buf, s.procs[p].n, s.writeopen, killed);
    if r.ReadDone? {
      assert r.bytes + s.buf[|r.bytes|..] == s.buf;
      assert s.got + r.bytes + s.buf[|r.bytes|..] == s.sent;
    }
  }

  /** What a process has still to write. */
  function Rest(c: PC): (r: seq<byte>)
    requires c.Writing? || c.WriteSleep? ==> c.i <= |c.addr|
  {
    if c.Writing? || c.WriteSleep? then c.addr[c.i..] else []
  }

  lemma StepKeepsBounds(s: State, e: Event)
    requires Bounds(s) && Enabled(s, e)
    ensures Bounds(Step(s, e)) && |Step(s, e).procs| == |s.procs|
  {
  }

  /** A write starts with all its bytes to write, and what it has left changes only by its own bursts. */
  lemma RestKept(s: State, e: Event, p: nat)
    requires Bounds(s) && Enabled(s, e) && p < |s.procs| && !(e.Burst? && e.p == p)
    ensures var s' := Step(s, e);
      && Bounds(s') && |s'.procs| == |s.procs| && (!e.Burst? ==> s'.sent == s.sent && s'.got == s.got)
      && Rest(s'.procs[p]) == if e.StartWrite? && e.p == p then e.addr else Rest(s.procs[p])
  {
    StepKeepsBounds(s, e);
    OthersRest(s, e, p);
    hide Step;
    if e.StartWrite? && e.p == p {
      assert e.addr[0..] == e.addr;
    }
  }

  lemma OthersRest(s: State, e: Event, p: nat)
    requires Bounds(s) && Enabled(s, e) && p < |s.procs| && !(e.Burst? && e.p == p)
    ensures |Step(s, e).procs| == |s.procs|
    ensures !e.Burst? ==> Step(s, e).sent == s.sent && Step(s, e).got == s.got
    ensures var c, c' := s.procs[p], Step(s, e).procs[p];
      if e.StartWrite? && e.p == p then c' == Writing(e.addr, 0)
      else if c.Writing? || c.WriteSleep? then (c'.Writing? || c'.WriteSleep?) && c'.addr == c.addr && c'.i == c.i
      else !c'.Writing? && !c'.WriteSleep?
  {
    hide Bounds, WriteResult, ReadResult;
  }

  /** A burst sends the first bytes of those left and goes on with the others, or is done when none are left. */
  lemma SendsFirst(s: State, p: nat, killed: bool)
    requires Bounds(s) && p < |s.procs| && s.procs[p].Writing?
    ensures var s', c := WriteStep(s, p, killed), s.procs[p];
            var x := c.addr[c.i..c.i + Accepted(s.buf, c.addr, c.i)];
            && Bounds(s') && s'.sent == s.sent + x && x <= Rest(c) && s'.got == s.got
            && (WriteResult(s.buf, c.addr, c.i, s.readopen, killed).WriteDone? ==> x == Rest(c))
            && (s'.procs[p].WriteSleep? ==> Rest(c) == x + Rest(s'.procs[p]))
  {
    var c := s.procs[p];
    var j := c.i + Accepted(s.buf, c.addr, c.i);
    assert c.addr[c.i..] == c.addr[c.i..j] + c.addr[j..];
  }

  /** A killed writer has put bytes in and returns while a reader is still asleep. */
  ghost predicate Strands(s: State, e: Event)
    requires Bounds(s) && Enabled(s, e)
  {
    && e.Burst? && s.procs[e.p].Writing? && e.killed
    && |s.procs[e.p].addr| - s.procs[e.p].i > PIPESIZE
    && exists q :: 0 <= q < |s.procs| && s.procs[q].ReadSleep?
  }

  /**
   The waiter rule survives a step exactly when no killed writer leaves a sleeping reader
   behind: the return at the full buffer is the one that skips the wakeup.
   */
  lemma StepKeepsWaitersIff(s: State, e: Event)
    requires Fifo(s) && Waiters(s) && Enabled(s, e)
    ensures Waiters(Step(s, e)) <==> !Strands(s, e)
  {
    if e.Burst? && s.procs[e.p].Writing? {
      WriteKeepsWaitersIff(s, e.p, e.killed);
    }
  }

  lemma WriteKeepsWaitersIff(s: State, p: nat, killed: bool)
    requires Fifo(s) && Waiters(s) && p < |s.procs| && s.procs[p].Writing?
    ensures Waiters(WriteStep(s, p, killed)) <==> !Strands(s, Burst(p, killed))
  {
    var s' := WriteStep(s, p, killed);
    if q :| 0 <= q < |s.procs| && s.procs[q].ReadSleep? {
      assert s.buf == [];
      assert s'.procs[q] == s.procs[q] || s'.procs[q].Reading?;
    }
  }

  // Runs.

  ghost predicate StepTo(s: State, e: Event, s': State) {
    Bounds(s) && Enabled(s, e) && s' == Step(s, e)
  }

  ghost predicate IsRun(s: State, es: seq<Event>, s': State)
    decreases |es|
  {
    if es == [] then s' == s
    else
      var before, last := es[..|es| - 1], es[|es| - 1];
      exists m :: IsRun(s, before, m) && StepTo(m, last, s')
  }

  ghost predicate IsFresh(s: State) {
    s.buf == [] && s.sent == [] && s.got == [] && s.readopen && s.writeopen &&
    forall p | 0 <= p < |s.procs| :: s.procs[p].Idle?
  }

  /** Over every run, kills included, the pipe loses, invents and reorders no byte. */
  lemma {:induction false} PipeIsFifo(s: State, es: seq<Event>, s': State)
    requires IsFresh(s) && IsRun(s, es, s')
    ensures Fifo(s')
    decreases |es|
  {
    if es != [] {
      var before, last := es[..|es| - 1], es[|es| - 1];
      var m :| IsRun(s, before, m) && StepTo(m, last, s');
      PipeIsFifo(s, before, m);
      StepKeepsFifo(m, last);
    }
  }

  /** A run in which no killed writer leaves a sleeping reader behind; other kills may happen. */
  ghost predicate QuietRun(s: State, es: seq<Event>, s': State)
    decreases |es|
  {
    if es == [] then s' == s
    else
      var before, last := es[..|es| - 1], es[|es| - 1];
      exists m :: QuietRun(s, before, m) && StepTo(m, last, s') && !Strands(m, last)
  }

  /**
   Over every such run, a writer sleeps only on a full pipe that can still be read, and a reader only on an
   empty pipe that can still be written.
   */
  lemma {:induction false} NobodyOversleeps(s: State, es: seq<Event>, s': State)
    requires IsFresh(s) && QuietRun(s, es, s')
    ensures Fifo(s') && Waiters(s')
    decreases |es|
  {
    if es != [] {
      var before, last := es[..|es| - 1], es[|es| - 1];
      var m :| QuietRun(s, before, m) && StepTo(m, last, s') && !Strands(m, last);
      NobodyOversleeps(s, before, m);
      StepKeepsFifo(m, last);
      StepKeepsWaitersIff(m, last);
    }
  }

  /** A reader and a writer cannot both sleep, so a pipe with users always has one that can run. */
  lemma {:induction false} NotBothAsleep(s: State, es: seq<Event>, s': State, p: nat, q: nat)
    requires IsFresh(s) && QuietRun(s, es, s') && p < |s'.procs| && q < |s'.procs|
    ensures !(s'.procs[p].ReadSleep? && s'.procs[q].WriteSleep?)
  {
    NobodyOversleeps(s, es, s');
  }

  // The end of the file.

  /** Once the write end is closed nobody writes. */
  ghost predicate Closed(s: State) {
    !s.writeopen ==> NoWriters(s)
  }

  lemma StepKeepsClosed(s: State, e: Event)
    requires Fifo(s) && Closed(s) && Enabled(s, e)
    ensures Closed(Step(s, e))
    ensures !s.writeopen ==> Step(s, e).sent == s.sent && !Step(s, e).writeopen
  {
  }

  lemma {:induction false} WritersGone(s: State, es: seq<Event>, s': State)
    requires Fifo(s) && Closed(s) && IsRun(s, es, s')
    ensures Fifo(s') && Closed(s')
    ensures !s.writeopen ==> s'.sent == s.sent && !s'.writeopen
    decreases |es|
  {
    hide Closed, Step;
    if es != [] {
      var before, last := es[..|es| - 1], es[|es| - 1];
      var m :| IsRun(s, before, m) && StepTo(m, last, s');
      WritersGone(s, before, m);
      StepKeepsFifo(m, last);
      StepKeepsClosed(m, last);
    }
  }

  /**
   The end of file is final.  If in some run a reader is about to be given nothing for a nonempty request, then all
   bytes sent have been received and, however the run goes on, none will be sent or received any more.
   */
  lemma {:induction false} EndOfFile(s: State, es: seq<Event>, m: State, p: nat, killed: bool, more: seq<Event>,
                                     s': State)
    requires IsFresh(s) && IsRun(s, es, m) && p < |m.procs| && m.procs[p].Reading? && m.procs[p].n > 0
    requires ReadResult(m.buf, m.procs[p].n, m.writeopen, killed) == ReadDone([])
    requires IsRun(m, more, s')
    ensures m.got == m.sent && s'.sent == m.sent && s'.got == m.got
  {
    WritersGone(s, es, m);
    assert m.buf == [] && m.got + [] == m.got;
    WritersGone(m, more, s');
    NothingComesBack(m, more, s');
  }

  lemma {:induction false} NothingComesBack(s: State, es: seq<Event>, s': State)
    requires Fifo(s) && Closed(s) && !s.writeopen && s.buf == [] && IsRun(s, es, s')
    ensures s'.buf == [] && s'.got == s.got
    decreases |es|
  {
    if es != [] {
      var before, last := es[..|es| - 1], es[|es| - 1];
      var m :| IsRun(s, before, m) && StepTo(m, last, s');
      WritersGone(s, before, m);
      NothingComesBack(s, before, m);
    }
  }

  /** Process 0 reads, process 1 writes. */
  function Pair(reader: PC, writer: PC): (s: State) {
    State([], true, true, [reader, writer], [], [])
  }

  lemma ReaderFallsAsleep()
    ensures StepTo(Pair(Idle, Idle), StartRead(0, 1), Pair(Reading(1), Idle))
    ensures StepTo(Pair(Reading(1), Idle), Burst(0, false), Pair(ReadSleep(1), Idle))
  {
    assert [Idle, Idle][0 := Reading(1)] == [Reading(1), Idle];
    assert [Reading(1), Idle][0 := ReadSleep(1)] == [ReadSleep(1), Idle];
  }

  lemma WriterStarts(addr: seq<byte>)
    ensures StepTo(Pair(ReadSleep(1), Idle), StartWrite(1, addr), Pair(ReadSleep(1), Writing(addr, 0)))
  {
    assert [ReadSleep(1), Idle][1 := Writing(addr, 0)] == [ReadSleep(1), Writing(addr, 0)];
  }

  lemma WriterIsKilled(addr: seq<byte>)
    requires |addr| > PIPESIZE
    ensures StepTo(Pair(ReadSleep(1), Writing(addr, 0)), Burst(1, true),
                   State(addr[..PIPESIZE], true, true, [ReadSleep(1), Idle], addr[..PIPESIZE], []))
  {
    assert [] + addr[0..PIPESIZE] == addr[..PIPESIZE];
    assert [ReadSleep(1), Writing(addr, 0)][1 := Idle] == [ReadSleep(1), Idle];
  }

  /** A run with a kill after which a reader sleeps on a full pipe. */
  lemma KilledWriterStrandsReader(addr: seq<byte>) returns (s: State, es: seq<Event>, s': State)
    requires |addr| > PIPESIZE
    ensures IsFresh(s) && IsRun(s, es, s')
    ensures |s'.buf| == PIPESIZE && |s'.procs| == 2 && s'.procs[0].ReadSleep?
  {
    hide IsRun, StepTo;
    s := Pair(Idle, Idle);
    s' := State(addr[..PIPESIZE], true, true, [ReadSleep(1), Idle], addr[..PIPESIZE], []);
    ReaderFallsAsleep();
    WriterStarts(addr);
    WriterIsKilled(addr);
    es := NoEvents(s);
    es := Extend(s, es, s, StartRead(0, 1), Pair(Reading(1), Idle));
    es := Extend(s, es, Pair(Reading(1), Idle), Burst(0, false), Pair(ReadSleep(1), Idle));
    es := Extend(s, es, Pair(ReadSleep(1), Idle), StartWrite(1, addr), Pair(ReadSleep(1), Writing(addr, 0)));
    es := Extend(s, es, Pair(ReadSleep(1), Writing(addr, 0)), Burst(1, true), s');
  }

  lemma NoEvents(s: State) returns (es: seq<Event>)
    ensures es == [] && IsRun(s, es, s)
  {
    es := [];
  }

  lemma Extend(s: State, before: seq<Event>, m: State, e: Event, s': State) returns (es: seq<Event>)
    requires IsRun(s, before, m) && StepTo(m, e, s')
    ensures es == before + [e] && IsRun(s, es, s')
  {
    es := before + [e];
    assert es[..|es| - 1] == before;
  }
}
