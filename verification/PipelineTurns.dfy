/** What one turn of the reader's and of the printer's loop does, under every interleaving: the steps a
    thread takes between two tests of its loop condition, against the loop's body as the source has it -
    the order of its tests, locks, waits and writes, what each answer leads to, and what the turn adds to
    the ring or to what was printed. AnalyzerTurns has the analyzer's. */
module PipelineTurns {
  import opened DropOldest
  import opened Channels
  import opened Pipelines
  import opened PipelineInvariants
  import WaitLoops

  // What a thread finds at one of its steps, and how the environment answers it.
  datatype View = View(s: State, choice: Choice)

  predicate By(e: Event, who: Thread) {
    e.Run? && e.who == who
  }

  // What the thread's steps among events k to i - 1 found.
  ghost function Views(ss: seq<State>, es: seq<Event>, who: Thread, k: nat, i: nat): seq<View>
    requires i <= |es| < |ss|
  {
    if i <= k then []
    else Views(ss, es, who, k, i - 1) + if By(es[i - 1], who) then [View(ss[i - 1], es[i - 1].choice)] else []
  }

  // ----- Wait loops -----

  datatype Want = RoomForSample | NextSample | RoomForRecord | NextRecord

  // The condition of the wait loop: what is wanted is not there, and the kill switch is off.
  predicate Blocked(c: Config, w: Want, v: View) {
    && !v.s.kill
    && match w
       case RoomForSample => |v.s.input.ring| == c.inCapacity
       case NextSample => v.s.input.ring == []
       case RoomForRecord => |v.s.output.ring| == c.outCapacity
       case NextRecord => v.s.output.ring == []
  }

  function LookOf(c: Config, w: Want, v: View): WaitLoops.Look {
    WaitLoops.Look(Blocked(c, w, v), v.choice.wakes.Failed?)
  }

  function Looks(c: Config, w: Want, vs: seq<View>): (r: seq<WaitLoops.Look>) {
    seq(|vs|, i requires 0 <= i < |vs| => LookOf(c, w, vs[i]))
  }

  // The first `head` steps, then failed waits: about to test the condition.
  ghost predicate AtTest(c: Config, w: Want, head: nat, vs: seq<View>) {
    |vs| >= head && WaitLoops.AtTest(head, Looks(c, w, vs))
  }

  // One step on: blocked, and waiting.
  ghost predicate InWait(c: Config, w: Want, head: nat, vs: seq<View>) {
    |vs| >= head + 1 && WaitLoops.InWait(head, Looks(c, w, vs))
  }

  // The first `head` steps, then the whole wait loop, then `tail` more steps.
  ghost predicate Waited(c: Config, w: Want, head: nat, vs: seq<View>, tail: nat) {
    |vs| >= head + tail && WaitLoops.Waited(head, Looks(c, w, vs), tail)
  }

  // Getting to the condition for the first time.
  lemma TestFirst(c: Config, w: Want, vs: seq<View>)
    ensures AtTest(c, w, |vs|, vs)
  {
    assert Looks(c, w, vs)[|vs|..] == [];
  }

  lemma TestNext(c: Config, w: Want, head: nat, vs: seq<View>, v: View)
    requires AtTest(c, w, head, vs)
    ensures if Blocked(c, w, v) then InWait(c, w, head, vs + [v]) else Waited(c, w, head, vs + [v], 0)
  {
    WaitLoops.TestNext(head, Looks(c, w, vs), LookOf(c, w, v));
    assert Looks(c, w, vs + [v]) == Looks(c, w, vs) + [LookOf(c, w, v)];
  }

  lemma WaitNext(c: Config, w: Want, head: nat, vs: seq<View>, v: View)
    requires InWait(c, w, head, vs)
    ensures if v.choice.wakes.Failed? then AtTest(c, w, head, vs + [v]) else Waited(c, w, head, vs + [v], 0)
  {
    WaitLoops.WaitNext(head, Looks(c, w, vs), LookOf(c, w, v));
    assert Looks(c, w, vs + [v]) == Looks(c, w, vs) + [LookOf(c, w, v)];
  }

  lemma WaitedNext(c: Config, w: Want, head: nat, vs: seq<View>, v: View, tail: nat)
    requires Waited(c, w, head, vs, tail)
    ensures Waited(c, w, head, vs + [v], tail + 1)
  {
    WaitLoops.WaitedNext(head, Looks(c, w, vs), LookOf(c, w, v), tail);
    assert Looks(c, w, vs + [v]) == Looks(c, w, vs) + [LookOf(c, w, v)];
  }

  // ----- The reader -----

  predicate ReaderBetween(pc: ReaderPc) {
    pc.RTest? || pc.RDone?
  }

  // One turn of the loop, from state k to state i.
  ghost predicate ReaderTurn(ss: seq<State>, es: seq<Event>, k: nat, i: nat) {
    && k < i <= |es| < |ss| && By(es[k], Reader)
    && ss[k].r.pc.RTest? && ReaderBetween(ss[i].r.pc)
    && forall m :: k < m < i ==> !ReaderBetween(ss[m].r.pc)
  }

  // The loop condition holds, something is loaded and the mutex is got.
  predicate ReaderEnters(vs: seq<View>) {
    |vs| >= 3 && !vs[0].s.kill && vs[1].choice.loads.Some? && vs[2].choice.locks
  }

  // Nothing was loaded, or the mutex was not got.
  predicate ReaderContinues(vs: seq<View>) {
    || (|vs| == 2 && !vs[0].s.kill && vs[1].choice.loads.None?)
    || (|vs| == 3 && !vs[0].s.kill && vs[1].choice.loads.Some? && !vs[2].choice.locks)
  }

  // After the wait loop: the test of the kill switch, the write, the unlock, the signal, the sleep.
  ghost predicate ReaderSends(c: Config, vs: seq<View>) {
    ReaderEnters(vs) && Waited(c, RoomForSample, 3, vs, 5) && !vs[|vs| - 5].s.kill
  }

  // The loop condition fails, or the kill switch is found set after the wait loop, before the unlock.
  ghost predicate ReaderQuits(c: Config, vs: seq<View>) {
    || (|vs| == 1 && vs[0].s.kill)
    || (ReaderEnters(vs) && Waited(c, RoomForSample, 3, vs, 2) && vs[|vs| - 2].s.kill)
  }

  // Where the steps of a turn so far lead.
  ghost predicate ReaderSoFar(c: Config, pc: ReaderPc, vs: seq<View>) {
    match pc
    case RTest => ReaderContinues(vs) || ReaderSends(c, vs)
    case RLoad => |vs| == 1 && !vs[0].s.kill
    case RLock => |vs| == 2 && !vs[0].s.kill && vs[1].choice.loads.Some?
    case RFull => ReaderEnters(vs) && AtTest(c, RoomForSample, 3, vs)
    case RWaiting => ReaderEnters(vs) && InWait(c, RoomForSample, 3, vs)
    case RKill => ReaderEnters(vs) && Waited(c, RoomForSample, 3, vs, 0)
    case RExit => ReaderEnters(vs) && Waited(c, RoomForSample, 3, vs, 1) && vs[|vs| - 1].s.kill
    case RWrite => ReaderEnters(vs) && Waited(c, RoomForSample, 3, vs, 1) && !vs[|vs| - 1].s.kill
    case RUnlock => ReaderEnters(vs) && Waited(c, RoomForSample, 3, vs, 2) && !vs[|vs| - 2].s.kill
    case RNotify => ReaderEnters(vs) && Waited(c, RoomForSample, 3, vs, 3) && !vs[|vs| - 3].s.kill
    case RSleep => ReaderEnters(vs) && Waited(c, RoomForSample, 3, vs, 4) && !vs[|vs| - 4].s.kill
    case RDone => ReaderQuits(c, vs)
  }

  // The step up to which this is about the wait loop, and after it.
  lemma ReaderWaitsNext(c: Config, s: State, vs: seq<View>, choice: Choice, next: State)
    requires Step(c, s, Run(Reader, choice)) == Some(next)
    requires (s.r.pc.RFull? || s.r.pc.RWaiting?) && ReaderSoFar(c, s.r.pc, vs)
    ensures ReaderSoFar(c, next.r.pc, vs + [View(s, choice)])
  {
    if s.r.pc.RFull? {
      TestNext(c, RoomForSample, 3, vs, View(s, choice));
    } else {
      WaitNext(c, RoomForSample, 3, vs, View(s, choice));
    }
  }

  lemma ReaderEndsNext(c: Config, s: State, vs: seq<View>, choice: Choice, next: State, tail: nat)
    requires Step(c, s, Run(Reader, choice)) == Some(next)
    requires ReaderSoFar(c, s.r.pc, vs) && Waited(c, RoomForSample, 3, vs, tail)
    requires match s.r.pc
             case RKill => tail == 0
             case RExit => tail == 1
             case RWrite => tail == 1
             case RUnlock => tail == 2
             case RNotify => tail == 3
             case RSleep => tail == 4
             case _ => false
    ensures ReaderSoFar(c, next.r.pc, vs + [View(s, choice)])
  {
    WaitedNext(c, RoomForSample, 3, vs, View(s, choice), tail);
  }

  lemma ReaderSoFarNext(c: Config, s: State, vs: seq<View>, choice: Choice, next: State)
    requires Step(c, s, Run(Reader, choice)) == Some(next)
    requires if vs == [] then s.r.pc.RTest? else !ReaderBetween(s.r.pc) && ReaderSoFar(c, s.r.pc, vs)
    ensures ReaderSoFar(c, next.r.pc, vs + [View(s, choice)])
  {
    match s.r.pc
    case RTest => case RLoad => case RDone =>
    case RLock => TestFirst(c, RoomForSample, vs + [View(s, choice)]);
    case RFull => ReaderWaitsNext(c, s, vs, choice, next);
    case RWaiting => ReaderWaitsNext(c, s, vs, choice, next);
    case RKill => ReaderEndsNext(c, s, vs, choice, next, 0);
    case RExit => ReaderEndsNext(c, s, vs, choice, next, 1);
    case RWrite => ReaderEndsNext(c, s, vs, choice, next, 1);
    case RUnlock => ReaderEndsNext(c, s, vs, choice, next, 2);
    case RNotify => ReaderEndsNext(c, s, vs, choice, next, 3);
    case RSleep => ReaderEndsNext(c, s, vs, choice, next, 4);
  }

  // The sample a turn that began in state start produces, if it loads anything.
  function Loaded(start: State, vs: seq<View>): Option<Sample> {
    if |vs| >= 2 && vs[1].choice.loads.Some? then Some(Sample(start.r.loaded, vs[1].choice.loads.value)) else None
  }

  predicate ReaderHasSent(pc: ReaderPc, vs: seq<View>) {
    pc.RUnlock? || pc.RNotify? || pc.RSleep? || (pc.RTest? && |vs| > 3)
  }

  // What the turn has loaded and written so far.
  ghost predicate ReaderDid(start: State, s: State, vs: seq<View>) {
    var x := Loaded(start, vs);
    && s.r.loaded == start.r.loaded + (if x.Some? then 1 else 0)
    && (x.Some? ==> s.r.sample == x)
    && (ReaderHasSent(s.r.pc, vs) ==> x.Some? && s.input.written == start.input.written + [x.value])
    && (!ReaderHasSent(s.r.pc, vs) ==> s.input.written == start.input.written)
  }

  lemma ReaderDidNext(c: Config, start: State, s: State, vs: seq<View>, choice: Choice, next: State)
    requires Step(c, s, Run(Reader, choice)) == Some(next)
    requires if vs == [] then s.r.pc.RTest? else !ReaderBetween(s.r.pc) && ReaderSoFar(c, s.r.pc, vs)
    requires ReaderDid(start, s, vs)
    ensures ReaderDid(start, next, vs + [View(s, choice)])
  {
  }

  lemma OthersLeaveReader(c: Config, s: State, e: Event, next: State)
    requires Step(c, s, e) == Some(next) && !By(e, Reader)
    ensures next.r == s.r && next.input.written == s.input.written
  {
    if By(e, Analyzer) && OnInput(s.a.pc) {
      AnalyzerInFrame(s.kill, s.input, s.a, e.choice);
    }
  }

  lemma {:induction false} ReaderInTurn(c: Config, ss: seq<State>, es: seq<Event>, k: nat, i: nat)
    requires IsRun(c, ss, es) && k < i <= |es| && By(es[k], Reader) && ss[k].r.pc.RTest?
    requires forall m :: k < m < i ==> !ReaderBetween(ss[m].r.pc)
    ensures var vs := Views(ss, es, Reader, k, i);
            vs != [] && ReaderSoFar(c, ss[i].r.pc, vs) && ReaderDid(ss[k], ss[i], vs)
  {
    var s, e, next := ss[i - 1], es[i - 1], ss[i];
    assert Step(c, s, e) == Some(next);
    var vs := Views(ss, es, Reader, k, i - 1);
    if k < i - 1 {
      ReaderInTurn(c, ss, es, k, i - 1);
    }
    if By(e, Reader) {
      ReaderSoFarNext(c, s, vs, e.choice, next);
      ReaderDidNext(c, ss[k], s, vs, e.choice, next);
    } else {
      assert Views(ss, es, Reader, k, i) == vs;
      OthersLeaveReader(c, s, e, next);
    }
  }

  /** Every turn of the reader, under every interleaving: it ends the loop exactly when it finds the
      kill switch set; it goes on without writing when nothing was loaded or the mutex was not got;
      and otherwise, after one wait loop, it writes exactly the sample it loaded, then signals. */
  lemma ReaderTurns(c: Config, ss: seq<State>, es: seq<Event>, k: nat, i: nat)
    requires IsRun(c, ss, es) && ReaderTurn(ss, es, k, i)
    ensures var vs, x := Views(ss, es, Reader, k, i), Loaded(ss[k], Views(ss, es, Reader, k, i));
            && (ss[i].r.pc.RDone? ==> ReaderQuits(c, vs))
            && (ss[i].r.pc.RTest? ==> ReaderContinues(vs) || ReaderSends(c, vs))
            && ss[i].r.loaded == ss[k].r.loaded + (if x.Some? then 1 else 0)
            && ss[i].input.written == ss[k].input.written + if ss[i].r.pc.RTest? && ReaderEnters(vs) then [x.value] else []
  {
    ReaderInTurn(c, ss, es, k, i);
  }

  // ----- The printer -----

  predicate PrinterBetween(pc: PrinterPc) {
    pc.PTest? || pc.PDone?
  }

  ghost predicate PrinterTurn(ss: seq<State>, es: seq<Event>, k: nat, i: nat) {
    && k < i <= |es| < |ss| && By(es[k], Printer)
    && ss[k].p.pc.PTest? && PrinterBetween(ss[i].p.pc)
    && forall m :: k < m < i ==> !PrinterBetween(ss[m].p.pc)
  }

  predicate PrinterEnters(vs: seq<View>) {
    |vs| >= 2 && !vs[0].s.kill && vs[1].choice.locks
  }

  predicate PrinterContinues(vs: seq<View>) {
    |vs| == 2 && !vs[0].s.kill && !vs[1].choice.locks
  }

  // After the wait loop: the test of the kill switch, the read, the unlock, the print.
  ghost predicate PrinterPrints(c: Config, vs: seq<View>) {
    PrinterEnters(vs) && Waited(c, NextRecord, 2, vs, 4) && !vs[|vs| - 4].s.kill
  }

  ghost predicate PrinterQuits(c: Config, vs: seq<View>) {
    || (|vs| == 1 && vs[0].s.kill)
    || (PrinterEnters(vs) && Waited(c, NextRecord, 2, vs, 2) && vs[|vs| - 2].s.kill)
  }

  ghost predicate Idled(start: State, s: State) {
    s.p == start.p.(pc := s.p.pc) && s.output.takenAt == start.output.takenAt
  }

  // The read, `back` steps ago, took the oldest record if there was one, and else left the one before.
  ghost predicate Consulted(start: State, s: State, vs: seq<View>, back: nat) {
    && 1 <= back <= |vs|
    && var ring := vs[|vs| - back].s.output.ring;
       if ring == [] then s.p.usage == start.p.usage && s.output.takenAt == start.output.takenAt
       else s.p.usage == Some(ring[0]) && |s.output.takenAt| == |start.output.takenAt| + 1
  }

  ghost predicate PrinterSoFar(c: Config, start: State, s: State, vs: seq<View>) {
    match s.p.pc
    case PTest =>
      || (PrinterContinues(vs) && Idled(start, s))
      || (&& PrinterPrints(c, vs) && Consulted(start, s, vs, 3)
          && s.p.printed == start.p.printed + [Shown(s.p.usage, |s.output.takenAt|)])
    case PLock => |vs| == 1 && !vs[0].s.kill && Idled(start, s)
    case PEmpty => PrinterEnters(vs) && AtTest(c, NextRecord, 2, vs) && Idled(start, s)
    case PWaiting => PrinterEnters(vs) && InWait(c, NextRecord, 2, vs) && Idled(start, s)
    case PKill => PrinterEnters(vs) && Waited(c, NextRecord, 2, vs, 0) && Idled(start, s)
    case PExit => PrinterEnters(vs) && Waited(c, NextRecord, 2, vs, 1) && vs[|vs| - 1].s.kill && Idled(start, s)
    case PRead => PrinterEnters(vs) && Waited(c, NextRecord, 2, vs, 1) && !vs[|vs| - 1].s.kill && Idled(start, s)
    case PUnlock =>
      && PrinterEnters(vs) && Waited(c, NextRecord, 2, vs, 2) && !vs[|vs| - 2].s.kill
      && Consulted(start, s, vs, 1) && s.p.printed == start.p.printed
    case PPrint =>
      && PrinterEnters(vs) && Waited(c, NextRecord, 2, vs, 3) && !vs[|vs| - 3].s.kill
      && Consulted(start, s, vs, 2) && s.p.printed == start.p.printed
    case PDone => PrinterQuits(c, vs) && Idled(start, s)
  }

  lemma PrinterWaitsNext(c: Config, start: State, s: State, vs: seq<View>, choice: Choice, next: State)
    requires Step(c, s, Run(Printer, choice)) == Some(next)
    requires (s.p.pc.PEmpty? || s.p.pc.PWaiting?) && PrinterSoFar(c, start, s, vs)
    ensures PrinterSoFar(c, start, next, vs + [View(s, choice)])
  {
    if s.p.pc.PEmpty? {
      TestNext(c, NextRecord, 2, vs, View(s, choice));
    } else {
      WaitNext(c, NextRecord, 2, vs, View(s, choice));
    }
  }

  lemma PrinterEndsNext(c: Config, start: State, s: State, vs: seq<View>, choice: Choice, next: State, tail: nat)
    requires Step(c, s, Run(Printer, choice)) == Some(next)
    requires PrinterSoFar(c, start, s, vs) && Waited(c, NextRecord, 2, vs, tail)
    requires match s.p.pc
             case PKill => tail == 0
             case PExit => tail == 1
             case PRead => tail == 1
             case PUnlock => tail == 2
             case PPrint => tail == 3
             case _ => false
    ensures PrinterSoFar(c, start, next, vs + [View(s, choice)])
  {
    WaitedNext(c, NextRecord, 2, vs, View(s, choice), tail);
  }

  lemma PrinterSoFarNext(c: Config, start: State, s: State, vs: seq<View>, choice: Choice, next: State)
    requires Step(c, s, Run(Printer, choice)) == Some(next)
    requires if vs == [] then s == start && s.p.pc.PTest? else !PrinterBetween(s.p.pc) && PrinterSoFar(c, start, s, vs)
    ensures PrinterSoFar(c, start, next, vs + [View(s, choice)])
  {
    match s.p.pc
    case PTest => case PDone =>
    case PLock => TestFirst(c, NextRecord, vs + [View(s, choice)]);
    case PEmpty => PrinterWaitsNext(c, start, s, vs, choice, next);
    case PWaiting => PrinterWaitsNext(c, start, s, vs, choice, next);
    case PKill => PrinterEndsNext(c, start, s, vs, choice, next, 0);
    case PExit => PrinterEndsNext(c, start, s, vs, choice, next, 1);
    case PRead => PrinterEndsNext(c, start, s, vs, choice, next, 1);
    case PUnlock => PrinterEndsNext(c, start, s, vs, choice, next, 2);
    case PPrint => PrinterEndsNext(c, start, s, vs, choice, next, 3);
  }

  lemma OthersLeavePrinter(c: Config, s: State, e: Event, next: State)
    requires Step(c, s, e) == Some(next) && !By(e, Printer)
    ensures next.p == s.p && next.output.takenAt == s.output.takenAt
  {
  }

  lemma {:induction false} PrinterTurnSoFar(c: Config, ss: seq<State>, es: seq<Event>, k: nat, i: nat)
    requires IsRun(c, ss, es) && k < i <= |es| && By(es[k], Printer) && ss[k].p.pc.PTest?
    requires forall m :: k < m < i ==> !PrinterBetween(ss[m].p.pc)
    ensures Views(ss, es, Printer, k, i) != [] && PrinterSoFar(c, ss[k], ss[i], Views(ss, es, Printer, k, i))
  {
    var s, e, next := ss[i - 1], es[i - 1], ss[i];
    assert Step(c, s, e) == Some(next);
    var vs := Views(ss, es, Printer, k, i - 1);
    if k < i - 1 {
      PrinterTurnSoFar(c, ss, es, k, i - 1);
    }
    if By(e, Printer) {
      PrinterSoFarNext(c, ss[k], s, vs, e.choice, next);
    } else {
      assert Views(ss, es, Printer, k, i) == vs;
      OthersLeavePrinter(c, s, e, next);
    }
  }

  /** Every turn of the printer: it ends the loop exactly when it finds the kill switch set, changes
      nothing when it does not get the mutex, and otherwise, after one wait loop, reads once and prints
      once: the record it read, or the one it printed before when the ring was empty. */
  lemma PrinterTurns(c: Config, ss: seq<State>, es: seq<Event>, k: nat, i: nat)
    requires IsRun(c, ss, es) && PrinterTurn(ss, es, k, i)
    ensures var vs := Views(ss, es, Printer, k, i);
            if ss[i].p.pc.PDone? then PrinterQuits(c, vs) && Idled(ss[k], ss[i])
            else
              || (PrinterContinues(vs) && Idled(ss[k], ss[i]))
              || (&& PrinterPrints(c, vs) && Consulted(ss[k], ss[i], vs, 3)
                  && ss[i].p.printed == ss[k].p.printed + [Shown(ss[i].p.usage, |ss[i].output.takenAt|)])
  {
    PrinterTurnSoFar(c, ss, es, k, i);
  }
}
