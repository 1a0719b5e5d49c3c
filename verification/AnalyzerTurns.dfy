/** What one turn of the analyzer's loop does, under every interleaving, in two halves: up to the
    calculation of a record, and from there to the end of the turn. */
module AnalyzerTurns {
  import opened DropOldest
  import opened Channels
  import opened Pipelines
  import opened PipelineInvariants
  import opened PipelineTurns

  // ----- The analyzer, from the test of its loop to the calculation -----

  predicate AnalyzerBetween(pc: AnalyzerPc) {
    pc.ATest? || pc.ADone? || pc.ACalculate?
  }

  // One turn of the loop up to the calculation, when it comes to one.
  ghost predicate AnalyzerInTurn(ss: seq<State>, es: seq<Event>, k: nat, i: nat) {
    && k < i <= |es| < |ss| && By(es[k], Analyzer)
    && ss[k].a.pc.ATest? && AnalyzerBetween(ss[i].a.pc)
    && forall m :: k < m < i ==> !AnalyzerBetween(ss[m].a.pc)
  }

  predicate AnalyzerEnters(vs: seq<View>) {
    |vs| >= 2 && !vs[0].s.kill && vs[1].choice.locks
  }

  predicate AnalyzerContinues(vs: seq<View>) {
    |vs| == 2 && !vs[0].s.kill && !vs[1].choice.locks
  }

  // After the wait loop: the test of the kill switch, a read that finds the ring empty, the unlock.
  ghost predicate AnalyzerGivesUp(c: Config, vs: seq<View>) {
    && AnalyzerEnters(vs) && Waited(c, NextSample, 2, vs, 3)
    && !vs[|vs| - 3].s.kill && vs[|vs| - 2].s.input.ring == []
  }

  // The test of the kill switch, then a read that finds a sample, with `tail` steps in all.
  ghost predicate AnalyzerHasRead(c: Config, vs: seq<View>, tail: nat) {
    && 2 <= tail && AnalyzerEnters(vs) && Waited(c, NextSample, 2, vs, tail)
    && !vs[|vs| - tail].s.kill && vs[|vs| - tail + 1].s.input.ring != []
  }

  ghost predicate AnalyzerQuits(c: Config, vs: seq<View>) {
    || (|vs| == 1 && vs[0].s.kill)
    || (AnalyzerEnters(vs) && Waited(c, NextSample, 2, vs, 2) && vs[|vs| - 2].s.kill)
  }

  // The turn has read nothing so far.
  ghost predicate Unread(start: State, s: State) {
    s.a == start.a.(pc := s.a.pc) && s.input.takenAt == start.input.takenAt
  }

  // The turn has read the sample that was the oldest at its read, `back` steps ago, into its new buffer.
  ghost predicate Fetched(start: State, s: State, vs: seq<View>, back: nat) {
    && 1 <= back <= |vs| && vs[|vs| - back].s.input.ring != []
    && |s.input.takenAt| == |start.input.takenAt| + 1
    && s.a == start.a.Store(start.a.newAt, vs[|vs| - back].s.input.ring[0]).(pc := s.a.pc)
  }

  // And a first sample has become the old one.
  ghost predicate FetchedFirst(start: State, s: State, vs: seq<View>, back: nat) {
    && 1 <= back <= |vs| && vs[|vs| - back].s.input.ring != []
    && |s.input.takenAt| == |start.input.takenAt| + 1 && !start.a.initialized
    && s.a == start.a.Store(start.a.newAt, vs[|vs| - back].s.input.ring[0]).Swapped().(pc := s.a.pc, initialized := true)
  }

  ghost predicate AnalyzerInSoFar(c: Config, start: State, s: State, vs: seq<View>) {
    match s.a.pc
    case ATest =>
      || ((AnalyzerContinues(vs) || AnalyzerGivesUp(c, vs)) && Unread(start, s))
      || (AnalyzerHasRead(c, vs, 5) && FetchedFirst(start, s, vs, 4))
    case ALockIn => |vs| == 1 && !vs[0].s.kill && Unread(start, s)
    case AEmpty => AnalyzerEnters(vs) && AtTest(c, NextSample, 2, vs) && Unread(start, s)
    case AWaitingIn => AnalyzerEnters(vs) && InWait(c, NextSample, 2, vs) && Unread(start, s)
    case AKillIn => AnalyzerEnters(vs) && Waited(c, NextSample, 2, vs, 0) && Unread(start, s)
    case AExitIn => AnalyzerEnters(vs) && Waited(c, NextSample, 2, vs, 1) && vs[|vs| - 1].s.kill && Unread(start, s)
    case ARead => AnalyzerEnters(vs) && Waited(c, NextSample, 2, vs, 1) && !vs[|vs| - 1].s.kill && Unread(start, s)
    case AGiveUp =>
      && AnalyzerEnters(vs) && Waited(c, NextSample, 2, vs, 2) && !vs[|vs| - 2].s.kill && vs[|vs| - 1].s.input.ring == []
      && Unread(start, s)
    case AUnlockIn => AnalyzerHasRead(c, vs, 2) && Fetched(start, s, vs, 1)
    case ANotifyIn => AnalyzerHasRead(c, vs, 3) && Fetched(start, s, vs, 2)
    case AFirst => AnalyzerHasRead(c, vs, 4) && Fetched(start, s, vs, 3)
    case ACalculate => AnalyzerHasRead(c, vs, 5) && Fetched(start, s, vs, 4) && s.a.initialized
    case ADone => AnalyzerQuits(c, vs) && Unread(start, s)
    case _ => false
  }

  lemma AnalyzerInWaitsNext(c: Config, start: State, s: State, vs: seq<View>, choice: Choice, next: State)
    requires Step(c, s, Run(Analyzer, choice)) == Some(next)
    requires (s.a.pc.AEmpty? || s.a.pc.AWaitingIn?) && AnalyzerInSoFar(c, start, s, vs)
    ensures AnalyzerInSoFar(c, start, next, vs + [View(s, choice)])
  {
    if s.a.pc.AEmpty? {
      TestNext(c, NextSample, 2, vs, View(s, choice));
    } else {
      WaitNext(c, NextSample, 2, vs, View(s, choice));
    }
  }

  lemma AnalyzerInEndsNext(c: Config, start: State, s: State, vs: seq<View>, choice: Choice, next: State, tail: nat)
    requires Step(c, s, Run(Analyzer, choice)) == Some(next)
    requires AnalyzerInSoFar(c, start, s, vs) && Waited(c, NextSample, 2, vs, tail)
    requires match s.a.pc
             case AKillIn => tail == 0
             case AExitIn => tail == 1
             case ARead => tail == 1
             case AGiveUp => tail == 2
             case _ => false
    ensures AnalyzerInSoFar(c, start, next, vs + [View(s, choice)])
  {
    WaitedNext(c, NextSample, 2, vs, View(s, choice), tail);
  }

  lemma AnalyzerFetchesNext(c: Config, start: State, s: State, vs: seq<View>, choice: Choice, next: State, tail: nat)
    requires Step(c, s, Run(Analyzer, choice)) == Some(next)
    requires AnalyzerInSoFar(c, start, s, vs) && Waited(c, NextSample, 2, vs, tail)
    requires match s.a.pc
             case AUnlockIn => tail == 2
             case ANotifyIn => tail == 3
             case AFirst => tail == 4
             case _ => false
    ensures AnalyzerInSoFar(c, start, next, vs + [View(s, choice)])
  {
    WaitedNext(c, NextSample, 2, vs, View(s, choice), tail);
  }

  lemma AnalyzerInSoFarNext(c: Config, start: State, s: State, vs: seq<View>, choice: Choice, next: State)
    requires Step(c, s, Run(Analyzer, choice)) == Some(next)
    requires if vs == [] then s == start && s.a.pc.ATest? else !AnalyzerBetween(s.a.pc) && AnalyzerInSoFar(c, start, s, vs)
    ensures AnalyzerInSoFar(c, start, next, vs + [View(s, choice)])
  {
    match s.a.pc
    case ATest =>
    case ALockIn => TestFirst(c, NextSample, vs + [View(s, choice)]);
    case AEmpty => AnalyzerInWaitsNext(c, start, s, vs, choice, next);
    case AWaitingIn => AnalyzerInWaitsNext(c, start, s, vs, choice, next);
    case AKillIn => AnalyzerInEndsNext(c, start, s, vs, choice, next, 0);
    case AExitIn => AnalyzerInEndsNext(c, start, s, vs, choice, next, 1);
    case ARead => AnalyzerInEndsNext(c, start, s, vs, choice, next, 1);
    case AGiveUp => AnalyzerInEndsNext(c, start, s, vs, choice, next, 2);
    case AUnlockIn => AnalyzerFetchesNext(c, start, s, vs, choice, next, 2);
    case ANotifyIn => AnalyzerFetchesNext(c, start, s, vs, choice, next, 3);
    case AFirst => AnalyzerFetchesNext(c, start, s, vs, choice, next, 4);
    case _ => assert false;
  }

  lemma OthersLeaveAnalyzer(c: Config, s: State, e: Event, next: State)
    requires Step(c, s, e) == Some(next) && !By(e, Analyzer)
    ensures next.a == s.a && next.input.takenAt == s.input.takenAt && next.output.written == s.output.written
  {
    if By(e, Reader) {
      ReaderFrame(c, s.kill, s.input, s.r, e.choice);
    } else if By(e, Printer) {
      PrinterFrame(s.kill, s.output, s.p, e.choice);
    }
  }

  lemma {:induction false} AnalyzerInTurnSoFar(c: Config, ss: seq<State>, es: seq<Event>, k: nat, i: nat)
    requires IsRun(c, ss, es) && k < i <= |es| && By(es[k], Analyzer) && ss[k].a.pc.ATest?
    requires forall m :: k < m < i ==> !AnalyzerBetween(ss[m].a.pc)
    ensures Views(ss, es, Analyzer, k, i) != [] && AnalyzerInSoFar(c, ss[k], ss[i], Views(ss, es, Analyzer, k, i))
  {
    var s, e, next := ss[i - 1], es[i - 1], ss[i];
    assert Step(c, s, e) == Some(next);
    var vs := Views(ss, es, Analyzer, k, i - 1);
    if k < i - 1 {
      AnalyzerInTurnSoFar(c, ss, es, k, i - 1);
    }
    if By(e, Analyzer) {
      AnalyzerInSoFarNext(c, ss[k], s, vs, e.choice, next);
    } else {
      assert Views(ss, es, Analyzer, k, i) == vs;
      OthersLeaveAnalyzer(c, s, e, next);
    }
  }

  /** Every turn of the analyzer up to the calculation: it ends the loop exactly when it finds the kill
      switch set; it goes back to the test with nothing changed when it did not get the mutex or, after
      one wait loop, finds the ring empty; otherwise it reads the oldest sample into its new buffer,
      signals, and keeps a first sample as the old one or goes on to the calculation. */
  lemma AnalyzerInTurns(c: Config, ss: seq<State>, es: seq<Event>, k: nat, i: nat)
    requires IsRun(c, ss, es) && AnalyzerInTurn(ss, es, k, i)
    ensures var vs := Views(ss, es, Analyzer, k, i);
            match ss[i].a.pc
            case ADone => AnalyzerQuits(c, vs) && Unread(ss[k], ss[i])
            case ATest =>
              || ((AnalyzerContinues(vs) || AnalyzerGivesUp(c, vs)) && Unread(ss[k], ss[i]))
              || (AnalyzerHasRead(c, vs, 5) && FetchedFirst(ss[k], ss[i], vs, 4))
            case _ => AnalyzerHasRead(c, vs, 5) && Fetched(ss[k], ss[i], vs, 4) && ss[i].a.initialized
  {
    AnalyzerInTurnSoFar(c, ss, es, k, i);
  }

  // ----- The analyzer, from the calculation to the end of its turn -----

  // The rest of a turn that came to the calculation.
  ghost predicate AnalyzerOutTurn(ss: seq<State>, es: seq<Event>, k: nat, i: nat) {
    && k < i <= |es| < |ss| && By(es[k], Analyzer)
    && ss[k].a.pc.ACalculate? && (ss[i].a.pc.ATest? || ss[i].a.pc.ADone?)
    && forall m :: k < m < i ==> !AnalyzerBetween(ss[m].a.pc)
  }

  predicate AnalyzerLocksOut(vs: seq<View>) {
    |vs| >= 2 && vs[1].choice.locks
  }

  // After the wait loop: the test of the kill switch, the write, the unlock, the signal, the swap.
  ghost predicate AnalyzerEmits(c: Config, vs: seq<View>) {
    AnalyzerLocksOut(vs) && Waited(c, RoomForRecord, 2, vs, 5) && !vs[|vs| - 5].s.kill
  }

  ghost predicate AnalyzerQuitsOut(c: Config, vs: seq<View>) {
    AnalyzerLocksOut(vs) && Waited(c, RoomForRecord, 2, vs, 2) && vs[|vs| - 2].s.kill
  }

  // What the analyzer holds after the calculation, and again after abandoning the record.
  ghost predicate Calculated(start: State, s: State) {
    var o, n := start.a.At(start.a.oldAt), start.a.At(start.a.newAt);
    && o.Some? && n.Some? && |o.value.stat| <= |n.value.stat|
    && s.a == start.a.(pc := s.a.pc, usage := Some(UsageOf(o.value, n.value)), staleWake := s.a.staleWake)
  }

  ghost predicate Held(start: State, s: State) {
    Calculated(start, s) && s.output.written == start.output.written
  }

  ghost predicate Emitted(start: State, s: State) {
    && Calculated(start, s)
    && s.output.written == start.output.written + [s.a.usage.value]
  }

  // The record is out and the two buffers have traded places.
  ghost predicate Turned(start: State, s: State) {
    && Calculated(start, s.(a := s.a.Swapped()))
    && s.output.written == start.output.written + [s.a.usage.value]
  }

  ghost predicate AnalyzerOutSoFar(c: Config, start: State, s: State, vs: seq<View>) {
    match s.a.pc
    case ATest => (|vs| == 2 && !vs[1].choice.locks && Held(start, s)) || (AnalyzerEmits(c, vs) && Turned(start, s))
    case ALockOut => |vs| == 1 && Held(start, s)
    case AFull => AnalyzerLocksOut(vs) && AtTest(c, RoomForRecord, 2, vs) && Held(start, s)
    case AWaitingOut => AnalyzerLocksOut(vs) && InWait(c, RoomForRecord, 2, vs) && Held(start, s)
    case AKillOut => AnalyzerLocksOut(vs) && Waited(c, RoomForRecord, 2, vs, 0) && Held(start, s)
    case AExitOut => AnalyzerLocksOut(vs) && Waited(c, RoomForRecord, 2, vs, 1) && vs[|vs| - 1].s.kill && Held(start, s)
    case AWrite => AnalyzerLocksOut(vs) && Waited(c, RoomForRecord, 2, vs, 1) && !vs[|vs| - 1].s.kill && Held(start, s)
    case AUnlockOut => AnalyzerLocksOut(vs) && Waited(c, RoomForRecord, 2, vs, 2) && !vs[|vs| - 2].s.kill && Emitted(start, s)
    case ANotifyOut => AnalyzerLocksOut(vs) && Waited(c, RoomForRecord, 2, vs, 3) && !vs[|vs| - 3].s.kill && Emitted(start, s)
    case ASwap => AnalyzerLocksOut(vs) && Waited(c, RoomForRecord, 2, vs, 4) && !vs[|vs| - 4].s.kill && Emitted(start, s)
    case ADone => AnalyzerQuitsOut(c, vs) && Held(start, s)
    case _ => false
  }

  lemma AnalyzerOutWaitsNext(c: Config, start: State, s: State, vs: seq<View>, choice: Choice, next: State)
    requires Step(c, s, Run(Analyzer, choice)) == Some(next)
    requires (s.a.pc.AFull? || s.a.pc.AWaitingOut?) && AnalyzerOutSoFar(c, start, s, vs)
    ensures AnalyzerOutSoFar(c, start, next, vs + [View(s, choice)])
  {
    if s.a.pc.AFull? {
      TestNext(c, RoomForRecord, 2, vs, View(s, choice));
    } else {
      WaitNext(c, RoomForRecord, 2, vs, View(s, choice));
    }
  }

  lemma AnalyzerOutEndsNext(c: Config, start: State, s: State, vs: seq<View>, choice: Choice, next: State, tail: nat)
    requires Step(c, s, Run(Analyzer, choice)) == Some(next)
    requires AnalyzerOutSoFar(c, start, s, vs) && Waited(c, RoomForRecord, 2, vs, tail)
    requires match s.a.pc
             case AKillOut => tail == 0
             case AExitOut => tail == 1
             case AWrite => tail == 1
             case _ => false
    ensures AnalyzerOutSoFar(c, start, next, vs + [View(s, choice)])
  {
    WaitedNext(c, RoomForRecord, 2, vs, View(s, choice), tail);
  }

  lemma AnalyzerEmitsNext(c: Config, start: State, s: State, vs: seq<View>, choice: Choice, next: State, tail: nat)
    requires Step(c, s, Run(Analyzer, choice)) == Some(next)
    requires AnalyzerOutSoFar(c, start, s, vs) && Waited(c, RoomForRecord, 2, vs, tail)
    requires match s.a.pc
             case AUnlockOut => tail == 2
             case ANotifyOut => tail == 3
             case ASwap => tail == 4
             case _ => false
    ensures AnalyzerOutSoFar(c, start, next, vs + [View(s, choice)])
  {
    WaitedNext(c, RoomForRecord, 2, vs, View(s, choice), tail);
  }

  lemma AnalyzerOutSoFarNext(c: Config, start: State, s: State, vs: seq<View>, choice: Choice, next: State)
    requires Step(c, s, Run(Analyzer, choice)) == Some(next)
    requires if vs == [] then s == start && s.a.pc.ACalculate? else !AnalyzerBetween(s.a.pc) && AnalyzerOutSoFar(c, start, s, vs)
    ensures AnalyzerOutSoFar(c, start, next, vs + [View(s, choice)])
  {
    match s.a.pc
    case ACalculate =>
    case ALockOut => TestFirst(c, RoomForRecord, vs + [View(s, choice)]);
    case AFull => AnalyzerOutWaitsNext(c, start, s, vs, choice, next);
    case AWaitingOut => AnalyzerOutWaitsNext(c, start, s, vs, choice, next);
    case AKillOut => AnalyzerOutEndsNext(c, start, s, vs, choice, next, 0);
    case AExitOut => AnalyzerOutEndsNext(c, start, s, vs, choice, next, 1);
    case AWrite => AnalyzerOutEndsNext(c, start, s, vs, choice, next, 1);
    case AUnlockOut => AnalyzerEmitsNext(c, start, s, vs, choice, next, 2);
    case ANotifyOut => AnalyzerEmitsNext(c, start, s, vs, choice, next, 3);
    case ASwap => AnalyzerEmitsNext(c, start, s, vs, choice, next, 4);
    case _ => assert false;
  }

  lemma {:induction false} AnalyzerOutTurnSoFar(c: Config, ss: seq<State>, es: seq<Event>, k: nat, i: nat)
    requires IsRun(c, ss, es) && k < i <= |es| && By(es[k], Analyzer) && ss[k].a.pc.ACalculate?
    requires forall m :: k < m < i ==> !AnalyzerBetween(ss[m].a.pc)
    ensures Views(ss, es, Analyzer, k, i) != [] && AnalyzerOutSoFar(c, ss[k], ss[i], Views(ss, es, Analyzer, k, i))
  {
    var s, e, next := ss[i - 1], es[i - 1], ss[i];
    assert Step(c, s, e) == Some(next);
    var vs := Views(ss, es, Analyzer, k, i - 1);
    if k < i - 1 {
      AnalyzerOutTurnSoFar(c, ss, es, k, i - 1);
    }
    if By(e, Analyzer) {
      AnalyzerOutSoFarNext(c, ss[k], s, vs, e.choice, next);
    } else {
      assert Views(ss, es, Analyzer, k, i) == vs;
      OthersLeaveAnalyzer(c, s, e, next);
    }
  }

  /** The rest of every such turn: a turn that gets the output mutex writes exactly the record of its two
      buffers after one wait loop, signals and lets the buffers trade places, unless it finds the kill
      switch set; one that does not get the mutex drops the record and keeps the buffers as they are. */
  lemma AnalyzerOutTurns(c: Config, ss: seq<State>, es: seq<Event>, k: nat, i: nat)
    requires IsRun(c, ss, es) && AnalyzerOutTurn(ss, es, k, i)
    ensures var vs := Views(ss, es, Analyzer, k, i);
            && |vs| >= 2
            && if !vs[1].choice.locks then |vs| == 2 && ss[i].a.pc.ATest? && Held(ss[k], ss[i])
               else if ss[i].a.pc.ATest? then AnalyzerEmits(c, vs) && Turned(ss[k], ss[i])
               else AnalyzerQuitsOut(c, vs) && Held(ss[k], ss[i])
  {
    AnalyzerOutTurnSoFar(c, ss, es, k, i);
  }
}
