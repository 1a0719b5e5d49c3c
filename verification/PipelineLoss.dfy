/** What the two rings lose, and after what: exactly the writes that follow a wait for room that ended
    with the ring still full. reader.h says samples are only written when the buffer can hold them, and
    reader.c comments its write with "Buffer isn't full"; but even an interleaving in which every lock
    succeeds, every wait ends by a signal and nothing fails overwrites a sample: the signal that ends
    the reader's wait was meant for space the reader had already used. */
module PipelineLoss {
  import opened DropOldest
  import opened Channels
  import opened Pipelines
  import opened PipelineInvariants
  import CpuUsage

  // ----- Samples -----

  // Between its wait and its write the reader stands at the test of the kill switch or at the write.
  predicate ReaderJudges(pc: ReaderPc) {
    pc.RKill? || pc.RWrite?
  }

  // A wait of the reader for room that ends, other than by an error, with the ring still full.
  predicate ReaderWakesToFull(c: Config, s: State, e: Event) {
    e.Run? && e.who.Reader? && s.r.pc.RWaiting? && |s.input.ring| == c.inCapacity && !e.choice.wakes.Failed?
  }

  // Event j is such a wake-up, and from there to state i the reader went straight to its write.
  ghost predicate ReaderWaitedInVain(c: Config, ss: seq<State>, es: seq<Event>, j: nat, i: nat) {
    && j < i <= |es| < |ss|
    && ReaderWakesToFull(c, ss[j], es[j])
    && forall m :: j < m <= i ==> ReaderJudges(ss[m].r.pc)
  }

  lemma ReaderJudgingStep(c: Config, s: State, e: Event, next: State)
    requires LossesIn(c, s.kill, s.input, s.r) && Step(c, s, e) == Some(next) && ReaderJudges(next.r.pc)
    ensures next.r.staleWake <==> if ReaderJudges(s.r.pc) then s.r.staleWake else ReaderWakesToFull(c, s, e)
  {
  }

  lemma ReaderJudgedIn(c: Config, ss: seq<State>, es: seq<Event>, k: nat)
    requires IsRun(c, ss, es) && k < |es| && ReaderJudges(ss[k + 1].r.pc)
    ensures ss[k + 1].r.staleWake <==> if ReaderJudges(ss[k].r.pc) then ss[k].r.staleWake else ReaderWakesToFull(c, ss[k], es[k])
  {
    RunKeepsInv(c, ss, es, k);
    ReaderJudgingStep(c, ss[k], es[k], ss[k + 1]);
  }

  // In one more state of judging the vain wait is still the same; in the first, it is the last event.
  lemma ReaderVainWaitLasts(c: Config, ss: seq<State>, es: seq<Event>, k: nat, i: nat)
    requires i == k + 1 <= |es| < |ss| && ReaderJudges(ss[i].r.pc)
    ensures ReaderJudges(ss[k].r.pc) ==>
              ((exists j: nat :: ReaderWaitedInVain(c, ss, es, j, i)) <==> exists j: nat :: ReaderWaitedInVain(c, ss, es, j, k))
    ensures !ReaderJudges(ss[k].r.pc) ==>
              ((exists j: nat :: ReaderWaitedInVain(c, ss, es, j, i)) <==> ReaderWakesToFull(c, ss[k], es[k]))
  {
    if ReaderJudges(ss[k].r.pc) {
      forall j: nat ensures ReaderWaitedInVain(c, ss, es, j, i) <==> ReaderWaitedInVain(c, ss, es, j, k) {
        if ReaderWaitedInVain(c, ss, es, j, k) {
          forall m | j < m <= i ensures ReaderJudges(ss[m].r.pc) {
            assert m <= k || m == i;
          }
        }
      }
    } else {
      forall j: nat | ReaderWaitedInVain(c, ss, es, j, i) ensures j == k {
      }
      assert ReaderWakesToFull(c, ss[k], es[k]) ==> ReaderWaitedInVain(c, ss, es, k, i);
    }
  }

  lemma {:induction false} StaleReaderWaitedInVain(c: Config, ss: seq<State>, es: seq<Event>, i: nat)
    requires IsRun(c, ss, es) && i < |ss| && ReaderJudges(ss[i].r.pc)
    ensures ss[i].r.staleWake <==> exists j: nat :: ReaderWaitedInVain(c, ss, es, j, i)
  {
    ReaderJudgedIn(c, ss, es, i - 1);
    ReaderVainWaitLasts(c, ss, es, i - 1, i);
    if ReaderJudges(ss[i - 1].r.pc) {
      StaleReaderWaitedInVain(c, ss, es, i - 1);
    }
  }

  lemma SampleLossStep(c: Config, s: State, e: Event, next: State)
    requires LossesIn(c, s.kill, s.input, s.r) && |s.input.ring| <= c.inCapacity && Step(c, s, e) == Some(next)
    ensures next.input.lost == s.input.lost + if e.Run? && e.who.Reader? && s.r.pc.RWrite? && s.r.staleWake then 1 else 0
    ensures next.input.stale == s.input.stale + if ReaderWakesToFull(c, s, e) then 1 else 0
  {
    if e.Run? && e.who.Reader? {
      ReaderFrame(c, s.kill, s.input, s.r, e.choice);
    } else if e.Run? && e.who.Analyzer? && OnInput(s.a.pc) {
      AnalyzerInFrame(s.kill, s.input, s.a, e.choice);
    }
  }

  /** A step overwrites a sample exactly when it is the reader's write and the reader came to it straight
      from a wait that ended with the ring still full. */
  lemma SampleLosses(c: Config, ss: seq<State>, es: seq<Event>, i: nat)
    requires IsRun(c, ss, es) && i < |es|
    ensures ss[i].input.lost <= ss[i + 1].input.lost <= ss[i].input.lost + 1
    ensures ss[i + 1].input.lost != ss[i].input.lost
       <==> es[i].Run? && es[i].who.Reader? && ss[i].r.pc.RWrite? && exists j: nat :: ReaderWaitedInVain(c, ss, es, j, i)
  {
    RunKeepsInv(c, ss, es, i);
    SampleLossStep(c, ss[i], es[i], ss[i + 1]);
    if ss[i].r.pc.RWrite? {
      StaleReaderWaitedInVain(c, ss, es, i);
    }
  }

  // The wait before a write comes after every earlier write: no two losses share one.
  lemma LostSamplesHaveOwnWaits(c: Config, ss: seq<State>, es: seq<Event>, i: nat, i': nat, j': nat)
    requires IsRun(c, ss, es) && i < i' < |es| && es[i].Run? && es[i].who.Reader? && ss[i].r.pc.RWrite?
    requires ReaderWaitedInVain(c, ss, es, j', i')
    ensures i < j'
  {
    assert Step(c, ss[i], es[i]) == Some(ss[i + 1]);
    assert !ReaderJudges(ss[i + 1].r.pc) && !ReaderWakesToFull(c, ss[i], es[i]);
  }

  // How many waits of the reader among the first n events were in vain.
  ghost function ReaderVainWaits(c: Config, ss: seq<State>, es: seq<Event>, n: nat): nat
    requires n <= |es| < |ss|
  {
    if n == 0 then 0
    else ReaderVainWaits(c, ss, es, n - 1) + if ReaderWakesToFull(c, ss[n - 1], es[n - 1]) then 1 else 0
  }

  lemma LostAtMostStale(c: Config, ss: seq<State>, es: seq<Event>, n: nat)
    requires IsRun(c, ss, es) && n < |ss|
    ensures ss[n].input.lost <= ss[n].input.stale
  {
    RunKeepsInv(c, ss, es, n);
  }

  lemma StaleCountsWaits(c: Config, ss: seq<State>, es: seq<Event>, k: nat)
    requires IsRun(c, ss, es) && k < |es|
    ensures ss[k + 1].input.stale == ss[k].input.stale + if ReaderWakesToFull(c, ss[k], es[k]) then 1 else 0
  {
    RunKeepsInv(c, ss, es, k);
    SampleLossStep(c, ss[k], es[k], ss[k + 1]);
  }

  // So such waits bound the losses.
  lemma {:induction false} VainWaitsBoundLostSamples(c: Config, ss: seq<State>, es: seq<Event>, n: nat)
    requires IsRun(c, ss, es) && n < |ss|
    ensures ss[n].input.stale == ReaderVainWaits(c, ss, es, n)
    ensures ss[n].input.lost <= ReaderVainWaits(c, ss, es, n)
  {
    LostAtMostStale(c, ss, es, n);
    if n > 0 {
      VainWaitsBoundLostSamples(c, ss, es, n - 1);
      StaleCountsWaits(c, ss, es, n - 1);
    }
  }

  // ----- Records -----

  predicate AnalyzerJudges(pc: AnalyzerPc) {
    pc.AKillOut? || pc.AWrite?
  }

  // The same on the other ring: a wait of the analyzer for room.
  predicate AnalyzerWakesToFull(c: Config, s: State, e: Event) {
    e.Run? && e.who.Analyzer? && s.a.pc.AWaitingOut? && |s.output.ring| == c.outCapacity && !e.choice.wakes.Failed?
  }

  ghost predicate AnalyzerWaitedInVain(c: Config, ss: seq<State>, es: seq<Event>, j: nat, i: nat) {
    && j < i <= |es| < |ss|
    && AnalyzerWakesToFull(c, ss[j], es[j])
    && forall m :: j < m <= i ==> AnalyzerJudges(ss[m].a.pc)
  }

  lemma AnalyzerJudgingStep(c: Config, s: State, e: Event, next: State)
    requires LossesOut(c, s.kill, s.output, s.a) && Step(c, s, e) == Some(next) && AnalyzerJudges(next.a.pc)
    ensures next.a.staleWake <==> if AnalyzerJudges(s.a.pc) then s.a.staleWake else AnalyzerWakesToFull(c, s, e)
  {
  }

  lemma AnalyzerJudgedIn(c: Config, ss: seq<State>, es: seq<Event>, k: nat)
    requires IsRun(c, ss, es) && k < |es| && AnalyzerJudges(ss[k + 1].a.pc)
    ensures ss[k + 1].a.staleWake <==> if AnalyzerJudges(ss[k].a.pc) then ss[k].a.staleWake else AnalyzerWakesToFull(c, ss[k], es[k])
  {
    RunKeepsInv(c, ss, es, k);
    AnalyzerJudgingStep(c, ss[k], es[k], ss[k + 1]);
  }

  // In one more state of judging the vain wait is still the same; in the first, it is the last event.
  lemma AnalyzerVainWaitLasts(c: Config, ss: seq<State>, es: seq<Event>, k: nat, i: nat)
    requires i == k + 1 <= |es| < |ss| && AnalyzerJudges(ss[i].a.pc)
    ensures AnalyzerJudges(ss[k].a.pc) ==>
              ((exists j: nat :: AnalyzerWaitedInVain(c, ss, es, j, i)) <==> exists j: nat :: AnalyzerWaitedInVain(c, ss, es, j, k))
    ensures !AnalyzerJudges(ss[k].a.pc) ==>
              ((exists j: nat :: AnalyzerWaitedInVain(c, ss, es, j, i)) <==> AnalyzerWakesToFull(c, ss[k], es[k]))
  {
    if AnalyzerJudges(ss[k].a.pc) {
      forall j: nat ensures AnalyzerWaitedInVain(c, ss, es, j, i) <==> AnalyzerWaitedInVain(c, ss, es, j, k) {
        if AnalyzerWaitedInVain(c, ss, es, j, k) {
          forall m | j < m <= i ensures AnalyzerJudges(ss[m].a.pc) {
            assert m <= k || m == i;
          }
        }
      }
    } else {
      forall j: nat | AnalyzerWaitedInVain(c, ss, es, j, i) ensures j == k {
      }
      assert AnalyzerWakesToFull(c, ss[k], es[k]) ==> AnalyzerWaitedInVain(c, ss, es, k, i);
    }
  }

  lemma {:induction false} StaleAnalyzerWaitedInVain(c: Config, ss: seq<State>, es: seq<Event>, i: nat)
    requires IsRun(c, ss, es) && i < |ss| && AnalyzerJudges(ss[i].a.pc)
    ensures ss[i].a.staleWake <==> exists j: nat :: AnalyzerWaitedInVain(c, ss, es, j, i)
  {
    AnalyzerJudgedIn(c, ss, es, i - 1);
    AnalyzerVainWaitLasts(c, ss, es, i - 1, i);
    if AnalyzerJudges(ss[i - 1].a.pc) {
      StaleAnalyzerWaitedInVain(c, ss, es, i - 1);
    }
  }

  lemma RecordLossStep(c: Config, s: State, e: Event, next: State)
    requires LossesOut(c, s.kill, s.output, s.a) && |s.output.ring| <= c.outCapacity && Step(c, s, e) == Some(next)
    ensures next.output.lost == s.output.lost + if e.Run? && e.who.Analyzer? && s.a.pc.AWrite? && s.a.staleWake then 1 else 0
  {
    if e.Run? && e.who.Printer? {
      PrinterFrame(s.kill, s.output, s.p, e.choice);
    }
  }

  /** A step overwrites a record exactly when it is the analyzer's write and the analyzer came to it
      straight from a wait that ended with the ring still full. */
  lemma RecordLosses(c: Config, ss: seq<State>, es: seq<Event>, i: nat)
    requires IsRun(c, ss, es) && i < |es|
    ensures ss[i].output.lost <= ss[i + 1].output.lost <= ss[i].output.lost + 1
    ensures ss[i + 1].output.lost != ss[i].output.lost
       <==> es[i].Run? && es[i].who.Analyzer? && ss[i].a.pc.AWrite? && exists j: nat :: AnalyzerWaitedInVain(c, ss, es, j, i)
  {
    RunKeepsInv(c, ss, es, i);
    RecordLossStep(c, ss[i], es[i], ss[i + 1]);
    if ss[i].a.pc.AWrite? {
      StaleAnalyzerWaitedInVain(c, ss, es, i);
    }
  }

  lemma LostRecordsHaveOwnWaits(c: Config, ss: seq<State>, es: seq<Event>, i: nat, i': nat, j': nat)
    requires IsRun(c, ss, es) && i < i' < |es| && es[i].Run? && es[i].who.Analyzer? && ss[i].a.pc.AWrite?
    requires AnalyzerWaitedInVain(c, ss, es, j', i')
    ensures i < j'
  {
    assert Step(c, ss[i], es[i]) == Some(ss[i + 1]);
    assert !AnalyzerJudges(ss[i + 1].a.pc) && !AnalyzerWakesToFull(c, ss[i], es[i]);
  }

  ghost predicate NoSpuriousWakes(es: seq<Event>) {
    forall i :: 0 <= i < |es| && es[i].Run? ==> !es[i].choice.wakes.Spurious?
  }

  /** Nobody signals room to the analyzer. So without spurious wake-ups every overwritten record follows
      a wait that timed out with the ring still full. */
  lemma LostRecordsFollowTimeouts(c: Config, ss: seq<State>, es: seq<Event>, i: nat)
    requires IsRun(c, ss, es) && NoSpuriousWakes(es) && i < |es|
    requires ss[i + 1].output.lost != ss[i].output.lost
    ensures exists j: nat :: AnalyzerWaitedInVain(c, ss, es, j, i) && es[j].choice.wakes.TimedOut?
  {
    RecordLosses(c, ss, es, i);
    var j: nat :| AnalyzerWaitedInVain(c, ss, es, j, i);
    RunKeepsInv(c, ss, es, j);
    assert Step(c, ss[j], es[j]) == Some(ss[j + 1]);
  }

  // ----- A loss on which everything succeeds -----

  // The environment at its most helpful.
  function Best(c: Config): Choice {
    Choice(true, Some(IdleStat(c)), BySignal)
  }

  function IdleStat(c: Config): CpuUsage.ProcStat {
    seq(c.cpuLines, _ => CpuUsage.CpuStat(0, 0, 0, 0, 0, 0, 0, 0, 0, 0))
  }

  ghost predicate CalmRun(c: Config, ss: seq<State>, es: seq<Event>) {
    IsRun(c, ss, es) && forall i :: 0 <= i < |es| ==> es[i].Run? && es[i].choice == Best(c)
  }

  ghost predicate CalmlyReachable(c: Config, s: State) {
    exists ss, es :: CalmRun(c, ss, es) && ss[|es|] == s
  }

  lemma StartIsCalm(c: Config)
    ensures CalmlyReachable(c, Init())
  {
    assert CalmRun(c, [Init()], []);
  }

  lemma CalmStep(c: Config, s: State, who: Thread, next: State)
    requires CalmlyReachable(c, s) && Step(c, s, Run(who, Best(c))) == Some(next)
    ensures CalmlyReachable(c, next)
  {
    var ss, es :| CalmRun(c, ss, es) && ss[|es|] == s;
    var ss', es' := ss + [next], es + [Run(who, Best(c))];
    forall i | 0 <= i < |es'| ensures Step(c, ss'[i], es'[i]) == Some(ss'[i + 1]) {
      if i < |es| {
        assert Step(c, ss[i], es[i]) == Some(ss[i + 1]);
      }
    }
    assert CalmRun(c, ss', es');
  }

  // The sample the reader produces next.
  function NextSample(c: Config, r: ReaderState): Sample {
    Sample(r.loaded, IdleStat(c))
  }

  // Where one iteration of the reader leads when it finds room.
  function Delivered(c: Config, s: State): State {
    var ch := Put(s.input, c.inCapacity, NextSample(c, s.r));
    s.(input := ch.(notEmpty := Notify(ch.notEmpty)),
       r := ReaderState(RTest, Some(NextSample(c, s.r)), s.r.loaded + 1, false))
  }

  // The reader with a fresh sample and the mutex.
  function Entered(c: Config, s: State): State {
    s.(input := s.input.(mtx := Held(Reader)), r := ReaderState(RFull, Some(NextSample(c, s.r)), s.r.loaded + 1, false))
  }

  lemma ReaderEnters(c: Config, s: State)
    requires CalmlyReachable(c, s) && s.r.pc.RTest? && !s.kill && s.input.mtx.Free?
    ensures CalmlyReachable(c, Entered(c, s))
  {
    var r := s.r.(pc := RLoad);
    CalmStep(c, s, Reader, s.(r := r));
    var loaded := ReaderState(RLock, Some(NextSample(c, s.r)), s.r.loaded + 1, s.r.staleWake);
    CalmStep(c, s.(r := r), Reader, s.(r := loaded));
    CalmStep(c, s.(r := loaded), Reader, Entered(c, s));
  }

  lemma ReaderLeaves(c: Config, s: State, sample: Sample)
    requires CalmlyReachable(c, s) && s.r.pc.RWrite? && s.r.sample == Some(sample)
    ensures var ch := Put(s.input, c.inCapacity, sample);
            CalmlyReachable(c, s.(input := ch.(mtx := Free, notEmpty := Notify(ch.notEmpty)), r := s.r.(pc := RTest)))
  {
    var written := s.(input := Put(s.input, c.inCapacity, sample), r := s.r.(pc := RUnlock));
    CalmStep(c, s, Reader, written);
    var free := written.(input := written.input.(mtx := Free), r := s.r.(pc := RNotify));
    CalmStep(c, written, Reader, free);
    var notified := free.(input := free.input.(notEmpty := Notify(free.input.notEmpty)), r := s.r.(pc := RSleep));
    CalmStep(c, free, Reader, notified);
    CalmStep(c, notified, Reader, notified.(r := s.r.(pc := RTest)));
  }

  lemma ReaderDelivers(c: Config, s: State)
    requires CalmlyReachable(c, s) && s.r.pc.RTest? && !s.kill && s.input.mtx.Free? && |s.input.ring| < c.inCapacity
    ensures CalmlyReachable(c, Delivered(c, s))
  {
    var locked := Entered(c, s);
    ReaderEnters(c, s);
    var judged := locked.(r := locked.r.(pc := RKill));
    CalmStep(c, locked, Reader, judged);
    var writing := locked.(r := locked.r.(pc := RWrite));
    CalmStep(c, judged, Reader, writing);
    ReaderLeaves(c, writing, NextSample(c, s.r));
  }

  // The analyzer up to the release of the mutex, before it signals the free space.
  function Consumed(s: State): State
    requires s.input.ring != []
  {
    s.(input := Take(s.input), a := s.a.Store(s.a.newAt, s.input.ring[0]).(pc := ANotifyIn))
  }

  lemma AnalyzerConsumes(c: Config, s: State)
    requires CalmlyReachable(c, s) && s.a.pc.ATest? && !s.kill && s.input.mtx.Free? && s.input.ring != []
    ensures CalmlyReachable(c, Consumed(s))
  {
    CalmStep(c, s, Analyzer, s.(a := s.a.(pc := ALockIn)));
    var locked := s.(input := s.input.(mtx := Held(Analyzer)), a := s.a.(pc := AEmpty));
    CalmStep(c, s.(a := s.a.(pc := ALockIn)), Analyzer, locked);
    CalmStep(c, locked, Analyzer, locked.(a := s.a.(pc := AKillIn)));
    CalmStep(c, locked.(a := s.a.(pc := AKillIn)), Analyzer, locked.(a := s.a.(pc := ARead)));
    var taken := locked.(input := Take(locked.input), a := s.a.Store(s.a.newAt, s.input.ring[0]).(pc := AUnlockIn));
    CalmStep(c, locked.(a := s.a.(pc := ARead)), Analyzer, taken);
    CalmStep(c, taken, Analyzer, Consumed(s));
  }

  // The reader back at a full ring goes to wait, and the late signal wakes it there.
  function Misled(c: Config, s: State): State {
    s.(input := EndWait(s.input.(mtx := Held(Reader), notFull := Idle), true),
       r := ReaderState(RKill, Some(NextSample(c, s.r)), s.r.loaded + 1, true),
       a := s.a.(pc := AFirst))
  }

  lemma LateSignalMisleads(c: Config, s: State)
    requires CalmlyReachable(c, s) && s.r.pc.RTest? && !s.kill && s.input.mtx.Free? && |s.input.ring| == c.inCapacity
    requires s.a.pc.ANotifyIn?
    ensures CalmlyReachable(c, Misled(c, s))
  {
    var full := Entered(c, s);
    ReaderEnters(c, s);
    var waiting := full.(input := full.input.(mtx := Free, notFull := Waiting), r := full.r.(pc := RWaiting));
    CalmStep(c, full, Reader, waiting);
    var signalled := waiting.(input := waiting.input.(notFull := Signalled), a := s.a.(pc := AFirst));
    CalmStep(c, waiting, Analyzer, signalled);
    CalmStep(c, signalled, Reader, Misled(c, s));
  }

  // It then writes, and the ring is full.
  lemma MisledOverwrites(c: Config, s: State) returns (lossy: State)
    requires CalmlyReachable(c, s) && s.r.pc.RKill? && s.r.sample.Some? && !s.kill && |s.input.ring| == c.inCapacity
    ensures CalmlyReachable(c, lossy) && lossy.input.lost == s.input.lost + 1
  {
    var writing := s.(r := s.r.(pc := RWrite));
    CalmStep(c, s, Reader, writing);
    lossy := s.(input := Put(s.input, c.inCapacity, s.r.sample.value), r := s.r.(pc := RUnlock));
    CalmStep(c, writing, Reader, lossy);
  }

  // The reader on its own fills the ring.
  lemma {:induction false} ReaderFills(c: Config, s: State) returns (full: State)
    requires CalmlyReachable(c, s) && s.r.pc.RTest? && !s.kill && s.input.mtx.Free? && |s.input.ring| <= c.inCapacity
    ensures CalmlyReachable(c, full) && |full.input.ring| == c.inCapacity
    ensures full.r.pc.RTest? && !full.kill && full.input.mtx.Free? && full.a == s.a && full.input.lost == s.input.lost
    decreases c.inCapacity - |s.input.ring|
  {
    full := s;
    if |s.input.ring| < c.inCapacity {
      ReaderDelivers(c, s);
      full := ReaderFills(c, Delivered(c, s));
    }
  }

  /** Whatever the capacities: fill the ring, let the analyzer take one sample but not yet signal, fill
      the ring again, and let the late signal end the reader's wait. */
  lemma LossWithoutTimeouts(c: Config) returns (ss: seq<State>, es: seq<Event>)
    ensures CalmRun(c, ss, es) && ss[|es|].input.lost == 1
  {
    StartIsCalm(c);
    var s := ReaderFills(c, Init());
    AnalyzerConsumes(c, s);
    s := ReaderFills(c, Consumed(s));
    LateSignalMisleads(c, s);
    s := MisledOverwrites(c, Misled(c, s));
    ss, es :| CalmRun(c, ss, es) && ss[|es|] == s;
  }
}
