/** No wake-up is lost on the three condition variables that are signalled: a thread that waits although
    what it waits for is there has been signalled, or is about to be. */
module PipelineWakeups {
  import opened DropOldest
  import opened Channels
  import opened Pipelines

  ghost predicate WakesIn(c: Config, ch: Channel<Sample>, r: ReaderPc, a: AnalyzerPc) {
    && (ch.notEmpty.Idle? <==> !a.AWaitingIn?)
    && (ch.notFull.Idle? <==> !r.RWaiting?)
    && (ch.notEmpty.Waiting? && ch.ring != [] ==> r.RUnlock? || r.RNotify?)
    && (ch.notFull.Waiting? && |ch.ring| != c.inCapacity ==> a.AUnlockIn? || a.ANotifyIn?)
  }

  ghost predicate WakesOut(ch: Channel<Usage>, a: AnalyzerPc, p: PrinterPc) {
    && (ch.notEmpty.Idle? <==> !p.PWaiting?)
    && (ch.notFull.Idle? <==> !a.AWaitingOut?)
    && (ch.notEmpty.Waiting? && ch.ring != [] ==> a.AUnlockOut? || a.ANotifyOut?)
  }

  lemma ReaderKeepsWakes(c: Config, kill: bool, ch: Channel<Sample>, r: ReaderState, a: AnalyzerPc, choice: Choice)
    requires WakesIn(c, ch, r.pc, a) && ReaderStep(c, kill, ch, r, choice).Some?
    ensures var (ch', r') := ReaderStep(c, kill, ch, r, choice).value; WakesIn(c, ch', r'.pc, a)
  {
  }

  lemma AnalyzerInKeepsWakes(c: Config, kill: bool, ch: Channel<Sample>, r: ReaderPc, a: AnalyzerState, choice: Choice)
    requires WakesIn(c, ch, r, a.pc) && OnInput(a.pc) && AnalyzerInStep(kill, ch, a, choice).Some?
    ensures var (ch', a') := AnalyzerInStep(kill, ch, a, choice).value; WakesIn(c, ch', r, a'.pc)
  {
  }

  lemma AnalyzerInKeepsWakesOut(kill: bool, ch: Channel<Sample>, out: Channel<Usage>, a: AnalyzerState, p: PrinterPc, choice: Choice)
    requires WakesOut(out, a.pc, p) && OnInput(a.pc) && AnalyzerInStep(kill, ch, a, choice).Some?
    ensures WakesOut(out, AnalyzerInStep(kill, ch, a, choice).value.1.pc, p)
  {
  }

  lemma AnalyzerOutKeepsWakes(c: Config, kill: bool, ch: Channel<Usage>, a: AnalyzerState, p: PrinterPc, choice: Choice)
    requires WakesOut(ch, a.pc, p) && !OnInput(a.pc) && AnalyzerOutStep(c, kill, ch, a, choice).Some?
    ensures var (ch', a') := AnalyzerOutStep(c, kill, ch, a, choice).value; WakesOut(ch', a'.pc, p)
  {
  }

  lemma AnalyzerOutKeepsWakesIn(c: Config, kill: bool, ch: Channel<Usage>, input: Channel<Sample>, r: ReaderPc, a: AnalyzerState, choice: Choice)
    requires WakesIn(c, input, r, a.pc) && !OnInput(a.pc) && AnalyzerOutStep(c, kill, ch, a, choice).Some?
    ensures WakesIn(c, input, r, AnalyzerOutStep(c, kill, ch, a, choice).value.1.pc)
  {
  }

  lemma PrinterKeepsWakes(kill: bool, ch: Channel<Usage>, a: AnalyzerPc, p: PrinterState, choice: Choice)
    requires WakesOut(ch, a, p.pc) && PrinterStep(kill, ch, p, choice).Some?
    ensures var (ch', p') := PrinterStep(kill, ch, p, choice).value; WakesOut(ch', a, p'.pc)
  {
  }

  lemma StepKeepsWakes(c: Config, s: State, e: Event, next: State)
    requires WakesIn(c, s.input, s.r.pc, s.a.pc) && WakesOut(s.output, s.a.pc, s.p.pc)
    requires Step(c, s, e) == Some(next)
    ensures WakesIn(c, next.input, next.r.pc, next.a.pc) && WakesOut(next.output, next.a.pc, next.p.pc)
  {
    if e.Run? {
      match e.who
      case Reader => ReaderKeepsWakes(c, s.kill, s.input, s.r, s.a.pc, e.choice);
      case Printer => PrinterKeepsWakes(s.kill, s.output, s.a.pc, s.p, e.choice);
      case Analyzer =>
        if OnInput(s.a.pc) {
          AnalyzerInKeepsWakes(c, s.kill, s.input, s.r.pc, s.a, e.choice);
          AnalyzerInKeepsWakesOut(s.kill, s.input, s.output, s.a, s.p.pc, e.choice);
        } else {
          AnalyzerOutKeepsWakes(c, s.kill, s.output, s.a, s.p.pc, e.choice);
          AnalyzerOutKeepsWakesIn(c, s.kill, s.output, s.input, s.r.pc, s.a, e.choice);
        }
    }
  }

  /** In every state of every run: an analyzer waiting for a sample that is there, a reader waiting for
      room that is there, and a printer waiting for a record that is there have been signalled, or the
      other thread stands between its ring operation and its signal. */
  lemma {:induction false} NoWakeupIsLost(c: Config, ss: seq<State>, es: seq<Event>, i: nat)
    requires IsRun(c, ss, es) && i < |ss|
    ensures WakesIn(c, ss[i].input, ss[i].r.pc, ss[i].a.pc) && WakesOut(ss[i].output, ss[i].a.pc, ss[i].p.pc)
    ensures ss[i].a.pc.AWaitingIn? && ss[i].input.ring != [] ==>
              ss[i].input.notEmpty.Signalled? || ss[i].r.pc.RUnlock? || ss[i].r.pc.RNotify?
    ensures ss[i].r.pc.RWaiting? && |ss[i].input.ring| != c.inCapacity ==>
              ss[i].input.notFull.Signalled? || ss[i].a.pc.AUnlockIn? || ss[i].a.pc.ANotifyIn?
    ensures ss[i].p.pc.PWaiting? && ss[i].output.ring != [] ==>
              ss[i].output.notEmpty.Signalled? || ss[i].a.pc.AUnlockOut? || ss[i].a.pc.ANotifyOut?
  {
    if i > 0 {
      NoWakeupIsLost(c, ss, es, i - 1);
      StepKeepsWakes(c, ss[i - 1], es[i - 1], ss[i]);
    }
  }
}
