/** What holds in every state of every interleaving of the pipeline, and that every step keeps it. */
module PipelineInvariants {
  import opened DropOldest
  import opened Channels
  import opened Pipelines
  import CpuUsage

  // ----- Who holds which mutex, and where -----

  predicate ReaderHolds(pc: ReaderPc) {
    pc.RFull? || pc.RKill? || pc.RExit? || pc.RWrite? || pc.RUnlock?
  }

  predicate AnalyzerHoldsIn(pc: AnalyzerPc) {
    pc.AEmpty? || pc.AKillIn? || pc.AExitIn? || pc.ARead? || pc.AGiveUp? || pc.AUnlockIn?
  }

  predicate AnalyzerHoldsOut(pc: AnalyzerPc) {
    pc.AFull? || pc.AKillOut? || pc.AExitOut? || pc.AWrite? || pc.AUnlockOut?
  }

  predicate PrinterHolds(pc: PrinterPc) {
    pc.PEmpty? || pc.PKill? || pc.PExit? || pc.PRead? || pc.PUnlock?
  }

  ghost predicate InputLocks(m: Mutex, r: ReaderPc, a: AnalyzerPc) {
    && (m == Held(Reader) <==> ReaderHolds(r))
    && (m == Held(Analyzer) <==> AnalyzerHoldsIn(a))
    && m != Held(Printer)
  }

  ghost predicate OutputLocks(m: Mutex, a: AnalyzerPc, p: PrinterPc) {
    && (m == Held(Analyzer) <==> AnalyzerHoldsOut(a))
    && (m == Held(Printer) <==> PrinterHolds(p))
    && m != Held(Reader)
  }

  // ----- Samples: produced, written and read in order -----

  predicate CarriesSample(pc: ReaderPc) {
    pc.RLock? || pc.RFull? || pc.RWaiting? || pc.RKill? || pc.RExit? || pc.RWrite?
  }

  // All samples have the configured number of lines, and serial numbers rise strictly below a bound.
  ghost predicate Ordered(c: Config, xs: seq<Sample>, bound: nat) {
    && (forall i :: 0 <= i < |xs| ==> xs[i].serial < bound && |xs[i].stat| == c.cpuLines)
    && (forall i, j :: 0 <= i < j < |xs| ==> xs[i].serial < xs[j].serial)
  }

  ghost predicate SamplesInOrder(c: Config, ch: Channel<Sample>, r: ReaderState) {
    && Sound(ch, c.inCapacity)
    && Ordered(c, ch.written, r.loaded)
    && (CarriesSample(r.pc) ==> r.sample.Some? && Ordered(c, ch.written + [r.sample.value], r.loaded))
  }

  // What was read is in order as well.
  lemma ReadsAreOrdered(c: Config, ch: Channel<Sample>, bound: nat)
    requires Sound(ch, c.inCapacity) && Ordered(c, ch.written, bound)
    ensures Ordered(c, Reads(ch, c.inCapacity), bound)
  {
  }

  // ----- The analyzer's buffers -----

  // From the read of a sample to the end of the iteration.
  predicate HasNew(pc: AnalyzerPc) {
    pc.AUnlockIn? || pc.ANotifyIn? || pc.AFirst? || HasOldAndNew(pc)
  }

  predicate HasOldAndNew(pc: AnalyzerPc) {
    pc.ACalculate? || HasUsage(pc) || HasEmitted(pc)
  }

  predicate HasUsage(pc: AnalyzerPc) {
    pc.ALockOut? || pc.AFull? || pc.AWaitingOut? || pc.AKillOut? || pc.AExitOut? || pc.AWrite?
  }

  // The record is out but the pointers are not swapped yet.
  predicate HasEmitted(pc: AnalyzerPc) {
    pc.AUnlockOut? || pc.ANotifyOut? || pc.ASwap?
  }

  /** The two pointers never alias. The new buffer holds the sample read last, the old one an earlier
      sample, and the record about to be written is the one computed from these two. */
  ghost predicate BuffersHold(c: Config, samples: seq<Sample>, a: AnalyzerState) {
    && a.oldAt != a.newAt
    && (HasNew(a.pc) ==>
          && samples != []
          && a.At(a.newAt) == Some(samples[|samples| - 1])
          && |samples[|samples| - 1].stat| == c.cpuLines)
    && (a.initialized ==>
          && samples != []
          && a.At(a.oldAt).Some?
          && a.At(a.oldAt).value in samples
          && |a.At(a.oldAt).value.stat| == c.cpuLines
          && a.At(a.oldAt).value.serial <= samples[|samples| - 1].serial
          && (HasNew(a.pc) ==> a.At(a.oldAt).value.serial < samples[|samples| - 1].serial))
    && (!a.initialized ==> |samples| == if HasNew(a.pc) then 1 else 0)
    && (HasOldAndNew(a.pc) ==> a.initialized)
    && (HasUsage(a.pc) ==> a.usage == Some(UsageOf(a.At(a.oldAt).value, a.At(a.newAt).value)))
  }

  // ----- The records -----

  /** Records tile the time from sample `first` to sample `last`: each starts where the one before it
      ended. */
  ghost predicate Tiles(first: Sample, us: seq<Usage>, last: Sample) {
    if us == [] then first == last
    else us[|us| - 1].after == last && Tiles(first, us[..|us| - 1], us[|us| - 1].before)
  }

  // A record compares two samples that were read, an older with a newer one, line by line.
  ghost predicate GoodUsage(c: Config, samples: seq<Sample>, u: Usage) {
    && u.before in samples && u.after in samples
    && u.before.serial < u.after.serial
    && |u.before.stat| == c.cpuLines && |u.after.stat| == c.cpuLines
    && u.values == CpuUsage.Percentages(u.before.stat, u.after.stat)
  }

  ghost predicate RecordsTile(c: Config, samples: seq<Sample>, emitted: seq<Usage>, a: AnalyzerState) {
    && BuffersHold(c, samples, a)
    && (forall i :: 0 <= i < |emitted| ==> GoodUsage(c, samples, emitted[i]))
    && (!a.initialized ==> emitted == [])
    && (a.initialized ==>
          Tiles(samples[0], emitted, if HasEmitted(a.pc) then a.At(a.newAt).value else a.At(a.oldAt).value))
  }

  // ----- The printer -----

  // The record the n-th read took, or nothing before the first read.
  function LatestAfter(taken: seq<Usage>, n: nat): Option<Usage>
    requires n <= |taken|
  {
    if n == 0 then None else Some(taken[n - 1])
  }

  ghost predicate PrintsLatest(taken: seq<Usage>, p: PrinterState) {
    && p.usage == LatestAfter(taken, |taken|)
    && (forall i :: 0 <= i < |p.printed| ==>
          p.printed[i].readsBefore <= |taken| && p.printed[i].usage == LatestAfter(taken, p.printed[i].readsBefore))
    && (forall i, j :: 0 <= i < j < |p.printed| ==> p.printed[i].readsBefore <= p.printed[j].readsBefore)
  }

  // ----- What is lost, and after what -----

  /** From the end of a writer's wait to its write, a full ring means the wait ended stale; and writes
      to a full ring never outnumber such waits. */
  ghost predicate LossesExplained<T>(ch: Channel<T>, capacity: nat, waiting: bool, judging: bool, writing: bool,
                                     staleWake: bool, kill: bool) {
    && (waiting ==> !staleWake)
    && (judging || writing ==> (staleWake ==> |ch.ring| == capacity))
    && (judging && |ch.ring| == capacity ==> staleWake || kill)
    && (writing && |ch.ring| == capacity ==> staleWake)
    && ch.lost + (if (judging || writing) && staleWake then 1 else 0) <= ch.stale
  }

  ghost predicate LossesIn(c: Config, kill: bool, ch: Channel<Sample>, r: ReaderState) {
    LossesExplained(ch, c.inCapacity, r.pc.RFull? || r.pc.RWaiting?, r.pc.RKill?, r.pc.RWrite?, r.staleWake, kill)
  }

  // On the output side nobody signals the condition variable the analyzer waits on.
  ghost predicate LossesOut(c: Config, kill: bool, ch: Channel<Usage>, a: AnalyzerState) {
    && LossesExplained(ch, c.outCapacity, a.pc.AFull? || a.pc.AWaitingOut?, a.pc.AKillOut?, a.pc.AWrite?, a.staleWake, kill)
    && !ch.notFull.Signalled?
  }

  // ----- All of it -----

  ghost predicate InputInv(c: Config, s: State) {
    && InputLocks(s.input.mtx, s.r.pc, s.a.pc)
    && SamplesInOrder(c, s.input, s.r)
    && LossesIn(c, s.kill, s.input, s.r)
  }

  ghost predicate OutputInv(c: Config, s: State) {
    && OutputLocks(s.output.mtx, s.a.pc, s.p.pc)
    && Sound(s.output, c.outCapacity)
    && LossesOut(c, s.kill, s.output, s.a)
    && PrintsLatest(Reads(s.output, c.outCapacity), s.p)
  }

  ghost predicate Inv(c: Config, s: State) {
    && InputInv(c, s)
    && OutputInv(c, s)
    && RecordsTile(c, Reads(s.input, c.inCapacity), s.output.written, s.a)
  }

  // ----- Steps of the reader -----

  lemma ReaderKeepsLocks(c: Config, kill: bool, ch: Channel<Sample>, r: ReaderState, a: AnalyzerPc, choice: Choice)
    requires InputLocks(ch.mtx, r.pc, a) && ReaderStep(c, kill, ch, r, choice).Some?
    ensures var (ch', r') := ReaderStep(c, kill, ch, r, choice).value; InputLocks(ch'.mtx, r'.pc, a)
  {
  }

  // Only the write touches the ring and its history; only a load makes a new sample.
  lemma ReaderFrame(c: Config, kill: bool, ch: Channel<Sample>, r: ReaderState, choice: Choice)
    requires ReaderStep(c, kill, ch, r, choice).Some?
    ensures var (ch', r') := ReaderStep(c, kill, ch, r, choice).value;
            && (r.pc.RWrite? ==> r.sample.Some? && ch' == Put(ch, c.inCapacity, r.sample.value) && r'.pc.RUnlock?)
            && (!r.pc.RWrite? ==>
                  && ch'.ring == ch.ring && ch'.written == ch.written && ch'.takenAt == ch.takenAt && ch'.lost == ch.lost
                  && (CarriesSample(r'.pc) ==> CarriesSample(r.pc) || r.pc.RLoad?))
            && ((r'.loaded == r.loaded && r'.sample == r.sample)
                || (r.pc.RLoad? && exists stat :: |stat| == c.cpuLines && r' == r.(pc := RLock, sample := Some(Sample(r.loaded, stat)), loaded := r.loaded + 1)))
            && (r.pc.RLoad? && CarriesSample(r'.pc) ==> r'.loaded == r.loaded + 1)
  {
  }

  lemma ReaderKeepsSamples(c: Config, kill: bool, ch: Channel<Sample>, r: ReaderState, choice: Choice)
    requires SamplesInOrder(c, ch, r) && ReaderStep(c, kill, ch, r, choice).Some?
    ensures var (ch', r') := ReaderStep(c, kill, ch, r, choice).value;
            SamplesInOrder(c, ch', r') && Reads(ch', c.inCapacity) == Reads(ch, c.inCapacity)
  {
    var (ch', r') := ReaderStep(c, kill, ch, r, choice).value;
    ReaderFrame(c, kill, ch, r, choice);
    if r.pc.RWrite? {
      PutIsSound(ch, c.inCapacity, r.sample.value);
    }
  }

  lemma ReaderKeepsLosses(c: Config, kill: bool, ch: Channel<Sample>, r: ReaderState, choice: Choice)
    requires LossesIn(c, kill, ch, r) && |ch.ring| <= c.inCapacity && ReaderStep(c, kill, ch, r, choice).Some?
    ensures var (ch', r') := ReaderStep(c, kill, ch, r, choice).value; LossesIn(c, kill, ch', r')
  {
  }

  // ----- Steps of the analyzer on its input -----

  lemma AnalyzerInKeepsLocks(kill: bool, ch: Channel<Sample>, r: ReaderPc, a: AnalyzerState, choice: Choice)
    requires InputLocks(ch.mtx, r, a.pc) && OnInput(a.pc) && AnalyzerInStep(kill, ch, a, choice).Some?
    ensures var (ch', a') := AnalyzerInStep(kill, ch, a, choice).value;
            InputLocks(ch'.mtx, r, a'.pc)
  {
  }

  // While the analyzer works on its input it has no business with its output.
  lemma AnalyzerInKeepsOutput(c: Config, kill: bool, ch: Channel<Sample>, out: Channel<Usage>, a: AnalyzerState, p: PrinterPc, choice: Choice)
    requires OutputLocks(out.mtx, a.pc, p) && LossesOut(c, kill, out, a)
    requires OnInput(a.pc) && AnalyzerInStep(kill, ch, a, choice).Some?
    ensures var a' := AnalyzerInStep(kill, ch, a, choice).value.1;
            OutputLocks(out.mtx, a'.pc, p) && LossesOut(c, kill, out, a')
  {
    var a' := AnalyzerInStep(kill, ch, a, choice).value.1;
    assert OnInput(a'.pc) || a'.pc.ACalculate? || a'.pc.ADone?;
  }

  // Only a read touches the ring and its history, and it needs the mutex.
  lemma AnalyzerInFrame(kill: bool, ch: Channel<Sample>, a: AnalyzerState, choice: Choice)
    requires OnInput(a.pc) && AnalyzerInStep(kill, ch, a, choice).Some?
    ensures var (ch', a') := AnalyzerInStep(kill, ch, a, choice).value;
            && (a.pc.ARead? && ch.ring != [] ==> ch' == Take(ch))
            && (!(a.pc.ARead? && ch.ring != []) ==>
                  ch' == ch.(mtx := ch'.mtx, notEmpty := ch'.notEmpty, notFull := ch'.notFull))
  {
  }

  lemma AnalyzerInKeepsSamples(c: Config, kill: bool, ch: Channel<Sample>, r: ReaderState, a: AnalyzerState, choice: Choice)
    requires SamplesInOrder(c, ch, r) && OnInput(a.pc) && AnalyzerInStep(kill, ch, a, choice).Some?
    ensures SamplesInOrder(c, AnalyzerInStep(kill, ch, a, choice).value.0, r)
  {
    AnalyzerInFrame(kill, ch, a, choice);
    if a.pc.ARead? && ch.ring != [] {
      TakeIsSound(ch, c.inCapacity);
    }
  }

  lemma AnalyzerInKeepsLosses(c: Config, kill: bool, ch: Channel<Sample>, r: ReaderState, a: AnalyzerState, choice: Choice)
    requires LossesIn(c, kill, ch, r) && InputLocks(ch.mtx, r.pc, a.pc)
    requires OnInput(a.pc) && AnalyzerInStep(kill, ch, a, choice).Some?
    ensures LossesIn(c, kill, AnalyzerInStep(kill, ch, a, choice).value.0, r)
  {
    AnalyzerInFrame(kill, ch, a, choice);
  }

  lemma AnalyzerInKeepsRecords(c: Config, kill: bool, ch: Channel<Sample>, r: ReaderState, a: AnalyzerState,
                               emitted: seq<Usage>, choice: Choice)
    requires SamplesInOrder(c, ch, r) && OnInput(a.pc) && AnalyzerInStep(kill, ch, a, choice).Some?
    requires RecordsTile(c, Reads(ch, c.inCapacity), emitted, a)
    ensures var (ch', a') := AnalyzerInStep(kill, ch, a, choice).value;
            Sound(ch', c.inCapacity) && RecordsTile(c, Reads(ch', c.inCapacity), emitted, a')
  {
    var (ch', a') := AnalyzerInStep(kill, ch, a, choice).value;
    AnalyzerInFrame(kill, ch, a, choice);
    AnalyzerInKeepsSamples(c, kill, ch, r, a, choice);
    if a.pc.ARead? && ch.ring != [] {
      TakeIsSound(ch, c.inCapacity);
      ReadsAreOrdered(c, ch', r.loaded);
      ReadKeepsRecords(c, Reads(ch, c.inCapacity), ch.ring[0], emitted, a, r.loaded);
    } else {
      assert Reads(ch', c.inCapacity) == Reads(ch, c.inCapacity);
      MoveKeepsRecords(c, Reads(ch, c.inCapacity), emitted, kill, ch, a, choice);
    }
  }

  // The read stores the new sample beside the old one.
  lemma ReadKeepsRecords(c: Config, samples: seq<Sample>, x: Sample, emitted: seq<Usage>, a: AnalyzerState, bound: nat)
    requires a.pc.ARead? && RecordsTile(c, samples, emitted, a) && Ordered(c, samples + [x], bound)
    ensures RecordsTile(c, samples + [x], emitted, a.Store(a.newAt, x).(pc := AUnlockIn))
  {
    var more := samples + [x];
    assert more[|more| - 1] == x;
    assert a.initialized ==> more[|samples| - 1].serial < x.serial;
    forall i | 0 <= i < |emitted| ensures GoodUsage(c, more, emitted[i]) {
      assert GoodUsage(c, samples, emitted[i]);
    }
  }

  // The other steps on the input only move the program counter, but for the swap of the first sample.
  lemma AnalyzerInMoves(kill: bool, ch: Channel<Sample>, a: AnalyzerState, choice: Choice)
    requires OnInput(a.pc) && AnalyzerInStep(kill, ch, a, choice).Some? && !(a.pc.ARead? && ch.ring != [])
    ensures var a' := AnalyzerInStep(kill, ch, a, choice).value.1;
            && !HasUsage(a'.pc) && !HasEmitted(a'.pc)
            && (HasOldAndNew(a'.pc) ==> a.initialized)
            && (a.pc.AFirst? && !a.initialized ==> a' == a.Swapped().(pc := ATest, initialized := true))
            && (!(a.pc.AFirst? && !a.initialized) ==> a' == a.(pc := a'.pc) && HasNew(a'.pc) == HasNew(a.pc))
  {
  }

  lemma MoveKeepsRecords(c: Config, samples: seq<Sample>, emitted: seq<Usage>, kill: bool, ch: Channel<Sample>,
                         a: AnalyzerState, choice: Choice)
    requires OnInput(a.pc) && AnalyzerInStep(kill, ch, a, choice).Some? && !(a.pc.ARead? && ch.ring != [])
    requires RecordsTile(c, samples, emitted, a)
    ensures RecordsTile(c, samples, emitted, AnalyzerInStep(kill, ch, a, choice).value.1)
  {
    AnalyzerInMoves(kill, ch, a, choice);
  }

  // ----- Steps of the analyzer on its output -----

  lemma AnalyzerOutKeepsLocks(c: Config, kill: bool, ch: Channel<Usage>, a: AnalyzerState, p: PrinterPc, choice: Choice)
    requires OutputLocks(ch.mtx, a.pc, p) && !OnInput(a.pc) && AnalyzerOutStep(c, kill, ch, a, choice).Some?
    ensures var (ch', a') := AnalyzerOutStep(c, kill, ch, a, choice).value; OutputLocks(ch'.mtx, a'.pc, p)
    ensures !AnalyzerHoldsIn(AnalyzerOutStep(c, kill, ch, a, choice).value.1.pc)
  {
  }

  lemma AnalyzerOutKeepsSound(c: Config, kill: bool, ch: Channel<Usage>, a: AnalyzerState, choice: Choice)
    requires Sound(ch, c.outCapacity) && !OnInput(a.pc) && AnalyzerOutStep(c, kill, ch, a, choice).Some?
    ensures var ch' := AnalyzerOutStep(c, kill, ch, a, choice).value.0;
            Sound(ch', c.outCapacity) && Reads(ch', c.outCapacity) == Reads(ch, c.outCapacity)
  {
    if a.pc.AWrite? {
      PutIsSound(ch, c.outCapacity, a.usage.value);
    }
  }

  lemma AnalyzerOutKeepsLosses(c: Config, kill: bool, ch: Channel<Usage>, a: AnalyzerState, choice: Choice)
    requires LossesOut(c, kill, ch, a) && |ch.ring| <= c.outCapacity
    requires !OnInput(a.pc) && AnalyzerOutStep(c, kill, ch, a, choice).Some?
    ensures var (ch', a') := AnalyzerOutStep(c, kill, ch, a, choice).value; LossesOut(c, kill, ch', a')
  {
  }

  // How the second half of the loop changes what the analyzer holds.
  lemma AnalyzerOutMoves(c: Config, kill: bool, ch: Channel<Usage>, a: AnalyzerState, choice: Choice)
    requires !OnInput(a.pc) && AnalyzerOutStep(c, kill, ch, a, choice).Some?
    ensures var (ch', a') := AnalyzerOutStep(c, kill, ch, a, choice).value;
            && HasOldAndNew(a.pc)
            && a'.first == a.first && a'.second == a.second && a'.initialized == a.initialized
            && (a.pc.ASwap? ==> a'.pc.ATest? && a'.oldAt == a.newAt && a'.newAt == a.oldAt)
            && (!a.pc.ASwap? ==> a'.oldAt == a.oldAt && a'.newAt == a.newAt && (HasEmitted(a'.pc) <==> HasEmitted(a.pc) || a.pc.AWrite?))
            && (a.pc.ACalculate? ==>
                  var o, n := a.At(a.oldAt).value, a.At(a.newAt).value;
                  a'.pc.ALockOut? && |o.stat| <= |n.stat| && a'.usage == Some(UsageOf(o, n)))
            && (!a.pc.ACalculate? ==> a'.usage == a.usage && (HasUsage(a'.pc) ==> HasUsage(a.pc)))
            && (a.pc.AWrite? ==> a.usage.Some? && ch'.written == ch.written + [a.usage.value])
            && (!a.pc.AWrite? ==> ch'.written == ch.written)
  {
  }

  lemma AnalyzerOutKeepsBuffers(c: Config, samples: seq<Sample>, kill: bool, ch: Channel<Usage>, a: AnalyzerState, choice: Choice)
    requires BuffersHold(c, samples, a) && !OnInput(a.pc) && AnalyzerOutStep(c, kill, ch, a, choice).Some?
    ensures BuffersHold(c, samples, AnalyzerOutStep(c, kill, ch, a, choice).value.1)
  {
    AnalyzerOutMoves(c, kill, ch, a, choice);
  }

  lemma AnalyzerOutKeepsRecords(c: Config, samples: seq<Sample>, kill: bool, ch: Channel<Usage>, a: AnalyzerState, choice: Choice)
    requires RecordsTile(c, samples, ch.written, a) && !OnInput(a.pc) && AnalyzerOutStep(c, kill, ch, a, choice).Some?
    ensures var (ch', a') := AnalyzerOutStep(c, kill, ch, a, choice).value; RecordsTile(c, samples, ch'.written, a')
  {
    var (ch', a') := AnalyzerOutStep(c, kill, ch, a, choice).value;
    AnalyzerOutMoves(c, kill, ch, a, choice);
    AnalyzerOutKeepsBuffers(c, samples, kill, ch, a, choice);
    if a.pc.AWrite? {
      assert ch'.written[..|ch'.written| - 1] == ch.written;
    }
  }

  // ----- Steps of the printer -----

  lemma PrinterKeepsLocks(kill: bool, ch: Channel<Usage>, a: AnalyzerPc, p: PrinterState, choice: Choice)
    requires OutputLocks(ch.mtx, a, p.pc) && PrinterStep(kill, ch, p, choice).Some?
    ensures var (ch', p') := PrinterStep(kill, ch, p, choice).value; OutputLocks(ch'.mtx, a, p'.pc)
  {
  }

  lemma PrinterFrame(kill: bool, ch: Channel<Usage>, p: PrinterState, choice: Choice)
    requires PrinterStep(kill, ch, p, choice).Some?
    ensures var (ch', p') := PrinterStep(kill, ch, p, choice).value;
            && (p.pc.PRead? && ch.ring != [] ==> ch' == Take(ch) && p'.usage == Some(ch.ring[0]) && p'.printed == p.printed)
            && (!(p.pc.PRead? && ch.ring != []) ==>
                  && ch' == ch.(mtx := ch'.mtx, notEmpty := ch'.notEmpty) && p'.usage == p.usage
                  && p'.printed == p.printed + if p.pc.PPrint? then [Shown(p.usage, |ch.takenAt|)] else [])
            && (ch'.notFull == ch.notFull)
  {
  }

  lemma PrinterKeepsLosses(c: Config, kill: bool, ch: Channel<Usage>, a: AnalyzerState, p: PrinterState, choice: Choice)
    requires LossesOut(c, kill, ch, a) && OutputLocks(ch.mtx, a.pc, p.pc) && PrinterStep(kill, ch, p, choice).Some?
    ensures LossesOut(c, kill, PrinterStep(kill, ch, p, choice).value.0, a)
  {
    PrinterFrame(kill, ch, p, choice);
  }

  lemma PrinterKeepsPrints(c: Config, kill: bool, ch: Channel<Usage>, p: PrinterState, choice: Choice)
    requires Sound(ch, c.outCapacity) && PrintsLatest(Reads(ch, c.outCapacity), p) && PrinterStep(kill, ch, p, choice).Some?
    ensures var (ch', p') := PrinterStep(kill, ch, p, choice).value;
            && Sound(ch', c.outCapacity) && ch'.written == ch.written
            && PrintsLatest(Reads(ch', c.outCapacity), p')
  {
    PrinterFrame(kill, ch, p, choice);
    var ch' := PrinterStep(kill, ch, p, choice).value.0;
    if p.pc.PRead? && ch.ring != [] {
      TakeIsSound(ch, c.outCapacity);
    } else {
      assert Reads(ch', c.outCapacity) == Reads(ch, c.outCapacity);
    }
  }

  // ----- Every run -----

  lemma InitIsGood(c: Config)
    ensures Inv(c, Init())
  {
  }

  lemma ReaderKeepsInv(c: Config, s: State, choice: Choice, next: State)
    requires Inv(c, s) && Step(c, s, Run(Reader, choice)) == Some(next)
    ensures Inv(c, next)
  {
    ReaderKeepsLocks(c, s.kill, s.input, s.r, s.a.pc, choice);
    ReaderKeepsSamples(c, s.kill, s.input, s.r, choice);
    ReaderKeepsLosses(c, s.kill, s.input, s.r, choice);
  }

  lemma AnalyzerInKeepsInv(c: Config, s: State, choice: Choice, next: State)
    requires Inv(c, s) && OnInput(s.a.pc) && Step(c, s, Run(Analyzer, choice)) == Some(next)
    ensures Inv(c, next)
  {
    AnalyzerInKeepsLocks(s.kill, s.input, s.r.pc, s.a, choice);
    AnalyzerInKeepsOutput(c, s.kill, s.input, s.output, s.a, s.p.pc, choice);
    AnalyzerInKeepsSamples(c, s.kill, s.input, s.r, s.a, choice);
    AnalyzerInKeepsLosses(c, s.kill, s.input, s.r, s.a, choice);
    AnalyzerInKeepsRecords(c, s.kill, s.input, s.r, s.a, s.output.written, choice);
  }

  lemma AnalyzerOutKeepsInv(c: Config, s: State, choice: Choice, next: State)
    requires Inv(c, s) && !OnInput(s.a.pc) && Step(c, s, Run(Analyzer, choice)) == Some(next)
    ensures Inv(c, next)
  {
    AnalyzerOutKeepsLocks(c, s.kill, s.output, s.a, s.p.pc, choice);
    AnalyzerOutKeepsSound(c, s.kill, s.output, s.a, choice);
    AnalyzerOutKeepsLosses(c, s.kill, s.output, s.a, choice);
    AnalyzerOutKeepsRecords(c, Reads(s.input, c.inCapacity), s.kill, s.output, s.a, choice);
  }

  lemma PrinterKeepsInv(c: Config, s: State, choice: Choice, next: State)
    requires Inv(c, s) && Step(c, s, Run(Printer, choice)) == Some(next)
    ensures Inv(c, next)
  {
    PrinterKeepsLocks(s.kill, s.output, s.a.pc, s.p, choice);
    PrinterKeepsLosses(c, s.kill, s.output, s.a, s.p, choice);
    PrinterKeepsPrints(c, s.kill, s.output, s.p, choice);
  }

  lemma KillKeepsInv(c: Config, s: State)
    requires Inv(c, s)
    ensures Inv(c, s.(kill := true))
  {
  }

  lemma StepKeepsInv(c: Config, s: State, e: Event, next: State)
    requires Inv(c, s) && Step(c, s, e) == Some(next)
    ensures Inv(c, next)
  {
    if e.Kill? {
      KillKeepsInv(c, s);
    } else if e.who.Reader? {
      ReaderKeepsInv(c, s, e.choice, next);
    } else if e.who.Printer? {
      PrinterKeepsInv(c, s, e.choice, next);
    } else if OnInput(s.a.pc) {
      AnalyzerInKeepsInv(c, s, e.choice, next);
    } else {
      AnalyzerOutKeepsInv(c, s, e.choice, next);
    }
  }

  lemma {:induction false} RunKeepsInv(c: Config, ss: seq<State>, es: seq<Event>, i: nat)
    requires IsRun(c, ss, es) && i < |ss|
    ensures Inv(c, ss[i])
  {
    if i == 0 {
      InitIsGood(c);
    } else {
      RunKeepsInv(c, ss, es, i - 1);
      StepKeepsInv(c, ss[i - 1], es[i - 1], ss[i]);
    }
  }
}
