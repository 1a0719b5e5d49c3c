/** The main results about the pipeline, each for every state of every interleaving. */
module PipelineTheorems {
  import opened DropOldest
  import opened Channels
  import opened Pipelines
  import opened PipelineInvariants
  import opened CpuUsage

  // ----- Mutual exclusion -----

  // The event is a step of the thread that owns the mutex.
  predicate ByOwner(m: Mutex, e: Event) {
    e.Run? && m == Held(e.who)
  }

  function WithInput(s: State, ring: seq<Sample>): State {
    s.(input := s.input.(ring := ring))
  }

  function WithOutput(s: State, ring: seq<Usage>): State {
    s.(output := s.output.(ring := ring))
  }

  lemma ReaderMindsLock(c: Config, kill: bool, ch: Channel<Sample>, r: ReaderState, choice: Choice, ring: seq<Sample>)
    requires ReaderStep(c, kill, ch, r, choice).Some? && (ReaderHolds(r.pc) ==> ch.mtx == Held(Reader))
    ensures var (ch', r') := ReaderStep(c, kill, ch, r, choice).value;
            || ch.mtx == Held(Reader) || ch'.mtx == Held(Reader)
            || ReaderStep(c, kill, ch.(ring := ring), r, choice) == Some((ch'.(ring := ring), r'))
  {
  }

  lemma AnalyzerInMindsLock(kill: bool, ch: Channel<Sample>, a: AnalyzerState, choice: Choice, ring: seq<Sample>)
    requires OnInput(a.pc) && AnalyzerInStep(kill, ch, a, choice).Some? && (AnalyzerHoldsIn(a.pc) ==> ch.mtx == Held(Analyzer))
    ensures var (ch', a') := AnalyzerInStep(kill, ch, a, choice).value;
            || ch.mtx == Held(Analyzer) || ch'.mtx == Held(Analyzer)
            || AnalyzerInStep(kill, ch.(ring := ring), a, choice) == Some((ch'.(ring := ring), a'))
  {
  }

  lemma AnalyzerOutMindsLock(c: Config, kill: bool, ch: Channel<Usage>, a: AnalyzerState, choice: Choice, ring: seq<Usage>)
    requires !OnInput(a.pc) && AnalyzerOutStep(c, kill, ch, a, choice).Some?
    requires AnalyzerHoldsOut(a.pc) ==> ch.mtx == Held(Analyzer)
    ensures var (ch', a') := AnalyzerOutStep(c, kill, ch, a, choice).value;
            || ch.mtx == Held(Analyzer) || ch'.mtx == Held(Analyzer)
            || AnalyzerOutStep(c, kill, ch.(ring := ring), a, choice) == Some((ch'.(ring := ring), a'))
  {
  }

  lemma PrinterMindsLock(kill: bool, ch: Channel<Usage>, p: PrinterState, choice: Choice, ring: seq<Usage>)
    requires PrinterStep(kill, ch, p, choice).Some? && (PrinterHolds(p.pc) ==> ch.mtx == Held(Printer))
    ensures var (ch', p') := PrinterStep(kill, ch, p, choice).value;
            || ch.mtx == Held(Printer) || ch'.mtx == Held(Printer)
            || PrinterStep(kill, ch.(ring := ring), p, choice) == Some((ch'.(ring := ring), p'))
  {
  }

  lemma StepMindsLocks(c: Config, s: State, e: Event, next: State, input: seq<Sample>, output: seq<Usage>)
    requires InputLocks(s.input.mtx, s.r.pc, s.a.pc) && OutputLocks(s.output.mtx, s.a.pc, s.p.pc)
    requires Step(c, s, e) == Some(next)
    ensures ByOwner(s.input.mtx, e) || ByOwner(next.input.mtx, e)
         || Step(c, WithInput(s, input), e) == Some(WithInput(next, input))
    ensures ByOwner(s.output.mtx, e) || ByOwner(next.output.mtx, e)
         || Step(c, WithOutput(s, output), e) == Some(WithOutput(next, output))
  {
    if e.Run? {
      match e.who
      case Reader => ReaderMindsLock(c, s.kill, s.input, s.r, e.choice, input);
      case Printer => PrinterMindsLock(s.kill, s.output, s.p, e.choice, output);
      case Analyzer =>
        if OnInput(s.a.pc) {
          AnalyzerInMindsLock(s.kill, s.input, s.a, e.choice, input);
        } else {
          AnalyzerOutMindsLock(c, s.kill, s.output, s.a, e.choice, output);
        }
    }
  }

  lemma ChangesNeedLock(c: Config, s: State, e: Event, next: State)
    requires InputLocks(s.input.mtx, s.r.pc, s.a.pc) && OutputLocks(s.output.mtx, s.a.pc, s.p.pc)
    requires Step(c, s, e) == Some(next)
    ensures next.input.ring != s.input.ring ==> ByOwner(s.input.mtx, e)
    ensures next.output.ring != s.output.ring ==> ByOwner(s.output.mtx, e)
  {
    if e.Run? {
      match e.who
      case Reader => ReaderFrame(c, s.kill, s.input, s.r, e.choice);
      case Printer => PrinterFrame(s.kill, s.output, s.p, e.choice);
      case Analyzer =>
        if OnInput(s.a.pc) {
          AnalyzerInFrame(s.kill, s.input, s.a, e.choice);
        }
    }
  }

  /** Whoever changes a ring holds its mutex; and a thread that holds it neither before nor after a step
      does not even look at the ring: with any other contents the step would have done the same. */
  lemma RingsAreOwned(c: Config, ss: seq<State>, es: seq<Event>, i: nat, input: seq<Sample>, output: seq<Usage>)
    requires IsRun(c, ss, es) && i < |es|
    ensures ss[i + 1].input.ring != ss[i].input.ring ==> ByOwner(ss[i].input.mtx, es[i])
    ensures ss[i + 1].output.ring != ss[i].output.ring ==> ByOwner(ss[i].output.mtx, es[i])
    ensures ByOwner(ss[i].input.mtx, es[i]) || ByOwner(ss[i + 1].input.mtx, es[i])
         || Step(c, WithInput(ss[i], input), es[i]) == Some(WithInput(ss[i + 1], input))
    ensures ByOwner(ss[i].output.mtx, es[i]) || ByOwner(ss[i + 1].output.mtx, es[i])
         || Step(c, WithOutput(ss[i], output), es[i]) == Some(WithOutput(ss[i + 1], output))
  {
    RunKeepsInv(c, ss, es, i);
    ChangesNeedLock(c, ss[i], es[i], ss[i + 1]);
    StepMindsLocks(c, ss[i], es[i], ss[i + 1], input, output);
  }

  // The analyzer, which uses both mutexes, never holds both; and a thread that is done holds none.
  lemma NobodyHoldsTwo(c: Config, ss: seq<State>, es: seq<Event>, i: nat)
    requires IsRun(c, ss, es) && i < |ss|
    ensures ss[i].input.mtx.Held? && ss[i].output.mtx.Held? ==> ss[i].input.mtx.owner != ss[i].output.mtx.owner
    ensures ss[i].r.pc.RDone? ==> ss[i].input.mtx != Held(Reader)
    ensures ss[i].a.pc.ADone? ==> ss[i].input.mtx != Held(Analyzer) && ss[i].output.mtx != Held(Analyzer)
    ensures ss[i].p.pc.PDone? ==> ss[i].output.mtx != Held(Printer)
  {
    RunKeepsInv(c, ss, es, i);
  }

  // ----- Order and accounting -----

  // Each ring is a contiguous suffix of what was written to it, everything written was read, is
  // buffered or was overwritten, and samples are read in strictly rising order of production.
  lemma SamplesFlowInOrder(c: Config, ss: seq<State>, es: seq<Event>, i: nat)
    requires IsRun(c, ss, es) && i < |ss|
    ensures Sound(ss[i].input, c.inCapacity) && Sound(ss[i].output, c.outCapacity)
    ensures var taken := Reads(ss[i].input, c.inCapacity);
            forall j, k :: 0 <= j < k < |taken| ==> taken[j].serial < taken[k].serial
  {
    RunKeepsInv(c, ss, es, i);
    ReadsAreOrdered(c, ss[i].input, ss[i].r.loaded);
  }

  // ----- What was loaded -----

  // The table a step of the reader loads, if it is a load that works.
  function LoadOf(s: State, e: Event): Option<ProcStat> {
    if e.Run? && e.who.Reader? && s.r.pc.RLoad? then e.choice.loads else None
  }

  // The tables loaded by the first n events.
  ghost function Loads(ss: seq<State>, es: seq<Event>, n: nat): seq<ProcStat>
    requires n <= |es| < |ss|
  {
    if n == 0 then []
    else
      var load := LoadOf(ss[n - 1], es[n - 1]);
      Loads(ss, es, n - 1) + if load.Some? then [load.value] else []
  }

  // A sample is the table loaded at its place in the order of production.
  ghost predicate IsLoad(loads: seq<ProcStat>, x: Sample) {
    x.serial < |loads| && x.stat == loads[x.serial]
  }

  ghost predicate HoldsLoads(loads: seq<ProcStat>, s: State) {
    && s.r.loaded == |loads|
    && (CarriesSample(s.r.pc) ==> s.r.sample.Some? && IsLoad(loads, s.r.sample.value))
    && (forall k :: 0 <= k < |s.input.written| ==> IsLoad(loads, s.input.written[k]))
  }

  lemma LoadStep(c: Config, loads: seq<ProcStat>, s: State, e: Event, next: State)
    requires Step(c, s, e) == Some(next) && HoldsLoads(loads, s)
    ensures HoldsLoads(loads + (if LoadOf(s, e).Some? then [LoadOf(s, e).value] else []), next)
  {
    if e.Run? && e.who.Reader? {
      ReaderFrame(c, s.kill, s.input, s.r, e.choice);
    } else if e.Run? && e.who.Analyzer? && OnInput(s.a.pc) {
      AnalyzerInFrame(s.kill, s.input, s.a, e.choice);
    }
  }

  // In every run every sample written is exactly what was loaded.
  lemma {:induction false} SamplesAreLoads(c: Config, ss: seq<State>, es: seq<Event>, i: nat)
    requires IsRun(c, ss, es) && i < |ss|
    ensures HoldsLoads(Loads(ss, es, i), ss[i])
  {
    if i > 0 {
      SamplesAreLoads(c, ss, es, i - 1);
      LoadStep(c, Loads(ss, es, i - 1), ss[i - 1], es[i - 1], ss[i]);
    }
  }

  // And so are the two samples of every record.
  lemma RecordsCompareLoads(c: Config, ss: seq<State>, es: seq<Event>, i: nat)
    requires IsRun(c, ss, es) && i < |ss|
    ensures forall k :: 0 <= k < |ss[i].output.written| ==>
              IsLoad(Loads(ss, es, i), ss[i].output.written[k].before) && IsLoad(Loads(ss, es, i), ss[i].output.written[k].after)
  {
    RunKeepsInv(c, ss, es, i);
    SamplesAreLoads(c, ss, es, i);
    var s := ss[i];
    var taken := Reads(s.input, c.inCapacity);
    forall k | 0 <= k < |s.output.written|
      ensures IsLoad(Loads(ss, es, i), s.output.written[k].before) && IsLoad(Loads(ss, es, i), s.output.written[k].after)
    {
      assert GoodUsage(c, taken, s.output.written[k]);
    }
  }

  // ----- Records tile time -----

  lemma {:induction false} TilesChain(first: Sample, us: seq<Usage>, last: Sample)
    requires Tiles(first, us, last)
    ensures us != [] ==> us[0].before == first && us[|us| - 1].after == last
    ensures forall k :: 0 < k < |us| ==> us[k - 1].after == us[k].before
  {
    if us != [] {
      var front := us[..|us| - 1];
      TilesChain(first, front, us[|us| - 1].before);
      forall k | 0 < k < |us| ensures us[k - 1].after == us[k].before {
        if k < |us| - 1 {
          assert front[k - 1].after == front[k].before;
        }
      }
    }
  }

  /** Emitted records tile time, whatever samples and records were lost or abandoned on the way: the
      first starts at the first sample read, each starts where the one before it ended, and each is
      the line-by-line usage between an older and a newer sample that were read. */
  lemma RecordsTileTime(c: Config, ss: seq<State>, es: seq<Event>, i: nat)
    requires IsRun(c, ss, es) && i < |ss|
    ensures Sound(ss[i].input, c.inCapacity)
    ensures var us, taken := ss[i].output.written, Reads(ss[i].input, c.inCapacity);
            && (us != [] ==> taken != [] && us[0].before == taken[0])
            && (forall k :: 0 < k < |us| ==> us[k - 1].after == us[k].before)
            && (forall k :: 0 <= k < |us| ==> GoodUsage(c, taken, us[k]))
    ensures ss[i].a.oldAt != ss[i].a.newAt
  {
    RunKeepsInv(c, ss, es, i);
    var s := ss[i];
    var taken := Reads(s.input, c.inCapacity);
    if s.a.initialized {
      TilesChain(taken[0], s.output.written, if HasEmitted(s.a.pc) then s.a.At(s.a.newAt).value else s.a.At(s.a.oldAt).value);
    }
  }

  // ----- Conservation of reported usage -----

  /** The ideal counters behind the loads: for each load and cpu line, what a kernel with unbounded
      counters would have shown. */
  type Truth = (nat, nat) -> Ideal

  ghost predicate Reports(truth: Truth, line: nat, x: Sample) {
    line < |x.stat| && x.stat[line] == CpuUsage.Shown(truth(x.serial, line))
  }

  // Every table loaded shows the ideal counters on this line.
  ghost predicate KernelShows(truth: Truth, line: nat, loads: seq<ProcStat>) {
    forall n :: 0 <= n < |loads| && line < |loads[n]| ==> loads[n][line] == CpuUsage.Shown(truth(n, line))
  }

  // Between the loads a record compares neither time went back, and less than 2^64 ticks passed.
  ghost predicate TicksGrow(truth: Truth, line: nat, u: Usage) {
    Grows(truth(u.before.serial, line), truth(u.after.serial, line))
  }

  // A record between two truthful samples: no counter went back, and less than 2^64 ticks passed.
  ghost predicate Measures(truth: Truth, line: nat, u: Usage) {
    && Reports(truth, line, u.before) && Reports(truth, line, u.after)
    && Grows(truth(u.before.serial, line), truth(u.after.serial, line))
  }

  ghost predicate CoversLine(us: seq<Usage>, line: nat) {
    forall k :: 0 <= k < |us| ==> line < |us[k].before.stat| && line < |us[k].after.stat| && line < |us[k].values|
  }

  // The total time of the records on one line, and the busy time their percentages stand for.
  ghost function TotalTime(us: seq<Usage>, line: nat): int
    requires CoversLine(us, line)
  {
    if us == [] then 0
    else
      var u := us[|us| - 1];
      TotalTime(us[..|us| - 1], line) + TotalDelta(u.before.stat[line], u.after.stat[line])
  }

  ghost function ReportedBusy(us: seq<Usage>, line: nat): real
    requires CoversLine(us, line)
  {
    if us == [] then 0.0
    else
      var u := us[|us| - 1];
      ReportedBusy(us[..|us| - 1], line) + BusyTime(TotalDelta(u.before.stat[line], u.after.stat[line]), u.values[line])
  }

  lemma {:induction false} TilesConserve(c: Config, taken: seq<Sample>, first: Sample, us: seq<Usage>, last: Sample,
                                         truth: Truth, line: nat)
    requires line < c.cpuLines && Tiles(first, us, last)
    requires forall k :: 0 <= k < |us| ==> GoodUsage(c, taken, us[k]) && Measures(truth, line, us[k])
    ensures CoversLine(us, line)
    ensures TotalTime(us, line) == (IdleTicks(truth(last.serial, line)) - IdleTicks(truth(first.serial, line)))
                                   + (BusyTicks(truth(last.serial, line)) - BusyTicks(truth(first.serial, line)))
    ensures ReportedBusy(us, line) == 100.0 * (BusyTicks(truth(last.serial, line)) - BusyTicks(truth(first.serial, line))) as real
  {
    forall k | 0 <= k < |us| ensures line < |us[k].before.stat| && line < |us[k].after.stat| && line < |us[k].values| {
      assert GoodUsage(c, taken, us[k]);
    }
    if us != [] {
      var u := us[|us| - 1];
      assert GoodUsage(c, taken, u) && Measures(truth, line, u);
      TilesConserve(c, taken, first, us[..|us| - 1], u.before, truth, line);
      var o, n := truth(u.before.serial, line), truth(u.after.serial, line);
      DeltasAreTrueGrowth(u.before.stat[line], u.after.stat[line], o, n);
      PercentageUnderGrowth(u.before.stat[line], u.after.stat[line], o, n);
    }
  }

  lemma RecordMeasures(c: Config, ss: seq<State>, es: seq<Event>, i: nat, truth: Truth, line: nat, k: nat)
    requires IsRun(c, ss, es) && i < |ss| && line < c.cpuLines && k < |ss[i].output.written|
    requires KernelShows(truth, line, Loads(ss, es, i)) && TicksGrow(truth, line, ss[i].output.written[k])
    ensures Measures(truth, line, ss[i].output.written[k])
  {
    RunKeepsInv(c, ss, es, i);
    RecordsCompareLoads(c, ss, es, i);
    assert GoodUsage(c, Reads(ss[i].input, c.inCapacity), ss[i].output.written[k]);
  }

  /** Conservation over every run: on every cpu line, weighting each emitted percentage by its total
      time and adding up gives exactly 100 times the true busy growth from the first sample read to
      the end of the last record, and the total times add up to the true time between the two. The
      truth is about the tables that were loaded. */
  lemma UsageIsConserved(c: Config, ss: seq<State>, es: seq<Event>, i: nat, truth: Truth, line: nat)
    requires IsRun(c, ss, es) && i < |ss| && line < c.cpuLines
    requires ss[i].output.written != [] && KernelShows(truth, line, Loads(ss, es, i))
    requires forall k :: 0 <= k < |ss[i].output.written| ==> TicksGrow(truth, line, ss[i].output.written[k])
    ensures Sound(ss[i].input, c.inCapacity) && ss[i].input.takenAt != []
    ensures var us := ss[i].output.written;
            && CoversLine(us, line)
            && var o, n := truth(us[0].before.serial, line), truth(us[|us| - 1].after.serial, line);
               && us[0].before == Reads(ss[i].input, c.inCapacity)[0]
               && TotalTime(us, line) == (IdleTicks(n) - IdleTicks(o)) + (BusyTicks(n) - BusyTicks(o))
               && ReportedBusy(us, line) == 100.0 * (BusyTicks(n) - BusyTicks(o)) as real
  {
    RunKeepsInv(c, ss, es, i);
    var s := ss[i];
    var taken := Reads(s.input, c.inCapacity);
    var last := if HasEmitted(s.a.pc) then s.a.At(s.a.newAt).value else s.a.At(s.a.oldAt).value;
    forall k | 0 <= k < |s.output.written| ensures Measures(truth, line, s.output.written[k]) {
      RecordMeasures(c, ss, es, i, truth, line, k);
    }
    TilesChain(taken[0], s.output.written, last);
    TilesConserve(c, taken, taken[0], s.output.written, last, truth, line);
  }

  // And every value emitted from such samples is in 0..100, or exactly -100 when no time passed.
  lemma EmittedValuesInRange(c: Config, ss: seq<State>, es: seq<Event>, i: nat, truth: Truth, line: nat, k: nat)
    requires IsRun(c, ss, es) && i < |ss| && line < c.cpuLines
    requires k < |ss[i].output.written| && KernelShows(truth, line, Loads(ss, es, i))
    requires TicksGrow(truth, line, ss[i].output.written[k])
    ensures line < |ss[i].output.written[k].values|
    ensures var u := ss[i].output.written[k];
            var o, n := truth(u.before.serial, line), truth(u.after.serial, line);
            if IdleTicks(o) + BusyTicks(o) == IdleTicks(n) + BusyTicks(n) then u.values[line] == -100.0
            else 0.0 <= u.values[line] <= 100.0
  {
    RunKeepsInv(c, ss, es, i);
    var u := ss[i].output.written[k];
    RecordMeasures(c, ss, es, i, truth, line, k);
    assert GoodUsage(c, Reads(ss[i].input, c.inCapacity), u);
    PercentageUnderGrowth(u.before.stat[line], u.after.stat[line], truth(u.before.serial, line), truth(u.after.serial, line));
  }

  // ----- What is printed -----

  lemma PrintsMeaning(capacity: nat, ch: Channel<Usage>, printed: seq<Shown>)
    requires Sound(ch, capacity)
    requires forall k :: 0 <= k < |printed| ==>
               && printed[k].readsBefore <= |ch.takenAt|
               && printed[k].usage == LatestAfter(Reads(ch, capacity), printed[k].readsBefore)
    ensures forall k :: 0 <= k < |ch.takenAt| ==> ch.takenAt[k] < |ch.written|
    ensures forall k :: 0 <= k < |printed| ==>
              printed[k].usage == if printed[k].readsBefore == 0 then None
                                  else Some(ch.written[ch.takenAt[printed[k].readsBefore - 1]])
  {
  }

  /** Every print after the first successful read shows the record read last, prints follow the order
      of reads, and reads follow the order of emission: without its repeats the printed sequence is
      an order-preserving subsequence of the emitted records. Before that read, prints show memory
      that was never written. */
  lemma PrintsFollowEmission(c: Config, ss: seq<State>, es: seq<Event>, i: nat)
    requires IsRun(c, ss, es) && i < |ss|
    ensures var printed, at, emitted := ss[i].p.printed, ss[i].output.takenAt, ss[i].output.written;
            && (forall k :: 0 <= k < |printed| ==> printed[k].readsBefore <= |at|)
            && (forall k :: 0 <= k < |at| ==> at[k] < |emitted|)
            && (forall k :: 0 <= k < |printed| ==>
                  printed[k].usage == if printed[k].readsBefore == 0 then None else Some(emitted[at[printed[k].readsBefore - 1]]))
            && (forall j, k :: 0 <= j < k < |printed| ==> printed[j].readsBefore <= printed[k].readsBefore)
            && (forall j, k :: 0 <= j < k < |at| ==> at[j] < at[k])
  {
    RunKeepsInv(c, ss, es, i);
    PrintsMeaning(c.outCapacity, ss[i].output, ss[i].p.printed);
  }

  // Between its read and its print.
  predicate PrintPending(pc: PrinterPc) {
    pc.PUnlock? || pc.PPrint?
  }

  ghost predicate IsPrinted(p: PrinterState, n: nat) {
    exists k :: 0 <= k < |p.printed| && p.printed[k].readsBefore == n
  }

  ghost predicate PrintsAll(ch: Channel<Usage>, p: PrinterState) {
    forall n: nat :: 1 <= n <= |ch.takenAt| && (n < |ch.takenAt| || !PrintPending(p.pc)) ==> IsPrinted(p, n)
  }

  lemma PrintStep(kill: bool, ch: Channel<Usage>, p: PrinterState, choice: Choice)
    requires PrintsAll(ch, p) && PrinterStep(kill, ch, p, choice).Some?
    ensures var (ch', p') := PrinterStep(kill, ch, p, choice).value; PrintsAll(ch', p')
  {
    var (ch', p') := PrinterStep(kill, ch, p, choice).value;
    forall n: nat | IsPrinted(p, n) ensures IsPrinted(p', n) {
      var k :| 0 <= k < |p.printed| && p.printed[k].readsBefore == n;
      assert p'.printed[k] == p.printed[k];
    }
    if p.pc.PPrint? {
      assert p'.printed[|p.printed|].readsBefore == |ch.takenAt|;
    }
  }

  /** In every run every record that was read is printed: the n-th one by a print made after n reads, the
      last one unless the printer still stands between its read and its print. */
  lemma {:induction false} ReadsArePrinted(c: Config, ss: seq<State>, es: seq<Event>, i: nat)
    requires IsRun(c, ss, es) && i < |ss|
    ensures PrintsAll(ss[i].output, ss[i].p)
  {
    if i > 0 {
      ReadsArePrinted(c, ss, es, i - 1);
      var s, e := ss[i - 1], es[i - 1];
      assert Step(c, s, e) == Some(ss[i]);
      if e.Run? && e.who.Printer? {
        PrintStep(s.kill, s.output, s.p, e.choice);
      }
    }
  }

  // ----- Termination -----

  // The most own steps a thread can still take once the kill switch is set.
  function ReaderStepsLeft(pc: ReaderPc): nat {
    match pc
    case RLoad => 5
    case RLock => 4
    case RWaiting => 4
    case RFull => 3
    case RKill => 2
    case RExit => 1
    case RWrite => 5
    case RUnlock => 4
    case RNotify => 3
    case RSleep => 2
    case RTest => 1
    case RDone => 0
  }

  function AnalyzerStepsLeft(pc: AnalyzerPc): nat {
    match pc
    case ALockIn => 4
    case AWaitingIn => 4
    case AEmpty => 3
    case AKillIn => 2
    case AExitIn => 1
    case ARead => 9
    case AGiveUp => 2
    case AUnlockIn => 8
    case ANotifyIn => 7
    case AFirst => 6
    case ACalculate => 5
    case ALockOut => 4
    case AWaitingOut => 4
    case AFull => 3
    case AKillOut => 2
    case AExitOut => 1
    case AWrite => 5
    case AUnlockOut => 4
    case ANotifyOut => 3
    case ASwap => 2
    case ATest => 1
    case ADone => 0
  }

  function PrinterStepsLeft(pc: PrinterPc): nat {
    match pc
    case PLock => 4
    case PWaiting => 4
    case PEmpty => 3
    case PKill => 2
    case PExit => 1
    case PRead => 4
    case PUnlock => 3
    case PPrint => 2
    case PTest => 1
    case PDone => 0
  }

  function StepsLeft(s: State, who: Thread): nat {
    match who
    case Reader => ReaderStepsLeft(s.r.pc)
    case Analyzer => AnalyzerStepsLeft(s.a.pc)
    case Printer => PrinterStepsLeft(s.p.pc)
  }

  function OwnSteps(es: seq<Event>, who: Thread): nat {
    if es == [] then 0
    else
      var e := es[|es| - 1];
      OwnSteps(es[..|es| - 1], who) + if e.Run? && e.who == who then 1 else 0
  }

  lemma ReaderAfterKill(c: Config, ch: Channel<Sample>, r: ReaderState, choice: Choice)
    requires ReaderStep(c, true, ch, r, choice).Some?
    ensures ReaderStepsLeft(ReaderStep(c, true, ch, r, choice).value.1.pc) < ReaderStepsLeft(r.pc)
  {
  }

  lemma AnalyzerAfterKill(c: Config, s: State, choice: Choice)
    requires s.kill
    ensures OnInput(s.a.pc) && AnalyzerInStep(true, s.input, s.a, choice).Some? ==>
              AnalyzerStepsLeft(AnalyzerInStep(true, s.input, s.a, choice).value.1.pc) < AnalyzerStepsLeft(s.a.pc)
    ensures !OnInput(s.a.pc) && AnalyzerOutStep(c, true, s.output, s.a, choice).Some? ==>
              AnalyzerStepsLeft(AnalyzerOutStep(c, true, s.output, s.a, choice).value.1.pc) < AnalyzerStepsLeft(s.a.pc)
  {
  }

  lemma PrinterAfterKill(ch: Channel<Usage>, p: PrinterState, choice: Choice)
    requires PrinterStep(true, ch, p, choice).Some?
    ensures PrinterStepsLeft(PrinterStep(true, ch, p, choice).value.1.pc) < PrinterStepsLeft(p.pc)
  {
  }

  lemma StepAfterKill(c: Config, s: State, e: Event, next: State, who: Thread)
    requires s.kill && Step(c, s, e) == Some(next)
    ensures next.kill
    ensures e.Run? && e.who == who ==> StepsLeft(next, who) < StepsLeft(s, who)
    ensures !(e.Run? && e.who == who) ==> StepsLeft(next, who) == StepsLeft(s, who)
  {
    if e.Run? {
      match e.who
      case Reader => ReaderAfterKill(c, s.input, s.r, e.choice);
      case Analyzer => AnalyzerAfterKill(c, s, e.choice);
      case Printer => PrinterAfterKill(s.output, s.p, e.choice);
    }
  }

  lemma AtMostNineStepsLeft(s: State, who: Thread)
    ensures StepsLeft(s, who) <= 9
  {
  }

  lemma OwnStepsNext(es: seq<Event>, k: nat, i: nat, who: Thread)
    requires k < i <= |es|
    ensures OwnSteps(es[k..i], who) == OwnSteps(es[k..i - 1], who) + if es[i - 1].Run? && es[i - 1].who == who then 1 else 0
  {
    assert es[k..i][..i - 1 - k] == es[k..i - 1];
  }

  // The kill switch is set exactly when someone has set it.
  lemma {:induction false} KilledIff(c: Config, ss: seq<State>, es: seq<Event>, i: nat)
    requires IsRun(c, ss, es) && i < |ss|
    ensures ss[i].kill <==> exists j :: 0 <= j < i && es[j].Kill?
  {
    if i > 0 {
      KilledIff(c, ss, es, i - 1);
      assert Step(c, ss[i - 1], es[i - 1]) == Some(ss[i]);
    }
  }

  // The kill switch is latched, and after it every own step of a thread brings that thread closer to
  // its end: it takes at most nine more.
  lemma {:induction false} ThreadsStopAfterKill(c: Config, ss: seq<State>, es: seq<Event>, k: nat, i: nat, who: Thread)
    requires IsRun(c, ss, es) && k <= i < |ss| && ss[k].kill
    ensures ss[i].kill
    ensures OwnSteps(es[k..i], who) + StepsLeft(ss[i], who) <= StepsLeft(ss[k], who) <= 9
  {
    AtMostNineStepsLeft(ss[k], who);
    if k < i {
      ThreadsStopAfterKill(c, ss, es, k, i - 1, who);
      OwnStepsNext(es, k, i, who);
      StepAfterKill(c, ss[i - 1], es[i - 1], ss[i], who);
    }
  }

  // ----- Deadlock freedom -----

  ghost predicate CanStep(c: Config, s: State, who: Thread) {
    exists choice :: Step(c, s, Run(who, choice)).Some?
  }

  predicate IsDone(s: State, who: Thread) {
    StepsLeft(s, who) == 0
  }

  // The mutex a waiting thread needs before its wait can return.
  function Awaits(s: State, who: Thread): Option<Mutex> {
    match who
    case Reader => if s.r.pc.RWaiting? then Some(s.input.mtx) else None
    case Analyzer =>
      if s.a.pc.AWaitingIn? then Some(s.input.mtx)
      else if s.a.pc.AWaitingOut? then Some(s.output.mtx)
      else None
    case Printer => if s.p.pc.PWaiting? then Some(s.output.mtx) else None
  }

  // The mutex and the condition variable the thread's step is about, if it is a lock or the end of a wait.
  function MutexAt(s: State, who: Thread): Mutex {
    match who
    case Reader => s.input.mtx
    case Analyzer => if OnInput(s.a.pc) then s.input.mtx else s.output.mtx
    case Printer => s.output.mtx
  }

  function CondAt(s: State, who: Thread): Cond {
    match who
    case Reader => s.input.notFull
    case Analyzer => if OnInput(s.a.pc) then s.input.notEmpty else s.output.notFull
    case Printer => s.output.notEmpty
  }

  predicate AtLock(s: State, who: Thread) {
    match who
    case Reader => s.r.pc.RLock?
    case Analyzer => s.a.pc.ALockIn? || s.a.pc.ALockOut?
    case Printer => s.p.pc.PLock?
  }

  // All that limits what the environment can answer: a lock is got only on a free mutex; a wait ends only
  // when its mutex is free, and by a signal only after one; a load has the configured number of lines.
  predicate MayAnswer(c: Config, s: State, who: Thread, choice: Choice) {
    && !IsDone(s, who)
    && (AtLock(s, who) && choice.locks ==> MutexAt(s, who).Free?)
    && (Awaits(s, who).Some? ==> MutexAt(s, who).Free? && (choice.wakes.BySignal? ==> CondAt(s, who).Signalled?))
    && (who.Reader? && s.r.pc.RLoad? && choice.loads.Some? ==> |choice.loads.value| == c.cpuLines)
  }

  lemma ReaderAnswers(c: Config, s: State, choice: Choice)
    requires SamplesInOrder(c, s.input, s.r)
    ensures ReaderStep(c, s.kill, s.input, s.r, choice).Some? <==> MayAnswer(c, s, Reader, choice)
  {
  }

  lemma AnalyzerInAnswers(c: Config, s: State, choice: Choice)
    requires OnInput(s.a.pc)
    ensures AnalyzerInStep(s.kill, s.input, s.a, choice).Some? <==> MayAnswer(c, s, Analyzer, choice)
  {
  }

  lemma AnalyzerOutAnswers(c: Config, s: State, samples: seq<Sample>, choice: Choice)
    requires BuffersHold(c, samples, s.a) && !OnInput(s.a.pc)
    ensures AnalyzerOutStep(c, s.kill, s.output, s.a, choice).Some? <==> MayAnswer(c, s, Analyzer, choice)
  {
  }

  lemma PrinterAnswers(c: Config, s: State, choice: Choice)
    ensures PrinterStep(s.kill, s.output, s.p, choice).Some? <==> MayAnswer(c, s, Printer, choice)
  {
  }

  // In every run a thread can take its step with exactly these answers.
  lemma EveryAnswerIsPossible(c: Config, ss: seq<State>, es: seq<Event>, i: nat, who: Thread, choice: Choice)
    requires IsRun(c, ss, es) && i < |ss|
    ensures Step(c, ss[i], Run(who, choice)).Some? <==> MayAnswer(c, ss[i], who, choice)
  {
    RunKeepsInv(c, ss, es, i);
    AnswersAre(c, ss[i], who, choice);
  }

  lemma AnswersAre(c: Config, s: State, who: Thread, choice: Choice)
    requires Inv(c, s)
    ensures Step(c, s, Run(who, choice)).Some? <==> MayAnswer(c, s, who, choice)
  {
    match who {
      case Reader => ReaderAnswers(c, s, choice);
      case Analyzer =>
        if OnInput(s.a.pc) {
          AnalyzerInAnswers(c, s, choice);
        } else {
          AnalyzerOutAnswers(c, s, Reads(s.input, c.inCapacity), choice);
        }
      case Printer => PrinterAnswers(c, s, choice);
    }
  }

  // The environment at its least helpful: no lock is got, nothing is loaded, every wait times out.
  const WORST: Choice := Choice(false, None, TimedOut)

  // A thread can always step, unless it is done or waits for a mutex that is held.
  lemma StuckOnlyOnMutex(c: Config, s: State, who: Thread)
    requires Inv(c, s) && !IsDone(s, who) && (Awaits(s, who).Some? ==> Awaits(s, who).value.Free?)
    ensures CanStep(c, s, who)
  {
    AnswersAre(c, s, who, WORST);
    assert Step(c, s, Run(who, WORST)).Some?;
  }

  // The owner of a mutex is neither done nor waiting for one.
  lemma OwnerIsBusy(c: Config, s: State, m: Mutex)
    requires InputLocks(s.input.mtx, s.r.pc, s.a.pc) && OutputLocks(s.output.mtx, s.a.pc, s.p.pc)
    requires m.Held? && (m == s.input.mtx || m == s.output.mtx)
    ensures !IsDone(s, m.owner) && Awaits(s, m.owner).None?
  {
  }

  /** No interleaving deadlocks: a thread that is not done can take a step, or waits for a mutex whose
      owner can. */
  lemma NoDeadlock(c: Config, ss: seq<State>, es: seq<Event>, i: nat, who: Thread)
    requires IsRun(c, ss, es) && i < |ss| && !IsDone(ss[i], who)
    ensures CanStep(c, ss[i], who)
         || (&& Awaits(ss[i], who).Some? && Awaits(ss[i], who).value.Held?
             && CanStep(c, ss[i], Awaits(ss[i], who).value.owner))
  {
    RunKeepsInv(c, ss, es, i);
    var m := Awaits(ss[i], who);
    if m.Some? && m.value.Held? {
      OwnerIsBusy(c, ss[i], m.value);
      StuckOnlyOnMutex(c, ss[i], m.value.owner);
    } else {
      StuckOnlyOnMutex(c, ss[i], who);
    }
  }

  lemma AllDoneMeansFree(s: State)
    requires InputLocks(s.input.mtx, s.r.pc, s.a.pc) && OutputLocks(s.output.mtx, s.a.pc, s.p.pc)
    requires IsDone(s, Reader) && IsDone(s, Analyzer) && IsDone(s, Printer)
    ensures s.input.mtx.Free? && s.output.mtx.Free?
  {
  }

  // So where no thread can step, all three are done and both mutexes are free.
  lemma QuietMeansDone(c: Config, ss: seq<State>, es: seq<Event>, i: nat)
    requires IsRun(c, ss, es) && i < |ss| && forall who :: !CanStep(c, ss[i], who)
    ensures forall who :: IsDone(ss[i], who)
    ensures ss[i].input.mtx.Free? && ss[i].output.mtx.Free?
  {
    forall who ensures IsDone(ss[i], who) {
      if !IsDone(ss[i], who) {
        NoDeadlock(c, ss, es, i, who);
      }
    }
    RunKeepsInv(c, ss, es, i);
    AllDoneMeansFree(ss[i]);
  }
}
