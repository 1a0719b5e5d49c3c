/** The reader -> analyzer -> printer pipeline as a state machine. Each thread is a program counter
    over the loop in its file; an event is one step of one thread, or the kill switch being set, so a
    sequence of events is one interleaving. */
module Pipelines {
  import opened DropOldest
  import opened Channels
  import CpuUsage

  // Capacities of the two rings and the number of "cpu" lines in every sample.
  datatype Settings = Settings(inCapacity: nat, outCapacity: nat, cpuLines: nat)

  type Config = c: Settings | 1 <= c.inCapacity && 1 <= c.outCapacity witness Settings(10, 1, 2)

  // A sample with its place in the order of production.
  datatype Sample = Sample(serial: nat, stat: CpuUsage.ProcStat)

  // A usage record with the two samples it was computed from.
  datatype Usage = Usage(values: seq<real>, before: Sample, after: Sample)

  // What the printer showed, and how many successful reads it had made by then. None stands for
  // memory that was never written.
  datatype Shown = Shown(usage: Option<Usage>, readsBefore: nat)

  // src/threads/reader.c
  datatype ReaderPc =
    | RTest     // 45
    | RLoad     // 50
    | RLock     // 60
    | RFull     // 69
    | RWaiting  // 71, mutex released
    | RKill     // 90
    | RExit     // 92
    | RWrite    // 100
    | RUnlock   // 103
    | RNotify   // 109
    | RSleep    // 132
    | RDone

  // src/threads/analyzer.c
  datatype AnalyzerPc =
    | ATest       // 70
    | ALockIn     // 75
    | AEmpty      // 82
    | AWaitingIn  // 84, input mutex released
    | AKillIn     // 102
    | AExitIn     // 104
    | ARead       // 111
    | AGiveUp     // 115
    | AUnlockIn   // 123
    | ANotifyIn   // 129
    | AFirst      // 134
    | ACalculate  // 143
    | ALockOut    // 145
    | AFull       // 153
    | AWaitingOut // 155, output mutex released
    | AKillOut    // 174
    | AExitOut    // 176
    | AWrite      // 183
    | AUnlockOut  // 185
    | ANotifyOut  // 191
    | ASwap       // 227
    | ADone

  // src/threads/printer.c
  datatype PrinterPc =
    | PTest    // 72
    | PLock    // 76
    | PEmpty   // 83
    | PWaiting // 85, mutex released
    | PKill    // 103
    | PExit    // 105
    | PRead    // 112
    | PUnlock  // 117
    | PPrint   // 124
    | PDone

  // loaded counts the samples produced. staleWake: the last wait ended, other than by an error, with
  // the ring still full.
  datatype ReaderState = ReaderState(pc: ReaderPc, sample: Option<Sample>, loaded: nat, staleWake: bool)

  // The two malloc'ed sample buffers; a pointer is the name of one.
  datatype Buffer = First | Second

  datatype AnalyzerState = AnalyzerState(pc: AnalyzerPc, first: Option<Sample>, second: Option<Sample>,
                                         oldAt: Buffer, newAt: Buffer, initialized: bool,
                                         usage: Option<Usage>, staleWake: bool)
  {
    function At(b: Buffer): Option<Sample> {
      if b.First? then first else second
    }

    function Store(b: Buffer, x: Sample): AnalyzerState {
      if b.First? then this.(first := Some(x)) else this.(second := Some(x))
    }

    // The two pointers trade places.
    function Swapped(): AnalyzerState {
      this.(oldAt := newAt, newAt := oldAt)
    }
  }

  datatype PrinterState = PrinterState(pc: PrinterPc, usage: Option<Usage>, printed: seq<Shown>)

  datatype State = State(kill: bool, input: Channel<Sample>, output: Channel<Usage>,
                         r: ReaderState, a: AnalyzerState, p: PrinterState)

  // How the environment resolves a step that depends on it: whether a lock succeeds, what a load
  // yields, how a wait ends.
  datatype Choice = Choice(locks: bool, loads: Option<CpuUsage.ProcStat>, wakes: WaitResult)

  datatype Event = Kill | Run(who: Thread, choice: Choice)

  function Init(): State {
    State(false, Fresh(), Fresh(),
          ReaderState(RTest, None, 0, false),
          AnalyzerState(ATest, None, None, First, Second, false, None, false),
          PrinterState(PTest, None, []))
  }

  function ReaderStep(c: Config, kill: bool, ch: Channel<Sample>, r: ReaderState, choice: Choice)
    : Option<(Channel<Sample>, ReaderState)>
  {
    match r.pc
    case RTest => Some((ch, r.(pc := if kill then RDone else RLoad)))
    case RLoad =>
      if choice.loads.None? then Some((ch, r.(pc := RTest)))
      else if |choice.loads.value| != c.cpuLines then None
      else Some((ch, r.(pc := RLock, sample := Some(Sample(r.loaded, choice.loads.value)), loaded := r.loaded + 1)))
    case RLock =>
      if !CanLock(ch.mtx, choice.locks) then None
      else if !choice.locks then Some((ch, r.(pc := RTest)))
      else Some((ch.(mtx := Held(Reader)), r.(pc := RFull, staleWake := false)))
    case RFull =>
      if |ch.ring| == c.inCapacity && !kill
      then Some((ch.(mtx := Free, notFull := Waiting), r.(pc := RWaiting)))
      else Some((ch, r.(pc := RKill)))
    case RWaiting =>
      if !CanWake(ch.mtx, ch.notFull, choice.wakes) then None
      else
        var awake := ch.(mtx := Held(Reader), notFull := Idle);
        var full := |ch.ring| == c.inCapacity;
        if choice.wakes.Failed? then Some((awake, r.(pc := RFull)))
        else Some((EndWait(awake, full), r.(pc := RKill, staleWake := full)))
    case RKill => Some((ch, r.(pc := if kill then RExit else RWrite)))
    case RExit => Some((ch.(mtx := Free), r.(pc := RDone)))
    case RWrite =>
      if r.sample.None? then None else Some((Put(ch, c.inCapacity, r.sample.value), r.(pc := RUnlock)))
    case RUnlock => Some((ch.(mtx := Free), r.(pc := RNotify)))
    case RNotify => Some((ch.(notEmpty := Notify(ch.notEmpty)), r.(pc := RSleep)))
    case RSleep => Some((ch, r.(pc := RTest)))
    case RDone => None
  }

  // The first half of the analyzer's loop, up to line 141, uses only the input channel.
  predicate OnInput(pc: AnalyzerPc) {
    || pc.ATest? || pc.ALockIn? || pc.AEmpty? || pc.AWaitingIn? || pc.AKillIn? || pc.AExitIn?
    || pc.ARead? || pc.AGiveUp? || pc.AUnlockIn? || pc.ANotifyIn? || pc.AFirst?
  }

  function AnalyzerInStep(kill: bool, ch: Channel<Sample>, a: AnalyzerState, choice: Choice)
    : Option<(Channel<Sample>, AnalyzerState)>
    requires OnInput(a.pc)
  {
    match a.pc
    case ATest => Some((ch, a.(pc := if kill then ADone else ALockIn)))
    case ALockIn =>
      if !CanLock(ch.mtx, choice.locks) then None
      else if !choice.locks then Some((ch, a.(pc := ATest)))
      else Some((ch.(mtx := Held(Analyzer)), a.(pc := AEmpty)))
    case AEmpty =>
      if ch.ring == [] && !kill
      then Some((ch.(mtx := Free, notEmpty := Waiting), a.(pc := AWaitingIn)))
      else Some((ch, a.(pc := AKillIn)))
    case AWaitingIn =>
      if !CanWake(ch.mtx, ch.notEmpty, choice.wakes) then None
      else Some((ch.(mtx := Held(Analyzer), notEmpty := Idle), a.(pc := if choice.wakes.Failed? then AEmpty else AKillIn)))
    case AKillIn => Some((ch, a.(pc := if kill then AExitIn else ARead)))
    case AExitIn => Some((ch.(mtx := Free), a.(pc := ADone)))
    case ARead =>
      if ch.ring == [] then Some((ch, a.(pc := AGiveUp)))
      else Some((Take(ch), a.Store(a.newAt, ch.ring[0]).(pc := AUnlockIn)))
    case AGiveUp => Some((ch.(mtx := Free), a.(pc := ATest)))
    case AUnlockIn => Some((ch.(mtx := Free), a.(pc := ANotifyIn)))
    case ANotifyIn => Some((ch.(notFull := Notify(ch.notFull)), a.(pc := AFirst)))
    case AFirst =>
      if a.initialized then Some((ch, a.(pc := ACalculate)))
      else Some((ch, a.Swapped().(pc := ATest, initialized := true)))
  }

  // The record CpuUsageInfo_calculate makes of two samples.
  function UsageOf(o: Sample, n: Sample): Usage
    requires |o.stat| <= |n.stat|
  {
    Usage(CpuUsage.Percentages(o.stat, n.stat), o, n)
  }

  // The second half, from line 143, uses only the output channel.
  function AnalyzerOutStep(c: Config, kill: bool, ch: Channel<Usage>, a: AnalyzerState, choice: Choice)
    : Option<(Channel<Usage>, AnalyzerState)>
    requires !OnInput(a.pc)
  {
    match a.pc
    case ACalculate =>
      var o, n := a.At(a.oldAt), a.At(a.newAt);
      if o.None? || n.None? || |o.value.stat| > |n.value.stat| then None
      else Some((ch, a.(pc := ALockOut, usage := Some(UsageOf(o.value, n.value)))))
    case ALockOut =>
      if !CanLock(ch.mtx, choice.locks) then None
      else if !choice.locks then Some((ch, a.(pc := ATest)))
      else Some((ch.(mtx := Held(Analyzer)), a.(pc := AFull, staleWake := false)))
    case AFull =>
      if |ch.ring| == c.outCapacity && !kill
      then Some((ch.(mtx := Free, notFull := Waiting), a.(pc := AWaitingOut)))
      else Some((ch, a.(pc := AKillOut)))
    case AWaitingOut =>
      if !CanWake(ch.mtx, ch.notFull, choice.wakes) then None
      else
        var awake := ch.(mtx := Held(Analyzer), notFull := Idle);
        var full := |ch.ring| == c.outCapacity;
        if choice.wakes.Failed? then Some((awake, a.(pc := AFull)))
        else Some((EndWait(awake, full), a.(pc := AKillOut, staleWake := full)))
    case AKillOut => Some((ch, a.(pc := if kill then AExitOut else AWrite)))
    case AExitOut => Some((ch.(mtx := Free), a.(pc := ADone)))
    case AWrite =>
      if a.usage.None? then None else Some((Put(ch, c.outCapacity, a.usage.value), a.(pc := AUnlockOut)))
    case AUnlockOut => Some((ch.(mtx := Free), a.(pc := ANotifyOut)))
    case ANotifyOut => Some((ch.(notEmpty := Notify(ch.notEmpty)), a.(pc := ASwap)))
    case ASwap => Some((ch, a.Swapped().(pc := ATest)))
    case ADone => None
  }

  // The printer notifies nobody.
  function PrinterStep(kill: bool, ch: Channel<Usage>, p: PrinterState, choice: Choice)
    : Option<(Channel<Usage>, PrinterState)>
  {
    match p.pc
    case PTest => Some((ch, p.(pc := if kill then PDone else PLock)))
    case PLock =>
      if !CanLock(ch.mtx, choice.locks) then None
      else if !choice.locks then Some((ch, p.(pc := PTest)))
      else Some((ch.(mtx := Held(Printer)), p.(pc := PEmpty)))
    case PEmpty =>
      if ch.ring == [] && !kill
      then Some((ch.(mtx := Free, notEmpty := Waiting), p.(pc := PWaiting)))
      else Some((ch, p.(pc := PKill)))
    case PWaiting =>
      if !CanWake(ch.mtx, ch.notEmpty, choice.wakes) then None
      else Some((ch.(mtx := Held(Printer), notEmpty := Idle), p.(pc := if choice.wakes.Failed? then PEmpty else PKill)))
    case PKill => Some((ch, p.(pc := if kill then PExit else PRead)))
    case PExit => Some((ch.(mtx := Free), p.(pc := PDone)))
    case PRead =>
      if ch.ring == [] then Some((ch, p.(pc := PUnlock)))
      else Some((Take(ch), p.(pc := PUnlock, usage := Some(ch.ring[0]))))
    case PUnlock => Some((ch.(mtx := Free), p.(pc := PPrint)))
    case PPrint => Some((ch, p.(pc := PTest, printed := p.printed + [Shown(p.usage, |ch.takenAt|)])))
    case PDone => None
  }

  // The state an event leads to, or None when it cannot happen there.
  function Step(c: Config, s: State, e: Event): Option<State> {
    match e
    case Kill => Some(s.(kill := true))
    case Run(Reader, choice) =>
      var next := ReaderStep(c, s.kill, s.input, s.r, choice);
      if next.None? then None else Some(s.(input := next.value.0, r := next.value.1))
    case Run(Analyzer, choice) =>
      if OnInput(s.a.pc) then
        var next := AnalyzerInStep(s.kill, s.input, s.a, choice);
        if next.None? then None else Some(s.(input := next.value.0, a := next.value.1))
      else
        var next := AnalyzerOutStep(c, s.kill, s.output, s.a, choice);
        if next.None? then None else Some(s.(output := next.value.0, a := next.value.1))
    case Run(Printer, choice) =>
      var next := PrinterStep(s.kill, s.output, s.p, choice);
      if next.None? then None else Some(s.(output := next.value.0, p := next.value.1))
  }

  // A run: the states passed through under one interleaving, from the start.
  ghost predicate IsRun(c: Config, ss: seq<State>, es: seq<Event>) {
    && |ss| == |es| + 1
    && ss[0] == Init()
    && forall i {:trigger es[i]} :: 0 <= i < |es| ==> Step(c, ss[i], es[i]) == Some(ss[i + 1])
  }
}
