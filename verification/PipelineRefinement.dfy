/** The analyzer of the state machine does what the analyzer's sequential loop does: under every
    interleaving the records written are those the loop writes for the turns it took. */
module PipelineRefinement {
  import opened DropOldest
  import opened Channels
  import opened Pipelines
  import opened PipelineInvariants
  import opened PipelineTurns
  import opened AnalyzerTurns
  import opened AnalyzerLoop
  import CpuUsage

  // The turn of the loop this event decides, if it decides one: an attempt to lock the input mutex that
  // fails, a read that finds nothing, a read of the first sample, or the attempt to lock the output
  // mutex, whether it works or not.
  function TurnDecided(s: State, e: Event): Option<Turn> {
    if e.Kill? || !e.who.Analyzer? then None
    else
      var n := s.a.At(s.a.newAt);
      match s.a.pc
      case ALockIn => if e.choice.locks then None else Some(NoSample)
      case ARead =>
        if s.input.ring == [] then Some(NoSample)
        else if s.a.initialized then None
        else Some(Sampled(s.input.ring[0].stat, true))
      case ALockOut => if n.None? then None else Some(Sampled(n.value.stat, e.choice.locks))
      case _ => None
  }

  // The turns the analyzer decided in the first n events of a run.
  function Turns(ss: seq<State>, es: seq<Event>, n: nat): seq<Turn>
    requires n <= |es| < |ss|
  {
    if n == 0 then []
    else
      Extended(Turns(ss, es, n - 1), TurnDecided(ss[n - 1], es[n - 1]))
  }

  function PairsOf(us: seq<Usage>): seq<(CpuUsage.ProcStat, CpuUsage.ProcStat)> {
    seq(|us|, k requires 0 <= k < |us| => (us[k].before.stat, us[k].after.stat))
  }

  // From the lock of the output mutex to the write, or to the end of the loop.
  predicate OwesRecord(pc: AnalyzerPc) {
    pc.AFull? || pc.AWaitingOut? || pc.AKillOut? || pc.AExitOut? || pc.AWrite?
  }

  function StatAt(a: AnalyzerState, b: Buffer): CpuUsage.ProcStat {
    if a.At(b).Some? then a.At(b).value.stat else []
  }

  // The sample the record after the turns decided will be measured from.
  function BaseOf(a: AnalyzerState): Option<CpuUsage.ProcStat> {
    if OwesRecord(a.pc) || HasEmitted(a.pc) || (!a.initialized && HasNew(a.pc)) then Some(StatAt(a, a.newAt))
    else if a.initialized then Some(StatAt(a, a.oldAt))
    else None
  }

  // The record still to be written for the turn just decided.
  function Owed(a: AnalyzerState): seq<(CpuUsage.ProcStat, CpuUsage.ProcStat)> {
    if OwesRecord(a.pc) then [(StatAt(a, a.oldAt), StatAt(a, a.newAt))] else []
  }

  lemma TurnsAppend(turns: seq<Turn>, turn: Turn)
    ensures Base(turns + [turn]) == if turn.Sampled? && (Base(turns).None? || turn.outputLocked) then Some(turn.stat) else Base(turns)
    ensures Pairs(turns + [turn]) == if turn.Sampled? && turn.outputLocked && Base(turns).Some?
                                     then Pairs(turns) + [(Base(turns).value, turn.stat)] else Pairs(turns)
  {
    assert (turns + [turn])[..|turns + [turn]| - 1] == turns;
  }

  ghost predicate Agrees(turns: seq<Turn>, a: AnalyzerState, written: seq<Usage>) {
    Base(turns) == BaseOf(a) && Pairs(turns) == PairsOf(written) + Owed(a)
  }

  /** The sequential loop for the turns decided so far has written the same records, and the one still
      owed. Only the kill switch can leave a record owed for ever. */
  ghost predicate Follows(turns: seq<Turn>, s: State) {
    || Agrees(turns, s.a, s.output.written)
    || (s.a.pc.ADone? && s.kill && Agrees(turns, s.a.(pc := AExitOut), s.output.written))
  }

  // A step of the analyzer on its input other than a read that works moves neither base nor record.
  lemma InputKeepsBase(s: State, choice: Choice)
    requires OnInput(s.a.pc) && AnalyzerInStep(s.kill, s.input, s.a, choice).Some? && !(s.a.pc.ARead? && s.input.ring != [])
    ensures var a := AnalyzerInStep(s.kill, s.input, s.a, choice).value.1; BaseOf(a) == BaseOf(s.a) && Owed(a) == Owed(s.a)
  {
    AnalyzerInMoves(s.kill, s.input, s.a, choice);
  }

  lemma InputStepRefines(s: State, choice: Choice, turns: seq<Turn>)
    requires OnInput(s.a.pc) && AnalyzerInStep(s.kill, s.input, s.a, choice).Some?
    requires Agrees(turns, s.a, s.output.written) && !(s.a.pc.ARead? && s.input.ring != [])
    ensures var a := AnalyzerInStep(s.kill, s.input, s.a, choice).value.1;
            Agrees(Extended(turns, TurnDecided(s, Run(Analyzer, choice))), a, s.output.written)
  {
    InputKeepsBase(s, choice);
    TurnsAppend(turns, NoSample);
    assert TurnDecided(s, Run(Analyzer, choice)).Some? ==> TurnDecided(s, Run(Analyzer, choice)).value == NoSample;
  }

  lemma ReadRefines(s: State, choice: Choice, turns: seq<Turn>)
    requires s.a.pc.ARead? && s.input.ring != [] && s.a.oldAt != s.a.newAt
    requires Agrees(turns, s.a, s.output.written)
    ensures var a := AnalyzerInStep(s.kill, s.input, s.a, choice).value.1;
            Agrees(Extended(turns, TurnDecided(s, Run(Analyzer, choice))), a, s.output.written)
  {
    if !s.a.initialized {
      TurnsAppend(turns, Sampled(s.input.ring[0].stat, true));
    }
  }

  lemma LockRefines(c: Config, s: State, choice: Choice, turns: seq<Turn>)
    requires s.a.pc.ALockOut? && s.a.initialized && s.a.At(s.a.newAt).Some?
    requires AnalyzerOutStep(c, s.kill, s.output, s.a, choice).Some?
    requires Agrees(turns, s.a, s.output.written)
    ensures var (ch, a) := AnalyzerOutStep(c, s.kill, s.output, s.a, choice).value;
            Agrees(Extended(turns, TurnDecided(s, Run(Analyzer, choice))), a, ch.written)
  {
    TurnsAppend(turns, Sampled(s.a.At(s.a.newAt).value.stat, choice.locks));
  }

  lemma WriteRefines(c: Config, s: State, choice: Choice, turns: seq<Turn>)
    requires s.a.pc.AWrite? && s.a.initialized && s.a.usage.Some? && s.a.At(s.a.oldAt).Some? && s.a.At(s.a.newAt).Some?
    requires StatAt(s.a, s.a.oldAt) == s.a.usage.value.before.stat && StatAt(s.a, s.a.newAt) == s.a.usage.value.after.stat
    requires AnalyzerOutStep(c, s.kill, s.output, s.a, choice).Some?
    requires Agrees(turns, s.a, s.output.written)
    ensures var (ch, a) := AnalyzerOutStep(c, s.kill, s.output, s.a, choice).value;
            Agrees(turns, a, ch.written)
  {
    assert PairsOf(s.output.written + [s.a.usage.value]) == PairsOf(s.output.written) + Owed(s.a);
  }

  lemma OutputStepMoves(c: Config, s: State, choice: Choice)
    requires !OnInput(s.a.pc) && !s.a.pc.ALockOut? && !s.a.pc.AWrite? && !s.a.pc.AExitOut?
    requires AnalyzerOutStep(c, s.kill, s.output, s.a, choice).Some?
    ensures var (ch, a) := AnalyzerOutStep(c, s.kill, s.output, s.a, choice).value;
            && ch.written == s.output.written
            && OwesRecord(a.pc) == OwesRecord(s.a.pc)
            && if s.a.pc.ASwap? then a == s.a.Swapped().(pc := ATest)
               else HasEmitted(a.pc) == HasEmitted(s.a.pc) && a == s.a.(pc := a.pc, usage := a.usage, staleWake := a.staleWake)
  {
  }

  // A step of the analyzer on its output that neither locks nor writes nor ends keeps base and record.
  lemma OutputKeepsBase(c: Config, s: State, choice: Choice)
    requires s.a.initialized && !OnInput(s.a.pc) && !s.a.pc.ALockOut? && !s.a.pc.AWrite? && !s.a.pc.AExitOut?
    requires AnalyzerOutStep(c, s.kill, s.output, s.a, choice).Some?
    ensures var (ch, a) := AnalyzerOutStep(c, s.kill, s.output, s.a, choice).value;
            ch.written == s.output.written && BaseOf(a) == BaseOf(s.a) && Owed(a) == Owed(s.a)
  {
    OutputStepMoves(c, s, choice);
  }

  lemma OutputStepRefines(c: Config, s: State, choice: Choice, turns: seq<Turn>)
    requires s.a.initialized && !OnInput(s.a.pc) && !s.a.pc.ALockOut? && !s.a.pc.AWrite?
    requires AnalyzerOutStep(c, s.kill, s.output, s.a, choice).Some?
    requires Agrees(turns, s.a, s.output.written) && (s.a.pc.AExitOut? ==> s.kill)
    ensures var (ch, a) := AnalyzerOutStep(c, s.kill, s.output, s.a, choice).value;
            Follows(turns, s.(output := ch, a := a))
  {
    if !s.a.pc.AExitOut? {
      OutputKeepsBase(c, s, choice);
    }
  }

  function Extended(turns: seq<Turn>, turn: Option<Turn>): seq<Turn> {
    if turn.Some? then turns + [turn.value] else turns
  }

  lemma AnalyzerRefinesTurn(c: Config, s: State, samples: seq<Sample>, choice: Choice, next: State, turns: seq<Turn>)
    requires BuffersHold(c, samples, s.a) && (s.a.pc.AExitOut? ==> s.kill)
    requires Step(c, s, Run(Analyzer, choice)) == Some(next) && Follows(turns, s)
    ensures Follows(Extended(turns, TurnDecided(s, Run(Analyzer, choice))), next)
  {
    if s.a.pc.ARead? && s.input.ring != [] {
      ReadRefines(s, choice, turns);
    } else if OnInput(s.a.pc) {
      InputStepRefines(s, choice, turns);
    } else if s.a.pc.ALockOut? {
      LockRefines(c, s, choice, turns);
    } else if s.a.pc.AWrite? {
      WriteRefines(c, s, choice, turns);
    } else {
      OutputStepRefines(c, s, choice, turns);
    }
  }

  lemma OthersKeepTurns(turns: seq<Turn>, s: State, next: State)
    requires Follows(turns, s) && next.a == s.a && next.output.written == s.output.written && (s.kill ==> next.kill)
    ensures Follows(turns, next)
  {
  }

  lemma InputStepExitsEarly(kill: bool, ch: Channel<Sample>, a: AnalyzerState, choice: Choice)
    requires OnInput(a.pc) && AnalyzerInStep(kill, ch, a, choice).Some?
    ensures !AnalyzerInStep(kill, ch, a, choice).value.1.pc.AExitOut?
  {
  }

  // The analyzer leaves its loop in mid-turn only once the kill switch is set.
  lemma {:induction false} ExitMeansKill(c: Config, ss: seq<State>, es: seq<Event>, i: nat)
    requires IsRun(c, ss, es) && i < |ss|
    ensures ss[i].a.pc.AExitOut? ==> ss[i].kill
  {
    if i > 0 {
      ExitMeansKill(c, ss, es, i - 1);
      var s, e := ss[i - 1], es[i - 1];
      assert Step(c, s, e) == Some(ss[i]);
      if e.Run? && e.who.Analyzer? && OnInput(s.a.pc) {
        InputStepExitsEarly(s.kill, s.input, s.a, e.choice);
      }
    }
  }

  lemma EventRefinesTurn(c: Config, ss: seq<State>, es: seq<Event>, k: nat, i: nat)
    requires IsRun(c, ss, es) && i == k + 1 <= |es| && Follows(Turns(ss, es, k), ss[k])
    ensures Follows(Turns(ss, es, i), ss[i])
  {
    var turns := Turns(ss, es, k);
    assert Turns(ss, es, i) == Extended(turns, TurnDecided(ss[k], es[k]));
    var s, e, next := ss[k], es[k], ss[k + 1];
    assert Step(c, s, e) == Some(next);
    if By(e, Analyzer) {
      RunKeepsInv(c, ss, es, k);
      ExitMeansKill(c, ss, es, k);
      AnalyzerRefinesTurn(c, s, Reads(s.input, c.inCapacity), e.choice, next, turns);
    } else {
      OthersLeaveAnalyzer(c, s, e, next);
      OthersKeepTurns(turns, s, next);
    }
  }

  lemma StartRefinesLoop()
    ensures Follows([], Init())
  {
  }

  /** In every state of every run the pairs of samples behind the records written, with the one owed,
      are the pairs of the sequential loop for the turns decided so far. */
  lemma {:induction false} RunRefinesLoop(c: Config, ss: seq<State>, es: seq<Event>, i: nat)
    requires IsRun(c, ss, es) && i <= |es|
    ensures Follows(Turns(ss, es, i), ss[i])
  {
    if i == 0 {
      StartRefinesLoop();
    } else {
      RunRefinesLoop(c, ss, es, i - 1);
      EventRefinesTurn(c, ss, es, i - 1, i);
    }
  }

  // So the values written are what AnalyzerLoop.AnalyzerThread returns for those turns, but for the last
  // ones while a record is owed.
  lemma ValuesAreLoopRecords(c: Config, ss: seq<State>, es: seq<Event>, i: nat)
    requires IsRun(c, ss, es) && i <= |es|
    ensures var written, pairs := ss[i].output.written, Pairs(Turns(ss, es, i));
            && |written| <= |pairs| <= |written| + 1
            && (|pairs| == |written| + 1 ==> OwesRecord(ss[i].a.pc) || (ss[i].a.pc.ADone? && ss[i].kill))
            && (forall k :: 0 <= k < |written| ==> |pairs[k].0| <= |pairs[k].1|)
            && forall k :: 0 <= k < |written| ==> written[k].values == Records(pairs[..|written|])[k]
  {
    RunRefinesLoop(c, ss, es, i);
    RunKeepsInv(c, ss, es, i);
    var us := ss[i].output.written;
    var pairs := Pairs(Turns(ss, es, i));
    forall k | 0 <= k < |us| ensures GoodUsage(c, Reads(ss[i].input, c.inCapacity), us[k]) && pairs[k] == (us[k].before.stat, us[k].after.stat) {
      assert PairsOf(us)[k] == pairs[k];
    }
  }
}
