/** What one turn of the logger's loop does, under every interleaving with the threads that call Log, and
    what one call of Log does: which steps the logger takes, when its swap is made with the mutex held,
    what it brings to the file, and in which runs the order is kept. */
module LoggerTurns {
  import opened DropOldest
  import opened LoggerThreads
  import WaitLoops

  // ----- The mutex in the swap section -----

  // From the failed lock attempt to the unlock.
  predicate InSection(pc: Pc) {
    pc.LEmpty? || pc.LWaiting? || pc.LKill? || pc.LExit? || pc.LSwap?
  }

  // A wait gives up the mutex exactly when the logger holds it, and its end brings it back.
  ghost predicate SectionHolds(s: State, held: bool) {
    if s.pc.LWaiting? then s.released == held && !s.mtx.ByLogger? else s.mtx.ByLogger? == held
  }

  lemma SectionStep(capacity: nat, s: State, e: Event, next: State, held: bool)
    requires 1 <= capacity && MutexAgrees(s) && Step(capacity, s, e) == Some(next)
    requires InSection(s.pc) && InSection(next.pc) && SectionHolds(s, held)
    ensures SectionHolds(next, held)
  {
  }

  lemma {:induction false} HeldThroughSection(capacity: nat, ss: seq<State>, es: seq<Event>, k: nat, i: nat)
    requires 1 <= capacity && IsRun(capacity, ss, es) && k <= i < |ss| && ss[k].pc.LEmpty?
    requires forall m :: k <= m <= i ==> InSection(ss[m].pc)
    ensures SectionHolds(ss[i], ss[k].mtx.ByLogger?)
  {
    if k < i {
      HeldThroughSection(capacity, ss, es, k, i - 1);
      RunIsSane(capacity, ss, es, i - 1);
      SectionStep(capacity, ss[i - 1], es[i - 1], ss[i], ss[k].mtx.ByLogger?);
    }
  }

  // ----- What can happen -----

  // In the logger's place: a lock is got only on a free mutex, and a wait that gave the mutex up ends only
  // when it is free. Every other answer is possible, and a thread inside Log waits for nothing but the mutex.
  lemma EveryAnswerIsPossible(capacity: nat, s: State, locks: bool, wakes: WaitResult)
    requires 1 <= capacity
    ensures LoggerNext(s, locks, wakes).Some?
       <==> && !s.pc.LDone?
            && ((s.pc.LLock? || s.pc.LFinalLock?) && locks ==> s.mtx.Free?)
            && (s.pc.LWaiting? && s.released ==> s.mtx.Free?)
    ensures WriterNext(capacity, s).Some? <==> (s.writer.Outside? ==> s.mtx.Free?)
  {
  }

  // The kill switch is set exactly when someone has set it.
  lemma {:induction false} KilledIff(capacity: nat, ss: seq<State>, es: seq<Event>, i: nat)
    requires 1 <= capacity && IsRun(capacity, ss, es) && i < |ss|
    ensures ss[i].kill <==> exists j :: 0 <= j < i && es[j].Kill?
  {
    if i > 0 {
      KilledIff(capacity, ss, es, i - 1);
      assert Step(capacity, ss[i - 1], es[i - 1]) == Some(ss[i]);
      if es[i - 1].LoggerStep? {
        LoggerFrame(ss[i - 1], es[i - 1].locks, es[i - 1].wakes, ss[i]);
      }
    }
  }

  // ----- A call of Log -----

  // One call, from the lock of the mutex to its unlock.
  ghost predicate LogCall(ss: seq<State>, es: seq<Event>, k: nat, i: nat) {
    && k < i <= |es| < |ss| && es[k].WriterStep?
    && ss[k].writer.Outside? && ss[i].writer.Outside?
    && forall m :: k < m < i ==> !ss[m].writer.Outside?
  }

  // Event j writes message n, through the pointer loaded before.
  ghost predicate WritesMessage(capacity: nat, ss: seq<State>, es: seq<Event>, j: nat, n: nat)
    requires 1 <= capacity
  {
    && j < |es| < |ss| && es[j].WriterStep? && ss[j].writer.Loaded? && ss[j].written == n
    && ss[j + 1].input == (if ss[j].writer.toInput then Push(ss[j].input, capacity, n) else ss[j].input)
    && ss[j + 1].secondary == (if ss[j].writer.toInput then ss[j].secondary else Push(ss[j].secondary, capacity, n))
  }

  ghost predicate LogSoFar(capacity: nat, ss: seq<State>, es: seq<Event>, k: nat, i: nat)
    requires 1 <= capacity && k < i < |ss|
  {
    match ss[i].writer
    case Locked => ss[i].written == ss[k].written
    case Loaded(_) => ss[i].written == ss[k].written
    case _ => ss[i].written == ss[k].written + 1 && exists j: nat :: k < j < i && WritesMessage(capacity, ss, es, j, ss[k].written)
  }

  lemma {:induction false} LogInCall(capacity: nat, ss: seq<State>, es: seq<Event>, k: nat, i: nat)
    requires 1 <= capacity && IsRun(capacity, ss, es) && k < i <= |es| && es[k].WriterStep? && ss[k].writer.Outside?
    requires forall m :: k < m < i ==> !ss[m].writer.Outside?
    ensures LogSoFar(capacity, ss, es, k, i)
  {
    var s, e, next := ss[i - 1], es[i - 1], ss[i];
    assert Step(capacity, s, e) == Some(next);
    if k < i - 1 {
      LogInCall(capacity, ss, es, k, i - 1);
      if e.LoggerStep? {
        LoggerFrame(s, e.locks, e.wakes, next);
      } else if e.WriterStep? && s.writer.Loaded? {
        assert WritesMessage(capacity, ss, es, i - 1, ss[k].written);
      }
    }
  }

  // Every call of Log that gets the mutex writes exactly one message, to the ring its pointer names.
  lemma LogCallsWrite(capacity: nat, ss: seq<State>, es: seq<Event>, k: nat, i: nat)
    requires 1 <= capacity && IsRun(capacity, ss, es) && LogCall(ss, es, k, i)
    ensures ss[i].written == ss[k].written + 1
    ensures exists j: nat :: k < j < i && WritesMessage(capacity, ss, es, j, ss[k].written)
  {
    LogInCall(capacity, ss, es, k, i);
  }

  // ----- From the loop test to the swap -----

  // What the logger finds at one of its steps, and how the environment answers it.
  datatype View = View(s: State, locks: bool, wakes: WaitResult)

  ghost function Views(ss: seq<State>, es: seq<Event>, k: nat, i: nat): seq<View>
    requires i <= |es| < |ss|
  {
    if i <= k then []
    else
      var e := es[i - 1];
      Views(ss, es, k, i - 1) + if e.LoggerStep? then [View(ss[i - 1], e.locks, e.wakes)] else []
  }

  function LookOf(v: View): WaitLoops.Look {
    WaitLoops.Look(v.s.input == [] && !v.s.kill, v.wakes.Failed?)
  }

  function Looks(vs: seq<View>): (r: seq<WaitLoops.Look>) {
    seq(|vs|, i requires 0 <= i < |vs| => LookOf(vs[i]))
  }

  lemma LooksNext(vs: seq<View>, v: View)
    ensures Looks(vs + [v]) == Looks(vs) + [LookOf(v)]
  {
  }

  predicate Between(pc: Pc) {
    pc.LTest? || pc.LFinalLock? || pc.LSwap?
  }

  // One turn of the loop up to its swap, when it comes to one.
  ghost predicate TurnToSwap(ss: seq<State>, es: seq<Event>, k: nat, i: nat) {
    && k < i <= |es| < |ss| && es[k].LoggerStep?
    && ss[k].pc.LTest? && Between(ss[i].pc)
    && forall m :: k < m < i ==> !Between(ss[m].pc)
  }

  // The loop condition holds and the lock attempt fails.
  predicate Enters(vs: seq<View>) {
    |vs| >= 2 && !vs[0].s.kill && !vs[1].locks
  }

  // The logger holds the mutex in the section exactly when it held it at the failed attempt.
  ghost predicate Section(s: State, vs: seq<View>) {
    Enters(vs) && SectionHolds(s, vs[1].s.mtx.ByLogger?)
  }

  ghost predicate SoFar(s: State, vs: seq<View>) {
    match s.pc
    case LTest => |vs| == 2 && !vs[0].s.kill && vs[1].locks && s.mtx.ByLogger?
    case LLock => |vs| == 1 && !vs[0].s.kill
    case LEmpty => Section(s, vs) && WaitLoops.AtTest(2, Looks(vs))
    case LWaiting => Section(s, vs) && WaitLoops.InWait(2, Looks(vs))
    case LKill => Section(s, vs) && WaitLoops.Waited(2, Looks(vs), 0)
    case LExit => Section(s, vs) && WaitLoops.Waited(2, Looks(vs), 1) && vs[|vs| - 1].s.kill
    case LSwap => Section(s, vs) && WaitLoops.Waited(2, Looks(vs), 1) && !vs[|vs| - 1].s.kill
    case LFinalLock =>
      || (|vs| == 1 && vs[0].s.kill)
      || (Enters(vs) && WaitLoops.Waited(2, Looks(vs), 2) && vs[|vs| - 2].s.kill && !s.mtx.ByLogger?)
    case _ => false
  }

  lemma SoFarNext(capacity: nat, s: State, vs: seq<View>, e: Event, next: State)
    requires 1 <= capacity && MutexAgrees(s) && e.LoggerStep? && Step(capacity, s, e) == Some(next)
    requires if vs == [] then s.pc.LTest? else !Between(s.pc) && SoFar(s, vs)
    ensures SoFar(next, vs + [View(s, e.locks, e.wakes)])
  {
    var v := View(s, e.locks, e.wakes);
    LooksNext(vs, v);
    match s.pc
    case LLock => assert Looks(vs + [v])[2..] == [];
    case LEmpty => WaitLoops.TestNext(2, Looks(vs), LookOf(v));
    case LWaiting => WaitLoops.WaitNext(2, Looks(vs), LookOf(v));
    case LKill => WaitLoops.WaitedNext(2, Looks(vs), LookOf(v), 0);
    case LExit => WaitLoops.WaitedNext(2, Looks(vs), LookOf(v), 1);
    case _ =>
  }

  lemma OthersKeepSoFar(capacity: nat, s: State, vs: seq<View>, e: Event, next: State)
    requires 1 <= capacity && MutexAgrees(s) && !e.LoggerStep? && Step(capacity, s, e) == Some(next) && SoFar(s, vs)
    ensures SoFar(next, vs)
  {
  }

  lemma {:induction false} TurnSoFar(capacity: nat, ss: seq<State>, es: seq<Event>, k: nat, i: nat)
    requires 1 <= capacity && IsRun(capacity, ss, es) && k < i <= |es| && es[k].LoggerStep? && ss[k].pc.LTest?
    requires forall m :: k < m < i ==> !Between(ss[m].pc)
    ensures Views(ss, es, k, i) != [] && SoFar(ss[i], Views(ss, es, k, i))
  {
    var s, e, next := ss[i - 1], es[i - 1], ss[i];
    assert Step(capacity, s, e) == Some(next);
    RunIsSane(capacity, ss, es, i - 1);
    var vs := Views(ss, es, k, i - 1);
    if k < i - 1 {
      TurnSoFar(capacity, ss, es, k, i - 1);
    }
    if e.LoggerStep? {
      SoFarNext(capacity, s, vs, e, next);
    } else {
      assert Views(ss, es, k, i) == vs;
      OthersKeepSoFar(capacity, s, vs, e, next);
    }
  }

  /** Every turn of the logger up to its swap: a lock attempt that works ends it, holding the mutex; one
      that fails leads through one wait loop to the swap, or out of the loop when the kill switch is found
      set; and at the swap the logger holds the mutex exactly when it held it at the failed attempt. */
  lemma TurnsToSwap(capacity: nat, ss: seq<State>, es: seq<Event>, k: nat, i: nat)
    requires 1 <= capacity && IsRun(capacity, ss, es) && TurnToSwap(ss, es, k, i)
    ensures var vs := Views(ss, es, k, i);
            match ss[i].pc
            case LTest => |vs| == 2 && !vs[0].s.kill && vs[1].locks && ss[i].mtx.ByLogger?
            case LSwap =>
              && Enters(vs) && WaitLoops.Waited(2, Looks(vs), 1) && !vs[|vs| - 1].s.kill
              && (ss[i].mtx.ByLogger? <==> vs[1].s.mtx.ByLogger?)
            case _ =>
              || (|vs| == 1 && vs[0].s.kill)
              || (Enters(vs) && WaitLoops.Waited(2, Looks(vs), 2) && vs[|vs| - 2].s.kill && !ss[i].mtx.ByLogger?)
  {
    TurnSoFar(capacity, ss, es, k, i);
  }

  // ----- From the swap to the end of the turn -----

  ghost predicate TurnFromSwap(ss: seq<State>, es: seq<Event>, k: nat, i: nat) {
    && k < i <= |es| < |ss| && es[k].LoggerStep?
    && ss[k].pc.LSwap? && Between(ss[i].pc)
    && forall m :: k < m < i ==> !Between(ss[m].pc)
  }

  // After the unlock the ring swapped away is drained until a read finds it empty.
  ghost predicate DrainSoFar(s: State, vs: seq<View>) {
    match s.pc
    case LUnlock => |vs| == 1
    case LDrain => |vs| >= 2 && !s.mtx.ByLogger?
    case LTest => |vs| >= 3 && !s.mtx.ByLogger? && vs[|vs| - 1].s.secondary == []
    case _ => false
  }

  // With no write pending at the swap, all that was in the input ring is in the file or still to drain.
  ghost predicate DrainHolds(start: State, s: State) {
    && s.file + s.secondary == start.file + start.input && WritesToInput(s)
    && (s.pc.LTest? ==> s.secondary == [])
  }

  lemma DrainStep(capacity: nat, s: State, vs: seq<View>, e: Event, next: State)
    requires 1 <= capacity && MutexAgrees(s) && Step(capacity, s, e) == Some(next)
    requires if vs == [] then s.pc.LSwap? && e.LoggerStep? else !Between(s.pc) && DrainSoFar(s, vs)
    ensures DrainSoFar(next, if e.LoggerStep? then vs + [View(s, e.locks, e.wakes)] else vs)
  {
  }

  lemma DrainKeepsMessages(capacity: nat, start: State, s: State, e: Event, next: State)
    requires 1 <= capacity && Sane(capacity, s) && Step(capacity, s, e) == Some(next)
    requires DrainHolds(start, s) && (s.pc.LUnlock? || s.pc.LDrain?)
    ensures DrainHolds(start, next)
  {
    if MovesSecondary(s) {
      assert s.file + s.secondary == s.file + [s.secondary[0]] + s.secondary[1..];
    }
  }

  lemma {:induction false} DrainInTurn(capacity: nat, ss: seq<State>, es: seq<Event>, k: nat, i: nat)
    requires 1 <= capacity && IsRun(capacity, ss, es) && k < i <= |es| && es[k].LoggerStep? && ss[k].pc.LSwap?
    requires forall m :: k < m < i ==> !Between(ss[m].pc)
    ensures Views(ss, es, k, i) != [] && DrainSoFar(ss[i], Views(ss, es, k, i))
    ensures !ss[k].writer.Loaded? ==> DrainHolds(ss[k], ss[i])
  {
    var s, e, next := ss[i - 1], es[i - 1], ss[i];
    assert Step(capacity, s, e) == Some(next);
    RunIsSane(capacity, ss, es, i - 1);
    var vs := Views(ss, es, k, i - 1);
    if k < i - 1 {
      DrainInTurn(capacity, ss, es, k, i - 1);
      if !ss[k].writer.Loaded? {
        DrainKeepsMessages(capacity, ss[k], s, e, next);
      }
    }
    DrainStep(capacity, s, vs, e, next);
    if !e.LoggerStep? {
      assert Views(ss, es, k, i) == vs;
    }
  }

  /** The rest of every such turn: the mutex is given up if it was held, and the ring swapped away is
      drained until it is found empty. Unless a write was pending at the swap, exactly what the input ring
      held at the swap has reached the file, in order, whatever is logged meanwhile. */
  lemma TurnsFromSwap(capacity: nat, ss: seq<State>, es: seq<Event>, k: nat, i: nat)
    requires 1 <= capacity && IsRun(capacity, ss, es) && TurnFromSwap(ss, es, k, i)
    ensures var vs := Views(ss, es, k, i);
            ss[i].pc.LTest? && |vs| >= 3 && !ss[i].mtx.ByLogger? && vs[|vs| - 1].s.secondary == []
    ensures !ss[k].writer.Loaded? ==> ss[i].file == ss[k].file + ss[k].input && ss[i].secondary == []
  {
    DrainInTurn(capacity, ss, es, k, i);
  }

  // ----- Which runs keep the order -----

  // No lock attempt of the loop fails but those made while the logger holds the mutex.
  ghost predicate OnlyOwnLockFails(ss: seq<State>, es: seq<Event>) {
    && |ss| == |es| + 1
    && forall j {:trigger es[j]} :: 0 <= j < |es| && es[j].LoggerStep? && ss[j].pc.LLock? && !es[j].locks ==> ss[j].mtx.ByLogger?
  }

  lemma {:induction false} SectionIsHeld(capacity: nat, ss: seq<State>, es: seq<Event>, i: nat)
    requires 1 <= capacity && IsRun(capacity, ss, es) && OnlyOwnLockFails(ss, es) && i < |ss|
    ensures InSection(ss[i].pc) ==> SectionHolds(ss[i], true)
  {
    if i > 0 {
      SectionIsHeld(capacity, ss, es, i - 1);
      RunIsSane(capacity, ss, es, i - 1);
      var s, e := ss[i - 1], es[i - 1];
      assert Step(capacity, s, e) == Some(ss[i]);
      if InSection(s.pc) && InSection(ss[i].pc) {
        SectionStep(capacity, s, e, ss[i], true);
      }
    }
  }

  /** So the log is in order, and the secondary ring empty at every swap, in every run in which the loop's
      lock attempts fail only for the logger's own lock - as they do unless another thread holds the mutex
      for the whole time-out. */
  lemma OwnFailuresKeepOrder(capacity: nat, ss: seq<State>, es: seq<Event>, i: nat)
    requires 1 <= capacity && IsRun(capacity, ss, es) && OnlyOwnLockFails(ss, es) && i < |ss|
    ensures InOrder(ss[i]) && Tidy(ss[i])
  {
    forall j | 0 <= j < |es| && es[j].LoggerStep? && ss[j].pc.LSwap? ensures ss[j].mtx.ByLogger? {
      SectionIsHeld(capacity, ss, es, j);
    }
    HeldSwapsKeepOrder(capacity, ss, es, i);
  }
}
