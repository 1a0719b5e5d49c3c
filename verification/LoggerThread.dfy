/** The logger thread and the threads that call Log, as a state machine. A message stands for its place
    in the order of writes. The loop enters its swap section when the lock attempt FAILED, as the
    code does: normally because the thread still holds the mutex it locked one turn earlier, but it
    may also be that another thread holds it. */
module LoggerThreads {
  import opened DropOldest

  // src/threads/logger.c
  datatype Pc =
    | LTest           // 210
    | LLock           // 214
    | LEmpty          // 218
    | LWaiting        // 222
    | LKill           // 240
    | LExit           // 242
    | LSwap           // 249
    | LUnlock         // 253
    | LDrain          // 258
    | LFinalLock      // 263
    | LFinalSwap      // 266
    | LFinalDrainIn   // 270
    | LFinalUnlock    // 272
    | LFinalDrain     // 277
    | LDone

  // Who holds g_inMtx.
  datatype Mutex = Free | ByLogger | ByWriter

  // A thread inside Log has locked the mutex, then loaded g_inBuf, then written through the pointer
  // it loaded. toInput: that pointer still is g_inBuf.
  datatype Writer = Outside | Locked | Loaded(toInput: bool) | Written

  // input and secondary are the rings g_inBuf and g_secondaryBuf point to. released: the pending
  // wait gave the mutex up. written counts the messages written to a ring so far, lost those
  // overwritten.
  datatype State = State(pc: Pc, kill: bool, mtx: Mutex, released: bool, writer: Writer,
                         input: seq<nat>, secondary: seq<nat>, file: seq<nat>, written: nat, lost: nat)

  datatype WaitResult = BySignal | TimedOut | Failed

  datatype Event =
    | Kill
    | WriterStep                             // the next step of a thread inside Log
    | LoggerStep(locks: bool, wakes: WaitResult)

  function Init(): State {
    State(LTest, false, Free, false, Outside, [], [], [], 0, 0)
  }

  function WriterNext(capacity: nat, s: State): Option<State>
    requires 1 <= capacity
  {
    match s.writer
    case Outside => if s.mtx.Free? then Some(s.(mtx := ByWriter, writer := Locked)) else None
    case Locked => Some(s.(writer := Loaded(true)))
    case Loaded(toInput) =>
      var done := s.(writer := Written, written := s.written + 1);
      if toInput
      then Some(done.(input := Push(s.input, capacity, s.written), lost := s.lost + if |s.input| >= capacity then 1 else 0))
      else Some(done.(secondary := Push(s.secondary, capacity, s.written), lost := s.lost + if |s.secondary| >= capacity then 1 else 0))
    case Written => Some(s.(mtx := Free, writer := Outside))
  }

  // Unlocking a mutex one does not hold fails; the code logs that and goes on.
  function Unlocked(s: State): State {
    if s.mtx.ByLogger? then s.(mtx := Free) else s
  }

  // The two pointers trade places under any pointer a thread inside Log has loaded.
  function Swapped(s: State): State {
    s.(input := s.secondary, secondary := s.input,
       writer := if s.writer.Loaded? then Loaded(!s.writer.toInput) else s.writer)
  }

  // logAllFromCbuf: one message, or on to the next program point.
  function DrainInput(s: State, next: Pc): State {
    if s.input == [] then s.(pc := next) else s.(input := s.input[1..], file := s.file + [s.input[0]])
  }

  function DrainSecondary(s: State, next: Pc): State {
    if s.secondary == [] then s.(pc := next) else s.(secondary := s.secondary[1..], file := s.file + [s.secondary[0]])
  }

  predicate InLoop(pc: Pc) {
    || pc.LTest? || pc.LLock? || pc.LEmpty? || pc.LWaiting? || pc.LKill? || pc.LExit? || pc.LSwap?
    || pc.LUnlock? || pc.LDrain?
  }

  function LoopNext(s: State, locks: bool, wakes: WaitResult): Option<State>
    requires InLoop(s.pc)
  {
    match s.pc
    case LTest => Some(s.(pc := if s.kill then LFinalLock else LLock))
    case LLock =>
      if locks then if s.mtx.Free? then Some(s.(mtx := ByLogger, pc := LTest)) else None
      else Some(s.(pc := LEmpty))
    case LEmpty =>
      if s.input == [] && !s.kill then Some(Unlocked(s).(pc := LWaiting, released := s.mtx.ByLogger?))
      else Some(s.(pc := LKill))
    case LWaiting =>
      if s.released && !s.mtx.Free? then None
      else Some(s.(pc := if wakes.Failed? then LEmpty else LKill, mtx := if s.released then ByLogger else s.mtx,
                   released := false))
    case LKill => Some(s.(pc := if s.kill then LExit else LSwap))
    case LExit => Some(Unlocked(s).(pc := LFinalLock))
    case LSwap => Some(Swapped(s).(pc := LUnlock))
    case LUnlock => Some(Unlocked(s).(pc := LDrain))
    case LDrain => Some(DrainSecondary(s, LTest))
  }

  function FlushNext(s: State, locks: bool): Option<State>
    requires !InLoop(s.pc)
  {
    match s.pc
    case LFinalLock =>
      if !locks then Some(s.(pc := LDone))
      else if s.mtx.Free? then Some(s.(mtx := ByLogger, pc := LFinalSwap)) else None
    case LFinalSwap => Some(Swapped(s).(pc := LFinalDrainIn))
    case LFinalDrainIn => Some(DrainInput(s, LFinalUnlock))
    case LFinalUnlock => Some(Unlocked(s).(pc := LFinalDrain))
    case LFinalDrain => Some(DrainSecondary(s, LDone))
    case LDone => None
  }

  function LoggerNext(s: State, locks: bool, wakes: WaitResult): Option<State> {
    if InLoop(s.pc) then LoopNext(s, locks, wakes) else FlushNext(s, locks)
  }

  function Step(capacity: nat, s: State, e: Event): Option<State>
    requires 1 <= capacity
  {
    match e
    case Kill => Some(s.(kill := true))
    case WriterStep => WriterNext(capacity, s)
    case LoggerStep(locks, wakes) => LoggerNext(s, locks, wakes)
  }

  ghost predicate IsRun(capacity: nat, ss: seq<State>, es: seq<Event>)
    requires 1 <= capacity
  {
    && |ss| == |es| + 1
    && ss[0] == Init()
    && forall i :: 0 <= i < |es| ==> Step(capacity, ss[i], es[i]) == Some(ss[i + 1])
  }

  // ----- Without any assumption: bounds, ownership, accounting -----

  // Past its first drain step a buffer only the logger sees is being emptied.
  predicate Draining(pc: Pc) {
    pc.LUnlock? || pc.LDrain? || pc.LFinalDrainIn? || pc.LFinalUnlock? || pc.LFinalDrain?
  }

  predicate FlushLocked(pc: Pc) {
    pc.LFinalSwap? || pc.LFinalDrainIn? || pc.LFinalUnlock?
  }

  ghost predicate Sane(capacity: nat, s: State) {
    && |s.input| <= capacity && |s.secondary| <= capacity
    && MutexAgrees(s)
    && |s.file| + |s.secondary| + |s.input| + s.lost == s.written
  }

  predicate Swaps(pc: Pc) {
    pc.LSwap? || pc.LFinalSwap?
  }

  // This step moves a message from the secondary, or the input, ring to the file.
  predicate MovesSecondary(s: State) {
    (s.pc.LDrain? || s.pc.LFinalDrain?) && s.secondary != []
  }

  predicate MovesInput(s: State) {
    s.pc.LFinalDrainIn? && s.input != []
  }

  // All other steps of the logger leave the rings and the file alone.
  ghost predicate Frame(s: State, next: State) {
    if Swaps(s.pc) then next == Swapped(s).(pc := next.pc)
    else if MovesSecondary(s) then next == s.(secondary := s.secondary[1..], file := s.file + [s.secondary[0]])
    else if MovesInput(s) then next == s.(input := s.input[1..], file := s.file + [s.input[0]])
    else next == s.(pc := next.pc, mtx := next.mtx, released := next.released)
  }

  lemma LoopFrame(s: State, locks: bool, wakes: WaitResult)
    requires InLoop(s.pc) && LoopNext(s, locks, wakes).Some?
    ensures Frame(s, LoopNext(s, locks, wakes).value)
  {
  }

  lemma FlushFrame(s: State, locks: bool)
    requires !InLoop(s.pc) && FlushNext(s, locks).Some?
    ensures Frame(s, FlushNext(s, locks).value)
  {
  }

  lemma LoggerFrame(s: State, locks: bool, wakes: WaitResult, next: State)
    requires LoggerNext(s, locks, wakes) == Some(next)
    ensures Frame(s, next)
  {
    if InLoop(s.pc) { LoopFrame(s, locks, wakes); } else { FlushFrame(s, locks); }
  }

  ghost predicate MutexAgrees(s: State) {
    && (s.mtx.ByWriter? <==> !s.writer.Outside?)
    && (FlushLocked(s.pc) ==> s.mtx.ByLogger?)
    && (s.released ==> s.pc.LWaiting? && !s.mtx.ByLogger?)
  }

  lemma LoopKeepsMutex(s: State, locks: bool, wakes: WaitResult)
    requires MutexAgrees(s) && InLoop(s.pc) && LoopNext(s, locks, wakes).Some?
    ensures MutexAgrees(LoopNext(s, locks, wakes).value)
  {
  }

  lemma FlushKeepsMutex(s: State, locks: bool)
    requires MutexAgrees(s) && !InLoop(s.pc) && FlushNext(s, locks).Some?
    ensures MutexAgrees(FlushNext(s, locks).value)
  {
  }

  lemma WriterIsSane(capacity: nat, s: State)
    requires 1 <= capacity && Sane(capacity, s) && WriterNext(capacity, s).Some?
    ensures Sane(capacity, WriterNext(capacity, s).value)
  {
  }

  lemma StepIsSane(capacity: nat, s: State, e: Event, next: State)
    requires 1 <= capacity && Sane(capacity, s) && Step(capacity, s, e) == Some(next)
    ensures Sane(capacity, next)
  {
    if e.LoggerStep? {
      LoggerFrame(s, e.locks, e.wakes, next);
      if InLoop(s.pc) { LoopKeepsMutex(s, e.locks, e.wakes); } else { FlushKeepsMutex(s, e.locks); }
    } else if e.WriterStep? {
      WriterIsSane(capacity, s);
    }
  }

  lemma {:induction false} RunIsSane(capacity: nat, ss: seq<State>, es: seq<Event>, i: nat)
    requires 1 <= capacity && IsRun(capacity, ss, es) && i < |ss|
    ensures Sane(capacity, ss[i])
  {
    if i > 0 {
      RunIsSane(capacity, ss, es, i - 1);
      StepIsSane(capacity, ss[i - 1], es[i - 1], ss[i]);
    }
  }

  // ----- Order -----

  ghost predicate Rising(xs: seq<nat>) {
    forall i, j :: 0 <= i < j < |xs| ==> xs[i] < xs[j]
  }

  // From its swap to the end of its first drain, the final flush has the older messages in the input ring.
  predicate OlderInInput(pc: Pc) {
    pc.LFinalDrainIn? || pc.LFinalUnlock?
  }

  // Everything still known of what was written, in the order it reaches or will reach the file.
  function Line(s: State): seq<nat> {
    if OlderInInput(s.pc) then s.file + s.input + s.secondary else s.file + s.secondary + s.input
  }

  /** The steps that put messages out of order: the loop's swap of two rings that both hold messages,
      and a write through a pointer that a swap turned into the secondary ring's, while the input ring
      holds messages. */
  predicate Reorders(s: State, e: Event) {
    || (e.LoggerStep? && s.pc.LSwap? && s.secondary != [] && s.input != [])
    || (e.WriterStep? && s.writer.Loaded? && !s.writer.toInput && s.input != [])
  }

  ghost predicate InOrder(s: State) {
    Rising(Line(s))
  }

  ghost predicate Below(xs: seq<nat>, bound: nat) {
    forall i :: 0 <= i < |xs| ==> xs[i] < bound
  }

  // Messages are numbered in the order of writing, and the first drain of the final flush ends with
  // its ring empty.
  ghost predicate Numbered(s: State) {
    && Below(s.file, s.written) && Below(s.secondary, s.written) && Below(s.input, s.written)
    && (s.pc.LFinalUnlock? ==> s.input == [])
  }

  lemma FlushMoves(s: State, locks: bool, wakes: WaitResult, next: State)
    requires LoggerNext(s, locks, wakes) == Some(next)
    ensures OlderInInput(next.pc) <==> s.pc.LFinalSwap? || s.pc.LFinalDrainIn?
    ensures next.pc.LFinalUnlock? ==> s.pc.LFinalDrainIn? && s.input == []
  {
  }

  lemma LoggerKeepsNumbers(capacity: nat, s: State, locks: bool, wakes: WaitResult, next: State)
    requires 1 <= capacity && Sane(capacity, s) && Numbered(s) && LoggerNext(s, locks, wakes) == Some(next)
    ensures Numbered(next)
  {
    FlushMoves(s, locks, wakes, next);
    LoggerFrame(s, locks, wakes, next);
  }

  lemma PushIsBelow(ring: seq<nat>, capacity: nat, written: nat)
    requires 1 <= capacity && Below(ring, written)
    ensures Below(ring, written + 1) && Below(Push(ring, capacity, written), written + 1)
  {
  }

  lemma WriterKeepsNumbers(capacity: nat, s: State)
    requires 1 <= capacity && Sane(capacity, s) && Numbered(s) && WriterNext(capacity, s).Some?
    ensures Numbered(WriterNext(capacity, s).value)
  {
    if s.writer.Loaded? {
      PushIsBelow(s.input, capacity, s.written);
      PushIsBelow(s.secondary, capacity, s.written);
    }
  }

  lemma {:induction false} RunIsNumbered(capacity: nat, ss: seq<State>, es: seq<Event>, i: nat)
    requires 1 <= capacity && IsRun(capacity, ss, es) && i < |ss|
    ensures Numbered(ss[i])
  {
    if i > 0 {
      RunIsNumbered(capacity, ss, es, i - 1);
      RunIsSane(capacity, ss, es, i - 1);
      var s, e := ss[i - 1], es[i - 1];
      assert Step(capacity, s, e) == Some(ss[i]);
      match e
      case Kill =>
      case WriterStep => WriterKeepsNumbers(capacity, s);
      case LoggerStep(locks, wakes) => LoggerKeepsNumbers(capacity, s, locks, wakes, ss[i]);
    }
  }

  lemma RisingAppend(xs: seq<nat>, bound: nat)
    requires Rising(xs) && Below(xs, bound)
    ensures Rising(xs + [bound])
  {
  }

  lemma RisingWithout(a: seq<nat>, b: seq<nat>)
    requires b != [] && Rising(a + b)
    ensures Rising(a + b[1..])
  {
    var ab, c := a + b, a + b[1..];
    forall i, j | 0 <= i < j < |c| ensures c[i] < c[j] {
      var i', j' := if i < |a| then i else i + 1, if j < |a| then j else j + 1;
      assert c[i] == ab[i'] && c[j] == ab[j'];
    }
  }

  // A write to the end of the line extends it, or replaces the oldest message of a full ring.
  lemma PushKeepsRising(kept: seq<nat>, ring: seq<nat>, capacity: nat, written: nat)
    requires 1 <= capacity && |ring| <= capacity && Rising(kept + ring)
    requires Below(kept, written) && Below(ring, written)
    ensures Rising(kept + Push(ring, capacity, written))
  {
    if |ring| < capacity {
      RisingAppend(kept + ring, written);
      assert kept + Push(ring, capacity, written) == kept + ring + [written];
    } else {
      RisingWithout(kept, ring);
      RisingAppend(kept + ring[1..], written);
      assert kept + Push(ring, capacity, written) == kept + ring[1..] + [written];
    }
  }

  // Where x comes before y although y is not greater, the line does not rise.
  lemma NotRising(a: seq<nat>, b: seq<nat>, c: seq<nat>, i: nat, j: nat)
    requires i < |b| && j < |c| && b[i] >= c[j]
    ensures !Rising(a + b + c)
  {
    var line := a + b + c;
    assert line[|a| + i] == b[i] && line[|a| + |b| + j] == c[j];
  }

  // A swap of two rings that hold messages brings newer ones before older ones.
  lemma SwapBreaksRising(file: seq<nat>, older: seq<nat>, newer: seq<nat>)
    requires older != [] && newer != [] && Rising(file + older + newer)
    ensures !Rising(file + newer + older)
  {
    var line := file + older + newer;
    assert line[|file|] == older[0] && line[|file| + |older|] == newer[0];
    NotRising(file, newer, older, 0, 0);
  }

  lemma WriterInOrderIff(capacity: nat, s: State)
    requires 1 <= capacity && Sane(capacity, s) && Numbered(s) && InOrder(s) && WriterNext(capacity, s).Some?
    ensures InOrder(WriterNext(capacity, s).value) <==> !Reorders(s, WriterStep)
  {
    var next := WriterNext(capacity, s).value;
    if !s.writer.Loaded? {
      assert Line(next) == Line(s);
    } else if s.writer.toInput {
      PushKeepsRising(s.file + s.secondary, s.input, capacity, s.written);
    } else if s.input == [] {
      assert Line(s) == s.file + s.secondary;
      PushKeepsRising(s.file, s.secondary, capacity, s.written);
      assert Line(next) == s.file + Push(s.secondary, capacity, s.written);
    } else {
      var ring := Push(s.secondary, capacity, s.written);
      assert ring[|ring| - 1] == s.written;
      NotRising(s.file, ring, s.input, |ring| - 1, 0);
    }
  }

  // Moving the oldest message of a ring to the end of the file before it.
  lemma DrainKeepsLine(file: seq<nat>, ring: seq<nat>, rest: seq<nat>)
    requires ring != []
    ensures file + [ring[0]] + ring[1..] + rest == file + ring + rest
  {
    assert file + [ring[0]] + ring[1..] == file + ring;
  }

  lemma SwapKeepsLine(file: seq<nat>, a: seq<nat>, b: seq<nat>)
    requires a == [] || b == []
    ensures file + a + b == file + b + a
  {
  }

  lemma FrameKeepsLine(s: State, next: State)
    requires Numbered(s) && Frame(s, next) && (s.pc.LSwap? ==> s.secondary == [] || s.input == [])
    requires OlderInInput(next.pc) <==> s.pc.LFinalSwap? || s.pc.LFinalDrainIn?
    ensures Line(next) == Line(s)
  {
    if MovesSecondary(s) {
      DrainKeepsLine(s.file, s.secondary, s.input);
    } else if MovesInput(s) {
      DrainKeepsLine(s.file, s.input, s.secondary);
    } else if s.pc.LSwap? || s.pc.LFinalUnlock? {
      SwapKeepsLine(s.file, s.secondary, s.input);
    }
  }

  // But for a swap that reorders, the logger's own steps leave the line as it is.
  lemma LoggerKeepsLine(s: State, locks: bool, wakes: WaitResult, next: State)
    requires Numbered(s) && LoggerNext(s, locks, wakes) == Some(next) && !Reorders(s, LoggerStep(locks, wakes))
    ensures Line(next) == Line(s)
  {
    FlushMoves(s, locks, wakes, next);
    LoggerFrame(s, locks, wakes, next);
    FrameKeepsLine(s, next);
  }

  // A step out of an ordered state leads to an ordered state exactly when it is none of those two.
  lemma StepInOrderIff(capacity: nat, s: State, e: Event, next: State)
    requires 1 <= capacity && Sane(capacity, s) && Numbered(s) && InOrder(s) && Step(capacity, s, e) == Some(next)
    ensures InOrder(next) <==> !Reorders(s, e)
  {
    match e
    case Kill =>
    case WriterStep => WriterInOrderIff(capacity, s);
    case LoggerStep(locks, wakes) =>
      if Reorders(s, e) {
        SwapBreaksRising(s.file, s.secondary, s.input);
      } else {
        LoggerKeepsLine(s, locks, wakes, next);
      }
  }

  lemma OrderOneStep(capacity: nat, ss: seq<State>, es: seq<Event>, i: nat)
    requires 1 <= capacity && IsRun(capacity, ss, es) && i < |es| && InOrder(ss[i])
    ensures InOrder(ss[i + 1]) <==> !Reorders(ss[i], es[i])
  {
    RunIsSane(capacity, ss, es, i);
    RunIsNumbered(capacity, ss, es, i);
    StepInOrderIff(capacity, ss[i], es[i], ss[i + 1]);
  }

  ghost predicate InOrderUpTo(ss: seq<State>, n: nat) {
    n < |ss| && forall i :: 0 <= i <= n ==> InOrder(ss[i])
  }

  ghost predicate NoneReorders(ss: seq<State>, es: seq<Event>, n: nat) {
    n <= |es| < |ss| && forall i :: 0 <= i < n ==> !Reorders(ss[i], es[i])
  }

  // If single steps keep order exactly when they do not reorder, so do all of them together.
  lemma {:induction false} StepwiseInOrder(ss: seq<State>, es: seq<Event>, n: nat)
    requires n <= |es| < |ss| && InOrder(ss[0])
    requires forall i :: 0 <= i < n && InOrder(ss[i]) ==> (InOrder(ss[i + 1]) <==> !Reorders(ss[i], es[i]))
    ensures InOrderUpTo(ss, n) <==> NoneReorders(ss, es, n)
  {
    if n > 0 {
      StepwiseInOrder(ss, es, n - 1);
      assert InOrder(ss[n - 1]) ==> (InOrder(ss[n]) <==> !Reorders(ss[n - 1], es[n - 1]));
      assert InOrderUpTo(ss, n) <==> InOrderUpTo(ss, n - 1) && InOrder(ss[n]);
      assert NoneReorders(ss, es, n) <==> NoneReorders(ss, es, n - 1) && !Reorders(ss[n - 1], es[n - 1]);
    }
  }

  /** The log is in order up to some point of a run exactly when none of the steps before it is one of
      the two that reorder, whatever else happens, the final flush with its reversed swap included. */
  lemma LogInOrderIff(capacity: nat, ss: seq<State>, es: seq<Event>, n: nat)
    requires 1 <= capacity && IsRun(capacity, ss, es) && n < |ss|
    ensures InOrderUpTo(ss, n) <==> NoneReorders(ss, es, n)
  {
    forall i | 0 <= i < n && InOrder(ss[i])
      ensures InOrder(ss[i + 1]) <==> !Reorders(ss[i], es[i])
    {
      OrderOneStep(capacity, ss, es, i);
    }
    StepwiseInOrder(ss, es, n);
  }

  // A swap while a thread inside Log has loaded g_inBuf but not written yet.
  predicate RacySwap(s: State, e: Event) {
    e.LoggerStep? && s.pc.LSwap? && s.writer.Loaded?
  }

  ghost predicate NoRacySwap(ss: seq<State>, es: seq<Event>) {
    |ss| == |es| + 1 && forall i {:trigger RacySwap(ss[i], es[i])} :: 0 <= i < |es| ==> !RacySwap(ss[i], es[i])
  }

  // The secondary ring is empty whenever a swap comes, and a thread inside Log never targets it.
  ghost predicate Tidy(s: State) {
    && (!Draining(s.pc) ==> s.secondary == [])
    && (OlderInInput(s.pc) ==> s.input == [])
    && (s.writer.Loaded? ==> s.writer.toInput)
  }

  lemma StepIsTidy(capacity: nat, s: State, e: Event, next: State)
    requires 1 <= capacity && Sane(capacity, s) && Tidy(s) && !RacySwap(s, e) && Step(capacity, s, e) == Some(next)
    ensures Tidy(next)
  {
    if e.LoggerStep? {
      LoggerFrame(s, e.locks, e.wakes, next);
    }
  }

  lemma {:induction false} RunIsTidy(capacity: nat, ss: seq<State>, es: seq<Event>, i: nat)
    requires 1 <= capacity && IsRun(capacity, ss, es) && NoRacySwap(ss, es) && i < |ss|
    ensures Tidy(ss[i])
  {
    if i > 0 {
      RunIsTidy(capacity, ss, es, i - 1);
      RunIsSane(capacity, ss, es, i - 1);
      StepIsTidy(capacity, ss[i - 1], es[i - 1], ss[i]);
    }
  }

  /** In every run in which no swap is racy the log keeps the order of writing, and the secondary ring
      is empty at every swap. */
  lemma LogKeepsOrder(capacity: nat, ss: seq<State>, es: seq<Event>, i: nat)
    requires 1 <= capacity && IsRun(capacity, ss, es) && NoRacySwap(ss, es) && i < |ss|
    ensures InOrder(ss[i]) && Tidy(ss[i]) && Sane(capacity, ss[i])
  {
    RunIsSane(capacity, ss, es, i);
    RunIsTidy(capacity, ss, es, i);
    forall j | 0 <= j < i ensures !Reorders(ss[j], es[j]) {
      RunIsTidy(capacity, ss, es, j);
    }
    LogInOrderIff(capacity, ss, es, i);
  }

  lemma HeldSwapIsNotRacy(capacity: nat, s: State, e: Event)
    requires Sane(capacity, s) && s.mtx.ByLogger?
    ensures !RacySwap(s, e)
  {
  }

  // So every run is in order in which the logger holds the mutex whenever it swaps in its loop.
  lemma HeldSwapsKeepOrder(capacity: nat, ss: seq<State>, es: seq<Event>, i: nat)
    requires 1 <= capacity && IsRun(capacity, ss, es) && i < |ss|
    requires forall j :: 0 <= j < |es| && es[j].LoggerStep? && ss[j].pc.LSwap? ==> ss[j].mtx.ByLogger?
    ensures InOrder(ss[i]) && Tidy(ss[i])
  {
    forall j | 0 <= j < |es| ensures !RacySwap(ss[j], es[j]) {
      RunIsSane(capacity, ss, es, j);
      if RacySwap(ss[j], es[j]) {
        HeldSwapIsNotRacy(capacity, ss[j], es[j]);
      }
    }
    LogKeepsOrder(capacity, ss, es, i);
  }

  // In any run a message is lost exactly by a write to a full ring; without racy swaps that ring is
  // the input ring.
  lemma LossesAreOverwrites(capacity: nat, ss: seq<State>, es: seq<Event>, i: nat)
    requires 1 <= capacity && IsRun(capacity, ss, es) && i < |es|
    ensures ss[i + 1].lost != ss[i].lost
       <==> es[i].WriterStep? && ss[i].writer.Loaded? && |if ss[i].writer.toInput then ss[i].input else ss[i].secondary| == capacity
    ensures NoRacySwap(ss, es) && ss[i].writer.Loaded? ==> ss[i].writer.toInput
  {
    RunIsSane(capacity, ss, es, i);
    assert Step(capacity, ss[i], es[i]) == Some(ss[i + 1]);
    if NoRacySwap(ss, es) {
      RunIsTidy(capacity, ss, es, i);
    }
  }

  // ----- The final flush -----

  // What the flush that has begun will have written when it ends.
  function FlushTarget(s: State): seq<nat> {
    match s.pc
    case LFinalSwap => s.file + s.secondary + s.input
    case LFinalDrainIn => s.file + s.input + s.secondary
    case LFinalUnlock => s.file + s.secondary
    case LFinalDrain => s.file + s.secondary
    case _ => s.file
  }

  predicate Flushing(pc: Pc) {
    FlushLocked(pc) || pc.LFinalDrain? || pc.LDone?
  }

  ghost predicate WritesToInput(s: State) {
    s.writer.Loaded? ==> s.writer.toInput
  }

  lemma FlushStep(s: State, locks: bool, next: State)
    requires Flushing(s.pc) && FlushNext(s, locks) == Some(next) && WritesToInput(s)
    requires FlushLocked(s.pc) ==> s.writer.Outside?
    ensures Flushing(next.pc) && WritesToInput(next) && FlushTarget(next) == FlushTarget(s)
  {
    FlushFrame(s, locks);
    if MovesSecondary(s) {
      assert s.file + s.secondary == s.file + [s.secondary[0]] + s.secondary[1..];
    } else if MovesInput(s) {
      assert s.file + s.input == s.file + [s.input[0]] + s.input[1..];
    } else {
      assert s.file + [] == s.file;
    }
  }

  lemma OthersKeepFlush(capacity: nat, s: State, e: Event, next: State)
    requires 1 <= capacity && Sane(capacity, s) && !e.LoggerStep? && Step(capacity, s, e) == Some(next)
    requires Flushing(s.pc) && WritesToInput(s)
    ensures next.pc == s.pc && WritesToInput(next) && FlushTarget(next) == FlushTarget(s)
  {
  }

  // A flush that got the mutex writes everything buffered at that moment, secondary buffer first,
  // whatever other threads log meanwhile.
  lemma {:induction false} FlushIsComplete(capacity: nat, ss: seq<State>, es: seq<Event>, k: nat, i: nat)
    requires 1 <= capacity && IsRun(capacity, ss, es) && k <= i < |ss| && ss[k].pc.LFinalSwap?
    ensures Flushing(ss[i].pc) && WritesToInput(ss[i]) && FlushTarget(ss[i]) == FlushTarget(ss[k])
    ensures ss[i].pc.LDone? ==> ss[i].file == ss[k].file + ss[k].secondary + ss[k].input
  {
    RunIsSane(capacity, ss, es, k);
    if k < i {
      FlushIsComplete(capacity, ss, es, k, i - 1);
      RunIsSane(capacity, ss, es, i - 1);
      var e := es[i - 1];
      assert Step(capacity, ss[i - 1], e) == Some(ss[i]);
      if e.LoggerStep? {
        FlushStep(ss[i - 1], e.locks, ss[i]);
      } else {
        OthersKeepFlush(capacity, ss[i - 1], e, ss[i]);
      }
    }
  }

  // ----- How the logger ends -----

  // The loop is left with the mutex exactly by a loop test made with the mutex.
  lemma LeavesHoldingIff(s: State, locks: bool, wakes: WaitResult, next: State)
    requires InLoop(s.pc) && !InLoop(next.pc) && LoopNext(s, locks, wakes) == Some(next)
    ensures next.mtx.ByLogger? <==> s.pc.LTest? && s.mtx.ByLogger?
    ensures next.pc.LFinalLock?
    ensures next.file == s.file && next.input == s.input && next.secondary == s.secondary
  {
  }

  // Once out of the loop: still holding the mutex, with nothing moved since; or without it, but for
  // the flush.
  ghost predicate Stuck(s: State, left: State) {
    && (s.pc.LFinalLock? || s.pc.LDone?) && s.mtx.ByLogger?
    && s.file == left.file && s.input == left.input && s.secondary == left.secondary
  }

  predicate LetsGo(s: State) {
    !InLoop(s.pc) && (s.mtx.ByLogger? <==> FlushLocked(s.pc))
  }

  lemma OutsideLoopStep(capacity: nat, s: State, e: Event, next: State, left: State)
    requires 1 <= capacity && Sane(capacity, s) && Step(capacity, s, e) == Some(next)
    ensures Stuck(s, left) ==> Stuck(next, left)
    ensures LetsGo(s) ==> LetsGo(next)
  {
  }

  lemma {:induction false} OutsideLoop(capacity: nat, ss: seq<State>, es: seq<Event>, k: nat, i: nat)
    requires 1 <= capacity && IsRun(capacity, ss, es) && k <= i < |ss| && ss[k].pc.LFinalLock?
    ensures if ss[k].mtx.ByLogger? then Stuck(ss[i], ss[k]) else LetsGo(ss[i])
  {
    if k < i {
      OutsideLoop(capacity, ss, es, k, i - 1);
      RunIsSane(capacity, ss, es, i - 1);
      OutsideLoopStep(capacity, ss[i - 1], es[i - 1], ss[i], ss[k]);
    }
  }

  /** In every run the logger ends holding the mutex exactly when the test that ended its loop was made
      with the mutex; and then nothing that was buffered at that test ever reaches the file. */
  lemma EndsHoldingMutexIff(capacity: nat, ss: seq<State>, es: seq<Event>, k: nat, i: nat)
    requires 1 <= capacity && IsRun(capacity, ss, es) && k < i < |ss|
    requires InLoop(ss[k].pc) && !InLoop(ss[k + 1].pc) && ss[i].pc.LDone?
    ensures ss[i].mtx.ByLogger? <==> ss[k].pc.LTest? && ss[k].mtx.ByLogger?
    ensures ss[i].mtx.ByLogger? ==>
              ss[i].file == ss[k].file && ss[i].input == ss[k].input && ss[i].secondary == ss[k].secondary
  {
    var e := es[k];
    assert Step(capacity, ss[k], e) == Some(ss[k + 1]);
    assert e.LoggerStep?;
    LeavesHoldingIff(ss[k], e.locks, e.wakes, ss[k + 1]);
    OutsideLoop(capacity, ss, es, k + 1, i);
  }

  lemma {:induction false} DoneStaysDone(capacity: nat, ss: seq<State>, es: seq<Event>, k: nat, i: nat)
    requires 1 <= capacity && IsRun(capacity, ss, es) && k <= i < |ss| && ss[k].pc.LDone?
    ensures ss[i].pc.LDone? && ss[i].file == ss[k].file
  {
    if k < i {
      DoneStaysDone(capacity, ss, es, k, i - 1);
      assert Step(capacity, ss[i - 1], es[i - 1]) == Some(ss[i]);
    }
  }

  lemma LongerFile(file: seq<nat>, secondary: seq<nat>, input: seq<nat>)
    ensures file == file + secondary + input <==> secondary == [] && input == []
  {
    assert |file + secondary + input| == |file| + |secondary| + |input|;
  }

  /** Everything buffered when the final lock is tried reaches the file, in order, exactly when the lock
      is got or nothing is buffered. */
  lemma ExitWritesAllIff(capacity: nat, ss: seq<State>, es: seq<Event>, k: nat, i: nat)
    requires 1 <= capacity && IsRun(capacity, ss, es) && k < i < |ss|
    requires ss[k].pc.LFinalLock? && es[k].LoggerStep? && ss[i].pc.LDone?
    ensures ss[i].file == ss[k].file + ss[k].secondary + ss[k].input
       <==> es[k].locks || (ss[k].secondary == [] && ss[k].input == [])
    ensures es[k].locks ==> ss[k].mtx.Free?
  {
    assert Step(capacity, ss[k], es[k]) == Some(ss[k + 1]);
    if es[k].locks {
      FlushIsComplete(capacity, ss, es, k + 1, i);
    } else {
      DoneStaysDone(capacity, ss, es, k + 1, i);
      LongerFile(ss[k].file, ss[k].secondary, ss[k].input);
    }
  }

  // ----- Termination -----

  function Rank(pc: Pc): nat {
    match pc
    case LWaiting => 9
    case LLock => 9
    case LSwap => 9
    case LEmpty => 8
    case LUnlock => 8
    case LKill => 7
    case LDrain => 7
    case LExit => 6
    case LTest => 6
    case LFinalLock => 5
    case LFinalSwap => 4
    case LFinalDrainIn => 3
    case LFinalUnlock => 2
    case LFinalDrain => 1
    case LDone => 0
  }

  // The messages the current drain still has to move.
  function ToDrain(s: State): nat {
    match s.pc
    case LDrain => |s.secondary|
    case LFinalDrainIn => |s.input|
    case LFinalDrain => |s.secondary|
    case _ => 0
  }

  // A write still to come to the ring a racy swap made the secondary one.
  function Pending(s: State): nat {
    if s.writer.Loaded? && !s.writer.toInput then 1 else 0
  }

  // Rank first, messages left and about to come second.
  function StepsLeft(capacity: nat, s: State): nat {
    Rank(s.pc) * (capacity + 1) + ToDrain(s) + Pending(s)
  }

  lemma LowerRank(capacity: nat, rank: nat, lower: nat, toDrain: nat)
    requires lower < rank && toDrain <= capacity
    ensures lower * (capacity + 1) + toDrain < rank * (capacity + 1)
  {
    assert (lower + 1) * (capacity + 1) <= rank * (capacity + 1);
  }

  // With the kill switch set every step of the logger either lowers the rank or drains a message.
  lemma LoopStepAfterKill(s: State, locks: bool, wakes: WaitResult)
    requires s.kill && InLoop(s.pc) && LoopNext(s, locks, wakes).Some?
    ensures var next := LoopNext(s, locks, wakes).value;
            next.kill && (Rank(next.pc) < Rank(s.pc) || (next.pc == s.pc && ToDrain(next) == ToDrain(s) - 1))
  {
  }

  lemma FlushStepAfterKill(s: State, locks: bool)
    requires s.kill && !InLoop(s.pc) && FlushNext(s, locks).Some?
    ensures var next := FlushNext(s, locks).value;
            next.kill && (Rank(next.pc) < Rank(s.pc) || (next.pc == s.pc && ToDrain(next) == ToDrain(s) - 1))
  {
  }

  lemma PendingAfterStep(capacity: nat, s: State, locks: bool, wakes: WaitResult, next: State)
    requires Sane(capacity, s) && LoggerNext(s, locks, wakes) == Some(next)
    ensures if s.pc.LSwap? then ToDrain(next) == 0 && next.pc.LUnlock? else Pending(next) == Pending(s)
  {
    LoggerFrame(s, locks, wakes, next);
  }

  lemma LoggerStepAfterKill(capacity: nat, s: State, locks: bool, wakes: WaitResult, next: State)
    requires 1 <= capacity && Sane(capacity, s) && Sane(capacity, next)
    requires s.kill && LoggerNext(s, locks, wakes) == Some(next)
    ensures next.kill && StepsLeft(capacity, next) < StepsLeft(capacity, s)
  {
    if InLoop(s.pc) {
      LoopStepAfterKill(s, locks, wakes);
    } else {
      FlushStepAfterKill(s, locks);
    }
    PendingAfterStep(capacity, s, locks, wakes, next);
    if s.pc.LSwap? {
      LowerRank(capacity, 9, 8, Pending(next));
    } else if Rank(next.pc) < Rank(s.pc) {
      LowerRank(capacity, Rank(s.pc), Rank(next.pc), ToDrain(next));
    }
  }

  // Nobody else makes the drain longer than was foreseen.
  lemma OthersAfterKill(capacity: nat, s: State, e: Event, next: State)
    requires 1 <= capacity && Sane(capacity, s) && s.kill && !e.LoggerStep? && Step(capacity, s, e) == Some(next)
    ensures next.kill && next.pc == s.pc && ToDrain(next) + Pending(next) <= ToDrain(s) + Pending(s)
  {
  }

  function OwnSteps(es: seq<Event>): nat {
    if es == [] then 0 else OwnSteps(es[..|es| - 1]) + if es[|es| - 1].LoggerStep? then 1 else 0
  }

  lemma OwnStepsNext(es: seq<Event>, k: nat, i: nat)
    requires k < i <= |es|
    ensures OwnSteps(es[k..i]) == OwnSteps(es[k..i - 1]) + if es[i - 1].LoggerStep? then 1 else 0
  {
    assert es[k..i][..i - 1 - k] == es[k..i - 1];
  }

  // After the kill switch is set the logger ends within a bound on its own steps, in every run.
  lemma {:induction false} LoggerStopsAfterKill(capacity: nat, ss: seq<State>, es: seq<Event>, k: nat, i: nat)
    requires 1 <= capacity && IsRun(capacity, ss, es) && k <= i < |ss| && ss[k].kill
    ensures ss[i].kill
    ensures OwnSteps(es[k..i]) + StepsLeft(capacity, ss[i]) <= StepsLeft(capacity, ss[k])
  {
    if k < i {
      LoggerStopsAfterKill(capacity, ss, es, k, i - 1);
      RunIsSane(capacity, ss, es, i - 1);
      RunIsSane(capacity, ss, es, i);
      OwnStepsNext(es, k, i);
      var s, e, next := ss[i - 1], es[i - 1], ss[i];
      assert Step(capacity, s, e) == Some(next);
      if e.LoggerStep? {
        LoggerStepAfterKill(capacity, s, e.locks, e.wakes, next);
      } else {
        OthersAfterKill(capacity, s, e, next);
      }
    }
  }

  // Until it is done the logger can step, unless its wait needs the mutex a thread inside Log holds;
  // that thread can step then.
  lemma LoggerIsNeverStuck(capacity: nat, s: State)
    requires 1 <= capacity && Sane(capacity, s) && !s.pc.LDone?
    ensures LoggerNext(s, false, TimedOut).Some? || (s.pc.LWaiting? && s.mtx.ByWriter? && WriterNext(capacity, s).Some?)
  {
  }
}
