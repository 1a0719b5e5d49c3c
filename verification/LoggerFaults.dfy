/** Two interleavings the logger's inverted lock test allows: a swap made without the mutex that puts
    messages out of order, and an exit that keeps the mutex and so skips the final flush. */
module LoggerFaults {
  import opened DropOldest
  import opened LoggerThreads

  ghost predicate Reachable(capacity: nat, s: State)
    requires 1 <= capacity
  {
    exists ss, es :: IsRun(capacity, ss, es) && ss[|es|] == s
  }

  lemma StartIsReachable(capacity: nat)
    requires 1 <= capacity
    ensures Reachable(capacity, Init())
  {
    assert IsRun(capacity, [Init()], []);
  }

  lemma Extend(capacity: nat, s: State, e: Event, next: State)
    requires 1 <= capacity && Reachable(capacity, s) && Step(capacity, s, e) == Some(next)
    ensures Reachable(capacity, next)
  {
    var ss, es :| IsRun(capacity, ss, es) && ss[|es|] == s;
    var ss', es' := ss + [next], es + [e];
    forall i | 0 <= i < |es'| ensures Step(capacity, ss'[i], es'[i]) == Some(ss'[i + 1]) {
      if i < |es| {
        assert Step(capacity, ss[i], es[i]) == Some(ss[i + 1]);
      }
    }
    assert IsRun(capacity, ss', es');
  }

  const LOCK_FAILS := LoggerStep(false, TimedOut)
  const LOCK_WORKS := LoggerStep(true, TimedOut)

  // A whole call of Log that nobody interferes with.
  function Logged(s: State): State {
    s.(input := s.input + [s.written], written := s.written + 1)
  }

  lemma LogCall(capacity: nat, s: State)
    requires 1 <= capacity && Reachable(capacity, s) && s.mtx.Free? && s.writer.Outside? && |s.input| < capacity
    ensures Reachable(capacity, Logged(s))
  {
    var locked := s.(mtx := ByWriter, writer := Locked);
    Extend(capacity, s, WriterStep, locked);
    Extend(capacity, locked, WriterStep, locked.(writer := Loaded(true)));
    Extend(capacity, locked.(writer := Loaded(true)), WriterStep, Logged(locked).(writer := Written));
    Extend(capacity, Logged(locked).(writer := Written), WriterStep, Logged(s));
  }

  // One turn through the swap section after the lock attempt failed, with one message to move.
  function Turned(s: State): State
    requires |s.input| == 1
  {
    Unlocked(s).(pc := LTest, input := [], file := s.file + s.input,
                 writer := if s.writer.Loaded? then Loaded(!s.writer.toInput) else s.writer)
  }

  lemma ReachSwap(capacity: nat, s: State)
    requires 1 <= capacity && Reachable(capacity, s) && s.pc.LTest? && !s.kill && s.input != []
    ensures Reachable(capacity, s.(pc := LSwap))
  {
    Extend(capacity, s, LOCK_FAILS, s.(pc := LLock));
    Extend(capacity, s.(pc := LLock), LOCK_FAILS, s.(pc := LEmpty));
    Extend(capacity, s.(pc := LEmpty), LOCK_FAILS, s.(pc := LKill));
    Extend(capacity, s.(pc := LKill), LOCK_FAILS, s.(pc := LSwap));
  }

  lemma SwapTurn(capacity: nat, s: State)
    requires 1 <= capacity && Reachable(capacity, s) && s.pc.LTest? && !s.kill && |s.input| == 1 && s.secondary == []
    ensures Reachable(capacity, Turned(s))
  {
    ReachSwap(capacity, s);
    var swapped := Swapped(s).(pc := LUnlock);
    Extend(capacity, s.(pc := LSwap), LOCK_FAILS, swapped);
    Extend(capacity, swapped, LOCK_FAILS, Unlocked(swapped).(pc := LDrain));
    assert s.input == [s.input[0]] && s.input[1..] == [];
    var drained := Unlocked(swapped).(pc := LDrain, secondary := [], file := s.file + s.input);
    Extend(capacity, Unlocked(swapped).(pc := LDrain), LOCK_FAILS, drained);
    Extend(capacity, drained, LOCK_FAILS, Turned(s));
  }

  /** A lock attempt that fails because a thread inside Log holds the mutex lets the swap happen under
      that thread's feet: its message lands in the buffer already drained, and the next two come out
      in the wrong order. */
  lemma UnheldSwapReorders(capacity: nat) returns (s: State)
    requires 1 <= capacity
    ensures Reachable(capacity, s) && s.file == [0, 2] && s.input == [1] && !InOrder(s)
  {
    StartIsReachable(capacity);
    LogCall(capacity, Init());
    var one := Logged(Init());
    var locked := one.(mtx := ByWriter, writer := Locked);
    Extend(capacity, one, WriterStep, locked);
    var loaded := locked.(writer := Loaded(true));
    Extend(capacity, locked, WriterStep, loaded);
    SwapTurn(capacity, loaded);
    var late := Turned(loaded);
    assert Push(late.secondary, capacity, 1) == [1];
    var written := late.(secondary := [1], writer := Written, written := 2);
    Extend(capacity, late, WriterStep, written);
    var free := written.(mtx := Free, writer := Outside);
    Extend(capacity, written, WriterStep, free);
    LogCall(capacity, free);
    s := ReverseTurn(capacity, Logged(free));
    assert Line(s)[1] == 2 && Line(s)[2] == 1;
  }

  // The next swap, made with the mutex held, finds the late message in the secondary buffer.
  lemma ReverseTurn(capacity: nat, s: State) returns (next: State)
    requires 1 <= capacity && Reachable(capacity, s) && s.pc.LTest? && !s.kill && s.mtx.Free? && s.writer.Outside?
    requires s.input == [2] && s.secondary == [1] && s.file == [0]
    ensures Reachable(capacity, next) && next.file == [0, 2] && next.input == [1] && next.secondary == []
  {
    Extend(capacity, s, LOCK_WORKS, s.(pc := LLock));
    var held := s.(mtx := ByLogger);
    Extend(capacity, s.(pc := LLock), LOCK_WORKS, held);
    ReachSwap(capacity, held);
    var swapped := held.(pc := LUnlock, input := [1], secondary := [2]);
    Extend(capacity, held.(pc := LSwap), LOCK_FAILS, swapped);
    Extend(capacity, swapped, LOCK_FAILS, swapped.(mtx := Free, pc := LDrain));
    assert swapped.file + [2] == [0, 2] && swapped.secondary[1..] == [];
    next := swapped.(mtx := Free, pc := LDrain, secondary := [], file := [0, 2]);
    Extend(capacity, swapped.(mtx := Free, pc := LDrain), LOCK_FAILS, next);
  }

  // The first n messages, logged before the logger's first turn.
  lemma {:induction false} LogCalls(capacity: nat, n: nat) returns (s: State)
    requires 1 <= capacity && n <= capacity
    ensures Reachable(capacity, s) && s == Init().(input := s.input, written := s.written) && |s.input| == n
  {
    if n == 0 {
      StartIsReachable(capacity);
      s := Init();
    } else {
      var before := LogCalls(capacity, n - 1);
      LogCall(capacity, before);
      s := Logged(before);
    }
  }

  /** The logger can end holding the mutex, with any number of messages, up to a full ring, that never
      reach the file: the kill switch is set right after a lock attempt that succeeded. */
  lemma ExitMayKeepMutex(capacity: nat, n: nat) returns (s: State)
    requires 1 <= capacity && n <= capacity
    ensures Reachable(capacity, s) && s.pc.LDone? && s.mtx.ByLogger? && |s.input| == n && s.file == []
  {
    s := LogCalls(capacity, n);
    Extend(capacity, s, LOCK_WORKS, s.(pc := LLock));
    Extend(capacity, s.(pc := LLock), LOCK_WORKS, s.(mtx := ByLogger));
    var killed := s.(mtx := ByLogger, kill := true);
    Extend(capacity, s.(mtx := ByLogger), Kill, killed);
    Extend(capacity, killed, LOCK_FAILS, killed.(pc := LFinalLock));
    s := killed.(pc := LDone);
    Extend(capacity, killed.(pc := LFinalLock), LOCK_FAILS, s);
  }
}
