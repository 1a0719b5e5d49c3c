/** src/threads/watchdog.c: the module state with its operations in place, and the watchdog thread
    with its reporters as a timed state machine over the same operations. */
module Watchdogs {
  import opened Timespecs
  import opened Words
  import opened DropOldest

  const TID_WATCHDOG: nat := 4
  const TID_COUNT: nat := 5
  const ALLOWED_UNRESPONSIVE_MS: int := 2000
  const ALLOWED_NS: int := 2_000_000_000

  function AllowedTime(): (r: Timespec)
    ensures r == Timespec(2, 0) && Ns(r) == ALLOWED_NS
  {
    MsToTimespec(ALLOWED_UNRESPONSIVE_MS)
  }

  // ----- The oldest stamp -----

  // Earlier in seconds, or in the same second and earlier in nanoseconds.
  predicate Before(a: Timespec, b: Timespec) {
    a.sec < b.sec || (a.sec == b.sec && a.nsec < b.nsec)
  }

  // The index the search loop ends with, scanning left to right.
  function LowestIndex(s: seq<Timespec>): (r: nat)
    ensures s != [] ==> r < |s|
    ensures s == [] ==> r == 0
  {
    if |s| <= 1 then 0
    else
      var r := LowestIndex(s[..|s| - 1]);
      if Compare(s[|s| - 1], s[r]) < 0 then |s| - 1 else r
  }

  // It is the last of the minimal elements, whatever the times are.
  lemma {:induction false} LowestIndexIsLastMinimum(s: seq<Timespec>)
    requires s != []
    ensures forall i :: 0 <= i < |s| ==> !Before(s[i], s[LowestIndex(s)])
    ensures forall i :: LowestIndex(s) < i < |s| ==> Before(s[LowestIndex(s)], s[i])
  {
    if |s| > 1 {
      var front := s[..|s| - 1];
      LowestIndexIsLastMinimum(front);
      assert forall i :: 0 <= i < |front| ==> front[i] == s[i];
    }
  }

  // No stamp is earlier, and every one at a lower index is later: the documented choice.
  ghost predicate IsFirstMinimum(s: seq<Timespec>, m: nat) {
    && m < |s|
    && (forall i :: 0 <= i < |s| ==> !Before(s[i], s[m]))
    && (forall i :: 0 <= i < m ==> Before(s[m], s[i]))
  }

  // One stamp is earlier than all others.
  ghost predicate HasUniqueMinimum(s: seq<Timespec>) {
    exists m: nat :: m < |s| && forall i :: 0 <= i < |s| && i != m ==> Before(s[m], s[i])
  }

  // The documented choice, the lowest index among equals, is made exactly when the minimum is unique.
  lemma LowestIndexIsFirstMinimumIff(s: seq<Timespec>)
    requires s != []
    ensures IsFirstMinimum(s, LowestIndex(s)) <==> HasUniqueMinimum(s)
  {
    LowestIndexIsLastMinimum(s);
    var r := LowestIndex(s);
    if IsFirstMinimum(s, r) {
      assert forall i :: 0 <= i < |s| && i != r ==> Before(s[r], s[i]);
    }
  }

  // It is not made for two equal stamps, of which it names the second.
  lemma EqualStampsPickTheSecond(t: Timespec)
    ensures LowestIndex([t, t]) == 1 && !IsFirstMinimum([t, t], 1) && IsFirstMinimum([t, t], 0)
  {
    assert [t, t][..1] == [t];
  }

  // On canonical stamps the order is the order of nanoseconds.
  lemma OldestStamp(s: seq<Timespec>)
    requires s != [] && forall i :: 0 <= i < |s| ==> Canonical(s[i])
    ensures forall i :: 0 <= i < |s| ==> Ns(s[LowestIndex(s)]) <= Ns(s[i])
  {
    LowestIndexIsLastMinimum(s);
    forall i | 0 <= i < |s| ensures Ns(s[LowestIndex(s)]) <= Ns(s[i]) {
      assert !Before(s[i], s[LowestIndex(s)]);
    }
  }

  method FindLowestTimespecIndex(stamps: array<Timespec>) returns (iiOldest: nat)
    ensures iiOldest == LowestIndex(stamps[..])
  {
    iiOldest := 0;
    var ii := 0;
    while ii < stamps.Length
      invariant 0 <= ii <= stamps.Length
      invariant iiOldest == LowestIndex(stamps[..ii])
    {
      assert stamps[..ii + 1][..ii] == stamps[..ii];
      if Compare(stamps[ii], stamps[iiOldest]) < 0 {
        iiOldest := ii;
      }
      ii := ii + 1;
    }
    assert stamps[..ii] == stamps[..];
  }

  // ----- One check -----

  // The stamps a check judges: its own first set to now, so it never finds itself late.
  function Judged(stamps: seq<Timespec>, now: Timespec): (r: seq<Timespec>)
    requires |stamps| == TID_COUNT
    ensures |r| == TID_COUNT
  {
    stamps[TID_WATCHDOG := now]
  }

  // The guard before the kill switch is read again.
  predicate FindsUnresponsive(stamps: seq<Timespec>, now: Timespec)
    requires |stamps| == TID_COUNT
  {
    var judged := Judged(stamps, now);
    Compare(Difference(now, judged[LowestIndex(judged)]), AllowedTime()) > 0
  }

  ghost predicate AllCanonical(stamps: seq<Timespec>) {
    |stamps| == TID_COUNT && forall t :: 0 <= t < TID_COUNT ==> Canonical(stamps[t])
  }

  // A thread other than the watchdog whose stamp is more than two seconds before now.
  ghost predicate Late(stamps: seq<Timespec>, now: Timespec, tid: nat)
    requires |stamps| == TID_COUNT
  {
    tid < TID_WATCHDOG && Ns(now) - Ns(stamps[tid]) > ALLOWED_NS
  }

  // The guard holds exactly when some thread is late, to the nanosecond; and whatever the clock did,
  // the subtraction is never of a later time from an earlier one.
  lemma CheckIsExact(stamps: seq<Timespec>, now: Timespec)
    requires AllCanonical(stamps) && Canonical(now)
    ensures FindsUnresponsive(stamps, now) <==> exists tid: nat :: Late(stamps, now, tid)
    ensures var judged := Judged(stamps, now); Ns(judged[LowestIndex(judged)]) <= Ns(now)
  {
    var judged := Judged(stamps, now);
    var oldest := LowestIndex(judged);
    OldestStamp(judged);
    assert judged[TID_WATCHDOG] == now;
    GuardIsExact(now, judged[oldest], AllowedTime());
    if FindsUnresponsive(stamps, now) {
      assert Late(stamps, now, oldest);
    }
    if tid: nat :| Late(stamps, now, tid) {
      assert Ns(judged[oldest]) <= Ns(judged[tid]);
    }
  }

  // ----- The module state, updated in place -----

  class Watchdog {
    const stamps: array<Timespec>
    var timeoutPoint: Timespec

    ghost predicate Valid()
      reads this
    {
      stamps.Length == TID_COUNT
    }

    constructor ()
      ensures Valid() && fresh(stamps)
      ensures stamps[..] == seq(TID_COUNT, _ => Timespec(0, 0))
    {
      stamps := new Timespec[TID_COUNT](_ => Timespec(0, 0));
      timeoutPoint := Timespec(0, 0);
    }

    // Watchdog_reportActive once the mutex is locked.
    method ReportActive(tid: nat, now: Timespec)
      requires Valid() && tid < TID_COUNT
      modifies stamps
      ensures stamps[..] == old(stamps[..])[tid := now]
    {
      stamps[tid] := now;
    }

    // WatchdogThread up to its loop.
    method Start(now: Timespec)
      requires Valid()
      modifies this, stamps
      ensures Valid() && stamps[..] == seq(TID_COUNT, _ => now)
      ensures timeoutPoint == Add(now, AllowedTime())
    {
      timeoutPoint := now;
      var ii := 0;
      while ii < stamps.Length
        invariant 0 <= ii <= stamps.Length && timeoutPoint == now
        invariant forall k :: 0 <= k < ii ==> stamps[k] == now
      {
        stamps[ii] := timeoutPoint;
        ii := ii + 1;
      }
      timeoutPoint := Add(timeoutPoint, AllowedTime());
    }

    // The loop body after a wait that did not fail; killed is what the kill switch reads.
    method Check(now: Timespec, killed: bool) returns (tripped: bool)
      requires Valid() && AllCanonical(stamps[..]) && Canonical(now)
      modifies this, stamps
      ensures Valid() && AllCanonical(stamps[..])
      ensures stamps[..] == Judged(old(stamps[..]), now)
      ensures tripped <==> !killed && exists tid: nat :: Late(old(stamps[..]), now, tid)
      ensures tripped ==> timeoutPoint == old(timeoutPoint)
      ensures !tripped ==> timeoutPoint == Add(stamps[LowestIndex(stamps[..])], AllowedTime())
    {
      CheckIsExact(stamps[..], now);
      stamps[TID_WATCHDOG] := now;
      var iiOldest := FindLowestTimespecIndex(stamps);
      if Compare(Difference(now, stamps[iiOldest]), AllowedTime()) > 0 && !killed {
        return true;
      }
      timeoutPoint := Add(stamps[iiOldest], AllowedTime());
      return false;
    }
  }

  // ----- The thread and its reporters, interleaved -----

  // Where the watchdog thread stands (src/threads/watchdog.c).
  datatype Pc =
    | ReadClock  // 250
    | LockMutex  // 252
    | LoopTest   // 268
    | Waiting    // 270, mutex released
    | Checking   // 282
    | Unlocking  // 303
    | Done

  datatype WaitResult = Success | TimedOut | Failed

  // held: the watchdog owns the timestamps mutex. trips counts the checks that triggered the kill
  // switch. lastReading is the clock value read last by anyone.
  datatype State = State(pc: Pc, stamps: seq<Timespec>, timeoutPoint: Timespec, held: bool,
                         killed: bool, trips: nat, lastReading: Timespec)

  datatype Event =
    | Kill                              // a signal handler sets the kill switch
    | Report(tid: nat, now: Timespec)   // Watchdog_reportActive got the mutex
    | Clock(now: Timespec)
    | Lock(ok: bool)
    | Test
    | Wake(result: WaitResult)
    | Check(at: Timespec, raised: bool) // raised: the SIGTERM handler ran
    | Unlock

  function Init(): State {
    State(ReadClock, seq(TID_COUNT, _ => Timespec(0, 0)), Timespec(0, 0), false, false, 0, Timespec(0, 0))
  }

  // The state an event leads to, or None when it cannot happen.
  function Step(s: State, e: Event): Option<State>
    requires |s.stamps| == TID_COUNT
  {
    match e
    case Kill => Some(s.(killed := true))
    case Report(tid, now) =>
      if tid < TID_WATCHDOG && Canonical(now) && !s.held
      then Some(s.(stamps := s.stamps[tid := now], lastReading := now)) else None
    case Clock(now) =>
      if s.pc.ReadClock? && Canonical(now) then Some(s.(pc := LockMutex, timeoutPoint := now, lastReading := now)) else None
    case Lock(ok) =>
      if !s.pc.LockMutex? then None
      else if !ok then Some(s.(pc := Done))
      else Some(s.(pc := LoopTest, held := true, stamps := seq(TID_COUNT, _ => s.timeoutPoint),
                   timeoutPoint := Add(s.timeoutPoint, AllowedTime())))
    case Test =>
      if !s.pc.LoopTest? then None
      else if s.killed then Some(s.(pc := Unlocking)) else Some(s.(pc := Waiting, held := false))
    case Wake(result) =>
      if !s.pc.Waiting? then None
      else Some(s.(pc := if result.Failed? then LoopTest else Checking, held := true))
    case Check(now, raised) =>
      if !(s.pc.Checking? && Canonical(now)) then None
      else
        var judged := Judged(s.stamps, now);
        var checked := s.(stamps := judged, lastReading := now);
        if FindsUnresponsive(s.stamps, now) && !s.killed
        then Some(checked.(pc := Unlocking, killed := raised, trips := s.trips + 1))
        else Some(checked.(pc := LoopTest, timeoutPoint := Add(judged[LowestIndex(judged)], AllowedTime())))
    case Unlock =>
      if s.pc.Unlocking? then Some(s.(pc := Done, held := false)) else None
  }

  // A check of the machine does what the method Check promises of the module state.
  lemma CheckIsStep(s: State, now: Timespec, raised: bool, stamps: seq<Timespec>, timeoutPoint: Timespec, tripped: bool)
    requires AllCanonical(s.stamps) && s.pc.Checking? && Canonical(now) && stamps == Judged(s.stamps, now)
    requires tripped <==> !s.killed && exists tid: nat :: Late(s.stamps, now, tid)
    requires timeoutPoint == if tripped then s.timeoutPoint else Add(stamps[LowestIndex(stamps)], AllowedTime())
    ensures Step(s, Check(now, raised))
         == Some(State(if tripped then Unlocking else LoopTest, stamps, timeoutPoint, s.held,
                       if tripped then raised else s.killed, if tripped then s.trips + 1 else s.trips, now))
  {
    CheckIsExact(s.stamps, now);
  }

  // A run: the states passed through under a sequence of events.
  ghost predicate IsRun(ss: seq<State>, es: seq<Event>) {
    && |ss| == |es| + 1
    && ss[0] == Init()
    && (forall i :: 0 <= i < |ss| ==> |ss[i].stamps| == TID_COUNT)
    && (forall i :: 0 <= i < |es| ==> Step(ss[i], es[i]) == Some(ss[i + 1]))
  }

  // ----- Invariants of every run -----

  ghost predicate Safe(s: State) {
    && AllCanonical(s.stamps)
    && (s.pc.LockMutex? ==> Canonical(s.timeoutPoint))
    && (s.held <==> s.pc.LoopTest? || s.pc.Checking? || s.pc.Unlocking?)
    && Canonical(s.lastReading)
  }

  lemma StepIsSafe(s: State, e: Event)
    requires Safe(s) && Step(s, e).Some?
    ensures Safe(Step(s, e).value)
  {
  }

  lemma {:induction false} RunIsSafe(ss: seq<State>, es: seq<Event>, i: nat)
    requires IsRun(ss, es) && i < |ss|
    ensures Safe(ss[i])
  {
    if i > 0 {
      RunIsSafe(ss, es, i - 1);
      StepIsSafe(ss[i - 1], es[i - 1]);
    }
  }

  // ----- What the stamps mean -----

  // The watchdog's clock reading before it locked the mutex, in the first n events.
  function FirstReading(es: seq<Event>): Timespec {
    if es == [] then Timespec(0, 0)
    else if es[|es| - 1].Clock? then es[|es| - 1].now
    else FirstReading(es[..|es| - 1])
  }

  // The last time a thread is known to have been alive: its latest report, or the initial stamp
  // when that is later in the run; the watchdog's own is its latest check.
  function LastAlive(es: seq<Event>, tid: nat): Timespec {
    if es == [] then Timespec(0, 0)
    else
      var rest := es[..|es| - 1];
      match es[|es| - 1]
      case Report(t, now) => if t == tid then now else LastAlive(rest, tid)
      case Lock(ok) => if ok then FirstReading(rest) else LastAlive(rest, tid)
      case Check(now, _) => if tid == TID_WATCHDOG then now else LastAlive(rest, tid)
      case _ => LastAlive(rest, tid)
  }

  // At every point of every run each stamp is that time.
  lemma {:induction false} StampsAreLastAlive(ss: seq<State>, es: seq<Event>, i: nat)
    requires IsRun(ss, es) && i < |ss|
    ensures forall tid :: 0 <= tid < TID_COUNT ==> ss[i].stamps[tid] == LastAlive(es[..i], tid)
    ensures ss[i].pc.LockMutex? ==> ss[i].timeoutPoint == FirstReading(es[..i])
  {
    if i > 0 {
      StampsAreLastAlive(ss, es, i - 1);
      assert es[..i][..i - 1] == es[..i - 1];
      assert Step(ss[i - 1], es[i - 1]) == Some(ss[i]);
    }
  }

  // In the events so far the thread gave no sign of life within two seconds of now.
  ghost predicate Silent(es: seq<Event>, now: Timespec, tid: nat) {
    Ns(now) - Ns(LastAlive(es, tid)) > ALLOWED_NS
  }

  /** Soundness and completeness of every check of every run: it triggers the kill switch exactly
      when the switch was not set and some thread has been silent for more than two seconds. After a
      check that passed, none has. */
  lemma ChecksAreSoundAndComplete(ss: seq<State>, es: seq<Event>, i: nat)
    requires IsRun(ss, es) && i < |es| && es[i].Check?
    ensures ss[i + 1].trips == ss[i].trips + 1
       <==> !ss[i].killed && exists tid: nat :: tid < TID_WATCHDOG && Silent(es[..i], es[i].at, tid)
    ensures ss[i + 1].trips == ss[i].trips + 1 <==> ss[i + 1].pc.Unlocking?
    ensures ss[i + 1].pc.LoopTest? && !ss[i].killed ==>
              var seen := es[..i + 1]; forall tid: nat :: tid < TID_COUNT ==> !Silent(seen, es[i].at, tid)
  {
    RunIsSafe(ss, es, i);
    StampsAreLastAlive(ss, es, i);
    StampsAreLastAlive(ss, es, i + 1);
    var before, now, seen := ss[i].stamps, es[i].at, es[..i + 1];
    assert Step(ss[i], es[i]) == Some(ss[i + 1]);
    CheckIsExact(before, now);
    assert forall tid: nat :: tid < TID_WATCHDOG ==> (Late(before, now, tid) <==> Silent(es[..i], now, tid));
    forall tid: nat | tid < TID_COUNT && Silent(seen, now, tid)
      ensures Late(before, now, tid)
    {
      assert ss[i + 1].stamps[tid] == if tid == TID_WATCHDOG then now else before[tid];
    }
  }

  // ----- When a check comes -----

  // Events k and i are steps of the watchdog thread, one right after the other.
  ghost predicate NextOwn(es: seq<Event>, k: nat, i: nat) {
    && k < i < |es| && IsOwn(es[k]) && IsOwn(es[i])
    && forall m :: k < m < i ==> !IsOwn(es[m])
  }

  lemma {:induction false} OthersLeaveWatchdog(ss: seq<State>, es: seq<Event>, k: nat, i: nat)
    requires IsRun(ss, es) && k <= i < |ss| && forall m :: k <= m < i ==> !IsOwn(es[m])
    ensures ss[i].pc == ss[k].pc && ss[i].timeoutPoint == ss[k].timeoutPoint && ss[i].trips == ss[k].trips
  {
    if k < i {
      OthersLeaveWatchdog(ss, es, k, i - 1);
      assert Step(ss[i - 1], es[i - 1]) == Some(ss[i]);
    }
  }

  // The first step reads the clock.
  lemma FirstStepReadsClock(ss: seq<State>, es: seq<Event>, i: nat)
    requires IsRun(ss, es) && i < |es| && IsOwn(es[i]) && forall m :: 0 <= m < i ==> !IsOwn(es[m])
    ensures es[i].Clock?
  {
    OthersLeaveWatchdog(ss, es, 0, i);
    assert Step(ss[i], es[i]) == Some(ss[i + 1]);
  }

  /** The steps of the watchdog thread follow its code in every run: after a wait that was signalled or
      timed out the next thing it does is a check; it goes back to the loop test only after a wait that
      failed or a check that passed; and it leaves the loop only for the kill switch or for a thread that
      was silent. */
  lemma StepsFollowLoop(ss: seq<State>, es: seq<Event>, k: nat, i: nat)
    requires IsRun(ss, es) && NextOwn(es, k, i)
    ensures match es[k]
            case Clock(_) => es[i].Lock?
            case Lock(ok) => ok && es[i].Test?
            case Test => if ss[k].killed then es[i].Unlock? else es[i].Wake?
            case Wake(result) => if result.Failed? then es[i].Test? else es[i].Check?
            case Check(now, _) =>
              if !ss[k].killed && exists tid: nat :: tid < TID_WATCHDOG && Silent(es[..k], now, tid) then es[i].Unlock? else es[i].Test?
            case _ => false
  {
    OthersLeaveWatchdog(ss, es, k + 1, i);
    assert Step(ss[k], es[k]) == Some(ss[k + 1]);
    assert Step(ss[i], es[i]) == Some(ss[i + 1]);
    if es[k].Check? {
      ChecksAreSoundAndComplete(ss, es, k);
    }
  }

  /** Completeness: whenever a wait was signalled or timed out and some thread has been silent for more
      than two seconds at the clock reading that follows, the watchdog triggers the kill switch then,
      unless it is set already. */
  lemma SilenceTrips(ss: seq<State>, es: seq<Event>, k: nat, i: nat)
    requires IsRun(ss, es) && NextOwn(es, k, i) && es[k].Wake? && !es[k].result.Failed?
    ensures es[i].Check?
    ensures ss[i + 1].trips == ss[k].trips + 1
       <==> !ss[i].killed && exists tid: nat :: tid < TID_WATCHDOG && Silent(es[..i], es[i].at, tid)
  {
    StepsFollowLoop(ss, es, k, i);
    ChecksAreSoundAndComplete(ss, es, i);
    OthersLeaveWatchdog(ss, es, k + 1, i);
    assert Step(ss[k], es[k]) == Some(ss[k + 1]);
    assert Step(ss[i], es[i]) == Some(ss[i + 1]);
  }

  // ----- What sets the kill switch -----

  // A check that finds a silent thread, and whose signal is handled.
  ghost predicate FindsSilence(es: seq<Event>, j: nat)
    requires j < |es|
  {
    es[j].Check? && es[j].raised && exists tid: nat :: tid < TID_WATCHDOG && Silent(es[..j], es[j].at, tid)
  }

  lemma KillSwitchStep(ss: seq<State>, es: seq<Event>, j: nat)
    requires IsRun(ss, es) && j < |es|
    ensures ss[j + 1].killed <==> ss[j].killed || es[j].Kill? || FindsSilence(es, j)
  {
    assert Step(ss[j], es[j]) == Some(ss[j + 1]);
    if es[j].Check? {
      ChecksAreSoundAndComplete(ss, es, j);
    }
  }

  /** In every run the kill switch is set exactly when someone set it from outside or a check found a
      thread silent for more than two seconds. */
  lemma {:induction false} KilledOnlyBySignalOrSilence(ss: seq<State>, es: seq<Event>, i: nat)
    requires IsRun(ss, es) && i < |ss|
    ensures ss[i].killed <==> exists j: nat :: j < i && (es[j].Kill? || FindsSilence(es, j))
  {
    if i > 0 {
      KilledOnlyBySignalOrSilence(ss, es, i - 1);
      KillSwitchStep(ss, es, i - 1);
    }
  }

  // ----- The wake-up deadline, under a clock that does not go back -----

  function Reading(e: Event): Option<Timespec> {
    match e
    case Report(_, now) => Some(now)
    case Clock(now) => Some(now)
    case Check(now, _) => Some(now)
    case _ => None
  }

  ghost predicate MonotoneClock(ss: seq<State>, es: seq<Event>) {
    && |ss| == |es| + 1
    && forall i :: 0 <= i < |es| && Reading(es[i]).Some? ==>
         Ns(ss[i].lastReading) <= Ns(Reading(es[i]).value) && Reading(es[i]).value.sec + 2 < TWO_32
  }

  // The deadline is canonical and no later than two seconds after any thread's stamp, and no stamp
  // is ahead of the clock.
  ghost predicate DeadlineInTime(s: State) {
    && Safe(s)
    && s.lastReading.sec + 2 < TWO_32
    && (s.pc.LockMutex? ==> Ns(s.timeoutPoint) <= Ns(s.lastReading))
    && (forall t :: 0 <= t < TID_COUNT ==> Ns(s.stamps[t]) <= Ns(s.lastReading))
    && (!s.pc.ReadClock? && !s.pc.LockMutex? && !s.pc.Done? ==>
          && Canonical(s.timeoutPoint)
          && forall t :: 0 <= t < TID_COUNT ==> Ns(s.timeoutPoint) <= Ns(s.stamps[t]) + ALLOWED_NS)
  }

  lemma DeadlineAfterStamp(stamp: Timespec, latest: Timespec)
    requires Canonical(stamp) && Canonical(latest) && Ns(stamp) <= Ns(latest) && latest.sec + 2 < TWO_32
    ensures Canonical(Add(stamp, AllowedTime())) && Ns(Add(stamp, AllowedTime())) == Ns(stamp) + ALLOWED_NS
  {
    AddIsExactIff(stamp, AllowedTime());
  }

  // A check moves the deadline to two seconds after the oldest of the stamps it judged.
  lemma CheckKeepsDeadline(s: State, now: Timespec, raised: bool, next: State)
    requires DeadlineInTime(s) && Step(s, Check(now, raised)) == Some(next)
    requires Ns(s.lastReading) <= Ns(now) && now.sec + 2 < TWO_32
    ensures DeadlineInTime(next)
  {
    StepIsSafe(s, Check(now, raised));
    var judged := Judged(s.stamps, now);
    OldestStamp(judged);
    DeadlineAfterStamp(judged[LowestIndex(judged)], now);
  }

  lemma StepKeepsDeadline(s: State, e: Event, next: State)
    requires DeadlineInTime(s) && Step(s, e) == Some(next)
    requires Reading(e).Some? ==> Ns(s.lastReading) <= Ns(Reading(e).value) && Reading(e).value.sec + 2 < TWO_32
    ensures DeadlineInTime(next)
  {
    if e.Check? {
      CheckKeepsDeadline(s, e.at, e.raised, next);
    } else {
      StepIsSafe(s, e);
      if e.Lock? && e.ok {
        DeadlineAfterStamp(s.timeoutPoint, s.lastReading);
      }
    }
  }

  // Whenever the watchdog waits, its pending wake-up is at most two seconds after every stamp.
  lemma {:induction false} DeadlineHoldsOverRuns(ss: seq<State>, es: seq<Event>, i: nat)
    requires IsRun(ss, es) && MonotoneClock(ss, es) && i < |ss|
    ensures DeadlineInTime(ss[i])
  {
    if i > 0 {
      DeadlineHoldsOverRuns(ss, es, i - 1);
      StepKeepsDeadline(ss[i - 1], es[i - 1], ss[i]);
    }
  }

  // This event sets the deadline: the lock, or a check that passed.
  predicate SetsDeadline(e: Event, next: State) {
    (e.Lock? && e.ok) || (e.Check? && next.pc.LoopTest?)
  }

  // Two seconds after some stamp, and no later than that after any.
  ghost predicate IsOldestPlusAllowance(deadline: Timespec, stamps: seq<Timespec>) {
    && |stamps| == TID_COUNT
    && (exists t: nat :: t < TID_COUNT && Ns(deadline) == Ns(stamps[t]) + ALLOWED_NS)
    && (forall t: nat :: t < TID_COUNT ==> Ns(deadline) <= Ns(stamps[t]) + ALLOWED_NS)
  }

  lemma {:induction false} DeadlineStays(ss: seq<State>, es: seq<Event>, k: nat, i: nat)
    requires IsRun(ss, es) && k < i < |ss| && SetsDeadline(es[k], ss[k + 1])
    requires forall m :: k < m < i ==> !es[m].Check?
    ensures ss[i].timeoutPoint == ss[k + 1].timeoutPoint && !ss[i].pc.ReadClock? && !ss[i].pc.LockMutex?
  {
    if k + 1 < i {
      DeadlineStays(ss, es, k, i - 1);
      assert Step(ss[i - 1], es[i - 1]) == Some(ss[i]);
    } else {
      assert Step(ss[k], es[k]) == Some(ss[i]);
    }
  }

  lemma DeadlineIsSet(ss: seq<State>, es: seq<Event>, k: nat, next: State)
    requires IsRun(ss, es) && MonotoneClock(ss, es) && k < |es| && SetsDeadline(es[k], ss[k + 1]) && next == ss[k + 1]
    ensures IsOldestPlusAllowance(next.timeoutPoint, next.stamps)
  {
    DeadlineHoldsOverRuns(ss, es, k);
    DeadlineHoldsOverRuns(ss, es, k + 1);
    var s := ss[k];
    assert Step(s, es[k]) == Some(next);
    if es[k].Lock? {
      DeadlineAfterStamp(s.timeoutPoint, s.lastReading);
      assert Ns(next.timeoutPoint) == Ns(next.stamps[0]) + ALLOWED_NS;
    } else {
      var oldest := LowestIndex(next.stamps);
      DeadlineAfterStamp(next.stamps[oldest], next.lastReading);
      assert Ns(next.timeoutPoint) == Ns(next.stamps[oldest]) + ALLOWED_NS;
    }
  }

  /** The pending wake-up is exact: until the next check it stands at two seconds after the oldest stamp
      there was when the watchdog locked the mutex, or when its last check passed. */
  lemma DeadlineIsOldestPlusAllowance(ss: seq<State>, es: seq<Event>, k: nat, i: nat)
    requires IsRun(ss, es) && MonotoneClock(ss, es) && k < i < |ss| && SetsDeadline(es[k], ss[k + 1])
    requires forall m :: k < m < i ==> !es[m].Check?
    ensures IsOldestPlusAllowance(ss[i].timeoutPoint, ss[k + 1].stamps)
  {
    DeadlineStays(ss, es, k, i);
    DeadlineIsSet(ss, es, k, ss[k + 1]);
  }

  // ----- Termination -----

  predicate IsOwn(e: Event) {
    !e.Kill? && !e.Report?
  }

  // The most own steps the watchdog can still take once the kill switch is set.
  function StepsLeft(pc: Pc): nat {
    match pc
    case ReadClock => 6
    case LockMutex => 5
    case Waiting => 4
    case Checking => 3
    case LoopTest => 2
    case Unlocking => 1
    case Done => 0
  }

  function OwnSteps(es: seq<Event>): nat {
    if es == [] then 0 else OwnSteps(es[..|es| - 1]) + if IsOwn(es[|es| - 1]) then 1 else 0
  }

  lemma StepAfterKill(s: State, e: Event, next: State)
    requires |s.stamps| == TID_COUNT && s.killed && Step(s, e) == Some(next)
    ensures next.killed
    ensures if IsOwn(e) then StepsLeft(next.pc) < StepsLeft(s.pc) else next.pc == s.pc
  {
  }

  lemma OwnStepsNext(es: seq<Event>, k: nat, i: nat)
    requires k < i <= |es|
    ensures OwnSteps(es[k..i]) == OwnSteps(es[k..i - 1]) + if IsOwn(es[i - 1]) then 1 else 0
  {
    assert es[k..i][..i - 1 - k] == es[k..i - 1];
  }

  // Once set, the kill switch stays set, every own step of the watchdog brings it closer to its end,
  // and it ends without the mutex.
  lemma {:induction false} WatchdogStopsAfterKill(ss: seq<State>, es: seq<Event>, k: nat, i: nat)
    requires IsRun(ss, es) && k <= i < |ss| && ss[k].killed
    ensures ss[i].killed
    ensures OwnSteps(es[k..i]) + StepsLeft(ss[i].pc) <= StepsLeft(ss[k].pc)
    ensures ss[i].pc.Done? ==> !ss[i].held
  {
    RunIsSafe(ss, es, i);
    if k < i {
      WatchdogStopsAfterKill(ss, es, k, i - 1);
      OwnStepsNext(es, k, i);
      StepAfterKill(ss[i - 1], es[i - 1], ss[i]);
    }
  }

  // From the lock to the wait, and from the wait to the next or to the end, the watchdog has the mutex.
  predicate HasMutex(pc: Pc) {
    pc.LoopTest? || pc.Checking? || pc.Unlocking?
  }

  // In every run the watchdog waits for nothing but a clock reading or an answer, whichever it is; and a
  // thread can report exactly when the watchdog does not have the mutex.
  lemma EveryAnswerIsPossible(ss: seq<State>, es: seq<Event>, i: nat, e: Event)
    requires IsRun(ss, es) && i < |ss|
    requires Reading(e).Some? ==> Canonical(Reading(e).value)
    ensures Step(ss[i], e).Some?
       <==> match ss[i].pc
            case ReadClock => e.Kill? || e.Clock? || (e.Report? && e.tid < TID_WATCHDOG)
            case LockMutex => e.Kill? || e.Lock? || (e.Report? && e.tid < TID_WATCHDOG)
            case LoopTest => e.Kill? || e.Test?
            case Waiting => e.Kill? || e.Wake? || (e.Report? && e.tid < TID_WATCHDOG)
            case Checking => e.Kill? || e.Check?
            case Unlocking => e.Kill? || e.Unlock?
            case Done => e.Kill? || (e.Report? && e.tid < TID_WATCHDOG)
  {
    RunIsSafe(ss, es, i);
  }

  // So no report falls between the end of a wait and the end of the check it leads to: the check judges
  // the stamps there were when the wait ended.
  lemma {:induction false} ChecksJudgeStampsOfWake(ss: seq<State>, es: seq<Event>, k: nat, i: nat)
    requires IsRun(ss, es) && k < i < |ss| && es[k].Wake? && !es[k].result.Failed?
    requires forall m :: k < m < i ==> !IsOwn(es[m])
    ensures ss[i].pc.Checking? && ss[i].stamps == ss[k].stamps
    ensures forall m :: k < m < i ==> es[m].Kill?
  {
    RunIsSafe(ss, es, i - 1);
    assert Step(ss[i - 1], es[i - 1]) == Some(ss[i]);
    if k + 1 < i {
      ChecksJudgeStampsOfWake(ss, es, k, i - 1);
    }
  }

  // And until it is done it can always take a step.
  lemma WatchdogIsNeverStuck(s: State)
    requires Safe(s) && !s.pc.Done?
    ensures exists e :: IsOwn(e) && Step(s, e).Some?
  {
    var t := Timespec(0, 0);
    var e := match s.pc
      case ReadClock => Clock(t)
      case LockMutex => Lock(false)
      case Waiting => Wake(TimedOut)
      case Checking => Check(t, true)
      case LoopTest => Test
      case Unlocking => Unlock
      case Done => Kill;
    assert IsOwn(e) && Step(s, e).Some?;
  }
}
