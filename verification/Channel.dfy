/** A ring shared by one writing and one reading thread, with its mutex and its two condition
    variables: what the reader and the analyzer share, and what the analyzer and the printer share. */
module Channels {
  import opened DropOldest

  datatype Thread = Reader | Analyzer | Printer

  datatype Mutex = Free | Held(owner: Thread)

  // A condition variable on which at most one thread ever waits, seen from that thread.
  datatype Cond = Idle | Waiting | Signalled

  // How a timed wait ends, once the mutex is locked again (ISO/IEC 9899:2011, section 7.26.3.5).
  datatype WaitResult = BySignal | Spurious | TimedOut | Failed

  /** ring is the queue the circular buffer stands for. The rest is history that no step depends on:
      everything written, the positions in it of what was read, how many items were overwritten, and
      how many waits for space ended with the ring still full. */
  datatype Channel<T> = Channel(mtx: Mutex, notEmpty: Cond, notFull: Cond, ring: seq<T>,
                                written: seq<T>, takenAt: seq<nat>, lost: nat, stale: nat)

  function Fresh<T>(): Channel<T> {
    Channel(Free, Idle, Idle, [], [], [], 0, 0)
  }

  // A timed lock succeeds only on a free mutex, and may fail at any time (section 7.26.4.4).
  predicate CanLock(m: Mutex, ok: bool) {
    ok ==> m.Free?
  }

  // A wait returns only with the mutex locked again, and as signalled only after a signal.
  predicate CanWake(m: Mutex, cond: Cond, result: WaitResult) {
    m.Free? && (result.BySignal? ==> cond.Signalled?)
  }

  // CondVar_notify wakes a waiting thread and is lost when there is none.
  function Notify(cond: Cond): Cond {
    if cond.Waiting? then Signalled else cond
  }

  // CircularBuffer_write
  function Put<T>(ch: Channel<T>, capacity: nat, x: T): Channel<T>
    requires 1 <= capacity
  {
    ch.(ring := Push(ch.ring, capacity, x),
        written := ch.written + [x],
        lost := ch.lost + if |ch.ring| >= capacity then 1 else 0)
  }

  // CircularBuffer_read from a ring that is not empty; the item is ch.ring[0].
  function Take<T>(ch: Channel<T>): Channel<T>
    requires ch.ring != []
  {
    ch.(ring := ch.ring[1..],
        takenAt := ch.takenAt + [if |ch.ring| <= |ch.written| then |ch.written| - |ch.ring| else 0])
  }

  // A wait for space that ended without an error; full tells whether it was in vain.
  function EndWait<T>(ch: Channel<T>, full: bool): Channel<T> {
    ch.(stale := ch.stale + if full then 1 else 0)
  }

  ghost predicate Sound<T>(ch: Channel<T>, capacity: nat) {
    Accounts(capacity, ch.ring, ch.written, ch.takenAt, ch.lost)
  }

  // Everything taken from the channel, in order.
  ghost function Reads<T>(ch: Channel<T>, capacity: nat): (r: seq<T>)
    requires Sound(ch, capacity)
    ensures |r| == |ch.takenAt|
  {
    seq(|ch.takenAt|, k requires 0 <= k < |ch.takenAt| => ch.written[ch.takenAt[k]])
  }

  lemma PutIsSound<T>(ch: Channel<T>, capacity: nat, x: T)
    requires 1 <= capacity && Sound(ch, capacity)
    ensures Sound(Put(ch, capacity, x), capacity)
    ensures Reads(Put(ch, capacity, x), capacity) == Reads(ch, capacity)
  {
    WriteAccounts(capacity, ch.ring, ch.written, ch.takenAt, ch.lost, x);
  }

  lemma TakeIsSound<T>(ch: Channel<T>, capacity: nat)
    requires Sound(ch, capacity) && ch.ring != []
    ensures Sound(Take(ch), capacity)
    ensures Reads(Take(ch), capacity) == Reads(ch, capacity) + [ch.ring[0]]
    ensures ch.ring[0] in ch.written
  {
    ReadAccounts(capacity, ch.ring, ch.written, ch.takenAt, ch.lost);
  }
}
