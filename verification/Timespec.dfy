/** struct timespec arithmetic: the helpers of src/threads/watchdog.c and TimePointMs of
    src/utils/helpers.c, as written, with their 32-bit intermediates. */
module Timespecs {
  import opened Words

  datatype Timespec = Timespec(sec: int, nsec: int)

  const NSEC_IN_SEC: int := 1_000_000_000

  // What a clock reading looks like.
  predicate Canonical(t: Timespec) {
    0 <= t.sec && 0 <= t.nsec < NSEC_IN_SEC
  }

  function Ns(t: Timespec): int {
    t.sec * NSEC_IN_SEC + t.nsec
  }

  function Add(a: Timespec, b: Timespec): Timespec {
    var secs := Wrap32(a.sec + b.sec);
    var nsecs := Wrap32(a.nsec + b.nsec);
    if nsecs > NSEC_IN_SEC then Timespec(Wrap32(secs + 1), Wrap32(nsecs - NSEC_IN_SEC)) else Timespec(secs, nsecs)
  }

  function Compare(a: Timespec, b: Timespec): int {
    var d := if a.sec - b.sec == 0 then a.nsec - b.nsec else a.sec - b.sec;
    if d > 0 then 1 else if d < 1 then -1 else 0
  }

  function Difference(a: Timespec, b: Timespec): Timespec {
    if a.nsec <= b.nsec
    then Timespec(a.sec - b.sec - 1, NSEC_IN_SEC - (b.nsec - a.nsec))
    else Timespec(a.sec - b.sec, a.nsec - b.nsec)
  }

  // ms is an unsigned long long; secs, nsecs and the product secs * 1000 are unsigned.
  function MsToTimespec(ms: int): Timespec
    requires 0 <= ms < TWO_64
  {
    var secs := Wrap32(ms / 1000);
    var nsecs := Wrap32(Wrap64(Wrap64(ms - Wrap32(secs * 1000)) * 1_000_000));
    Timespec(secs, nsecs)
  }

  // ----- What the helpers compute, in nanoseconds -----

  // The seconds of the sum, carry included, fit 32 bits.
  predicate SumFits(a: Timespec, b: Timespec) {
    a.sec + b.sec + (if a.nsec + b.nsec > NSEC_IN_SEC then 1 else 0) < TWO_32
  }

  // On canonical operands the sum is exact exactly when its seconds fit 32 bits. It is canonical
  // unless the nanoseconds add up to one second exactly.
  lemma AddIsExactIff(a: Timespec, b: Timespec)
    requires Canonical(a) && Canonical(b)
    ensures Ns(Add(a, b)) == Ns(a) + Ns(b) <==> SumFits(a, b)
    ensures Canonical(Add(a, b)) <==> a.nsec + b.nsec != NSEC_IN_SEC
  {
    var s := a.sec + b.sec;
    assert s == TWO_32 * (s / TWO_32) + Wrap32(s);
    if s >= TWO_32 {
      assert s / TWO_32 >= 1;
    }
  }

  // A difference is exact for any two canonical times, but its nanoseconds run from 1 to 10^9.
  lemma DifferenceIsExact(a: Timespec, b: Timespec)
    requires Canonical(a) && Canonical(b)
    ensures Ns(Difference(a, b)) == Ns(a) - Ns(b)
    ensures 1 <= Difference(a, b).nsec <= NSEC_IN_SEC
    ensures Difference(a, b).sec < 0 <==> Ns(a) <= Ns(b)
  {
  }

  // Subtracting what was added gives the time back exactly when the sum fits; and the very same
  // fields exactly when, besides, its nanoseconds are not 0.
  lemma AddThenSubtract(a: Timespec, b: Timespec)
    requires Canonical(a) && Canonical(b)
    ensures Ns(Difference(Add(a, b), b)) == Ns(a) <==> SumFits(a, b)
    ensures Difference(Add(a, b), b) == a <==> SumFits(a, b) && a.nsec != 0
  {
    AddIsExactIff(a, b);
  }

  // The documented three-way result is returned exactly for unequal times: equality gives -1.
  lemma CompareIsThreeWayIff(a: Timespec, b: Timespec)
    requires Canonical(a) && Canonical(b)
    ensures Compare(a, b) == (if Ns(a) > Ns(b) then 1 else if Ns(a) < Ns(b) then -1 else 0) <==> a != b
    ensures Compare(a, b) != 0
    ensures Compare(a, b) > 0 <==> Ns(a) > Ns(b)
  {
  }

  /** The watchdog's guard, to the nanosecond: comparing the non-canonical difference with any
      canonical allowance is a comparison of true durations, although equal values compare as less. */
  lemma GuardIsExact(now: Timespec, oldest: Timespec, allowance: Timespec)
    requires Canonical(now) && Canonical(oldest) && Canonical(allowance)
    ensures Compare(Difference(now, oldest), allowance) > 0 <==> Ns(now) - Ns(oldest) > Ns(allowance)
  {
    DifferenceIsExact(now, oldest);
  }

  // The nanoseconds are right for every 64-bit input, even where secs * 1000 wraps; the whole value
  // is right exactly when the seconds fit 32 bits.
  lemma MsToTimespecIsExactIff(ms: int)
    requires 0 <= ms < TWO_64
    ensures MsToTimespec(ms).nsec == ms % 1000 * 1_000_000
    ensures Canonical(MsToTimespec(ms))
    ensures Ns(MsToTimespec(ms)) == ms * 1_000_000 <==> ms < 1000 * TWO_32
  {
    var secs := Wrap32(ms / 1000);
    var q := ms / 1000 / TWO_32;
    var k := secs * 1000 / TWO_32;
    assert ms / 1000 == secs + q * TWO_32;
    var rest := ms - Wrap32(secs * 1000);
    assert rest == ms % 1000 + (1000 * q + k) * TWO_32;
    assert 0 <= rest < TWO_64;
    var product := rest * 1_000_000;
    assert Wrap64(product) == product - (product / TWO_64) * TWO_64;
    SameRemainder32(Wrap64(product), ms % 1000 * 1_000_000,
                    (1000 * q + k) * 1_000_000 - (product / TWO_64) * TWO_32);
  }

  lemma SameRemainder32(x: int, y: int, k: int)
    requires x == y + k * TWO_32 && 0 <= y < TWO_32
    ensures Wrap32(x) == y
  {
  }

  // ----- Deadlines -----

  // The time ms milliseconds after now, in canonical form.
  ghost predicate IsDeadline(t: Timespec, now: Timespec, ms: int) {
    Canonical(t) && Ns(t) == Ns(now) + ms * 1_000_000
  }

  // A canonical time is determined by its nanoseconds.
  lemma CanonicalIsUnique(a: Timespec, b: Timespec)
    requires Canonical(a) && Canonical(b) && Ns(a) == Ns(b)
    ensures a == b
  {
  }

  // TimePointMs: every 32-bit ms gives the canonical, exact deadline.
  method TimePointMs(now: Timespec, ms: int) returns (timePoint: Timespec)
    requires Canonical(now) && 0 <= ms < TWO_32
    ensures IsDeadline(timePoint, now, ms)
  {
    timePoint := now;
    var seconds := ms / 1000;
    var nanoseconds := Wrap64(Wrap64(ms - Wrap64(seconds * 1000)) * 1_000_000);
    timePoint := timePoint.(sec := timePoint.sec + seconds);
    if Wrap64(timePoint.nsec + nanoseconds) < NSEC_IN_SEC {
      timePoint := timePoint.(nsec := timePoint.nsec + nanoseconds);
    } else {
      timePoint := timePoint.(nsec := Wrap64(timePoint.nsec + nanoseconds - NSEC_IN_SEC));
      timePoint := timePoint.(sec := timePoint.sec + 1);
    }
  }

  // The two ways the program has of building a deadline agree exactly when the seconds of the sum fit
  // 32 bits and the nanoseconds do not add up to one second exactly.
  lemma DeadlinesAgreeIff(now: Timespec, ms: int, timePoint: Timespec)
    requires Canonical(now) && 0 <= ms < TWO_32 && IsDeadline(timePoint, now, ms)
    ensures Add(now, MsToTimespec(ms)) == timePoint
       <==> SumFits(now, MsToTimespec(ms)) && now.nsec + ms % 1000 * 1_000_000 != NSEC_IN_SEC
  {
    MsToTimespecIsExactIff(ms);
    AddIsExactIff(now, MsToTimespec(ms));
    if SumFits(now, MsToTimespec(ms)) && Canonical(Add(now, MsToTimespec(ms))) {
      CanonicalIsUnique(Add(now, MsToTimespec(ms)), timePoint);
    }
  }
}
