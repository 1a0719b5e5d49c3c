/** Usage percentages, src/utils/cpuusage.c: wrapping 64-bit counters, and the ratio taken over real. */
module CpuUsage {
  import opened Words

  // One "cpu" line: ten counters, in the order of CpuStatIndex_t.
  datatype CpuStat = CpuStat(user: int, nice: int, system: int, idle: int, iowait: int,
                             irq: int, softirq: int, steal: int, guest: int, guestNice: int)

  type ProcStat = seq<CpuStat>

  const ERROR_VALUE: real := -1.0

  function Idle(s: CpuStat): (r: int)
    ensures 0 <= r < TWO_64
  {
    Wrap64(s.idle + s.iowait)
  }

  function NonIdle(s: CpuStat): (r: int)
    ensures 0 <= r < TWO_64
  {
    Wrap64(s.user + s.nice + s.system + s.irq + s.softirq + s.steal)
  }

  function TotalDelta(o: CpuStat, n: CpuStat): (r: int)
    ensures 0 <= r < TWO_64
  {
    Wrap64(Wrap64(Idle(n) + NonIdle(n)) - Wrap64(Idle(o) + NonIdle(o)))
  }

  function IdleDelta(o: CpuStat, n: CpuStat): (r: int)
    ensures 0 <= r < TWO_64
  {
    Wrap64(Idle(n) - Idle(o))
  }

  // The share of total that was not idle, in hundredths.
  function BusyShare(total: int, idle: int): real {
    (if total != 0 then (total as real - idle as real) / total as real else ERROR_VALUE) * 100.0
  }

  // calculateCpuUsagePercentage
  function Percentage(o: CpuStat, n: CpuStat): real {
    BusyShare(TotalDelta(o, n), IdleDelta(o, n))
  }

  // A share weighted by the total it is a share of.
  function BusyTime(total: int, share: real): real {
    total as real * share
  }

  // Multiplying a share back by the total gives the busy time, in hundredths.
  lemma BusyShareTimesTotal(total: int, idle: int)
    ensures BusyTime(total, BusyShare(total, idle)) == if total == 0 then 0.0 else 100.0 * (total - idle) as real
  {
    if total != 0 {
      var q := (total as real - idle as real) / total as real;
      assert total as real * q == total as real - idle as real;
      assert total as real * (q * 100.0) == (total as real * q) * 100.0;
    }
  }

  // A share lies in the documented 0..100 range exactly when time passed and no more of it was idle
  // than passed in total.
  lemma BusyShareInRangeIff(total: int, idle: int)
    requires 0 <= total && 0 <= idle
    ensures 0.0 <= BusyShare(total, idle) <= 100.0 <==> total != 0 && idle <= total
  {
    if total != 0 {
      var t, q := total as real, (total as real - idle as real) / total as real;
      assert t * q == t - idle as real;
      if q < 0.0 {
        SignOfProduct(t, q);
      } else if 1.0 < q {
        SignOfProduct(t, 1.0 - q);
        assert false;
      } else {
        assert 0.0 <= t * q;
      }
    }
  }

  // So a percentage is in the documented range exactly when the wrapped total moved, and the wrapped
  // idle time by no more than that.
  lemma PercentageInRangeIff(o: CpuStat, n: CpuStat)
    ensures 0.0 <= Percentage(o, n) <= 100.0 <==> TotalDelta(o, n) != 0 && IdleDelta(o, n) <= TotalDelta(o, n)
  {
    BusyShareInRangeIff(TotalDelta(o, n), IdleDelta(o, n));
  }

  lemma SignOfProduct(x: real, y: real)
    requires 0.0 < x && y < 0.0
    ensures x * y < 0.0
  {
  }

  // What the share says of true growths: it is in range unless no time passed, and then it is
  // exactly -100; and it gives the busy growth back.
  lemma BusyShareOfGrowth(total: int, idle: int)
    requires 0 <= idle <= total
    ensures 0.0 <= BusyShare(total, idle) <= 100.0 <==> total != 0
    ensures BusyShare(total, idle) == -100.0 <==> total == 0
    ensures BusyTime(total, BusyShare(total, idle)) == 100.0 * (total - idle) as real
  {
    BusyShareInRangeIff(total, idle);
    BusyShareTimesTotal(total, idle);
  }

  /** The counters a kernel with unbounded counters would show. The line read shows each of them
      modulo 2^64. */
  type Ideal = CpuStat

  function Shown(ideal: Ideal): CpuStat {
    CpuStat(Wrap64(ideal.user), Wrap64(ideal.nice), Wrap64(ideal.system), Wrap64(ideal.idle), Wrap64(ideal.iowait),
            Wrap64(ideal.irq), Wrap64(ideal.softirq), Wrap64(ideal.steal), Wrap64(ideal.guest), Wrap64(ideal.guestNice))
  }

  // The true time spent idle, and busy. Guest time is part of user and nice time already.
  function IdleTicks(ideal: Ideal): int {
    ideal.idle + ideal.iowait
  }

  function BusyTicks(ideal: Ideal): int {
    ideal.user + ideal.nice + ideal.system + ideal.irq + ideal.softirq + ideal.steal
  }

  // Neither time goes back, and together they grow by less than 2^64.
  ghost predicate Grows(o: Ideal, n: Ideal) {
    && IdleTicks(o) <= IdleTicks(n) && BusyTicks(o) <= BusyTicks(n)
    && (IdleTicks(n) - IdleTicks(o)) + (BusyTicks(n) - BusyTicks(o)) < TWO_64
  }

  // Sums of wrapped columns are the wrapped true times.
  lemma IdleShowsTicks(ideal: Ideal)
    ensures Idle(Shown(ideal)) == Wrap64(IdleTicks(ideal))
  {
    Wrap64Sum(ideal.idle, ideal.iowait);
  }

  lemma NonIdleShowsTicks(ideal: Ideal)
    ensures NonIdle(Shown(ideal)) == Wrap64(BusyTicks(ideal))
  {
    var wraps := ideal.user / TWO_64 + ideal.nice / TWO_64 + ideal.system / TWO_64
                 + ideal.irq / TWO_64 + ideal.softirq / TWO_64 + ideal.steal / TWO_64;
    Wrap64Shift(BusyTicks(ideal), -wraps);
  }

  // Wrapped totals differ by the wrapped difference of the true totals.
  lemma WrappedTotals(oIdle: int, oBusy: int, nIdle: int, nBusy: int)
    ensures Wrap64(Wrap64(Wrap64(nIdle) + Wrap64(nBusy)) - Wrap64(Wrap64(oIdle) + Wrap64(oBusy)))
         == Wrap64((nIdle + nBusy) - (oIdle + oBusy))
  {
    Wrap64Sum(oIdle, oBusy);
    Wrap64Sum(nIdle, nBusy);
    Wrap64Difference(nIdle + nBusy, oIdle + oBusy);
  }

  lemma DeltasFromTicks(o: CpuStat, n: CpuStat, oIdle: int, oBusy: int, nIdle: int, nBusy: int)
    requires Idle(o) == Wrap64(oIdle) && NonIdle(o) == Wrap64(oBusy)
    requires Idle(n) == Wrap64(nIdle) && NonIdle(n) == Wrap64(nBusy)
    ensures IdleDelta(o, n) == Wrap64(nIdle - oIdle)
    ensures TotalDelta(o, n) == Wrap64((nIdle + nBusy) - (oIdle + oBusy))
  {
    Wrap64Difference(nIdle, oIdle);
    WrappedTotals(oIdle, oBusy, nIdle, nBusy);
  }

  // Counters that wrap still give the true growth.
  lemma DeltasAreTrueGrowth(o: CpuStat, n: CpuStat, oi: Ideal, ni: Ideal)
    requires o == Shown(oi) && n == Shown(ni) && Grows(oi, ni)
    ensures IdleDelta(o, n) == IdleTicks(ni) - IdleTicks(oi)
    ensures TotalDelta(o, n) == (IdleTicks(ni) - IdleTicks(oi)) + (BusyTicks(ni) - BusyTicks(oi))
  {
    IdleShowsTicks(oi);
    IdleShowsTicks(ni);
    NonIdleShowsTicks(oi);
    NonIdleShowsTicks(ni);
    DeltasFromTicks(o, n, IdleTicks(oi), BusyTicks(oi), IdleTicks(ni), BusyTicks(ni));
  }

  // Whichever way the times went: a percentage is in range exactly when time went on and neither the
  // idle nor the busy time went back, or all in all time went back, but not both of them.
  lemma PercentageOfTicksInRangeIff(o: CpuStat, n: CpuStat, oi: Ideal, ni: Ideal)
    requires o == Shown(oi) && n == Shown(ni)
    requires -TWO_64 < IdleTicks(ni) - IdleTicks(oi) < TWO_64 && -TWO_64 < BusyTicks(ni) - BusyTicks(oi) < TWO_64
    requires -TWO_64 < (IdleTicks(ni) - IdleTicks(oi)) + (BusyTicks(ni) - BusyTicks(oi)) < TWO_64
    ensures 0.0 <= Percentage(o, n) <= 100.0
       <==> var idle, busy := IdleTicks(ni) - IdleTicks(oi), BusyTicks(ni) - BusyTicks(oi);
            if idle + busy > 0 then idle >= 0 && busy >= 0
            else idle + busy < 0 && (idle >= 0 || busy >= 0)
  {
    IdleShowsTicks(oi);
    IdleShowsTicks(ni);
    NonIdleShowsTicks(oi);
    NonIdleShowsTicks(ni);
    DeltasFromTicks(o, n, IdleTicks(oi), BusyTicks(oi), IdleTicks(ni), BusyTicks(ni));
    WrapOfNear(IdleTicks(ni) - IdleTicks(oi));
    WrapOfNear((IdleTicks(ni) - IdleTicks(oi)) + (BusyTicks(ni) - BusyTicks(oi)));
    PercentageInRangeIff(o, n);
  }

  lemma WrapOfNear(x: int)
    requires -TWO_64 < x < TWO_64
    ensures Wrap64(x) == if x < 0 then x + TWO_64 else x
  {
  }

  // One tick of idle time taken back while the user counter went on puts the percentage out of range.
  lemma ShrinkingIdleIsOutOfRange(o: CpuStat, n: CpuStat, ticks: nat)
    requires n == o.(idle := o.idle - 1, user := o.user + ticks) && 1 <= ticks
    requires o == Shown(o) && n == Shown(n)
    ensures !(0.0 <= Percentage(o, n) <= 100.0)
  {
    PercentageOfTicksInRangeIff(o, n, o, n);
  }

  // Under such counters a percentage is in range unless no time passed, and then it is exactly
  // -100; and weighted by the total delta it is the true busy growth.
  lemma PercentageUnderGrowth(o: CpuStat, n: CpuStat, oi: Ideal, ni: Ideal)
    requires o == Shown(oi) && n == Shown(ni) && Grows(oi, ni)
    ensures 0.0 <= Percentage(o, n) <= 100.0 <==> IdleTicks(oi) + BusyTicks(oi) != IdleTicks(ni) + BusyTicks(ni)
    ensures Percentage(o, n) == -100.0 <==> IdleTicks(oi) + BusyTicks(oi) == IdleTicks(ni) + BusyTicks(ni)
    ensures BusyTime(TotalDelta(o, n), Percentage(o, n)) == 100.0 * (BusyTicks(ni) - BusyTicks(oi)) as real
  {
    DeltasAreTrueGrowth(o, n, oi, ni);
    BusyShareOfGrowth(TotalDelta(o, n), IdleDelta(o, n));
  }

  // The values CpuUsageInfo_calculate fills in: one per line of the old sample.
  function Percentages(o: ProcStat, n: ProcStat): (r: seq<real>)
    requires |o| <= |n|
  {
    seq(|o|, (i: nat) requires i < |o| => Percentage(o[i], n[i]))
  }

  class CpuUsageInfo {
    var valuesLength: nat
    const values: array<real>

    constructor (capacity: nat)
      ensures fresh(values) && values.Length == capacity
    {
      values := new real[capacity];
      valuesLength := 0;
    }

    // CpuUsageInfo_calculate: every line of the old sample against the same line of the new one.
    method Calculate(oldProcStat: ProcStat, newProcStat: ProcStat)
      requires |oldProcStat| <= |newProcStat| && |oldProcStat| <= values.Length
      modifies this, values
      ensures valuesLength == |oldProcStat|
      ensures values[..valuesLength] == Percentages(oldProcStat, newProcStat)
      ensures values[valuesLength..] == old(values[..])[|oldProcStat|..]
    {
      var cpuLineCount := |oldProcStat|;
      valuesLength := cpuLineCount;
      var i := 0;
      while i < cpuLineCount
        invariant 0 <= i <= cpuLineCount && valuesLength == cpuLineCount
        invariant forall k :: 0 <= k < i ==> values[k] == Percentage(oldProcStat[k], newProcStat[k])
        invariant forall k :: i <= k < values.Length ==> values[k] == old(values[k])
      {
        values[i] := Percentage(oldProcStat[i], newProcStat[i]);
        i := i + 1;
      }
    }
  }
}
