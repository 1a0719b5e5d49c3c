/** The analyzer's loop as one thread sees it (src/threads/analyzer.c): two sample buffers on the heap
    that trade places, one usage buffer filled in place, and whatever the rings and mutexes do handed
    in turn by turn. */
module AnalyzerLoop {
  import opened DropOldest
  import opened CpuUsage

  // One turn of the loop: no sample was read (no lock, or an empty ring), or one was; then the
  // output mutex is got or not.
  datatype Turn = NoSample | Sampled(stat: ProcStat, outputLocked: bool)

  class StatBuffer {
    var stat: ProcStat

    constructor ()
      ensures stat == []
    {
      stat := [];
    }
  }

  // The sample the next record will be measured from.
  function Base(turns: seq<Turn>): Option<ProcStat> {
    if turns == [] then None
    else
      var before, turn := Base(turns[..|turns| - 1]), turns[|turns| - 1];
      if turn.Sampled? && (before.None? || turn.outputLocked) then Some(turn.stat) else before
  }

  // The pairs of samples compared in the records written so far.
  function Pairs(turns: seq<Turn>): seq<(ProcStat, ProcStat)> {
    if turns == [] then []
    else
      var front, turn := turns[..|turns| - 1], turns[|turns| - 1];
      if turn.Sampled? && turn.outputLocked && Base(front).Some?
      then Pairs(front) + [(Base(front).value, turn.stat)]
      else Pairs(front)
  }

  // The pairs tile: each starts where the one before ended, the first at the first sample, and the
  // base is where the last one ended.
  lemma {:induction false} PairsTile(turns: seq<Turn>)
    ensures forall k :: 0 < k < |Pairs(turns)| ==> Pairs(turns)[k - 1].1 == Pairs(turns)[k].0
    ensures Pairs(turns) != [] ==> Base(turns) == Some(Pairs(turns)[|Pairs(turns)| - 1].1)
    ensures Base(turns).Some? <==> exists i :: 0 <= i < |turns| && turns[i].Sampled?
    ensures forall i :: 0 <= i < |turns| && turns[i].Sampled? && (forall j :: 0 <= j < i ==> turns[j].NoSample?) ==>
              if Pairs(turns) == [] then Base(turns) == Some(turns[i].stat) else Pairs(turns)[0].0 == turns[i].stat
  {
    if turns != [] {
      var front, n := turns[..|turns| - 1], |turns| - 1;
      PairsTile(front);
      assert forall i :: 0 <= i < n ==> front[i] == turns[i];
      assert (exists i :: 0 <= i < |turns| && turns[i].Sampled?)
          == ((exists i :: 0 <= i < n && front[i].Sampled?) || turns[n].Sampled?);
    }
  }

  // All samples have the same number of lines.
  ghost predicate SameLines(turns: seq<Turn>, lines: nat) {
    forall i :: 0 <= i < |turns| && turns[i].Sampled? ==> |turns[i].stat| == lines
  }

  function Records(pairs: seq<(ProcStat, ProcStat)>): seq<seq<real>>
    requires forall k :: 0 <= k < |pairs| ==> |pairs[k].0| <= |pairs[k].1|
  {
    seq(|pairs|, k requires 0 <= k < |pairs| => Percentages(pairs[k].0, pairs[k].1))
  }

  lemma {:induction false} PairsHaveLines(turns: seq<Turn>, lines: nat)
    requires SameLines(turns, lines)
    ensures Base(turns).Some? ==> |Base(turns).value| == lines
    ensures forall k :: 0 <= k < |Pairs(turns)| ==> |Pairs(turns)[k].0| == lines && |Pairs(turns)[k].1| == lines
  {
    if turns != [] {
      PairsHaveLines(turns[..|turns| - 1], lines);
    }
  }

  // The loop of AnalyzerThread: what it writes out are the percentages of exactly those pairs.
  method AnalyzerThread(turns: seq<Turn>, lines: nat) returns (written: seq<seq<real>>)
    requires SameLines(turns, lines)
    ensures forall k :: 0 <= k < |Pairs(turns)| ==> |Pairs(turns)[k].0| <= |Pairs(turns)[k].1|
    ensures written == Records(Pairs(turns))
  {
    var oldStatBuffer := new StatBuffer();
    var newStatBuffer := new StatBuffer();
    var usageInfoBuffer := new CpuUsageInfo(lines);
    var oldStatBufferInitialized := false;
    written := [];
    PairsHaveLines(turns, lines);
    var i := 0;
    while i < |turns|
      invariant 0 <= i <= |turns|
      invariant oldStatBuffer != newStatBuffer && fresh(oldStatBuffer) && fresh(newStatBuffer)
      invariant fresh(usageInfoBuffer) && fresh(usageInfoBuffer.values) && usageInfoBuffer.values.Length == lines
      invariant oldStatBufferInitialized <==> Base(turns[..i]).Some?
      invariant oldStatBufferInitialized ==> oldStatBuffer.stat == Base(turns[..i]).value
      invariant forall k :: 0 <= k < |Pairs(turns[..i])| ==> |Pairs(turns[..i])[k].0| <= |Pairs(turns[..i])[k].1|
      invariant written == Records(Pairs(turns[..i]))
    {
      ghost var done := turns[..i + 1];
      assert done[..i] == turns[..i];
      PairsHaveLines(turns[..i], lines);
      PairsHaveLines(done, lines);
      var turn := turns[i];
      i := i + 1;
      if turn.NoSample? {
        continue;
      }
      newStatBuffer.stat := turn.stat;
      if !oldStatBufferInitialized {
        oldStatBuffer, newStatBuffer := newStatBuffer, oldStatBuffer;
        oldStatBufferInitialized := true;
        continue;
      }
      usageInfoBuffer.Calculate(oldStatBuffer.stat, newStatBuffer.stat);
      if !turn.outputLocked {
        continue;
      }
      written := written + [usageInfoBuffer.values[..usageInfoBuffer.valuesLength]];
      oldStatBuffer, newStatBuffer := newStatBuffer, oldStatBuffer;
    }
    assert turns[..i] == turns;
  }
}
