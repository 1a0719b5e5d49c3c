/** The wait loop that reader, analyzer, printer and logger share:

      while (blocked && kill switch off) { wait; if it did not fail, break; }

    read off the steps a thread takes. */
module WaitLoops {
  // What a step shows of such a loop: whether a test of its condition would hold there, and whether a
  // wait that ended there failed.
  datatype Look = Look(blocked: bool, failed: bool)

  // Any number of waits that failed, each after a test of the condition.
  ghost predicate FailedWaits(ls: seq<Look>) {
    || ls == []
    || (|ls| >= 2 && ls[|ls| - 2].blocked && ls[|ls| - 1].failed && FailedWaits(ls[..|ls| - 2]))
  }

  // A whole wait loop: after the failed waits a test finds the condition false, or one wait ends
  // otherwise, and the condition is not tested again.
  ghost predicate WaitLoop(ls: seq<Look>) {
    || (|ls| >= 1 && !ls[|ls| - 1].blocked && FailedWaits(ls[..|ls| - 1]))
    || (|ls| >= 2 && ls[|ls| - 2].blocked && !ls[|ls| - 1].failed && FailedWaits(ls[..|ls| - 2]))
  }

  // The first `head` steps, then failed waits: about to test the condition.
  ghost predicate AtTest(head: nat, ls: seq<Look>) {
    |ls| >= head && FailedWaits(ls[head..])
  }

  // One step on: blocked, and waiting.
  ghost predicate InWait(head: nat, ls: seq<Look>) {
    |ls| >= head + 1 && ls[|ls| - 1].blocked && FailedWaits(ls[head..|ls| - 1])
  }

  // The first `head` steps, then the whole wait loop, then `tail` more steps.
  ghost predicate Waited(head: nat, ls: seq<Look>, tail: nat) {
    |ls| >= head + tail && WaitLoop(ls[head..|ls| - tail])
  }

  lemma TestNext(head: nat, ls: seq<Look>, l: Look)
    requires AtTest(head, ls)
    ensures if l.blocked then InWait(head, ls + [l]) else Waited(head, ls + [l], 0)
  {
    var next := ls + [l];
    assert next[head..|next| - 1] == ls[head..];
    assert next[head..|next| - 0] == ls[head..] + [l];
    assert (ls[head..] + [l])[..|ls| - head] == ls[head..];
  }

  lemma WaitNext(head: nat, ls: seq<Look>, l: Look)
    requires InWait(head, ls)
    ensures if l.failed then AtTest(head, ls + [l]) else Waited(head, ls + [l], 0)
  {
    var next, failed := ls + [l], ls[head..|ls| - 1];
    var loop := failed + [ls[|ls| - 1], l];
    assert next[head..] == loop && next[head..|next| - 0] == loop;
    assert loop[..|loop| - 2] == failed;
  }

  lemma WaitedNext(head: nat, ls: seq<Look>, l: Look, tail: nat)
    requires Waited(head, ls, tail)
    ensures Waited(head, ls + [l], tail + 1)
  {
    assert (ls + [l])[head..|ls| - tail] == ls[head..|ls| - tail];
  }
}
