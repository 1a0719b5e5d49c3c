/** A bounded queue that drops its oldest item when a write finds it full: the abstract value of
    every ring in the program, and the history that goes with it. */
module DropOldest {
  datatype Option<+T> = None | Some(value: T)

  // The last n items of s, or all of them when there are fewer.
  function Last<T>(s: seq<T>, n: nat): seq<T> {
    if |s| <= n then s else s[|s| - n..]
  }

  function Min(a: nat, b: nat): nat {
    if a < b then a else b
  }

  // An overwriting write.
  function Push<T>(q: seq<T>, capacity: nat, x: T): seq<T>
    requires 1 <= capacity
  {
    if |q| < capacity then q + [x] else q[1..] + [x]
  }

  // Overwriting writes of xs, one after the other.
  function PushAll<T>(q: seq<T>, capacity: nat, xs: seq<T>): (r: seq<T>)
    requires 1 <= capacity && |q| <= capacity
    ensures |r| <= capacity
    decreases |xs|
  {
    if xs == [] then q else PushAll(Push(q, capacity, xs[0]), capacity, xs[1..])
  }

  // Only the last n items of a prefix can reach the last n items of the whole.
  lemma LastOfLast<T>(s: seq<T>, t: seq<T>, n: nat)
    ensures Last(Last(s, n) + t, n) == Last(s + t, n)
  {
    assert |s| > n ==> s + t == s[..|s| - n] + (s[|s| - n..] + t);
  }

  // One write after the first i writes of a batch.
  lemma PushNext<T>(q: seq<T>, capacity: nat, xs: seq<T>, i: nat)
    requires 1 <= capacity && i < |xs|
    ensures Push(Last(q + xs[..i], capacity), capacity, xs[i]) == Last(q + xs[..i + 1], capacity)
  {
    assert q + xs[..i + 1] == q + xs[..i] + [xs[i]];
  }

  // Writing any number of items, however many, leaves the last `capacity` of contents ++ input.
  lemma {:induction false} PushAllKeepsLast<T>(q: seq<T>, capacity: nat, xs: seq<T>)
    requires 1 <= capacity && |q| <= capacity
    ensures PushAll(q, capacity, xs) == Last(q + xs, capacity)
    decreases |xs|
  {
    if xs == [] {
      assert q + xs == q;
    } else {
      PushAllKeepsLast(Push(q, capacity, xs[0]), capacity, xs[1..]);
      LastOfLast(q + [xs[0]], xs[1..], capacity);
      assert Push(q, capacity, xs[0]) == Last(q + [xs[0]], capacity);
      assert q + xs == q + [xs[0]] + xs[1..];
    }
  }

  // Writing xs and then ys is writing xs ++ ys.
  lemma {:induction false} PushAllConcat<T>(q: seq<T>, capacity: nat, xs: seq<T>, ys: seq<T>)
    requires 1 <= capacity && |q| <= capacity
    ensures PushAll(PushAll(q, capacity, xs), capacity, ys) == PushAll(q, capacity, xs + ys)
  {
    PushAllKeepsLast(q, capacity, xs);
    PushAllKeepsLast(PushAll(q, capacity, xs), capacity, ys);
    PushAllKeepsLast(q, capacity, xs + ys);
    assert q + (xs + ys) == q + xs + ys;
    LastOfLast(q + xs, ys, capacity);
  }

  // A batch that fits the free space evicts nothing.
  lemma {:induction false} PushAllFits<T>(q: seq<T>, capacity: nat, xs: seq<T>)
    requires 1 <= capacity && |q| + |xs| <= capacity
    ensures PushAll(q, capacity, xs) == q + xs
  {
    PushAllKeepsLast(q, capacity, xs);
  }

  /** What a ring owes its writers and readers. Of everything written, the ring holds a contiguous
      suffix; the positions taken by reads are strictly increasing and lie before that suffix; and
      every item written was read, is buffered, or was overwritten. */
  ghost predicate Accounts<T>(capacity: nat, ring: seq<T>, written: seq<T>, takenAt: seq<nat>, lost: nat) {
    && |ring| <= capacity
    && |ring| <= |written|
    && ring == written[|written| - |ring|..]
    && |written| == |takenAt| + |ring| + lost
    && (forall i :: 0 <= i < |takenAt| ==> takenAt[i] < |written| - |ring|)
    && (forall i, j :: 0 <= i < j < |takenAt| ==> takenAt[i] < takenAt[j])
  }

  // An overwriting write loses an item exactly when it finds the ring full.
  lemma WriteAccounts<T>(capacity: nat, ring: seq<T>, written: seq<T>, takenAt: seq<nat>, lost: nat, x: T)
    requires 1 <= capacity && Accounts(capacity, ring, written, takenAt, lost)
    ensures Accounts(capacity, Push(ring, capacity, x), written + [x], takenAt,
                     if |ring| == capacity then lost + 1 else lost)
  {
    var r := Push(ring, capacity, x);
    var w := written + [x];
    assert r == w[|w| - |r|..];
  }

  // A read takes the item at the first position not yet taken or lost.
  lemma ReadAccounts<T>(capacity: nat, ring: seq<T>, written: seq<T>, takenAt: seq<nat>, lost: nat)
    requires Accounts(capacity, ring, written, takenAt, lost) && ring != []
    ensures written[|written| - |ring|] == ring[0]
    ensures Accounts(capacity, ring[1..], written, takenAt + [|written| - |ring|], lost)
  {
    assert ring[1..] == written[|written| - |ring| + 1..];
  }
}
