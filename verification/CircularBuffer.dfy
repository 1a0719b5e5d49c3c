/** The ring buffer of libs/circbuf: a flat byte buffer of itemSize * capacity bytes, read as
    capacity slots, of which itemCount, starting at readOffset, hold the items of a drop-oldest queue. */
module CircularBuffers {
  import opened Words
  import opened DropOldest

  newtype Byte = x: int | 0 <= x < 256

  type Item = seq<Byte>

  // ----- From bytes to slots -----

  // The itemSize bytes that start at byte i * itemSize.
  function Slot(bytes: seq<Byte>, itemSize: nat, i: nat): Item {
    var base := i * itemSize;
    if 0 <= base && base + itemSize <= |bytes| then bytes[base..base + itemSize] else []
  }

  // The first n slots of a flat buffer.
  function Slots(bytes: seq<Byte>, itemSize: nat, n: nat): (r: seq<Item>) {
    seq(n, (i: nat) => Slot(bytes, itemSize, i))
  }

  // item in place of the bytes from `at` on.
  function Splice(bytes: seq<Byte>, at: nat, item: Item): (r: seq<Byte>)
    requires at + |item| <= |bytes|
    ensures |r| == |bytes|
  {
    bytes[..at] + item + bytes[at + |item|..]
  }

  lemma NextSlot(itemSize: nat, i: nat)
    ensures (i + 1) * itemSize == i * itemSize + itemSize
  {
  }

  // Slots do not overlap: slot i ends before slot j starts.
  lemma {:induction false} SlotsApart(itemSize: nat, i: nat, j: nat)
    requires i < j
    ensures 0 <= i * itemSize
    ensures i * itemSize + itemSize <= j * itemSize
    decreases j
  {
    if 0 < i {
      NextSlot(itemSize, i - 1);
      SlotsApart(itemSize, i - 1, i);
    }
    NextSlot(itemSize, j - 1);
    if i < j - 1 {
      SlotsApart(itemSize, i, j - 1);
    }
  }

  // A flat buffer of n slots holds slot i at byte i * itemSize.
  lemma SlotAt(bytes: seq<Byte>, itemSize: nat, n: nat, i: nat)
    requires i < n && n * itemSize <= |bytes|
    ensures 0 <= i * itemSize && i * itemSize + itemSize <= |bytes|
    ensures Slots(bytes, itemSize, n)[i] == bytes[i * itemSize..i * itemSize + itemSize]
  {
    SlotsApart(itemSize, i, n);
  }

  // Replacing exactly the bytes of slot w replaces that slot and no other.
  lemma SlotsUpdate(bytes: seq<Byte>, itemSize: nat, n: nat, w: nat, item: Item)
    requires w < n && |item| == itemSize && n * itemSize <= |bytes|
    ensures 0 <= w * itemSize && w * itemSize + itemSize <= |bytes|
    ensures Slots(Splice(bytes, w * itemSize, item), itemSize, n) == Slots(bytes, itemSize, n)[w := item]
  {
    SlotsApart(itemSize, w, n);
    var at := w * itemSize;
    var after := Splice(bytes, at, item);
    forall i: nat | i < n
      ensures Slot(after, itemSize, i) == Slots(bytes, itemSize, n)[w := item][i]
    {
      SlotsApart(itemSize, i, n);
      if i < w {
        SlotsApart(itemSize, i, w);
        SpliceElsewhere(bytes, at, item, i * itemSize, i * itemSize + itemSize);
      } else if w < i {
        SlotsApart(itemSize, w, i);
        SpliceElsewhere(bytes, at, item, i * itemSize, i * itemSize + itemSize);
      } else {
        assert after[at..at + itemSize] == item;
      }
    }
  }

  lemma SpliceElsewhere(bytes: seq<Byte>, at: nat, item: Item, lo: nat, hi: nat)
    requires at + |item| <= |bytes| && lo <= hi <= |bytes|
    requires hi <= at || at + |item| <= lo
    ensures Splice(bytes, at, item)[lo..hi] == bytes[lo..hi]
  {
  }

  // Laying one more item after the first k slots of a flat output extends those slots by it.
  lemma SlotsAppend(bytes: seq<Byte>, itemSize: nat, k: nat, item: Item)
    requires |item| == itemSize && 0 <= k * itemSize && k * itemSize + itemSize <= |bytes|
    ensures Slots(Splice(bytes, k * itemSize, item), itemSize, k + 1) == Slots(bytes, itemSize, k) + [item]
  {
    NextSlot(itemSize, k);
    SlotsUpdate(bytes, itemSize, k + 1, k, item);
    assert Slots(bytes, itemSize, k + 1) == Slots(bytes, itemSize, k) + [Slot(bytes, itemSize, k)];
  }

  // ----- From slots to the queue -----

  // The slot that lies k places after readOffset.
  function SlotIndex(capacity: nat, readOffset: nat, k: nat): nat
    requires readOffset < capacity && k <= capacity
  {
    if readOffset + k < capacity then readOffset + k else readOffset + k - capacity
  }

  // The queue held by a ring whose oldest item is in slot readOffset.
  function View(slots: seq<Item>, readOffset: nat, itemCount: nat): seq<Item>
    requires readOffset < |slots| && itemCount <= |slots|
  {
    seq(itemCount, (k: nat) requires k < itemCount => slots[SlotIndex(|slots|, readOffset, k)])
  }

  // The slot an overwriting write picks, with the sum taken in 32 bits as the code does.
  function WriteSlot(capacity: nat, readOffset: nat, itemCount: nat): int {
    var writeOffset := Wrap32(readOffset + itemCount);
    if writeOffset >= capacity then writeOffset - capacity else writeOffset
  }

  // Below twice the capacity, a remainder is at most one subtraction away.
  lemma RemainderBelowTwice(x: nat, m: nat)
    requires 0 < m && x < 2 * m
    ensures x % m == if x < m then x else x - m
  {
    if m <= x {
      assert x / m == 1;
    }
  }

  // The slot picked is the true one exactly when the 32-bit sum does not wrap.
  lemma WriteSlotExactIff(capacity: nat, readOffset: nat, itemCount: nat)
    requires readOffset < capacity < TWO_32 && itemCount <= capacity
    ensures WriteSlot(capacity, readOffset, itemCount) == (readOffset + itemCount) % capacity
       <==> readOffset + itemCount < TWO_32
  {
    RemainderBelowTwice(readOffset + itemCount, capacity);
  }

  // So a ring of c slots is right in every in-range state exactly when 1 <= c <= 2^31.
  lemma WriteSlotExactForCapacity(capacity: nat)
    requires 1 <= capacity < TWO_32
    ensures capacity <= 0x8000_0000
       <==> forall r: nat, c: nat :: r < capacity && c <= capacity ==> WriteSlot(capacity, r, c) == (r + c) % capacity
  {
    if capacity <= 0x8000_0000 {
      forall r: nat, c: nat | r < capacity && c <= capacity
        ensures WriteSlot(capacity, r, c) == (r + c) % capacity
      {
        WriteSlotExactIff(capacity, r, c);
      }
    } else {
      WriteSlotExactIff(capacity, capacity - 1, capacity);
    }
  }

  // A write to a ring with room extends the window by the slot after it.
  lemma WriteExtends(slots: seq<Item>, readOffset: nat, itemCount: nat, item: Item)
    requires readOffset < |slots| && itemCount < |slots|
    ensures View(slots[SlotIndex(|slots|, readOffset, itemCount) := item], readOffset, itemCount + 1)
         == View(slots, readOffset, itemCount) + [item]
  {
  }

  // A write to a full ring replaces its oldest item and moves the window past it.
  lemma WriteEvicts(slots: seq<Item>, readOffset: nat, item: Item)
    requires readOffset < |slots|
    ensures View(slots[readOffset := item], SlotIndex(|slots|, readOffset, 1), |slots|)
         == View(slots, readOffset, |slots|)[1..] + [item]
  {
  }

  // Either way the write refines the overwriting write of the queue.
  lemma WriteRefinesPush(slots: seq<Item>, readOffset: nat, itemCount: nat, item: Item, newOffset: nat, newCount: nat)
    requires readOffset < |slots| && itemCount <= |slots|
    requires itemCount < |slots| ==> newOffset == readOffset && newCount == itemCount + 1
    requires itemCount == |slots| ==> newOffset == SlotIndex(|slots|, readOffset, 1) && newCount == itemCount
    ensures View(slots[SlotIndex(|slots|, readOffset, itemCount) := item], newOffset, newCount)
         == Push(View(slots, readOffset, itemCount), |slots|, item)
  {
    if itemCount < |slots| {
      WriteExtends(slots, readOffset, itemCount, item);
    } else {
      WriteEvicts(slots, readOffset, item);
    }
  }

  // A read moves the window past the oldest item.
  lemma ReadRefinesTail(slots: seq<Item>, readOffset: nat, itemCount: nat)
    requires readOffset < |slots| && 1 <= itemCount <= |slots|
    ensures View(slots, readOffset, itemCount)[0] == slots[readOffset]
    ensures View(slots, SlotIndex(|slots|, readOffset, 1), itemCount - 1) == View(slots, readOffset, itemCount)[1..]
  {
  }

  // What the documentation promises of a batched peek: the first min(n, count) items, in order.
  predicate PeeksFirst(contents: seq<Item>, peeked: seq<Item>, n: nat) {
    peeked == contents[..Min(n, |contents|)]
  }

  function Copies(item: Item, n: nat): seq<Item> {
    seq(n, _ => item)
  }

  // The code copies the head item n times. That is what was promised exactly when the ring is
  // empty, or when n items are there and all equal the head.
  lemma PeekManyKeepsPromiseIff(contents: seq<Item>, peeked: seq<Item>, n: nat)
    requires peeked == if contents == [] then [] else Copies(contents[0], n)
    ensures PeeksFirst(contents, peeked, n)
       <==> contents == [] || (n <= |contents| && forall k :: 0 <= k < n ==> contents[k] == contents[0])
  {
    if PeeksFirst(contents, peeked, n) && contents != [] {
      assert |peeked| == n;
      forall k | 0 <= k < n ensures contents[k] == contents[0] {
        assert peeked[k] == contents[k];
      }
    }
  }

  // The queue after the first i of n items of a flat input were written to it.
  ghost function Written(before: seq<Item>, capacity: nat, input: seq<Byte>, itemSize: nat, n: nat, i: nat): seq<Item>
    requires i <= n
  {
    Last(before + Slots(input, itemSize, n)[..i], capacity)
  }

  lemma WrittenNext(before: seq<Item>, capacity: nat, input: seq<Byte>, itemSize: nat, n: nat, i: nat)
    requires 1 <= capacity && i < n && n * itemSize <= |input|
    ensures 0 <= i * itemSize && i * itemSize + itemSize == (i + 1) * itemSize <= |input|
    ensures Written(before, capacity, input, itemSize, n, i + 1)
         == Push(Written(before, capacity, input, itemSize, n, i), capacity, input[i * itemSize..i * itemSize + itemSize])
  {
    NextSlot(itemSize, i);
    SlotAt(input, itemSize, n, i);
    PushNext(before, capacity, Slots(input, itemSize, n), i);
  }

  // The first k items lie in the first k slots of the output, and the rest of it is as it was.
  ghost predicate LaidOut(original: seq<Byte>, now: seq<Byte>, itemSize: nat, items: seq<Item>, k: nat) {
    && |now| == |original| && k <= |items|
    && 0 <= k * itemSize <= |now|
    && Slots(now, itemSize, k) == items[..k]
    && now[k * itemSize..] == original[k * itemSize..]
  }

  lemma LaidOutNext(original: seq<Byte>, now: seq<Byte>, itemSize: nat, items: seq<Item>, k: nat)
    requires LaidOut(original, now, itemSize, items, k) && k < |items| && |items[k]| == itemSize
    requires k * itemSize + itemSize <= |now|
    ensures LaidOut(original, Splice(now, k * itemSize, items[k]), itemSize, items, k + 1)
  {
    var at := k * itemSize;
    var after := Splice(now, at, items[k]);
    SlotsAppend(now, itemSize, k, items[k]);
    NextSlot(itemSize, k);
    assert after[at + itemSize..] == now[at..][itemSize..] == original[at..][itemSize..] == original[at + itemSize..];
  }

  class CircularBuffer {
    const itemSize: nat
    const capacity: nat
    const buffer: array<Byte>
    var readOffset: nat
    var itemCount: nat

    ghost predicate Valid()
      reads this
    {
      && 1 <= capacity <= 0x8000_0000
      && buffer.Length == itemSize * capacity
      && readOffset < capacity
      && itemCount <= capacity
    }

    ghost function AllSlots(): (r: seq<Item>)
      reads this, buffer
      ensures |r| == capacity
    {
      Slots(buffer[..], itemSize, capacity)
    }

    // The queue this ring stands for.
    ghost function Contents(): (r: seq<Item>)
      reads this, buffer
      requires Valid()
      ensures |r| == itemCount
    {
      View(AllSlots(), readOffset, itemCount)
    }

    // Any capacity is accepted; the ring works exactly when every slot computed is right.
    constructor (itemSize: nat, capacity: nat)
      requires capacity < TWO_32
      ensures fresh(buffer) && buffer.Length == itemSize * capacity
      ensures this.itemSize == itemSize && this.capacity == capacity
      ensures Valid() <==> 1 <= capacity <= 0x8000_0000
      ensures Valid() ==> Contents() == []
    {
      this.itemSize := itemSize;
      this.capacity := capacity;
      buffer := new Byte[itemSize * capacity];
      readOffset, itemCount := 0, 0;
    }

    method Clear()
      requires Valid()
      modifies this
      ensures Valid() && Contents() == []
    {
      itemCount := 0;
      readOffset := 0;
    }

    predicate IsEmpty()
      reads this
      requires Valid()
      ensures IsEmpty() <==> Contents() == []
    {
      0 == itemCount
    }

    predicate IsFull()
      reads this
      requires Valid()
      ensures IsFull() <==> |Contents()| == capacity
    {
      itemCount == capacity
    }

    // Overwrites exactly one slot; evicts exactly the oldest item, and only from a full ring.
    method Write(item: Item)
      requires Valid() && |item| == itemSize
      modifies this, buffer
      ensures Valid()
      ensures Contents() == Push(old(Contents()), capacity, item)
      ensures AllSlots() == old(AllSlots())[SlotIndex(capacity, old(readOffset), old(itemCount)) := item]
    {
      ghost var slots, wasOffset, wasCount := AllSlots(), readOffset, itemCount;
      var writeOffset := Wrap32(readOffset + itemCount);
      if writeOffset >= capacity {
        writeOffset := writeOffset - capacity;
      }
      assert writeOffset == SlotIndex(capacity, wasOffset, wasCount);
      if writeOffset == readOffset && 0 < itemCount {
        readOffset := if Wrap32(writeOffset + 1) < capacity then Wrap32(writeOffset + 1) else 0;
      } else {
        itemCount := Wrap32(itemCount + 1);
      }
      WriteRefinesPush(slots, wasOffset, wasCount, item, readOffset, itemCount);
      StoreAt(writeOffset, item);
    }

    // memcpy of one item to the slot at writeOffset.
    method StoreAt(writeOffset: nat, item: Item)
      requires writeOffset < capacity && |item| == itemSize && buffer.Length == itemSize * capacity
      modifies buffer
      ensures AllSlots() == old(AllSlots())[writeOffset := item]
    {
      SlotsApart(itemSize, writeOffset, capacity);
      var base := writeOffset * itemSize;
      forall i | 0 <= i < itemSize {
        buffer[base + i] := item[i];
      }
      assert buffer[..] == Splice(old(buffer[..]), base, item);
      SlotsUpdate(old(buffer[..]), itemSize, capacity, writeOffset, item);
    }

    method TryWrite(item: Item) returns (ok: bool)
      requires Valid() && |item| == itemSize
      modifies this, buffer
      ensures Valid()
      ensures ok <==> old(|Contents()|) < capacity
      ensures Contents() == if ok then old(Contents()) + [item] else old(Contents())
    {
      if itemCount >= capacity {
        return false;
      }
      Write(item);
      return true;
    }

    // Copies the oldest item to out[at..]; a failed peek leaves out as it was.
    method Peek(out: array<Byte>, at: nat) returns (ok: bool)
      requires Valid() && out != buffer
      requires itemCount > 0 ==> at + itemSize <= out.Length
      modifies out
      ensures ok <==> Contents() != []
      ensures ok ==> |Contents()[0]| == itemSize && out[..] == Splice(old(out[..]), at, Contents()[0])
      ensures !ok ==> out[..] == old(out[..])
    {
      if 1 > itemCount {
        return false;
      }
      SlotsApart(itemSize, readOffset, capacity);
      var base := readOffset * itemSize;
      forall i | 0 <= i < itemSize {
        out[at + i] := buffer[base + i];
      }
      ReadRefinesTail(AllSlots(), readOffset, itemCount);
      assert Contents()[0] == buffer[base..base + itemSize];
      return true;
    }

    // Peek, then drop the item; a failed read changes nothing.
    method Read(out: array<Byte>, at: nat) returns (ok: bool)
      requires Valid() && out != buffer
      requires itemCount > 0 ==> at + itemSize <= out.Length
      modifies this, out
      ensures Valid() && AllSlots() == old(AllSlots())
      ensures ok <==> old(Contents()) != []
      ensures ok ==> Contents() == old(Contents())[1..]
      ensures ok ==> old(|Contents()[0]|) == itemSize && out[..] == Splice(old(out[..]), at, old(Contents()[0]))
      ensures !ok ==> Contents() == [] && out[..] == old(out[..])
    {
      if 1 > itemCount {
        return false;
      }
      ReadRefinesTail(AllSlots(), readOffset, itemCount);
      ok := Peek(out, at);
      itemCount := itemCount - 1;
      readOffset := readOffset + 1;
      if readOffset == capacity {
        readOffset := 0;
      }
      return true;
    }

    // Writes n items from a flat input, overwriting as needed, for any n.
    method WriteMany(input: seq<Byte>, n: nat)
      requires Valid() && n * itemSize <= |input|
      modifies this, buffer
      ensures Valid()
      ensures Contents() == Last(old(Contents()) + Slots(input, itemSize, n), capacity)
    {
      ghost var before := Contents();
      var inputAt := 0;
      var i := 0;
      assert Written(before, capacity, input, itemSize, n, 0) == before;
      while i < n
        invariant Valid() && 0 <= i <= n
        invariant inputAt == i * itemSize
        invariant Contents() == Written(before, capacity, input, itemSize, n, i)
      {
        WrittenNext(before, capacity, input, itemSize, n, i);
        Write(input[inputAt..inputAt + itemSize]);
        inputAt := inputAt + itemSize;
        i := i + 1;
      }
      assert Slots(input, itemSize, n)[..n] == Slots(input, itemSize, n);
    }

    // Appends as many leading items of the input as there is room for, and evicts none.
    method TryWriteMany(input: seq<Byte>, n: nat) returns (written: nat)
      requires Valid() && n * itemSize <= |input|
      modifies this, buffer
      ensures Valid()
      ensures written == Min(n, capacity - old(|Contents()|))
      ensures Contents() == old(Contents()) + Slots(input, itemSize, n)[..written]
    {
      if 0 == n {
        return 0;
      }
      var available := capacity - itemCount;
      written := if n < available then n else available;
      assert written * itemSize + (n - written) * itemSize == n * itemSize;
      assert 0 <= (n - written) * itemSize;
      WriteMany(input, written);
      assert Slots(input, itemSize, n)[..written] == Slots(input, itemSize, written);
    }

    // Removes the first min(n, count) items and lays them out in order; the rest of out is untouched.
    method ReadMany(out: array<Byte>, n: nat) returns (count: nat)
      requires Valid() && out != buffer
      requires Min(n, itemCount) * itemSize <= out.Length
      modifies this, out
      ensures Valid()
      ensures count == Min(n, old(|Contents()|))
      ensures Contents() == old(Contents())[count..]
      ensures Slots(out[..], itemSize, count) == old(Contents())[..count]
      ensures 0 <= count * itemSize <= out.Length && out[count * itemSize..] == old(out[count * itemSize..])
    {
      ghost var before, original := Contents(), out[..];
      ghost var total := Min(n, itemCount);
      var outAt := 0;
      count := 0;
      SlotsApart(itemSize, 0, total + 1);
      assert LaidOut(original, out[..], itemSize, before, 0);
      while count < n
        invariant Valid() && count <= total
        invariant outAt == count * itemSize
        invariant Contents() == before[count..]
        invariant LaidOut(original, out[..], itemSize, before, count)
        decreases n - count
      {
        if count < total { SlotsApart(itemSize, count, total); }
        ghost var outBefore := out[..];
        var ok := Read(out, outAt);
        if !ok {
          break;
        }
        LaidOutNext(original, outBefore, itemSize, before, count);
        outAt := outAt + itemSize;
        count := count + 1;
      }
    }

    // Never advances: every slot filled is a copy of the head.
    method PeekMany(out: array<Byte>, n: nat) returns (count: nat)
      requires Valid() && out != buffer
      requires itemCount > 0 ==> n * itemSize <= out.Length
      modifies out
      ensures count == if Contents() == [] then 0 else n
      ensures Contents() == [] ==> out[..] == old(out[..])
      ensures Contents() != [] ==> LaidOut(old(out[..]), out[..], itemSize, Copies(Contents()[0], n), n)
    {
      ghost var contents, original := Contents(), out[..];
      var outAt := 0;
      count := 0;
      while count < n
        invariant count <= n && (count > 0 ==> contents != [])
        invariant Contents() == contents
        invariant outAt == count * itemSize && 0 <= outAt <= out.Length
        invariant contents == [] ==> out[..] == original
        invariant contents != [] ==> LaidOut(original, out[..], itemSize, Copies(contents[0], n), count)
        decreases n - count
      {
        SlotsApart(itemSize, count, n);
        ghost var outBefore := out[..];
        var ok := Peek(out, outAt);
        if !ok {
          break;
        }
        LaidOutNext(original, outBefore, itemSize, Copies(contents[0], n), count);
        outAt := outAt + itemSize;
        count := count + 1;
      }
    }
  }

  // What was in a ring and what was added to it come back unchanged, in order: all of it, when it is
  // read by the number of its items, up to the input items there was no room for.
  method RoundTrip(ring: CircularBuffer, input: seq<Byte>, n: nat, out: array<Byte>) returns (count: nat)
    requires ring.Valid() && out != ring.buffer
    requires 0 <= n * ring.itemSize <= |input| && ring.capacity * ring.itemSize <= out.Length
    modifies ring, ring.buffer, out
    ensures ring.Valid() && ring.Contents() == []
    ensures count == Min(old(|ring.Contents()|) + n, ring.capacity)
    ensures Slots(out[..], ring.itemSize, count)
         == old(ring.Contents()) + Slots(input, ring.itemSize, n)[..count - old(|ring.Contents()|)]
  {
    var written := ring.TryWriteMany(input, n);
    SlotsApart(ring.itemSize, ring.itemCount, ring.capacity + 1);
    count := ring.ReadMany(out, ring.capacity);
  }
}
