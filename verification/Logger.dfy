/** src/threads/logger.c: the double buffer with its operations in place, and the logger thread with
    the threads that call Log as a state machine. */
module Loggers {
  import opened DropOldest
  import opened CircularBuffers

  const MESSAGE_LENGTH: nat := 1024

  // ----- The buffers, in place -----

  // What fputs writes of a message: the bytes before the first terminator.
  function Text(item: Item): (r: Item)
    ensures r <= item
    ensures 0 as Byte !in r
    ensures |r| < |item| ==> item[|r|] == 0
  {
    if item == [] || item[0] == 0 then [] else [item[0]] + Text(item[1..])
  }

  function Texts(items: seq<Item>): (r: seq<Item>) {
    seq(|items|, (i: nat) requires i < |items| => Text(Terminated(items[i])))
  }

  // Moving the oldest message to the end of the file leaves file ++ pending as it was.
  lemma MoveToFile(file: seq<Item>, pending: seq<Item>)
    requires pending != []
    ensures file + [Text(Terminated(pending[0]))] + Texts(pending[1..]) == file + Texts(pending)
  {
  }

  // The terminator logAllFromCbuf forces on the last byte.
  function Terminated(item: Item): Item {
    if item == [] then [] else item[|item| - 1 := 0]
  }

  // Forcing it changes nothing of a message that is terminated already, and cuts any other by one byte.
  lemma {:induction false} TerminatedText(item: Item)
    requires item != []
    ensures Text(Terminated(item)) == if 0 as Byte in item then Text(item) else item[..|item| - 1]
  {
    if |item| > 1 && item[0] != 0 {
      assert Terminated(item)[1..] == Terminated(item[1..]);
      assert item == [item[0]] + item[1..];
      TerminatedText(item[1..]);
    }
  }

  class Logger {
    var inBuf: CircularBuffer
    var secondaryBuf: CircularBuffer
    var file: seq<Item>

    ghost predicate Valid()
      reads this, inBuf, secondaryBuf
    {
      && inBuf != secondaryBuf && inBuf.buffer != secondaryBuf.buffer
      && inBuf.Valid() && secondaryBuf.Valid()
      && inBuf.itemSize == MESSAGE_LENGTH && secondaryBuf.itemSize == MESSAGE_LENGTH
    }

    constructor (capacity: nat)
      requires 1 <= capacity <= 0x8000_0000
      ensures Valid() && fresh(inBuf) && fresh(secondaryBuf) && fresh(inBuf.buffer) && fresh(secondaryBuf.buffer)
      ensures inBuf.Contents() == [] && secondaryBuf.Contents() == [] && file == []
      ensures inBuf.capacity == capacity && secondaryBuf.capacity == capacity
    {
      inBuf := new CircularBuffer(MESSAGE_LENGTH, capacity);
      secondaryBuf := new CircularBuffer(MESSAGE_LENGTH, capacity);
      file := [];
    }

    // Log, once the mutex is locked.
    method Log(message: Item)
      requires Valid() && |message| == MESSAGE_LENGTH
      modifies inBuf, inBuf.buffer
      ensures Valid()
      ensures inBuf.Contents() == Push(old(inBuf.Contents()), inBuf.capacity, message)
      ensures secondaryBuf.Contents() == old(secondaryBuf.Contents())
    {
      inBuf.Write(message);
    }

    // The two pointers trade places.
    method Swap()
      requires Valid()
      modifies this
      ensures Valid() && inBuf == old(secondaryBuf) && secondaryBuf == old(inBuf) && file == old(file)
      ensures inBuf.Contents() == old(secondaryBuf.Contents()) && secondaryBuf.Contents() == old(inBuf.Contents())
    {
      inBuf, secondaryBuf := secondaryBuf, inBuf;
    }

    // One turn of logAllFromCbuf: reads the oldest message, terminates it, and appends its text.
    method LogNext(cbuf: CircularBuffer, msgbuf: array<Byte>) returns (ok: bool)
      requires cbuf.Valid() && cbuf.itemSize == MESSAGE_LENGTH
      requires msgbuf.Length == MESSAGE_LENGTH && msgbuf != cbuf.buffer
      modifies this`file, cbuf, msgbuf
      ensures cbuf.Valid()
      ensures ok <==> old(cbuf.Contents()) != []
      ensures ok ==> cbuf.Contents() == old(cbuf.Contents())[1..]
      ensures ok ==> file == old(file) + [Text(Terminated(old(cbuf.Contents())[0]))]
      ensures !ok ==> cbuf.Contents() == [] && file == old(file)
    {
      ghost var before := cbuf.Contents();
      ok := cbuf.Read(msgbuf, 0);
      if ok {
        assert msgbuf[..] == before[0];
        msgbuf[msgbuf.Length - 1] := 0;
        assert msgbuf[..] == Terminated(before[0]);
        file := file + [Text(msgbuf[..])];
      }
    }

    // logAllFromCbuf: appends every message of cbuf to the file, oldest first, and leaves cbuf empty.
    method LogAllFromCbuf(cbuf: CircularBuffer)
      requires Valid() && (cbuf == inBuf || cbuf == secondaryBuf)
      modifies this`file, cbuf
      ensures Valid() && cbuf.Contents() == []
      ensures file == old(file) + Texts(old(cbuf.Contents()))
    {
      var msgbuf := new Byte[MESSAGE_LENGTH];
      ghost var all := file + Texts(cbuf.Contents());
      var ok := true;
      while ok
        invariant Valid() && file + Texts(cbuf.Contents()) == all
        invariant !ok ==> cbuf.Contents() == []
        decreases ok, |cbuf.Contents()|
      {
        if cbuf.Contents() != [] { MoveToFile(file, cbuf.Contents()); }
        ok := LogNext(cbuf, msgbuf);
      }
    }

    // The swap section of the loop: everything in the input ring goes to the file, in order; what the
    // other ring held is input again.
    method SwapAndLog()
      requires Valid()
      modifies this, inBuf
      ensures Valid() && inBuf == old(secondaryBuf) && secondaryBuf == old(inBuf)
      ensures inBuf.Contents() == old(secondaryBuf.Contents()) && secondaryBuf.Contents() == []
      ensures file == old(file) + Texts(old(inBuf.Contents()))
    {
      Swap();
      LogAllFromCbuf(secondaryBuf);
    }

    // The final flush, whose swap makes the older buffer the input: still in order.
    method FinalFlush()
      requires Valid()
      modifies this, inBuf, secondaryBuf
      ensures Valid() && inBuf.Contents() == [] && secondaryBuf.Contents() == []
      ensures file == old(file) + Texts(old(secondaryBuf.Contents())) + Texts(old(inBuf.Contents()))
    {
      Swap();
      LogAllFromCbuf(inBuf);
      LogAllFromCbuf(secondaryBuf);
    }
  }
}
