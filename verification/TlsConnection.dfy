/** The write queue and the connection as they work: objects whose handlers update them in place. */
module TlsConnection {
  import opened Common
  import opened ByteOrder
  import opened TlsFraming

  class WriteQueue {
    var msgs: seq<Message>
    var queuedSizeInBytes: nat

    ghost predicate Valid()
      reads this
    {
      queuedSizeInBytes == QueueSize(msgs)
    }

    constructor ()
      ensures Valid() && msgs == []
    {
      msgs, queuedSizeInBytes := [], 0;
    }

    /** The size of the queue after the push, or None when the queue is full and the message dropped. */
    method PushMsg(msg: Message) returns (r: Option<nat>)
      requires Valid()
      modifies this
      ensures Valid()
      ensures r.None? <==> old(queuedSizeInBytes) > MAX_QUEUE_SIZE_IN_BYTES
      ensures r.None? ==> msgs == old(msgs) && queuedSizeInBytes == old(queuedSizeInBytes)
      ensures r.Some? ==>
        msgs == old(msgs) + [msg] && r.value == |msgs| && queuedSizeInBytes == old(queuedSizeInBytes) + msg.Size()
    {
      if queuedSizeInBytes > MAX_QUEUE_SIZE_IN_BYTES {
        return None;
      }
      QueueSizeAppend(msgs, msg);
      queuedSizeInBytes := queuedSizeInBytes + msg.Size();
      msgs := msgs + [msg];
      r := Some(|msgs|);
    }

    method Pop() returns (r: Option<Message>)
      requires Valid()
      modifies this
      ensures Valid()
      ensures if old(msgs) == [] then r == None && msgs == [] else r == Some(old(msgs)[0]) && msgs == old(msgs)[1..]
    {
      if msgs == [] {
        return None;
      }
      r := Some(msgs[0]);
      queuedSizeInBytes := queuedSizeInBytes - msgs[0].Size();
      msgs := msgs[1..];
    }

    method Clear()
      modifies this
      ensures Valid() && msgs == []
    {
      msgs := [];
      queuedSizeInBytes := 0;
    }
  }

  class AsyncTlsConnection {
    const writeQueue: WriteQueue
    const readSizeBuf: array<Byte>
    const bufferLength: nat
    var writeMsg: Option<Message>
    var writeMsgUsed: bool
    var headerBytes: nat
    var readingBody: bool
    var disposed: bool
    ghost var started: seq<Message>
    ghost var delivered: seq<Message>

    ghost predicate Valid()
      reads this, writeQueue
    {
      && writeQueue.Valid() && readSizeBuf.Length == HEADER_SIZE
      && writeMsgUsed == writeMsg.Some?
      && headerBytes <= HEADER_SIZE
    }

    ghost function CurrentSender(): Sender
      reads this, writeQueue
    {
      Sender(writeMsg, writeQueue.msgs, writeQueue.queuedSizeInBytes)
    }

    ghost function CurrentReceiver(): Receiver
      requires Valid()
      reads this, writeQueue, readSizeBuf
    {
      Receiver(readSizeBuf[..headerBytes], readingBody, delivered, disposed)
    }

    constructor (bufferLength: nat)
      ensures Valid() && fresh(writeQueue) && fresh(readSizeBuf) && this.bufferLength == bufferLength
      ensures CurrentSender() == Sender(None, [], 0) && CurrentReceiver() == Receiver([], false, [], false)
      ensures started == []
    {
      writeQueue := new WriteQueue();
      readSizeBuf := new Byte[HEADER_SIZE](_ => 0);
      this.bufferLength := bufferLength;
      writeMsg, writeMsgUsed := None, false;
      headerBytes, readingBody, disposed := 0, false, false;
      started, delivered := [], [];
    }

    /** A weak compare-and-swap of the 'used' flag: it may fail although the flag is as expected. */
    method CompareExchangeWeak(expected: bool, desired: bool, spurious: bool) returns (ok: bool)
      modifies `writeMsgUsed
      ensures ok <==> old(writeMsgUsed) == expected && !spurious
      ensures writeMsgUsed == if ok then desired else old(writeMsgUsed)
    {
      ok := writeMsgUsed == expected && !spurious;
      if ok {
        writeMsgUsed := desired;
      }
    }

    /** write; nothing is written once the connection is disposed, or for no message. */
    method WriteMsg(msg: Option<Message>, spurious1: bool, spurious2: bool)
      requires Valid()
      modifies this, writeQueue
      ensures Valid() && headerBytes == old(headerBytes) && readingBody == old(readingBody)
      ensures disposed == old(disposed) && delivered == old(delivered)
      ensures if disposed || msg.None? then CurrentSender() == old(CurrentSender()) && started == old(started)
              else var w := Write(old(CurrentSender()), msg.value, spurious2);
                CurrentSender() == w.sender && started == old(started) + w.started
    {
      if disposed || msg.None? {
        return;
      }
      var used := CompareExchangeWeak(true, true, spurious1);
      if used {
        var _ := writeQueue.PushMsg(msg.value);
        return;
      }
      var taken := CompareExchangeWeak(false, true, spurious2);
      if !taken {
        var _ := writeQueue.PushMsg(msg.value);
        return;
      }
      writeMsg := msg;
      started := started + [msg.value];
    }

    /** The handler of a finished write. */
    method OnWriteDone(spurious1: bool, spurious2: bool)
      requires Valid() && writeMsg.Some?
      modifies this, writeQueue
      ensures Valid() && headerBytes == old(headerBytes) && readingBody == old(readingBody)
      ensures disposed == old(disposed) && delivered == old(delivered)
      ensures if disposed then CurrentSender() == old(CurrentSender()) && started == old(started)
              else var w := OnWritten(old(CurrentSender()), spurious2);
                CurrentSender() == w.sender && started == old(started) + w.started
    {
      if disposed {
        return;
      }
      writeMsg := None;
      writeMsgUsed := false;
      var next := writeQueue.Pop();
      WriteMsg(next, spurious1, spurious2);
    }

    /** The handler of a header read that transferred these bytes. */
    method OnHeaderRead(chunk: Bytes)
      requires Valid() && !readingBody && headerBytes + |chunk| <= HEADER_SIZE
      modifies this, readSizeBuf
      ensures Valid() && CurrentSender() == old(CurrentSender()) && started == old(started)
      ensures CurrentReceiver() ==
        if old(disposed) then old(CurrentReceiver()) else OnHeaderBytes(old(CurrentReceiver()), chunk, bufferLength)
    {
      if disposed {
        return;
      }
      var i := 0;
      while i < |chunk|
        modifies readSizeBuf
        invariant i <= |chunk|
        invariant readSizeBuf[..headerBytes + i] == old(readSizeBuf[..headerBytes]) + chunk[..i]
      {
        readSizeBuf[headerBytes + i] := chunk[i];
        i := i + 1;
      }
      assert chunk[..i] == chunk;
      headerBytes := headerBytes + |chunk|;
      if headerBytes == HEADER_SIZE {
        assert readSizeBuf[..headerBytes] == readSizeBuf[..];
        if ReadMsgSize(readSizeBuf[..]) > bufferLength {
          disposed := true;
        } else {
          readingBody := true;
        }
      }
    }

    /** The handler of a body read: delivers the message and goes back to reading a header. */
    method OnBodyRead(body: Bytes) returns (msg: Option<Message>)
      requires Valid() && readingBody && headerBytes == HEADER_SIZE
      modifies this
      ensures Valid() && CurrentSender() == old(CurrentSender()) && started == old(started)
      ensures CurrentReceiver() ==
        if old(disposed) then old(CurrentReceiver()) else OnBody(old(CurrentReceiver()), body)
      ensures msg.Some? ==> delivered == old(delivered) + [msg.value]
    {
      if disposed {
        return None;
      }
      assert readSizeBuf[..headerBytes] == readSizeBuf[..];
      msg := Some(Message(body, ReadEndpoint(readSizeBuf[..])));
      delivered := delivered + [msg.value];
      headerBytes, readingBody := 0, false;
    }
  }
}
