/** Messages over a TLS connection: the in-order writer, its queue, and the framing reader. */
module TlsFraming {
  import opened Common
  import opened ByteOrder

  const SIZE_FIELD: nat := 4
  const ENDPOINT_FIELD: nat := 8
  const HEADER_SIZE: nat := 12
  const MAX_QUEUE_SIZE_IN_BYTES: nat := 1024 * 1024 * 1024

  datatype Message = Message(payload: Bytes, endpoint: nat) {
    /** The size and the endpoint fit their header fields. */
    predicate Fits() {
      InWidth(|payload|, SIZE_FIELD) && InWidth(endpoint, ENDPOINT_FIELD)
    }

    function Size(): nat {
      HEADER_SIZE + |payload|
    }
  }

  // ---------- framing ----------

  function Header(m: Message): (r: Bytes)
    requires m.Fits()
    ensures |r| == HEADER_SIZE
  {
    BigEndian(|m.payload|, SIZE_FIELD) + BigEndian(m.endpoint, ENDPOINT_FIELD)
  }

  function Frame(m: Message): (r: Bytes)
    requires m.Fits()
    ensures |r| == m.Size()
  {
    Header(m) + m.payload
  }

  predicate AllFit(ms: seq<Message>) {
    forall i :: 0 <= i < |ms| ==> ms[i].Fits()
  }

  function Frames(ms: seq<Message>): Bytes
    requires AllFit(ms)
  {
    if ms == [] then [] else Frame(ms[0]) + Frames(ms[1..])
  }

  function ReadMsgSize(header: Bytes): nat
    requires |header| == HEADER_SIZE
  {
    FromBigEndian(header[..SIZE_FIELD])
  }

  function ReadEndpoint(header: Bytes): nat
    requires |header| == HEADER_SIZE
  {
    FromBigEndian(header[SIZE_FIELD..])
  }

  lemma {:induction false} HeaderRoundTrip(m: Message)
    requires m.Fits()
    ensures ReadMsgSize(Header(m)) == |m.payload| && ReadEndpoint(Header(m)) == m.endpoint
  {
    hide BigEndian, FromBigEndian;
    var h := Header(m);
    assert h[..SIZE_FIELD] == BigEndian(|m.payload|, SIZE_FIELD);
    assert h[SIZE_FIELD..] == BigEndian(m.endpoint, ENDPOINT_FIELD);
    BigEndianRoundTrip(|m.payload|, SIZE_FIELD);
    BigEndianRoundTrip(m.endpoint, ENDPOINT_FIELD);
  }

  lemma {:induction false} FramesAppend(ms: seq<Message>, m: Message)
    requires AllFit(ms) && m.Fits()
    ensures Frames(ms + [m]) == Frames(ms) + Frame(m)
  {
    hide Frame, Message.Fits;
    if ms == [] {
      assert [m][1..] == [];
      assert Frames([m]) == Frame(m) + Frames([]);
    } else {
      FramesAppend(ms[1..], m);
      assert (ms + [m])[1..] == ms[1..] + [m];
      Assoc(Frame(ms[0]), Frames(ms[1..]), Frame(m));
    }
  }

  lemma {:induction false} FramesSplit(ms: seq<Message>, n: nat)
    requires AllFit(ms) && n <= |ms|
    ensures Frames(ms) == Frames(ms[..n]) + Frames(ms[n..])
  {
    hide Frame, Message.Fits;
    if n > 0 {
      FramesSplit(ms[1..], n - 1);
      var front, back := ms[..n][1..], ms[n..];
      assert ms[1..][..n - 1] == front && ms[1..][n - 1..] == back;
      assert Frames(ms[..n]) == Frame(ms[0]) + Frames(front);
      Assoc(Frame(ms[0]), Frames(front), Frames(back));
    } else {
      assert ms[..0] == [] && ms[0..] == ms;
    }
  }

  // ---------- the writer ----------

  /** The message being written, if any, and those waiting. */
  datatype Sender = Sender(inFlight: Option<Message>, queue: seq<Message>, queuedBytes: nat)

  function QueueSize(queue: seq<Message>): nat {
    if queue == [] then 0 else queue[0].Size() + QueueSize(queue[1..])
  }

  /** WriteQueue::push: a message is dropped when the queue is already over its limit. */
  function Push(s: Sender, m: Message): (Sender, bool) {
    if s.queuedBytes > MAX_QUEUE_SIZE_IN_BYTES then (s, false)
    else (s.(queue := s.queue + [m], queuedBytes := s.queuedBytes + m.Size()), true)
  }

  /** What a step of the writer starts to write and whether the message it was given, if any, is kept. */
  datatype Written = Written(sender: Sender, started: seq<Message>, accepted: bool)

  /** write, for a new message; spurious says that the second compare-and-swap failed though no write was in flight. */
  function Write(s: Sender, m: Message, spurious: bool): Written {
    if s.inFlight.Some? || spurious then
      var (s', accepted) := Push(s, m);
      Written(s', [], accepted)
    else Written(s.(inFlight := Some(m)), [m], true)
  }

  /** The completion handler: the next message in the queue, if any, is taken out and written like a new one. */
  function OnWritten(s: Sender, spurious: bool): Written {
    if s.queue == [] then Written(s.(inFlight := None), [], true)
    else
      var m := s.queue[0];
      var popped := if s.queuedBytes >= m.Size() then s.queuedBytes - m.Size() else 0;
      Write(Sender(None, s.queue[1..], popped), m, spurious)
  }

  predicate SenderOk(s: Sender) {
    && (s.queue != [] ==> s.inFlight.Some?)
    && s.queuedBytes == QueueSize(s.queue)
    && (s.queue != [] ==> s.queuedBytes <= MAX_QUEUE_SIZE_IN_BYTES + s.queue[|s.queue| - 1].Size())
  }

  lemma {:induction false} QueueSizeAppend(queue: seq<Message>, m: Message)
    ensures QueueSize(queue + [m]) == QueueSize(queue) + m.Size()
  {
    if queue == [] {
      assert [m][1..] == [];
    } else {
      QueueSizeAppend(queue[1..], m);
      assert (queue + [m])[1..] == queue[1..] + [m];
    }
  }

  /** One write in flight at a time, messages start in the order of acceptance, and the queue stays within bounds. */
  lemma {:induction false} WriteKeepsOrder(s: Sender, m: Message)
    requires SenderOk(s)
    ensures var w := Write(s, m, false);
      && SenderOk(w.sender) && w.sender.inFlight.Some?
      && (s.inFlight.Some? ==> w.started == [] && w.sender.inFlight == s.inFlight)
      && w.started + w.sender.queue == if w.accepted then s.queue + [m] else s.queue
  {
    QueueSizeAppend(s.queue, m);
  }

  lemma {:induction false} OnWrittenKeepsOrder(s: Sender)
    requires SenderOk(s)
    ensures var w := OnWritten(s, false);
      && SenderOk(w.sender) && w.started + w.sender.queue == s.queue
      && (w.sender.inFlight.Some? <==> s.queue != [])
  {
    if s.queue != [] {
      assert s.queue == [s.queue[0]] + s.queue[1..];
    }
  }

  /** A write keeps the sender in order unless the compare-and-swap fails spuriously while nothing is in flight. */
  lemma {:induction false} WriteOkUnlessSpuriousWhenIdle(s: Sender, m: Message, spurious: bool)
    requires SenderOk(s)
    ensures SenderOk(Write(s, m, spurious).sender) <==> !(spurious && s.inFlight.None?)
  {
    QueueSizeAppend(s.queue, m);
    if !spurious || s.inFlight.Some? {
      WriteKeepsOrder(s, m);
    }
  }

  /** A spurious failure of the compare-and-swap leaves a message waiting with nothing in flight, and reorders. */
  lemma {:induction false} SpuriousFailureReorders(m1: Message, m2: Message)
    ensures var s0 := Sender(None, [], 0);
      var w1 := Write(s0, m1, true);
      var w2 := Write(w1.sender, m2, false);
      var w3 := OnWritten(w2.sender, false);
      && w1.accepted && !SenderOk(w1.sender)
      && w1.started + w2.started + w3.started == [m2, m1]
  {
    var s1 := Sender(None, [m1], m1.Size());
    assert [] + [m1] == [m1];
    assert Write(Sender(None, [], 0), m1, true).sender == s1;
  }

  /** What a spurious failure in the completion handler does to the next message: it goes to the back, or is dropped. */
  lemma {:induction false} SpuriousCompletion(s: Sender)
    requires SenderOk(s) && s.queue != []
    ensures var w := OnWritten(s, true);
      && w.started == [] && w.sender.inFlight.None?
      && (w.accepted <==> QueueSize(s.queue[1..]) <= MAX_QUEUE_SIZE_IN_BYTES)
      && w.sender.queue == if w.accepted then s.queue[1..] + [s.queue[0]] else s.queue[1..]
  {
  }

  /** A completion keeps the sender in order unless the compare-and-swap fails spuriously with messages waiting. */
  lemma {:induction false} CompletionOkUnlessSpuriousWhenWaiting(s: Sender, spurious: bool)
    requires SenderOk(s)
    ensures SenderOk(OnWritten(s, spurious).sender) <==> !(spurious && s.queue != [])
  {
    hide QueueSize;
    if spurious && s.queue != [] {
      SpuriousCompletion(s);
    } else {
      OnWrittenKeepsOrder(s);
    }
  }

  /** Three messages accepted in order go out in the opposite order. */
  lemma {:induction false} CompletionReorders(m0: Message, m1: Message, m2: Message, m3: Message)
    requires m2.Size() <= MAX_QUEUE_SIZE_IN_BYTES
    ensures var s0 := Sender(Some(m0), [m1, m2], m1.Size() + m2.Size());
      var w1 := OnWritten(s0, true);
      var w2 := Write(w1.sender, m3, false);
      var w3 := OnWritten(w2.sender, false);
      var w4 := OnWritten(w3.sender, false);
      && w1.accepted && w2.accepted
      && w1.started + w2.started + w3.started + w4.started == [m3, m2, m1]
  {
    var s0 := Sender(Some(m0), [m1, m2], m1.Size() + m2.Size());
    assert [m1, m2][1..] == [m2] && [m2] + [m1] == [m2, m1] && [m2, m1][1..] == [m1];
    var s1 := OnWritten(s0, true).sender;
    assert s1.inFlight.None? && s1.queue == [m2, m1];
    var s2 := Write(s1, m3, false).sender;
    assert s2.queue == [m2, m1];
    var s3 := OnWritten(s2, false).sender;
    assert s3.queue == [m1];
  }

  /** With more than the limit behind it, the next message is gone. */
  lemma {:induction false} CompletionLoses(m0: Message, m1: Message, m2: Message)
    requires m1.Size() <= MAX_QUEUE_SIZE_IN_BYTES < m2.Size()
    ensures var s0 := Sender(Some(m0), [m1, m2], m1.Size() + m2.Size());
      var w := OnWritten(s0, true);
      SenderOk(s0) && w.started == [] && w.sender.queue == [m2] && !w.accepted
  {
    var s0 := Sender(Some(m0), [m1, m2], m1.Size() + m2.Size());
    assert [m1, m2][1..] == [m2] && [m2][1..] == [];
    assert QueueSize([m2]) == m2.Size();
    SpuriousCompletion(s0);
  }

  // ---------- the reader ----------

  /** The header bytes read so far, whether the body is being read, and what was delivered. */
  datatype Receiver = Receiver(header: Bytes, inBody: bool, delivered: seq<Message>, disposed: bool)

  /** The handler of a header read that transferred some bytes. */
  function OnHeaderBytes(r: Receiver, chunk: Bytes, bufferLength: nat): Receiver
    requires |r.header| + |chunk| <= HEADER_SIZE
  {
    var header := r.header + chunk;
    if |header| < HEADER_SIZE then r.(header := header)
    else if ReadMsgSize(header) > bufferLength then r.(header := header, disposed := true)
    else r.(header := header, inBody := true)
  }

  /** The handler of a body read. */
  function OnBody(r: Receiver, body: Bytes): Receiver
    requires |r.header| == HEADER_SIZE
  {
    r.(header := [], inBody := false, delivered := r.delivered + [Message(body, ReadEndpoint(r.header))])
  }

  // ---------- a connection ----------

  /** Both ends: started messages are on the wire, of which the receiver has taken pos bytes. */
  datatype Link = Link(
    sender: Sender, accepted: seq<Message>, started: seq<Message>, pos: nat, receiver: Receiver)

  /** Whether the compare-and-swap of a send or a completion fails spuriously is part of the event. */
  datatype Event =
    | Send(msg: Message, spurious: bool)
    | WriteDone(spurious: bool)
    | ReadHeader(n: nat)
    | ReadBody

  /** Steps that cannot happen in a state leave it as it is. */
  function Step(l: Link, bufferLength: nat, e: Event): Link
    requires AllFit(l.started)
  {
    var wire := Frames(l.started);
    match e
    case Send(m, spurious) =>
      var w := Write(l.sender, m, spurious);
      l.(sender := w.sender, started := l.started + w.started,
         accepted := if w.accepted then l.accepted + [m] else l.accepted)
    case WriteDone(spurious) =>
      if l.sender.inFlight.None? then l
      else
        var w := OnWritten(l.sender, spurious);
        l.(sender := w.sender, started := l.started + w.started)
    case ReadHeader(n) =>
      var r := l.receiver;
      if r.disposed || r.inBody || |r.header| + n > HEADER_SIZE || l.pos + n > |wire| then l
      else l.(pos := l.pos + n, receiver := OnHeaderBytes(r, wire[l.pos..l.pos + n], bufferLength))
    case ReadBody =>
      var r := l.receiver;
      if r.disposed || !r.inBody || |r.header| != HEADER_SIZE then l
      else
        var n := ReadMsgSize(r.header);
        if l.pos + n > |wire| then l
        else l.(pos := l.pos + n, receiver := OnBody(r, wire[l.pos..l.pos + n]))
  }

  /** What was accepted is on the wire or waiting, in order. */
  predicate SenderLinkOk(l: Link) {
    && SenderOk(l.sender) && AllFit(l.accepted) && AllFit(l.started)
    && l.accepted == l.started + l.sender.queue
    && (l.started == [] ==> l.sender.inFlight.None?)
  }

  /**
   * The receiver has delivered the first messages, none longer than its buffer, and read part of the header of the
   * next. With a whole header it reads the body if that fits the buffer, and has stopped otherwise.
   */
  predicate ReceiverOk(l: Link, bufferLength: nat)
    requires AllFit(l.started)
  {
    var r, n := l.receiver, |l.receiver.delivered|;
    && n <= |l.started| && r.delivered == l.started[..n]
    && |r.header| <= HEADER_SIZE
    && (forall i :: 0 <= i < n ==> |r.delivered[i].payload| <= bufferLength)
    && l.pos == |Frames(l.started[..n])| + |r.header|
    && (r.header != [] ==> n < |l.started| && r.header <= Header(l.started[n]))
    && (r.inBody <==> |r.header| == HEADER_SIZE && |l.started[n].payload| <= bufferLength)
    && (r.disposed <==> |r.header| == HEADER_SIZE && |l.started[n].payload| > bufferLength)
  }

  /** Where the n-th frame is on the wire. */
  lemma {:induction false} WireAt(ms: seq<Message>, n: nat, i: nat, j: nat)
    requires AllFit(ms) && n < |ms| && i <= j <= ms[n].Size()
    ensures var at := |Frames(ms[..n])|;
      && at + ms[n].Size() <= |Frames(ms)|
      && Frames(ms)[at + i..at + j] == Frame(ms[n])[i..j]
      && |Frames(ms[..n + 1])| == at + ms[n].Size()
  {
    hide Frame;
    FramesSplit(ms, n);
    var front, back := Frames(ms[..n]), Frames(ms[n + 1..]);
    assert ms[n..][1..] == ms[n + 1..];
    assert Frames(ms[n..]) == Frame(ms[n]) + back;
    assert Frames(ms) == front + (Frame(ms[n]) + back);
    Inside(front, Frame(ms[n]), back, i, j);
    assert ms[..n + 1] == ms[..n] + [ms[n]];
    FramesAppend(ms[..n], ms[n]);
  }

  lemma {:induction false} Inside(a: Bytes, b: Bytes, c: Bytes, i: nat, j: nat)
    requires i <= j <= |b|
    ensures (a + (b + c))[|a| + i..|a| + j] == b[i..j]
  {
  }

  lemma {:induction false} WireEnds(ms: seq<Message>)
    requires AllFit(ms)
    ensures ms[..|ms|] == ms
    ensures Frames(ms[..|ms|]) == Frames(ms)
  {
    assert ms[..|ms|] == ms;
  }

  /** More messages on the wire change nothing for the receiver. */
  lemma {:induction false} StartingKeepsReceiver(l: Link, l': Link, bufferLength: nat, ms: seq<Message>)
    requires AllFit(l.started) && AllFit(ms) && ReceiverOk(l, bufferLength)
    requires l'.started == l.started + ms && l'.pos == l.pos && l'.receiver == l.receiver
    ensures AllFit(l'.started) && ReceiverOk(l', bufferLength)
  {
    hide Header, Frames;
    var n := |l.receiver.delivered|;
    assert l'.started[..n] == l.started[..n];
  }

  /** The next bytes on the wire continue the header of the next message. */
  lemma {:induction false} HeaderChunk(l: Link, bufferLength: nat, n: nat)
    requires AllFit(l.started) && ReceiverOk(l, bufferLength)
    requires 0 < n && |l.receiver.header| + n <= HEADER_SIZE && l.pos + n <= |Frames(l.started)|
    ensures var r, k := l.receiver, |l.receiver.delivered|;
      && k < |l.started|
      && r.header + Frames(l.started)[l.pos..l.pos + n] == Header(l.started[k])[..|r.header| + n]
  {
    hide Frames, Frame, Header, Message.Fits;
    var r, k := l.receiver, |l.receiver.delivered|;
    if k == |l.started| {
      WireEnds(l.started);
      assert false;
    }
    var m, i := l.started[k], |r.header|;
    WireAt(l.started, k, i, i + n);
    FrameHeader(m, i, i + n);
    assert r.header == Header(m)[..i];
  }

  lemma {:induction false} HeaderStep(l: Link, bufferLength: nat, n: nat)
    requires AllFit(l.started) && ReceiverOk(l, bufferLength)
    ensures ReceiverOk(Step(l, bufferLength, ReadHeader(n)), bufferLength)
  {
    hide Frames, Frame, Header, ReadMsgSize, Message.Fits;
    var r, wire := l.receiver, Frames(l.started);
    if !(r.disposed || r.inBody || |r.header| + n > HEADER_SIZE || l.pos + n > |wire|) {
      if n == 0 {
        assert r.header + wire[l.pos..l.pos] == r.header;
      } else {
        HeaderChunk(l, bufferLength, n);
        var m := l.started[|r.delivered|];
        FrameHeader(m, 0, 0);
        HeaderRoundTrip(m);
      }
    }
  }

  lemma {:induction false} FrameHeader(m: Message, i: nat, j: nat)
    requires m.Fits() && i <= j <= HEADER_SIZE
    ensures Frame(m)[i..j] == Header(m)[i..j]
    ensures Header(m)[..i] + Header(m)[i..j] == Header(m)[..j]
    ensures Header(m)[..HEADER_SIZE] == Header(m)
    ensures Frame(m)[HEADER_SIZE..m.Size()] == m.payload
  {
    hide Header;
  }

  lemma {:induction false} BodyStep(l: Link, bufferLength: nat)
    requires AllFit(l.started) && ReceiverOk(l, bufferLength)
    ensures ReceiverOk(Step(l, bufferLength, ReadBody), bufferLength)
  {
    hide Frames, Frame, Header, ReadMsgSize, ReadEndpoint, FromBigEndian, BigEndian, Pow256;
    var r, k := l.receiver, |l.receiver.delivered|;
    if !(r.disposed || !r.inBody || |r.header| != HEADER_SIZE) {
      var m := l.started[k];
      assert r.header == Header(m);
      HeaderRoundTrip(m);
      WireAt(l.started, k, HEADER_SIZE, m.Size());
      FrameHeader(m, 0, 0);
      assert Message(m.payload, m.endpoint) == m;
      assert l.started[..k + 1] == l.started[..k] + [m];
    }
  }

  /** A compare-and-swap may fail spuriously only while it has no effect. */
  predicate Harmless(s: Sender, e: Event) {
    match e
    case Send(_, spurious) => !(spurious && s.inFlight.None?)
    case WriteDone(spurious) => !(spurious && s.queue != [])
    case _ => true
  }

  lemma {:induction false} SenderStep(l: Link, bufferLength: nat, e: Event)
    requires SenderLinkOk(l) && ReceiverOk(l, bufferLength) && Harmless(l.sender, e)
    requires (e.Send? && e.msg.Fits()) || e.WriteDone?
    ensures SenderLinkOk(Step(l, bufferLength, e)) && ReceiverOk(Step(l, bufferLength, e), bufferLength)
  {
    hide Frames, SenderOk, ReceiverOk, Message.Fits;
    var l' := Step(l, bufferLength, e);
    if e.Send? {
      var w := Write(l.sender, e.msg, false);
      assert w == Write(l.sender, e.msg, e.spurious);
      WriteKeepsOrder(l.sender, e.msg);
      SentInOrder(l.accepted, l.started, l.sender.queue, w, e.msg);
      StartingKeepsReceiver(l, l', bufferLength, w.started);
    } else if l.sender.inFlight.Some? {
      var w := OnWritten(l.sender, false);
      assert w == OnWritten(l.sender, e.spurious);
      OnWrittenKeepsOrder(l.sender);
      assert l.started + l.sender.queue == l.started + w.started + w.sender.queue;
      assert l'.accepted == l'.started + w.sender.queue;
      assert AllFit(w.started) by {
        assert forall i :: 0 <= i < |w.started| ==> w.started[i] == l.accepted[|l.started| + i];
      }
      StartingKeepsReceiver(l, l', bufferLength, w.started);
    }
  }

  lemma {:induction false} AllFitConcat(a: seq<Message>, b: seq<Message>)
    ensures AllFit(a + b) <==> AllFit(a) && AllFit(b)
  {
    hide Message.Fits;
    if AllFit(a + b) {
      assert forall i :: 0 <= i < |a| ==> a[i] == (a + b)[i];
      assert forall i :: 0 <= i < |b| ==> b[i] == (a + b)[|a| + i];
    }
  }

  lemma {:induction false} SentInOrder(
    accepted: seq<Message>, started: seq<Message>, queue: seq<Message>, w: Written, m: Message)
    requires AllFit(accepted) && accepted == started + queue && m.Fits()
    requires w.started == [] || w.started == [m]
    requires w.started + w.sender.queue == if w.accepted then queue + [m] else queue
    ensures AllFit(w.started)
    ensures var accepted' := if w.accepted then accepted + [m] else accepted;
      AllFit(accepted') && accepted' == started + w.started + w.sender.queue
  {
    hide Message.Fits, AllFit;
    hide Message.Size, QueueSize;
    AllFitConcat(accepted, [m]);
    FitsAlone(m);
    Associative(started, w.started, w.sender.queue);
    Associative(started, queue, [m]);
  }

  lemma {:induction false} Associative(a: seq<Message>, b: seq<Message>, c: seq<Message>)
    ensures a + b + c == a + (b + c)
  {
  }

  lemma {:induction false} FitsAlone(m: Message)
    requires m.Fits()
    ensures AllFit([m]) && AllFit([])
  {
  }

  function Run(l: Link, bufferLength: nat, events: seq<Event>): Link
    requires SenderLinkOk(l) && ReceiverOk(l, bufferLength) && SendsFit(events)
    requires HarmlessRun(l, bufferLength, events)
    ensures SenderLinkOk(Run(l, bufferLength, events)) && ReceiverOk(Run(l, bufferLength, events), bufferLength)
    decreases |events|
  {
    if events == [] then l
    else
      StepKeeps(l, bufferLength, events[0]);
      Run(Step(l, bufferLength, events[0]), bufferLength, events[1..])
  }

  predicate SendsFit(events: seq<Event>) {
    forall i :: 0 <= i < |events| && events[i].Send? ==> events[i].msg.Fits()
  }

  predicate HarmlessRun(l: Link, bufferLength: nat, events: seq<Event>)
    requires SenderLinkOk(l) && ReceiverOk(l, bufferLength) && SendsFit(events)
    decreases |events|
  {
    events == [] ||
    (&& Harmless(l.sender, events[0])
     && (StepKeeps(l, bufferLength, events[0]);
         HarmlessRun(Step(l, bufferLength, events[0]), bufferLength, events[1..])))
  }

  lemma {:induction false} StepKeeps(l: Link, bufferLength: nat, e: Event)
    requires SenderLinkOk(l) && ReceiverOk(l, bufferLength) && (e.Send? ==> e.msg.Fits()) && Harmless(l.sender, e)
    ensures SenderLinkOk(Step(l, bufferLength, e)) && ReceiverOk(Step(l, bufferLength, e), bufferLength)
  {
    hide ReceiverOk, Frames, SenderOk;
    match e
    case ReadHeader(n) => HeaderStep(l, bufferLength, n);
    case ReadBody => BodyStep(l, bufferLength);
    case _ => SenderStep(l, bufferLength, e);
  }

  /** A receiver in order has stopped exactly at a message that is too long. */
  lemma {:induction false} StoppedExactly(l: Link, bufferLength: nat)
    requires SenderLinkOk(l) && ReceiverOk(l, bufferLength)
    ensures l.receiver.disposed <==> StopsAt(l, bufferLength)
    ensures l.receiver.inBody ==>
      var n := |l.receiver.delivered|;
      n < |l.accepted| && ReadMsgSize(l.receiver.header) == |l.accepted[n].payload| <= bufferLength
  {
    hide Frames, Header, ReadMsgSize, Message.Fits;
    var n := |l.receiver.delivered|;
    assert l.started <= l.accepted;
    assert l.accepted[..n] == l.started[..n];
    if |l.receiver.header| == HEADER_SIZE {
      assert l.accepted[n] == l.started[n];
      FrameHeader(l.started[n], 0, 0);
      assert l.receiver.header == Header(l.started[n]);
      HeaderRoundTrip(l.started[n]);
    }
  }

  /** A new connection. */
  predicate IsNew(l: Link) {
    l == Link(Sender(None, [], 0), [], [], 0, Receiver([], false, [], false))
  }

  lemma {:induction false} NewIsOk(l: Link, bufferLength: nat)
    requires IsNew(l)
    ensures SenderLinkOk(l) && ReceiverOk(l, bufferLength)
  {
    assert l.started[..0] == [];
  }

  /** Nothing waits, and the receiver has taken all that was sent. */
  predicate Drained(l: Link)
    requires AllFit(l.started)
  {
    l.sender.queue == [] && l.pos == |Frames(l.started)| && !l.receiver.inBody && !l.receiver.disposed
  }

  /** The bytes taken end right after the header of a message that is longer than the buffer. */
  ghost predicate StopsAt(l: Link, bufferLength: nat) {
    var n := |l.receiver.delivered|;
    && n < |l.accepted| && |l.accepted[n].payload| > bufferLength
    && AllFit(l.accepted[..n]) && l.pos == |Frames(l.accepted[..n])| + HEADER_SIZE
  }

  /**
   * For every interleaving of sends, write completions and reads of any size in which the
   * compare-and-swap fails spuriously only where that has no effect: at most one write is
   * in flight, a message waits only while one is, the queue is within a message of its limit, and
   * the receiver has delivered the first accepted messages in order, none of them longer than its buffer, all of them
   * once it has taken what was sent; it stops exactly when it has read the whole header of a longer message.
   */
  lemma {:induction false} MessagesArriveInOrder(l: Link, bufferLength: nat, events: seq<Event>)
    requires IsNew(l) && SendsFit(events)
    requires (NewIsOk(l, bufferLength); HarmlessRun(l, bufferLength, events))
    ensures SenderLinkOk(l) && ReceiverOk(l, bufferLength)
    ensures var end := Run(l, bufferLength, events);
      && SenderOk(end.sender)
      && end.receiver.delivered <= end.accepted
      && (forall m :: m in end.receiver.delivered ==> |m.payload| <= bufferLength)
      && (end.receiver.disposed <==> StopsAt(end, bufferLength))
      && (end.receiver.inBody ==>
           var n := |end.receiver.delivered|;
           n < |end.accepted| && ReadMsgSize(end.receiver.header) == |end.accepted[n].payload| <= bufferLength)
      && (Drained(end) ==> end.receiver.delivered == end.accepted)
  {
    assert l.started[..0] == [];
    var end := Run(l, bufferLength, events);
    var n := |end.receiver.delivered|;
    assert end.started <= end.accepted;
    assert end.accepted[..n] == end.started[..n];
    StoppedExactly(end, bufferLength);
    if Drained(end) {
      assert end.accepted == end.started;
      if n < |end.started| {
        WireAt(end.started, n, 0, 0);
        assert false;
      }
    }
  }
}
