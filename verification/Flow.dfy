/** The data phase of RDTP: a selective-repeat sender and receiver (stop-and-wait is the case of
    windows of one). Each handler is given twice: as a function on values, which the transfer
    proofs use, and as the method that updates the fields, proved against that function. */
module Flow {
  import opened Wrappers
  import opened ByteStrings
  import opened Segments
  import opened FileChunks

  datatype Event = SegmentArrived(segment: Segment) | TimedOut(sequenceNumber: nat) | Aborted

  /** Sending goes on, has seen every chunk acknowledged, or was cut short by FIN, ERR or abort. */
  datatype Phase = Sending | Completed | Interrupted

  // ----- Sender ---------------------------------------------------------------------------------

  /** `timers` holds the sequence number of every pending entry of the retransmission timer. */
  datatype Sender = Sender(initial: nat, base: nat, next: nat, inFlight: map<nat, Segment>, windowSize: nat,
                           timers: multiset<nat>)

  predicate AllAcknowledged(s: Sender, totalChunks: nat) {
    totalChunks <= s.base - s.initial
  }

  /** How many new packets the sender may make: it limits the number in flight, not their span. */
  function Room(s: Sender, totalChunks: nat): nat {
    var unsent, free := totalChunks - (s.next - s.initial), s.windowSize - |s.inFlight|;
    if unsent <= 0 || free <= 0 then 0 else Min(unsent, free)
  }

  function PacketFor(s: Sender, chunks: seq<Bytes>, masks: nat, i: nat): Segment
    requires s.initial <= s.next && i < Room(s, |chunks|)
  {
    DataSegment(s.next + i, masks, chunks[s.next + i - s.initial])
  }

  /** The next `count` chunks as packets, numbered on from `next`. */
  function Packets(s: Sender, chunks: seq<Bytes>, masks: nat, count: nat): seq<Segment>
    requires s.initial <= s.next && count <= Room(s, |chunks|)
  {
    if count == 0 then [] else Packets(s, chunks, masks, count - 1) + [PacketFor(s, chunks, masks, count - 1)]
  }

  function Window(s: Sender, chunks: seq<Bytes>, masks: nat): seq<Segment>
    requires s.initial <= s.next
  {
    Packets(s, chunks, masks, Room(s, |chunks|))
  }

  function SendOne(s: Sender, packet: Segment): Sender {
    var n := packet.sequenceNumber;
    s.(inFlight := s.inFlight[n := packet], timers := s.timers + multiset{n})
  }

  function SendAll(s: Sender, packets: seq<Segment>): Sender {
    if packets == [] then s
    else SendOne(SendAll(s, packets[..|packets| - 1]), packets[|packets| - 1])
  }

  lemma SendNone(s: Sender, packets: seq<Segment>)
    ensures SendAll(s, packets[..0]) == s
  {
  }

  lemma SendNext(s: Sender, packets: seq<Segment>, i: nat)
    requires i < |packets|
    ensures packets[..i + 1] == packets[..i] + [packets[i]]
    ensures SendAll(s, packets[..i + 1]) == SendOne(SendAll(s, packets[..i]), packets[i])
  {
    assert packets[..i + 1][..i] == packets[..i];
  }

  lemma FillBySending(s: Sender, chunks: seq<Bytes>, masks: nat)
    requires s.initial <= s.next
    ensures FillWindow(s, chunks, masks)
            == SendAll(s.(next := s.next + Room(s, |chunks|)), Window(s, chunks, masks))
  {
    hide SendAll, SendFirst, Packets;
    var room := Room(s, |chunks|);
    SendAllIsSendFirst(s, s.(next := s.next + room), chunks, masks, room);
  }

  lemma {:induction false} PacketAt(s: Sender, chunks: seq<Bytes>, masks: nat, count: nat, i: nat)
    requires s.initial <= s.next && count <= Room(s, |chunks|)
    ensures |Packets(s, chunks, masks, count)| == count
    ensures i < count ==> Packets(s, chunks, masks, count)[i] == PacketFor(s, chunks, masks, i)
  {
    if count > 0 {
      PacketAt(s, chunks, masks, count - 1, i);
    }
  }

  /** Sending the window packet by packet, by count instead of by sequence. */
  function SendFirst(s: Sender, t: Sender, chunks: seq<Bytes>, masks: nat, count: nat): Sender
    requires s.initial <= s.next && count <= Room(s, |chunks|)
  {
    if count == 0 then t
    else SendOne(SendFirst(s, t, chunks, masks, count - 1), PacketFor(s, chunks, masks, count - 1))
  }

  function FillWindow(s: Sender, chunks: seq<Bytes>, masks: nat): Sender
    requires s.initial <= s.next
  {
    var room := Room(s, |chunks|);
    SendFirst(s, s.(next := s.next + room), chunks, masks, room)
  }

  lemma {:induction false} SendAllIsSendFirst(s: Sender, t: Sender, chunks: seq<Bytes>, masks: nat, count: nat)
    requires s.initial <= s.next && count <= Room(s, |chunks|)
    ensures SendAll(t, Packets(s, chunks, masks, count)) == SendFirst(s, t, chunks, masks, count)
  {
    hide SendOne, PacketFor, Room;
    if count > 0 {
      SendAllIsSendFirst(s, t, chunks, masks, count - 1);
      var packets := Packets(s, chunks, masks, count);
      assert packets[..|packets| - 1] == Packets(s, chunks, masks, count - 1);
    }
  }

  /** Sequence number n after `count` new packets went out from s on: exactly the chunks from `next`
      on joined the packets in flight, and each of them started one timer. */
  predicate FilledAt(s: Sender, s': Sender, chunks: seq<Bytes>, masks: nat, count: nat, n: nat)
    requires s.initial <= s.next && count <= Room(s, |chunks|)
  {
    var isNew := s.next <= n < s.next + count;
    && s'.initial == s.initial && s'.base == s.base && s'.windowSize == s.windowSize
    && (n in s'.inFlight <==> n in s.inFlight || isNew)
    && (isNew ==> s'.inFlight[n] == DataSegment(n, masks, chunks[n - s.initial]))
    && (!isNew && n in s.inFlight ==> s'.inFlight[n] == s.inFlight[n])
    && s'.timers[n] == s.timers[n] + (if isNew then 1 else 0)
  }

  lemma FilledStep(s: Sender, s': Sender, chunks: seq<Bytes>, masks: nat, count: nat, n: nat)
    requires s.initial <= s.next && count < Room(s, |chunks|)
    requires FilledAt(s, s', chunks, masks, count, n)
    ensures FilledAt(s, SendOne(s', PacketFor(s, chunks, masks, count)), chunks, masks, count + 1, n)
  {
  }

  lemma FilledNone(s: Sender, t: Sender, chunks: seq<Bytes>, masks: nat, n: nat)
    requires s.initial <= s.next && t == s.(next := t.next)
    ensures FilledAt(s, t, chunks, masks, 0, n)
  {
  }

  lemma SendOneKeepsNext(s: Sender, packet: Segment)
    ensures SendOne(s, packet).next == s.next
  {
  }

  lemma {:induction false} Filled(s: Sender, t: Sender, chunks: seq<Bytes>, masks: nat, count: nat, n: nat)
    requires s.initial <= s.next && count <= Room(s, |chunks|)
    requires t == s.(next := t.next)
    ensures FilledAt(s, SendFirst(s, t, chunks, masks, count), chunks, masks, count, n)
    ensures SendFirst(s, t, chunks, masks, count).next == t.next
  {
    hide FilledAt, PacketFor, Room, SendOne;
    if count == 0 {
      FilledNone(s, t, chunks, masks, n);
    } else {
      SendOneKeepsNext(SendFirst(s, t, chunks, masks, count - 1), PacketFor(s, chunks, masks, count - 1));
      Filled(s, t, chunks, masks, count - 1, n);
      FilledStep(s, SendFirst(s, t, chunks, masks, count - 1), chunks, masks, count - 1, n);
    }
  }

  lemma OneMore(m: map<nat, Segment>, n: nat, packet: Segment)
    ensures |m[n := packet]| <= |m| + 1
  {
    assert m[n := packet].Keys == m.Keys + {n};
    assert |m.Keys| == |m| && |m[n := packet].Keys| == |m[n := packet]|;
  }

  /** The number of packets in flight after filling, which is what the window size bounds. */
  lemma {:induction false} FilledSize(s: Sender, t: Sender, chunks: seq<Bytes>, masks: nat, count: nat)
    requires s.initial <= s.next && count <= Room(s, |chunks|)
    requires t == s.(next := t.next)
    ensures |SendFirst(s, t, chunks, masks, count).inFlight| <= |s.inFlight| + count
  {
    if count > 0 {
      FilledSize(s, t, chunks, masks, count - 1);
      OneMore(SendFirst(s, t, chunks, masks, count - 1).inFlight, s.next + count - 1,
              PacketFor(s, chunks, masks, count - 1));
    }
  }

  /** The lowest sequence number from `base` on that is still in flight, or `next` if none is. */
  function FirstOutstanding(base: nat, next: nat, inFlight: map<nat, Segment>): (n: nat)
    ensures base <= n
    ensures base <= next ==> n <= next && (n == next || n in inFlight)
    ensures forall k :: base <= k < n ==> k !in inFlight
    decreases next - base
  {
    if base !in inFlight && next > base then FirstOutstanding(base + 1, next, inFlight) else base
  }

  function OnAck(s: Sender, n: nat): Sender {
    if n !in s.inFlight then s
    else
      var rest := s.inFlight - {n};
      s.(inFlight := rest, timers := s.timers[n := 0], base := FirstOutstanding(s.base, s.next, rest))
  }

  function OnTimeout(s: Sender, n: nat): (Sender, seq<Segment>) {
    if n !in s.inFlight then (s, []) else (s.(timers := s.timers + multiset{n}), [s.inFlight[n]])
  }

  /** One event of the sending loop: the new state, what is retransmitted, and whether to go on. */
  function OnSenderEvent(s: Sender, e: Event): (Sender, seq<Segment>, Phase) {
    match e
    case SegmentArrived(segment) =>
      if segment.IsTermination() then (s, [], Interrupted)
      else if !segment.IsAck() || segment.IsSyn() then (s, [], Sending)
      else (OnAck(s, segment.sequenceNumber), [], Sending)
    case TimedOut(n) => var (s', sent) := OnTimeout(s, n); (s', sent, Sending)
    case Aborted => (s, [], Interrupted)
  }

  class FlowSender {
    const initialSequenceNumber: nat
    const windowSize: nat
    const masks: nat
    var baseNumber: nat
    var nextSequenceNumber: nat
    var packetsInFlight: map<nat, Segment>
    var timers: multiset<nat>
    var sent: seq<Segment>  // everything handed to the socket, in order

    ghost function View(): Sender
      reads this
    {
      Sender(initialSequenceNumber, baseNumber, nextSequenceNumber, packetsInFlight, windowSize, timers)
    }

    ghost predicate Valid()
      reads this
    {
      initialSequenceNumber <= baseNumber <= nextSequenceNumber
    }

    constructor (baseNumber: nat, windowSize: nat, masks: nat)
      ensures Valid() && sent == []
      ensures View() == Sender(baseNumber, baseNumber, baseNumber, map[], windowSize, multiset{})
      ensures this.masks == masks
    {
      this.initialSequenceNumber, this.windowSize, this.masks := baseNumber, windowSize, masks;
      this.baseNumber, this.nextSequenceNumber := baseNumber, baseNumber;
      packetsInFlight, timers, sent := map[], multiset{}, [];
    }

    method MakeWindow(chunks: seq<Bytes>) returns (packets: seq<Segment>)
      requires Valid()
      modifies this`nextSequenceNumber
      ensures Valid()
      ensures packets == Window(old(View()), chunks, masks)
      ensures nextSequenceNumber == old(nextSequenceNumber) + Room(old(View()), |chunks|)
    {
      packets := [];
      ghost var s := View();
      while |chunks| > nextSequenceNumber - initialSequenceNumber && windowSize > |packetsInFlight| + |packets|
        invariant nextSequenceNumber == s.next + |packets|
        invariant |packets| <= Room(s, |chunks|)
        invariant packets == Packets(s, chunks, masks, |packets|)
        decreases |chunks| - (nextSequenceNumber - initialSequenceNumber)
      {
        var payload := chunks[nextSequenceNumber - initialSequenceNumber];
        packets := packets + [DataSegment(nextSequenceNumber, masks, payload)];
        nextSequenceNumber := nextSequenceNumber + 1;
      }
    }

    method SendWindow(packets: seq<Segment>)
      modifies this`packetsInFlight, this`timers, this`sent
      ensures sent == old(sent) + packets
      ensures View() == SendAll(old(View()), packets)
    {
      hide SendAll, SendFirst;
      ghost var s, sent0 := View(), sent;
      assert packets[..|packets|] == packets;
      SendNone(s, packets);
      for i := 0 to |packets|
        invariant sent == sent0 + packets[..i]
        invariant View() == SendAll(s, packets[..i])
      {
        var packet := packets[i];
        SendNext(s, packets, i);
        sent := sent + [packet];
        packetsInFlight := packetsInFlight[packet.sequenceNumber := packet];
        timers := timers + multiset{packet.sequenceNumber};
      }
    }

    /** The top of the sending loop: as many new chunks go out as the window has room for. */
    method FillAndSend(chunks: seq<Bytes>)
      requires Valid()
      modifies this
      ensures Valid()
      ensures View() == FillWindow(old(View()), chunks, masks)
      ensures sent == old(sent) + Window(old(View()), chunks, masks)
    {
      FillBySending(View(), chunks, masks);
      var packets := MakeWindow(chunks);
      SendWindow(packets);
    }

    method HandleAck(seqNumberAck: nat)
      requires Valid()
      modifies this`packetsInFlight, this`timers, this`baseNumber
      ensures Valid()
      ensures View() == OnAck(old(View()), seqNumberAck)
    {
      if seqNumberAck !in packetsInFlight {
        return;
      }
      packetsInFlight := packetsInFlight - {seqNumberAck};
      timers := timers[seqNumberAck := 0];
      while baseNumber !in packetsInFlight && nextSequenceNumber > baseNumber
        modifies this`baseNumber
        invariant old(baseNumber) <= baseNumber <= nextSequenceNumber
        invariant FirstOutstanding(baseNumber, nextSequenceNumber, packetsInFlight)
                  == FirstOutstanding(old(baseNumber), nextSequenceNumber, packetsInFlight)
      {
        baseNumber := baseNumber + 1;
      }
    }

    method HandleTimeout(seqNumber: nat)
      modifies this`timers, this`sent
      ensures View() == OnTimeout(old(View()), seqNumber).0
      ensures sent == old(sent) + OnTimeout(old(View()), seqNumber).1
    {
      if seqNumber in packetsInFlight {
        sent := sent + [packetsInFlight[seqNumber]];
        timers := timers + multiset{seqNumber};
      }
    }

    method HandleEvent(event: Event) returns (phase: Phase)
      requires Valid()
      modifies this
      ensures Valid()
      ensures var (s, out, p) := OnSenderEvent(old(View()), event);
              View() == s && sent == old(sent) + out && phase == p
    {
      phase := Sending;
      match event
      case SegmentArrived(segment) =>
        if segment.IsTermination() {
          phase := Interrupted;
        } else if segment.IsAck() && !segment.IsSyn() {
          HandleAck(segment.sequenceNumber);
        }
      case TimedOut(seqNumber) => HandleTimeout(seqNumber);
      case Aborted => phase := Interrupted;
    }
  }

  // ----- Receiver -------------------------------------------------------------------------------

  /** `failed` records that writing raised, which ends the download. The length of `content` is the
      declared file size. */
  datatype Receiver = Receiver(recvBase: nat, buffer: map<nat, Segment>, downloaded: nat, content: Bytes,
                               finReceived: bool, finSequenceNumber: Option<nat>, finished: bool, aborted: bool,
                               failed: bool)

  predicate IsInReceiveWindow(recvBase: nat, receiveWindowSize: nat, n: nat) {
    recvBase <= n < recvBase + receiveWindowSize
  }

  function KeysFrom(base: nat, buffer: map<nat, Segment>): set<nat> {
    set n | n in buffer && base <= n
  }

  /** The first sequence number from `base` on that is not buffered. */
  function ContiguousEnd(base: nat, buffer: map<nat, Segment>): (end: nat)
    ensures base <= end && end !in buffer
    ensures forall n :: base <= n < end ==> n in buffer
    decreases |KeysFrom(base, buffer)|
  {
    if base in buffer then
      assert KeysFrom(base, buffer) == KeysFrom(base + 1, buffer) + {base};
      ContiguousEnd(base + 1, buffer)
    else base
  }

  function Payloads(base: nat, end: nat, buffer: map<nat, Segment>): (p: seq<Bytes>)
    requires base <= end
    requires forall n :: base <= n < end ==> n in buffer
    ensures |p| == end - base
  {
    if base == end then [] else Payloads(base, end - 1, buffer) + [buffer[end - 1].payload]
  }

  function Without(buffer: map<nat, Segment>, base: nat, end: nat): map<nat, Segment> {
    map n | n in buffer && !(base <= n < end) :: buffer[n]
  }

  function WriteContiguous(r: Receiver): Receiver {
    var end := ContiguousEnd(r.recvBase, r.buffer);
    var data := Concat(Payloads(r.recvBase, end, r.buffer));
    var r' := r.(recvBase := end, buffer := Without(r.buffer, r.recvBase, end));
    if end == r.recvBase then r
    else if r.downloaded + |data| > |r.content| then r'.(failed := true)
    else r'.(content := Overwrite(r.content, r.downloaded, data), downloaded := r.downloaded + |data|)
  }

  /** One segment at the receiver: the new state and the acknowledgement it sends, if any. */
  function OnSegment(r: Receiver, segment: Segment, receiveWindowSize: nat, masks: nat): (Receiver, Option<Segment>) {
    var n := segment.sequenceNumber;
    if segment.IsAck() then (r, None)
    else if segment.IsTermination() then (r.(finReceived := true, finSequenceNumber := Some(n)), None)
    else if n < r.recvBase then (r, Some(AckSegment(n, masks)))
    else if !IsInReceiveWindow(r.recvBase, receiveWindowSize, n) then (r, None)
    else if n in r.buffer then (r, Some(AckSegment(n, masks)))
    else (WriteContiguous(r.(buffer := r.buffer[n := segment])), Some(AckSegment(n, masks)))
  }

  function OnReceiverEvent(r: Receiver, e: Event, receiveWindowSize: nat, masks: nat): (Receiver, Option<Segment>) {
    match e
    case Aborted => (r.(finished := true, aborted := true), None)
    case TimedOut(_) => (r, None)
    case SegmentArrived(segment) =>
      var (r', ack) := OnSegment(r, segment, receiveWindowSize, masks);
      if !r'.failed && r'.finReceived && r'.downloaded >= |r'.content| then (r'.(finished := true), ack) else (r', ack)
  }

  class FlowReceiver {
    const receiveWindowSize: nat
    const masks: nat
    var recvBaseNumber: nat
    var receiveBuffer: map<nat, Segment>
    var downloadedBytes: nat
    var finReceived: bool
    var finSequenceNumber: Option<nat>
    var finished: bool
    var aborted: bool
    var failed: bool
    var acks: seq<Segment>  // the acknowledgements handed to the socket, in order

    ghost function View(writer: FileWriter): Receiver
      reads this, writer
    {
      Receiver(recvBaseNumber, receiveBuffer, downloadedBytes, writer.content, finReceived, finSequenceNumber,
               finished, aborted, failed)
    }

    constructor (baseNumber: nat, receiveWindowSize: nat, masks: nat)
      ensures forall w: FileWriter ::
                View(w) == Receiver(baseNumber, map[], 0, w.content, false, None, false, false, false)
      ensures this.receiveWindowSize == receiveWindowSize && this.masks == masks && acks == []
    {
      this.recvBaseNumber, this.receiveWindowSize, this.masks := baseNumber, receiveWindowSize, masks;
      receiveBuffer, downloadedBytes, finReceived, finSequenceNumber := map[], 0, false, None;
      finished, aborted, failed, acks := false, false, false, [];
    }

    /** Pops the contiguous run from the buffer. */
    method TakeContiguous() returns (chunksToWrite: seq<Bytes>, bytesToWrite: nat)
      modifies this`recvBaseNumber, this`receiveBuffer
      ensures recvBaseNumber == ContiguousEnd(old(recvBaseNumber), old(receiveBuffer))
      ensures receiveBuffer == Without(old(receiveBuffer), old(recvBaseNumber), recvBaseNumber)
      ensures chunksToWrite == Payloads(old(recvBaseNumber), recvBaseNumber, old(receiveBuffer))
      ensures bytesToWrite == |Concat(chunksToWrite)|
    {
      chunksToWrite, bytesToWrite := [], 0;
      ghost var base, all := recvBaseNumber, receiveBuffer;
      ghost var end := ContiguousEnd(base, all);
      while recvBaseNumber in receiveBuffer
        invariant base <= recvBaseNumber <= end
        invariant receiveBuffer == Without(all, base, recvBaseNumber)
        invariant chunksToWrite == Payloads(base, recvBaseNumber, all)
        invariant bytesToWrite == |Concat(chunksToWrite)|
        decreases end - recvBaseNumber
      {
        var payload := receiveBuffer[recvBaseNumber].payload;
        receiveBuffer := receiveBuffer - {recvBaseNumber};
        ConcatAppend(chunksToWrite, [payload]);
        ConcatOne(payload);
        chunksToWrite := chunksToWrite + [payload];
        bytesToWrite := bytesToWrite + |payload|;
        recvBaseNumber := recvBaseNumber + 1;
      }
    }

    method WriteContiguousPackets(writer: FileWriter)
      requires writer.Valid()
      modifies this`recvBaseNumber, this`receiveBuffer, this`downloadedBytes, this`failed, writer
      ensures writer.Valid()
      ensures View(writer) == WriteContiguous(old(View(writer)))
    {
      var chunksToWrite, bytesToWrite := TakeContiguous();
      if chunksToWrite == [] {
        assert receiveBuffer == old(receiveBuffer);
        return;
      }
      var ok := writer.WriteBatch(downloadedBytes, chunksToWrite);
      if ok {
        downloadedBytes := downloadedBytes + bytesToWrite;
      } else {
        failed := true;
      }
    }

    method SendAck(n: nat)
      modifies this`acks
      ensures acks == old(acks) + [AckSegment(n, masks)]
    {
      acks := acks + [AckSegment(n, masks)];
    }

    method HandleSegmentReceived(segment: Segment, writer: FileWriter)
      requires writer.Valid()
      modifies this, writer
      ensures writer.Valid()
      ensures var (r, ack) := OnSegment(old(View(writer)), segment, receiveWindowSize, masks);
              View(writer) == r && acks == old(acks) + match ack case None => [] case Some(a) => [a]
    {
      var seqNumber := segment.sequenceNumber;
      if segment.IsAck() {
        return;
      }
      if segment.IsTermination() {
        finReceived, finSequenceNumber := true, Some(seqNumber);
        return;
      }
      if seqNumber < recvBaseNumber {
        SendAck(seqNumber);
        return;
      }
      if !IsInReceiveWindow(recvBaseNumber, receiveWindowSize, seqNumber) {
        return;
      }
      if seqNumber in receiveBuffer {
        SendAck(seqNumber);
        return;
      }
      receiveBuffer := receiveBuffer[seqNumber := segment];
      SendAck(seqNumber);
      WriteContiguousPackets(writer);
    }

    /** One turn of the download loop. */
    method HandleEvent(event: Event, writer: FileWriter)
      requires writer.Valid()
      modifies this, writer
      ensures writer.Valid()
      ensures var (r, ack) := OnReceiverEvent(old(View(writer)), event, receiveWindowSize, masks);
              View(writer) == r && acks == old(acks) + match ack case None => [] case Some(a) => [a]
    {
      match event
      case Aborted => finished, aborted := true, true;
      case TimedOut(_) =>
      case SegmentArrived(segment) =>
        HandleSegmentReceived(segment, writer);
        if !failed && finReceived && downloadedBytes >= writer.fileSize {
          finished := true;
        }
    }
  }
}
