/** A sender and a receiver joined by a network that may lose, duplicate and reorder segments:
    what holds in every state of every run. */
module Transfer {
  import opened Wrappers
  import opened Collections
  import opened ByteStrings
  import opened Segments
  import opened FileChunks
  import opened Flow

  datatype Config = Config(initial: nat, windowSize: nat, receiveWindowSize: nat, masks: nat, file: Bytes) {
    /** The windows are arbitrary; the factory uses 1/1 and 20/20. The masks are the type bits. */
    predicate Valid() {
      windowSize >= 1 && receiveWindowSize >= 1 && |file| >= 1 && masks in {0, 2, 4, 6}
    }

    function Pieces(): seq<Bytes> { Chunks(file, MAX_PAYLOAD_SIZE) }

    /** One past the last data sequence number. */
    function End(): nat { initial + |Pieces()| }

    function Packet(n: nat): Segment
      requires initial <= n < End()
    {
      DataSegment(n, masks, Pieces()[n - initial])
    }
  }

  /** `waiting` tells whether the sending loop is past its window-filling top, blocked on its queue.
      `dataNet` and `ackNet` hold the segments in transit: delivery leaves a copy behind and loss
      removes segments at will. */
  datatype State = State(sender: Sender, phase: Phase, waiting: bool, queue: seq<Event>, receiver: Receiver,
                         dataNet: set<Segment>, ackNet: set<Segment>)

  datatype Action =
    | Fill
    | Consume
    | TimerFires(n: nat)
    | DeliverAck(segment: Segment)
    | Receive(segment: Segment)
    | Lose(data: set<Segment>, acks: set<Segment>)
    | ForeignToSender(e: Event)
    | ForeignToReceiver(e: Event)

  /** What becomes of a segment handed to the socket: nothing, if encoding it raises. */
  function Wire(s: Segment): set<Segment> {
    if !s.Constructible() then {}
    else
      match ToBytes(s)
      case None => {}
      case Some(data) =>
        match FromBytes(data)
        case None => {}
        case Some(received) => {received}
  }

  function WireAll(segments: seq<Segment>): set<Segment> {
    if segments == [] then {} else WireAll(segments[..|segments| - 1]) + Wire(segments[|segments| - 1])
  }

  /** Events from outside the transfer: leftovers of the handshake, shutdown and abort. */
  predicate IsForeignToSender(c: Config, e: Event) {
    match e
    case Aborted => true
    case TimedOut(n) => n < c.initial
    case SegmentArrived(s) => s.IsTermination() || !s.IsAck() || s.IsSyn() || s.sequenceNumber < c.initial
  }

  predicate IsForeignToReceiver(c: Config, e: Event) {
    match e
    case Aborted => true
    case TimedOut(n) => true
    case SegmentArrived(s) => s.IsAck() || s.IsTermination() || s.sequenceNumber < c.initial
  }

  predicate ReceiverRuns(r: Receiver) {
    !r.finished && !r.failed
  }

  function Init(c: Config): State {
    State(Sender(c.initial, c.initial, c.initial, map[], c.windowSize, multiset{}), Sending, false, [],
          Receiver(c.initial, map[], 0, seq(|c.file|, _ => 0), false, None, false, false, false), {}, {})
  }

  function AfterFill(c: Config, s: State): State
    requires s.sender.initial <= s.sender.next
  {
    if AllAcknowledged(s.sender, |c.Pieces()|) then s.(phase := Completed)
    else
      s.(sender := FillWindow(s.sender, c.Pieces(), c.masks), waiting := true,
         dataNet := s.dataNet + WireAll(Window(s.sender, c.Pieces(), c.masks)))
  }

  function AfterConsume(s: State): State
    requires s.queue != []
  {
    var (sender, sent, phase) := OnSenderEvent(s.sender, s.queue[0]);
    s.(sender := sender, phase := phase, waiting := false, queue := s.queue[1..], dataNet := s.dataNet + WireAll(sent))
  }

  function AfterReceiverEvent(c: Config, s: State, e: Event): State {
    var (r, ack) := OnReceiverEvent(s.receiver, e, c.receiveWindowSize, c.masks);
    s.(receiver := r, ackNet := s.ackNet + match ack case None => {} case Some(a) => Wire(a))
  }

  predicate Step(c: Config, s: State, action: Action, s': State) {
    match action
    case Fill =>
      s.phase == Sending && !s.waiting && s.sender.initial <= s.sender.next && s' == AfterFill(c, s)
    case Consume =>
      s.phase == Sending && s.waiting && s.queue != [] && s' == AfterConsume(s)
    case TimerFires(n) =>
      s.sender.timers[n] > 0 &&
      s' == s.(sender := s.sender.(timers := s.sender.timers - multiset{n}), queue := s.queue + [TimedOut(n)])
    case DeliverAck(segment) =>
      segment in s.ackNet && s' == s.(queue := s.queue + [SegmentArrived(segment)])
    case Receive(segment) =>
      segment in s.dataNet && ReceiverRuns(s.receiver) && s' == AfterReceiverEvent(c, s, SegmentArrived(segment))
    case Lose(data, acks) =>
      s' == s.(dataNet := s.dataNet - data, ackNet := s.ackNet - acks)
    case ForeignToSender(e) =>
      IsForeignToSender(c, e) && s' == s.(queue := s.queue + [e])
    case ForeignToReceiver(e) =>
      IsForeignToReceiver(c, e) && ReceiverRuns(s.receiver) && s' == AfterReceiverEvent(c, s, e)
  }

  ghost predicate Next(c: Config, s: State, s': State) {
    exists action :: Step(c, s, action, s')
  }

  ghost predicate IsRun(c: Config, run: seq<State>) {
    && run != [] && run[0] == Init(c)
    && forall i :: 0 <= i < |run| - 1 ==> Next(c, run[i], run[i + 1])
  }

  // ----- The invariant --------------------------------------------------------------------------

  predicate Received(r: Receiver, n: nat) {
    n < r.recvBase || n in r.buffer
  }

  ghost predicate SenderInv(c: Config, s: Sender) {
    && s.initial == c.initial <= s.base <= s.next <= c.End()
    && s.windowSize == c.windowSize && |s.inFlight| <= c.windowSize
    && (forall n :: n in s.inFlight ==> s.base <= n < s.next && s.inFlight[n] == c.Packet(n))
    && (s.base in s.inFlight || s.base == s.next)
  }

  ghost predicate PhaseInv(c: Config, s: State) {
    && (s.phase == Completed ==> s.sender.base == c.End())
    && (s.phase == Sending && s.waiting ==> s.sender.base in s.sender.inFlight)
  }

  /** The file is right up to recvBase, and what is buffered lies beyond and is right as well. */
  ghost predicate FileInv(c: Config, r: Receiver) {
    && c.initial <= r.recvBase <= c.End()
    && (forall n :: n in r.buffer ==> c.initial <= n < c.End() && r.buffer[n] == c.Packet(n))
    && |r.content| == |c.file|
    && r.downloaded == |Concat(c.Pieces()[..r.recvBase - c.initial])| <= |c.file|
    && r.content[..r.downloaded] == Concat(c.Pieces()[..r.recvBase - c.initial])
    && !r.failed
  }

  ghost predicate ReceiverInv(c: Config, r: Receiver) {
    && FileInv(c, r)
    && (forall n :: n in r.buffer ==> r.recvBase < n < r.recvBase + c.receiveWindowSize)
    && (r.finished && !r.aborted ==> r.downloaded >= |c.file|)
    && (r.recvBase == c.initial || r.recvBase <= 0x1_0000)
    && (forall n :: n in r.buffer ==> n < 0x1_0000)
  }

  /** Nothing is received before it is sent, and what left the window was received. */
  ghost predicate CrossInv(c: Config, s: Sender, r: Receiver) {
    && (forall n :: c.initial <= n && Received(r, n) ==> n < s.next)
    && (forall n :: c.initial <= n < s.next && n !in s.inFlight ==> Received(r, n))
  }

  predicate IsPacket(c: Config, next: nat, s: Segment) {
    c.initial <= s.sequenceNumber < next <= c.End() && s.sequenceNumber < 0x1_0000
    && s == c.Packet(s.sequenceNumber)
  }

  predicate IsReceipt(c: Config, r: Receiver, s: Segment) {
    s == AckSegment(s.sequenceNumber, c.masks) && (s.sequenceNumber < c.initial || Received(r, s.sequenceNumber))
  }

  ghost predicate NetInv(c: Config, s: State) {
    && (forall p :: p in s.dataNet ==> IsPacket(c, s.sender.next, p))
    && (forall a :: a in s.ackNet ==> IsReceipt(c, s.receiver, a))
    && (forall e :: e in s.queue && e.SegmentArrived? ==>
          IsForeignToSender(c, e) || IsReceipt(c, s.receiver, e.segment))
  }

  /** Pending timer entries plus queued timeouts of a sequence number. */
  function Alarms(s: State, n: nat): nat {
    s.sender.timers[n] + multiset(s.queue)[TimedOut(n)]
  }

  ghost predicate TimerInv(s: State) {
    && (forall n :: n in s.sender.inFlight ==> Alarms(s, n) == 1)
    && (forall n :: s.sender.next <= n ==> Alarms(s, n) == 0)
  }

  ghost predicate Inv(c: Config, s: State) {
    && SenderInv(c, s.sender) && PhaseInv(c, s) && ReceiverInv(c, s.receiver) && CrossInv(c, s.sender, s.receiver)
    && NetInv(c, s) && TimerInv(s)
  }

  // ----- The wire -------------------------------------------------------------------------------

  lemma WireOf(s: Segment)
    requires s.payloadLength == |s.payload| <= 2047 && s.flags < 64
    ensures Wire(s) == if s.sequenceNumber < 0x1_0000 then {s} else {}
  {
    hide FromBytes, Segment.Checksum;
    RoundTrip(s);
  }

  lemma PacketOnWire(c: Config, n: nat)
    requires c.Valid() && c.initial <= n < c.End()
    ensures Wire(c.Packet(n)) == if n < 0x1_0000 then {c.Packet(n)} else {}
    ensures !c.Packet(n).IsAck() && !c.Packet(n).IsTermination()
  {
    hide Wire;
    ChunkAt(c.file, MAX_PAYLOAD_SIZE, n - c.initial);
    FlagBits(c.masks);
    WireOf(c.Packet(n));
  }

  lemma AckOnWire(c: Config, n: nat)
    requires c.Valid()
    ensures Wire(AckSegment(n, c.masks)) == if n < 0x1_0000 then {AckSegment(n, c.masks)} else {}
    ensures var a := AckSegment(n, c.masks); a.IsAck() && !a.IsSyn() && !a.IsTermination()
  {
    hide Wire;
    FlagBits(c.masks);
    WireOf(AckSegment(n, c.masks));
  }

  lemma WireOne(s: Segment)
    ensures WireAll([s]) == Wire(s)
  {
    assert [s][..0] == [];
  }

  lemma WireAppend(segments: seq<Segment>, last: Segment)
    ensures WireAll(segments + [last]) == WireAll(segments) + Wire(last)
  {
    assert (segments + [last])[..|segments|] == segments;
  }

  lemma NextPacket(c: Config, s: Sender, i: nat, next: nat)
    requires c.Valid() && SenderInv(c, s) && i < Room(s, |c.Pieces()|) && next == s.next + Room(s, |c.Pieces()|)
    ensures forall p :: p in Wire(PacketFor(s, c.Pieces(), c.masks, i)) ==> IsPacket(c, next, p)
  {
    hide Wire;
    PacketNext(c, s, i);
    PacketOnWire(c, s.next + i);
    hide SenderInv, Chunks;
  }

  lemma PacketNext(c: Config, s: Sender, i: nat)
    requires SenderInv(c, s) && i < Room(s, |c.Pieces()|)
    ensures c.initial <= s.next + i < s.next + Room(s, |c.Pieces()|) <= c.End() && s.initial <= s.next
    ensures PacketFor(s, c.Pieces(), c.masks, i) == c.Packet(s.next + i)
    ensures c.Packet(s.next + i).sequenceNumber == s.next + i
  {
    hide Chunks;
  }

  /** What a window puts on the wire. */
  lemma {:induction false} WindowOnWire(c: Config, s: Sender, count: nat, next: nat)
    requires c.Valid() && SenderInv(c, s) && count <= Room(s, |c.Pieces()|)
    requires next == s.next + Room(s, |c.Pieces()|)
    ensures forall p :: p in WireAll(Packets(s, c.Pieces(), c.masks, count)) ==> IsPacket(c, next, p)
  {
    hide *;
    InitialBelowNext(c, s);
    if count == 0 {
      NoPackets(s, c.Pieces(), c.masks);
    } else {
      WindowOnWire(c, s, count - 1, next);
      PacketsStep(s, c.Pieces(), c.masks, count);
      WireAppend(Packets(s, c.Pieces(), c.masks, count - 1), PacketFor(s, c.Pieces(), c.masks, count - 1));
      NextPacket(c, s, count - 1, next);
    }
  }

  lemma NoPackets(s: Sender, chunks: seq<Bytes>, masks: nat)
    requires s.initial <= s.next
    ensures WireAll(Packets(s, chunks, masks, 0)) == {}
  {
  }

  lemma PacketsStep(s: Sender, chunks: seq<Bytes>, masks: nat, count: nat)
    requires s.initial <= s.next && 0 < count <= Room(s, |chunks|)
    ensures Packets(s, chunks, masks, count)
            == Packets(s, chunks, masks, count - 1) + [PacketFor(s, chunks, masks, count - 1)]
  {
  }

  // ----- The receiver keeps its invariant -------------------------------------------------------

  lemma {:induction false} PayloadsArePieces(c: Config, r: Receiver, end: nat)
    requires FileInv(c, r) && r.recvBase <= end <= c.End()
    requires forall n :: r.recvBase <= n < end ==> n in r.buffer
    ensures Payloads(r.recvBase, end, r.buffer) == c.Pieces()[r.recvBase - c.initial..end - c.initial]
  {
    if r.recvBase < end {
      PayloadsArePieces(c, r, end - 1);
    }
  }

  lemma PiecesWithin(c: Config, lo: nat, hi: nat)
    requires lo <= hi <= |c.Pieces()|
    ensures Concat(c.Pieces()[..lo]) + Concat(c.Pieces()[lo..hi]) == Concat(c.Pieces()[..hi])
    ensures |Concat(c.Pieces()[..hi])| <= |c.file|
    ensures Concat(c.Pieces()[..hi]) == c.file[..|Concat(c.Pieces()[..hi])|]
    ensures hi == |c.Pieces()| ==> Concat(c.Pieces()[..hi]) == c.file
  {
    var all := c.Pieces();
    ConcatAppend(all[..lo], all[lo..hi]);
    assert all[..lo] + all[lo..hi] == all[..hi];
    ConcatAppend(all[..hi], all[hi..]);
    assert all[..hi] + all[hi..] == all;
    ConcatOfChunks(c.file, MAX_PAYLOAD_SIZE);
    if hi == |all| {
      assert all[..hi] == all;
    }
  }

  /** Writing the contiguous run puts exactly the right bytes in place and never overruns the file. */
  lemma WriteContiguousInv(c: Config, r: Receiver)
    requires c.Valid() && FileInv(c, r)
    ensures FileInv(c, WriteContiguous(r))
    ensures WriteContiguous(r).recvBase !in WriteContiguous(r).buffer
    ensures forall n :: c.initial <= n ==> (Received(r, n) <==> Received(WriteContiguous(r), n))
    ensures forall n :: n in WriteContiguous(r).buffer ==>
              n in r.buffer && (n < r.recvBase || n > WriteContiguous(r).recvBase)
  {
    hide Chunks, Concat, Payloads, ContiguousEnd, Config.Packet;
    var end := ContiguousEnd(r.recvBase, r.buffer);
    if end != r.recvBase {
      assert end - 1 in r.buffer;
      PayloadsArePieces(c, r, end);
      var lo, hi := r.recvBase - c.initial, end - c.initial;
      PiecesWithin(c, lo, hi);
      RunningWrite(r.content, Concat(c.Pieces()[..lo]), Concat(c.Pieces()[lo..hi]));
    }
  }

  lemma AcceptInv(c: Config, r: Receiver, next: nat, p: Segment)
    requires c.Valid() && ReceiverInv(c, r) && IsPacket(c, next, p)
    requires IsInReceiveWindow(r.recvBase, c.receiveWindowSize, p.sequenceNumber)
    requires p.sequenceNumber !in r.buffer
    ensures var r' := WriteContiguous(r.(buffer := r.buffer[p.sequenceNumber := p]));
            && ReceiverInv(c, r')
            && (forall n :: c.initial <= n ==> (Received(r', n) <==> Received(r, n) || n == p.sequenceNumber))
            && (p.sequenceNumber == r.recvBase ==> r.recvBase < r'.recvBase) && r.recvBase <= r'.recvBase
  {
    hide Config.Packet, Concat, Chunks, ContiguousEnd, Payloads, Without;
    var n := p.sequenceNumber;
    var stored := r.(buffer := r.buffer[n := p]);
    assert FileInv(c, stored);
    WriteContiguousInv(c, stored);
    var r' := WriteContiguous(stored);
    assert Received(stored, n) && Received(r', n);
    assert r.recvBase <= r'.recvBase && r'.finished == r.finished && r'.aborted == r.aborted;
    assert r.downloaded <= r'.downloaded;
    assert r'.recvBase == r.recvBase || r'.recvBase - 1 in stored.buffer;
  }

  /** What one arriving packet does to the receiver, and that every answer is a true receipt. */
  lemma OnPacketInv(c: Config, r: Receiver, next: nat, p: Segment)
    requires c.Valid() && ReceiverInv(c, r) && IsPacket(c, next, p)
    ensures var (r', ack) := OnSegment(r, p, c.receiveWindowSize, c.masks);
            && ReceiverInv(c, r')
            && (forall n :: c.initial <= n ==>
                  (Received(r', n) <==> Received(r, n) || (ack.Some? && n == p.sequenceNumber)))
            && (ack.Some? ==> ack.value == AckSegment(p.sequenceNumber, c.masks))
            && r'.finReceived == r.finReceived && r'.finished == r.finished && r'.aborted == r.aborted
            && (p.sequenceNumber == r.recvBase ==> r.recvBase < r'.recvBase)
            && (ack.Some? <==> p.sequenceNumber < r.recvBase + c.receiveWindowSize)
            && r.recvBase <= r'.recvBase
  {
    var n := p.sequenceNumber;
    PacketOnWire(c, n);
    hide Wire, Config.Packet, Config.Valid, Segment.IsAck, Segment.IsTermination, ReceiverInv, IsPacket;
    if r.recvBase <= n && IsInReceiveWindow(r.recvBase, c.receiveWindowSize, n) && n !in r.buffer {
      AcceptInv(c, r, next, p);
    }
  }

  // ----- Every step keeps the invariant ---------------------------------------------------------

  lemma InitInv(c: Config)
    requires c.Valid()
    ensures Inv(c, Init(c))
  {
    assert c.Pieces()[..0] == [];
  }

  lemma FilledKeepsInv(c: Config, s: Sender, s': Sender, room: nat)
    requires SenderInv(c, s) && room == Room(s, |c.Pieces()|)
    requires s'.next == s.next + room && |s'.inFlight| <= |s.inFlight| + room
    requires forall n: nat :: FilledAt(s, s', c.Pieces(), c.masks, room, n)
    ensures SenderInv(c, s')
  {
    hide Chunks;
    assert FilledAt(s, s', c.Pieces(), c.masks, room, s.base);
    forall n | n in s'.inFlight
      ensures s'.base <= n < s'.next && s'.inFlight[n] == c.Packet(n)
    {
      assert FilledAt(s, s', c.Pieces(), c.masks, room, n);
    }
  }

  lemma RoomWhenIdle(c: Config, s: Sender)
    requires c.Valid() && SenderInv(c, s) && s.base == s.next < c.End()
    ensures Room(s, |c.Pieces()|) > 0
  {
    assert forall n :: n !in s.inFlight;
    assert s.inFlight == map[];
  }

  /** Filling the window at the sender, apart from what it means for the network. */
  lemma FillSenderInv(c: Config, s: Sender)
    requires c.Valid() && SenderInv(c, s)
    ensures var s' := FillWindow(s, c.Pieces(), c.masks);
            && SenderInv(c, s') && s.next <= s'.next && s'.base == s.base
            && s'.next == s.next + Room(s, |c.Pieces()|)
            && (forall n :: n in s'.inFlight <==> n in s.inFlight || s.next <= n < s'.next)
            && (forall n :: s'.timers[n] == s.timers[n] + (if s.next <= n < s'.next then 1 else 0))
            && (s.base < c.End() ==> s.base in s'.inFlight)
  {
    InitialBelowNext(c, s);
    FilledWindow(c, s);
    hide FillWindow, Chunks, Room, SenderInv, FilledAt;
    var room := Room(s, |c.Pieces()|);
    var s' := FillWindow(s, c.Pieces(), c.masks);
    FilledKeepsInv(c, s, s', room);
    forall n: nat
      ensures n in s'.inFlight <==> n in s.inFlight || s.next <= n < s'.next
      ensures s'.timers[n] == s.timers[n] + (if s.next <= n < s'.next then 1 else 0)
      ensures s'.base == s.base
    {
      FilledAtMeans(c, s, s', room, n);
    }
    FilledAtMeans(c, s, s', room, s.base);
    if s.base < c.End() && s.base == s.next {
      RoomWhenIdle(c, s);
    }
  }

  lemma FilledWindow(c: Config, s: Sender)
    requires c.initial == s.initial <= s.next
    ensures var s', room := FillWindow(s, c.Pieces(), c.masks), Room(s, |c.Pieces()|);
            && s'.next == s.next + room && |s'.inFlight| <= |s.inFlight| + room
            && forall n: nat :: FilledAt(s, s', c.Pieces(), c.masks, room, n)
  {
    hide SendFirst, Chunks, Room, FilledAt;
    var room := Room(s, |c.Pieces()|);
    var t := s.(next := s.next + room);
    forall n: nat
      ensures FilledAt(s, FillWindow(s, c.Pieces(), c.masks), c.Pieces(), c.masks, room, n)
    {
      Filled(s, t, c.Pieces(), c.masks, room, n);
    }
    Filled(s, t, c.Pieces(), c.masks, room, 0);
    FilledSize(s, t, c.Pieces(), c.masks, room);
  }

  lemma FilledAtMeans(c: Config, s: Sender, s': Sender, room: nat, n: nat)
    requires s.initial <= s.next && room == Room(s, |c.Pieces()|)
    requires FilledAt(s, s', c.Pieces(), c.masks, room, n)
    ensures n in s'.inFlight <==> n in s.inFlight || s.next <= n < s.next + room
    ensures s'.timers[n] == s.timers[n] + (if s.next <= n < s.next + room then 1 else 0)
    ensures s'.base == s.base
  {
  }

  lemma InitialBelowNext(c: Config, s: Sender)
    requires SenderInv(c, s)
    ensures c.initial == s.initial <= s.base <= s.next <= c.End() && (s.base in s.inFlight || s.base == s.next)
  {
  }

  lemma PhaseDone(c: Config, s: Sender)
    requires SenderInv(c, s) && AllAcknowledged(s, |c.Pieces()|)
    ensures s.base == c.End()
  {
  }

  lemma PhaseNotDone(c: Config, s: Sender)
    requires SenderInv(c, s) && !AllAcknowledged(s, |c.Pieces()|)
    ensures s.base < c.End()
  {
  }

  /** The network's contents stay true when more is sent and more is received. */
  lemma NetKept(c: Config, s: State, s': State)
    requires NetInv(c, s)
    requires s.sender.next <= s'.sender.next <= c.End()
    requires forall n :: c.initial <= n && Received(s.receiver, n) ==> Received(s'.receiver, n)
    requires forall p :: p in s'.dataNet ==> p in s.dataNet || IsPacket(c, s'.sender.next, p)
    requires forall a :: a in s'.ackNet ==> a in s.ackNet || IsReceipt(c, s'.receiver, a)
    requires forall e :: e in s'.queue ==> e in s.queue
    ensures NetInv(c, s')
  {
    hide Received, Chunks;
  }

  lemma FillTimers(s: State, s': State)
    requires TimerInv(s) && s'.queue == s.queue && s.sender.next <= s'.sender.next
    requires forall n :: n in s'.sender.inFlight <==> n in s.sender.inFlight || s.sender.next <= n < s'.sender.next
    requires forall n :: s'.sender.timers[n]
                         == s.sender.timers[n] + (if s.sender.next <= n < s'.sender.next then 1 else 0)
    ensures TimerInv(s')
  {
    forall n | n in s'.sender.inFlight || s'.sender.next <= n
      ensures Alarms(s', n) == if n in s'.sender.inFlight then 1 else 0
    {
      assert Alarms(s', n) == Alarms(s, n) + if s.sender.next <= n < s'.sender.next then 1 else 0;
    }
  }

  lemma FillDoneInv(c: Config, s: State)
    requires c.Valid() && Inv(c, s) && s.phase == Sending && s.sender.initial <= s.sender.next
    requires AllAcknowledged(s.sender, |c.Pieces()|)
    ensures Inv(c, AfterFill(c, s))
  {
    InvParts(c, s);
    PhaseDone(c, s.sender);
    hide AllAcknowledged, Chunks, Config.Packet, Received, SenderInv, ReceiverInv, IsPacket, IsReceipt;
    assert forall n :: Alarms(AfterFill(c, s), n) == Alarms(s, n);
  }

  /** What filling does to the state besides the sender's own part. */
  lemma FillEffect(c: Config, s: State)
    requires s.sender.initial <= s.sender.next && !AllAcknowledged(s.sender, |c.Pieces()|)
    ensures AfterFill(c, s)
         == s.(sender := FillWindow(s.sender, c.Pieces(), c.masks), waiting := true,
               dataNet := s.dataNet + WireAll(Packets(s.sender, c.Pieces(), c.masks, Room(s.sender, |c.Pieces()|))))
  {
    hide FillWindow, Packets, WireAll, AllAcknowledged, Room, Chunks;
  }

  lemma FillCross(c: Config, s: Sender, t: Sender, r: Receiver)
    requires CrossInv(c, s, r) && s.next <= t.next
    requires forall n :: n in t.inFlight <==> n in s.inFlight || s.next <= n < t.next
    ensures CrossInv(c, t, r)
  {
    hide Received;
  }

  lemma FillNet(c: Config, s: State, s': State)
    requires NetInv(c, s) && s' == s.(sender := s'.sender, waiting := s'.waiting, dataNet := s'.dataNet)
    requires s.sender.next <= s'.sender.next <= c.End()
    requires forall p :: p in s'.dataNet ==> p in s.dataNet || IsPacket(c, s'.sender.next, p)
    ensures NetInv(c, s')
  {
    hide NetInv, Received, IsPacket, Chunks, IsReceipt;
    NetKept(c, s, s');
  }

  lemma FromParts(c: Config, s: State)
    requires SenderInv(c, s.sender) && ReceiverInv(c, s.receiver) && CrossInv(c, s.sender, s.receiver)
    requires NetInv(c, s) && TimerInv(s)
    requires (s.phase == Completed ==> s.sender.base == c.End()) && s.sender.base in s.sender.inFlight
    ensures Inv(c, s)
  {
    hide SenderInv, ReceiverInv, CrossInv, NetInv, TimerInv;
  }

  lemma FillSentInv(c: Config, s: State)
    requires c.Valid() && Inv(c, s) && s.phase == Sending && s.sender.initial <= s.sender.next
    requires !AllAcknowledged(s.sender, |c.Pieces()|)
    ensures Inv(c, AfterFill(c, s))
  {
    hide *;
    var sender := s.sender;
    var s' := AfterFill(c, s);
    InvParts(c, s);
    FillEffect(c, s);
    PhaseNotDone(c, sender);
    FillSenderInv(c, sender);
    InitialBelowNext(c, s'.sender);
    WindowOnWire(c, sender, Room(sender, |c.Pieces()|), s'.sender.next);
    FillNet(c, s, s');
    FillTimers(s, s');
    FillCross(c, sender, s'.sender, s.receiver);
    FromParts(c, s');
  }

  lemma FillInv(c: Config, s: State)
    requires c.Valid() && Inv(c, s) && s.phase == Sending && !s.waiting
    ensures s.sender.initial <= s.sender.next && Inv(c, AfterFill(c, s))
  {
    hide *;
    InvParts(c, s);
    InitialBelowNext(c, s.sender);
    if AllAcknowledged(s.sender, |c.Pieces()|) {
      FillDoneInv(c, s);
    } else {
      FillSentInv(c, s);
    }
  }

  lemma FewerInFlight(m: map<nat, Segment>, n: nat)
    ensures |m - {n}| <= |m|
    ensures n in m ==> |m - {n}| == |m| - 1
  {
    assert (m - {n}).Keys == m.Keys - {n};
    assert |m.Keys| == |m| && |(m - {n}).Keys| == |m - {n}|;
  }

  /** An acknowledgement of a received packet: the window slides to the first packet still out. */
  lemma AckKeeps(c: Config, s: Sender, r: Receiver, n: nat)
    requires SenderInv(c, s) && CrossInv(c, s, r) && (n in s.inFlight ==> Received(r, n))
    ensures var s' := OnAck(s, n);
            && SenderInv(c, s') && CrossInv(c, s', r) && s'.next == s.next && s.base <= s'.base
            && s'.inFlight == s.inFlight - {n}
            && s'.timers == (if n in s.inFlight then s.timers[n := 0] else s.timers)
            && (n == s.base && n in s.inFlight ==> s.base < s'.base)
  {
    hide Chunks, Config.Packet, Received;
    FewerInFlight(s.inFlight, n);
    if n !in s.inFlight {
      assert s.inFlight - {n} == s.inFlight;
    }
  }

  /** What the head of the queue can be, and that the rest of the queue stays as true as it was. */
  lemma Dequeue(queue: seq<Event>, n: nat)
    requires queue != []
    ensures multiset(queue)[TimedOut(n)]
            == multiset(queue[1..])[TimedOut(n)] + if queue[0] == TimedOut(n) then 1 else 0
    ensures forall e :: e in queue[1..] ==> e in queue
  {
    assert queue == [queue[0]] + queue[1..];
  }

  lemma TimersAfterAck(s: State, s': State, n: nat)
    requires TimerInv(s) && s.queue != [] && s'.queue == s.queue[1..] && s.queue[0].SegmentArrived?
    requires s'.sender.next == s.sender.next && s'.sender.inFlight == s.sender.inFlight - {n}
    requires s'.sender.timers == s.sender.timers || s'.sender.timers == s.sender.timers[n := 0]
    requires n !in s.sender.inFlight ==> s'.sender.timers == s.sender.timers
    ensures TimerInv(s')
  {
    forall k | k in s'.sender.inFlight || s'.sender.next <= k
      ensures Alarms(s', k) <= Alarms(s, k) && (k != n ==> Alarms(s', k) == Alarms(s, k))
    {
      Dequeue(s.queue, k);
    }
  }

  lemma TimersAfterTimeout(s: State, s': State, n: nat)
    requires TimerInv(s) && s.queue != [] && s'.queue == s.queue[1..] && s.queue[0] == TimedOut(n)
    requires s'.sender == OnTimeout(s.sender, n).0
    ensures TimerInv(s')
  {
    forall k | k in s'.sender.inFlight || s'.sender.next <= k
      ensures Alarms(s', k) == Alarms(s, k)
    {
      Dequeue(s.queue, k);
      Dequeue(s.queue, n);
      assert Alarms(s, n) > 0;
    }
  }

  /** Events that change nothing but the phase. */
  lemma ConsumeIdle(c: Config, s: State, s': State)
    requires Inv(c, s) && s.queue != [] && !s.queue[0].TimedOut?
    requires s' == s.(phase := s'.phase, waiting := false, queue := s.queue[1..]) && s'.phase != Completed
    ensures Inv(c, s')
  {
    hide SenderInv, ReceiverInv, CrossInv, NetInv, TimerInv;
    InitialBelowNext(c, s.sender);
    Dequeue(s.queue, 0);
    NetKept(c, s, s');
    TimersAfterOther(s, s');
  }

  lemma TimersAfterOther(s: State, s': State)
    requires TimerInv(s) && s.queue != [] && s'.queue == s.queue[1..] && !s.queue[0].TimedOut?
    requires s'.sender == s.sender
    ensures TimerInv(s')
  {
    forall k | k in s'.sender.inFlight || s'.sender.next <= k
      ensures Alarms(s', k) == Alarms(s, k)
    {
      Dequeue(s.queue, k);
    }
  }

  lemma ReceiptInQueue(c: Config, s: State, a: Segment)
    requires NetInv(c, s) && SegmentArrived(a) in s.queue && !a.IsTermination() && a.IsAck() && !a.IsSyn()
    ensures a.sequenceNumber < c.initial || Received(s.receiver, a.sequenceNumber)
  {
    var e := SegmentArrived(a);
    assert e in s.queue && e.SegmentArrived?;
  }

  lemma NotInFlight(c: Config, s: Sender, n: nat)
    requires SenderInv(c, s) && n < c.initial
    ensures n !in s.inFlight
  {
  }

  lemma ConsumeAck(c: Config, s: State, s': State, a: Segment)
    requires Inv(c, s) && s.queue != [] && s.queue[0] == SegmentArrived(a)
    requires !a.IsTermination() && a.IsAck() && !a.IsSyn()
    requires s' == s.(sender := OnAck(s.sender, a.sequenceNumber), waiting := false, queue := s.queue[1..])
    requires s.phase == Sending
    ensures Inv(c, s')
  {
    hide SenderInv, ReceiverInv, CrossInv, NetInv, TimerInv, OnAck;
    var n := a.sequenceNumber;
    ReceiptInQueue(c, s, a);
    if n < c.initial {
      NotInFlight(c, s.sender, n);
    }
    AckKeeps(c, s.sender, s.receiver, n);
    InitialBelowNext(c, s'.sender);
    Dequeue(s.queue, 0);
    NetKept(c, s, s');
    TimersAfterAck(s, s', n);
  }

  lemma TimeoutKeeps(c: Config, s: Sender, r: Receiver, n: nat)
    requires c.Valid() && SenderInv(c, s) && CrossInv(c, s, r)
    ensures var (s', sent) := OnTimeout(s, n);
            && SenderInv(c, s') && CrossInv(c, s', r) && s' == s.(timers := s'.timers)
            && (forall p :: p in WireAll(sent) ==> IsPacket(c, s.next, p))
            && (n in s.inFlight && n < 0x1_0000 ==> c.initial <= n < c.End() && c.Packet(n) in WireAll(sent))
  {
    if n in s.inFlight {
      PacketOnWire(c, n);
      WireOne(s.inFlight[n]);
    }
    hide Wire, WireAll;
  }

  lemma ConsumeTimeout(c: Config, s: State, s': State, n: nat)
    requires c.Valid() && Inv(c, s) && s.queue != [] && s.queue[0] == TimedOut(n) && s.phase == Sending
    requires s' == s.(sender := OnTimeout(s.sender, n).0, waiting := false, queue := s.queue[1..],
                      dataNet := s.dataNet + WireAll(OnTimeout(s.sender, n).1))
    ensures Inv(c, s')
  {
    hide SenderInv, ReceiverInv, CrossInv, NetInv, TimerInv, OnTimeout, WireAll;
    TimeoutKeeps(c, s.sender, s.receiver, n);
    InitialBelowNext(c, s.sender);
    Dequeue(s.queue, 0);
    NetKept(c, s, s');
    TimersAfterTimeout(s, s', n);
  }

  lemma ConsumeInv(c: Config, s: State)
    requires c.Valid() && Inv(c, s) && s.phase == Sending && s.waiting && s.queue != []
    ensures Inv(c, AfterConsume(s))
  {
    var s' := AfterConsume(s);
    match s.queue[0]
    case SegmentArrived(a) =>
      if a.IsTermination() || !a.IsAck() || a.IsSyn() {
        ConsumeIdle(c, s, s');
      } else {
        ConsumeAck(c, s, s', a);
      }
    case TimedOut(n) => ConsumeTimeout(c, s, s', n);
    case Aborted => ConsumeIdle(c, s, s');
  }

  lemma EnqueueCount(queue: seq<Event>, e: Event, n: nat)
    ensures multiset(queue + [e])[TimedOut(n)] == multiset(queue)[TimedOut(n)] + if e == TimedOut(n) then 1 else 0
  {
  }

  lemma AlarmsKept(s: State, s': State)
    requires TimerInv(s) && s'.sender.inFlight == s.sender.inFlight && s'.sender.next == s.sender.next
    requires forall k: nat :: Alarms(s', k) == Alarms(s, k)
    ensures TimerInv(s')
  {
    hide Alarms;
  }

  lemma TimersAside(c: Config, s: Sender, r: Receiver, timers: multiset<nat>)
    requires SenderInv(c, s) && CrossInv(c, s, r)
    ensures SenderInv(c, s.(timers := timers)) && CrossInv(c, s.(timers := timers), r)
  {
    hide Received, Chunks, Config.Packet;
  }

  lemma TimerFiresInv(c: Config, s: State, s': State, n: nat)
    requires Inv(c, s) && s.sender.timers[n] > 0
    requires s' == s.(sender := s.sender.(timers := s.sender.timers - multiset{n}), queue := s.queue + [TimedOut(n)])
    ensures Inv(c, s')
  {
    hide SenderInv, ReceiverInv, CrossInv, TimerInv, Received, Chunks, Config.Packet;
    TimersAside(c, s.sender, s.receiver, s'.sender.timers);
    forall k: nat
      ensures Alarms(s', k) == Alarms(s, k)
    {
      EnqueueCount(s.queue, TimedOut(n), k);
    }
    AlarmsKept(s, s');
  }

  /** Adding to the queue what may be there: a true receipt or an event from outside. */
  lemma EnqueueInv(c: Config, s: State, s': State, e: Event)
    requires Inv(c, s) && s' == s.(queue := s.queue + [e])
    requires IsForeignToSender(c, e) || (e.SegmentArrived? && IsReceipt(c, s.receiver, e.segment))
    ensures Inv(c, s')
  {
    hide Received, Chunks, Config.Packet;
    forall k: nat | k in s'.sender.inFlight || s'.sender.next <= k
      ensures Alarms(s', k) == Alarms(s, k)
    {
      EnqueueCount(s.queue, e, k);
    }
  }

  /** The receiver half of a step, given what it does to the receiver. */
  lemma ReceiverStepInv(c: Config, s: State, s': State)
    requires Inv(c, s) && s' == s.(receiver := s'.receiver, ackNet := s'.ackNet)
    requires ReceiverInv(c, s'.receiver)
    requires forall n :: c.initial <= n && Received(s.receiver, n) ==> Received(s'.receiver, n)
    requires forall n :: c.initial <= n && Received(s'.receiver, n) ==> Received(s.receiver, n) || n < s.sender.next
    requires forall a :: a in s'.ackNet ==> a in s.ackNet || IsReceipt(c, s'.receiver, a)
    ensures Inv(c, s')
  {
    hide Received, Chunks, Config.Packet, ReceiverInv, IsReceipt, SenderInv;
    InitialBelowNext(c, s.sender);
    NetKept(c, s, s');
    forall k: nat
      ensures Alarms(s', k) == Alarms(s, k)
    {
    }
  }

  lemma FinishKeeps(c: Config, r: Receiver)
    requires ReceiverInv(c, r)
    ensures r.downloaded >= |r.content| ==> ReceiverInv(c, r.(finished := true))
    ensures ReceiverInv(c, r.(finished := true, aborted := true))
    ensures forall fin: Option<nat> :: ReceiverInv(c, r.(finReceived := true, finSequenceNumber := fin))
  {
    hide Received, Chunks, Config.Packet, Concat;
  }

  lemma ReceiveInv(c: Config, s: State, p: Segment)
    requires c.Valid() && Inv(c, s) && p in s.dataNet
    ensures Inv(c, AfterReceiverEvent(c, s, SegmentArrived(p)))
  {
    hide *;
    InvParts(c, s);
    InTransit(c, s, p);
    AnswerInv(c, s.receiver, s.sender.next, p);
    PacketNumber(c, s.sender.next, p);
    AckOnWire(c, p.sequenceNumber);
    ReceivedInv(c, s, p);
  }

  lemma InTransit(c: Config, s: State, p: Segment)
    requires Inv(c, s) && p in s.dataNet
    ensures IsPacket(c, s.sender.next, p)
  {
    hide Config.Packet, Chunks;
  }

  lemma PacketNumber(c: Config, next: nat, p: Segment)
    requires IsPacket(c, next, p)
    ensures c.initial <= p.sequenceNumber < next
  {
    hide Config.Packet, Chunks;
  }

  lemma AnswerInv(c: Config, r: Receiver, next: nat, p: Segment)
    requires c.Valid() && ReceiverInv(c, r) && IsPacket(c, next, p)
    ensures var (r', ack) := OnReceiverEvent(r, SegmentArrived(p), c.receiveWindowSize, c.masks);
            && ReceiverInv(c, r')
            && (forall n :: c.initial <= n ==>
                  (Received(r', n) <==> Received(r, n) || (ack.Some? && n == p.sequenceNumber)))
            && (ack.Some? ==> ack.value == AckSegment(p.sequenceNumber, c.masks))
  {
    hide OnSegment, ReceiverInv, IsPacket, AckSegment, Chunks;
    OnPacketInv(c, r, next, p);
    FinishKeeps(c, OnSegment(r, p, c.receiveWindowSize, c.masks).0);
  }

  lemma ReceivedInv(c: Config, s: State, p: Segment)
    requires Inv(c, s) && c.initial <= p.sequenceNumber < s.sender.next
    requires var a := AckSegment(p.sequenceNumber, c.masks); Wire(a) <= {a}
    requires var (r', ack) := OnReceiverEvent(s.receiver, SegmentArrived(p), c.receiveWindowSize, c.masks);
             && ReceiverInv(c, r')
             && (forall n :: c.initial <= n ==>
                   (Received(r', n) <==> Received(s.receiver, n) || (ack.Some? && n == p.sequenceNumber)))
             && (ack.Some? ==> ack.value == AckSegment(p.sequenceNumber, c.masks))
    ensures Inv(c, AfterReceiverEvent(c, s, SegmentArrived(p)))
  {
    var s' := AfterReceiverEvent(c, s, SegmentArrived(p));
    InvParts(c, s);
    hide OnReceiverEvent, Inv, ReceiverInv, SenderInv, CrossInv, NetInv, TimerInv, PhaseInv, Wire, Chunks, Received;
    assert AckSegment(p.sequenceNumber, c.masks).sequenceNumber == p.sequenceNumber;
    ReceiverStepInv(c, s, s');
  }

  /** What an event from outside does to the receiver: it may note a FIN, finish, or acknowledge a
      number below the first. */
  lemma ForeignEffect(c: Config, r: Receiver, e: Event)
    requires c.Valid() && ReceiverInv(c, r) && IsForeignToReceiver(c, e)
    ensures var (r', ack) := OnReceiverEvent(r, e, c.receiveWindowSize, c.masks);
            && ReceiverInv(c, r') && r'.recvBase == r.recvBase && r'.buffer == r.buffer
            && (ack.Some? ==> ack.value.sequenceNumber < c.initial
                              && ack.value == AckSegment(ack.value.sequenceNumber, c.masks))
  {
    FinishKeeps(c, r);
    match e
    case SegmentArrived(a) =>
      var (r', ack) := OnSegment(r, a, c.receiveWindowSize, c.masks);
      assert c.initial <= r.recvBase;
      assert r' == r || r' == r.(finReceived := true, finSequenceNumber := Some(a.sequenceNumber));
      hide OnSegment, ReceiverInv;
      FinishKeeps(c, r');
    case _ =>
  }

  lemma ForeignToReceiverInv(c: Config, s: State, e: Event)
    requires c.Valid() && Inv(c, s) && IsForeignToReceiver(c, e)
    ensures Inv(c, AfterReceiverEvent(c, s, e))
  {
    hide Inv, ReceiverInv, Wire, OnReceiverEvent, AckSegment, IsForeignToReceiver;
    assert ReceiverInv(c, s.receiver) by { InvParts(c, s); }
    ForeignEffect(c, s.receiver, e);
    var (r', ack) := OnReceiverEvent(s.receiver, e, c.receiveWindowSize, c.masks);
    if ack.Some? {
      AckOnWire(c, ack.value.sequenceNumber);
    }
    ReceiverStepInv(c, s, AfterReceiverEvent(c, s, e));
  }

  lemma InvParts(c: Config, s: State)
    requires Inv(c, s)
    ensures SenderInv(c, s.sender) && PhaseInv(c, s) && ReceiverInv(c, s.receiver)
    ensures CrossInv(c, s.sender, s.receiver) && NetInv(c, s) && TimerInv(s)
  {
  }

  lemma StepInv(c: Config, s: State, action: Action, s': State)
    requires c.Valid() && Inv(c, s) && Step(c, s, action, s')
    ensures Inv(c, s')
  {
    hide SenderInv, ReceiverInv, CrossInv, TimerInv, PhaseInv, AfterFill, AfterConsume, AfterReceiverEvent;
    match action
    case Fill => FillInv(c, s);
    case Consume => ConsumeInv(c, s);
    case TimerFires(n) => TimerFiresInv(c, s, s', n);
    case DeliverAck(a) => EnqueueInv(c, s, s', SegmentArrived(a));
    case Receive(p) => ReceiveInv(c, s, p);
    case Lose(data, acks) => LoseInv(c, s, s', data, acks);
    case ForeignToSender(e) => EnqueueInv(c, s, s', e);
    case ForeignToReceiver(e) => ForeignToReceiverInv(c, s, e);
  }

  lemma LoseInv(c: Config, s: State, s': State, data: set<Segment>, acks: set<Segment>)
    requires Inv(c, s) && s' == s.(dataNet := s.dataNet - data, ackNet := s.ackNet - acks)
    ensures Inv(c, s')
  {
    hide SenderInv, ReceiverInv, CrossInv, IsPacket, IsReceipt, Received;
    InitialBelowNext(c, s.sender);
    NetKept(c, s, s');
    forall k: nat
      ensures Alarms(s', k) == Alarms(s, k)
    {
    }
  }

  /** The invariant holds in every state of every run. */
  lemma {:induction false} RunInv(c: Config, run: seq<State>, i: nat)
    requires c.Valid() && IsRun(c, run) && i < |run|
    ensures Inv(c, run[i])
  {
    hide Inv, Init, Step;
    if i == 0 {
      InitInv(c);
    } else {
      RunInv(c, run, i - 1);
      assert Next(c, run[i - 1], run[i - 1 + 1]);
      var action :| Step(c, run[i - 1], action, run[i]);
      StepInv(c, run[i - 1], action, run[i]);
    }
  }

  // ----- What the invariant means ---------------------------------------------------------------

  /** In every reachable state the file is right up to what was downloaded, every buffered segment is
      the right chunk, and no write ever ran past the declared size. */
  lemma SafeAtAllTimes(c: Config, run: seq<State>, i: nat)
    requires c.Valid() && IsRun(c, run) && i < |run|
    ensures var r := run[i].receiver;
            && r.downloaded <= |r.content| == |c.file|
            && r.content[..r.downloaded] == c.file[..r.downloaded]
            && c.initial <= r.recvBase <= c.End()
            && r.downloaded == |Concat(c.Pieces()[..r.recvBase - c.initial])|
            && (forall n :: n in r.buffer ==>
                  c.initial <= n < c.End() && r.buffer[n].payload == c.Pieces()[n - c.initial])
            && !r.failed
  {
    hide *;
    RunInv(c, run, i);
    InvParts(c, run[i]);
    PrefixWritten(c, run[i].receiver);
    BufferRight(c, run[i].receiver);
  }

  lemma PrefixWritten(c: Config, r: Receiver)
    requires ReceiverInv(c, r)
    ensures r.downloaded <= |r.content| == |c.file| && r.content[..r.downloaded] == c.file[..r.downloaded]
    ensures c.initial <= r.recvBase <= c.End() && !r.failed
    ensures r.downloaded == |Concat(c.Pieces()[..r.recvBase - c.initial])|
  {
    PiecesWithin(c, 0, r.recvBase - c.initial);
    hide Concat, Chunks, Config.Packet;
  }

  lemma BufferRight(c: Config, r: Receiver)
    requires ReceiverInv(c, r)
    ensures forall n :: n in r.buffer ==> c.initial <= n < c.End() && r.buffer[n].payload == c.Pieces()[n - c.initial]
  {
    hide Concat, Chunks;
  }

  lemma WholeFile(c: Config, r: Receiver)
    requires ReceiverInv(c, r) && (r.recvBase == c.End() || r.downloaded >= |c.file|)
    ensures r.content == c.file
  {
    var hi := r.recvBase - c.initial;
    PiecesWithin(c, 0, hi);
    hide Chunks, Concat;
    assert r.downloaded == |c.file|;
    assert r.content[..r.downloaded] == r.content && c.file[..r.downloaded] == c.file;
  }

  /** The sender's window never moves past the receiver's. */
  lemma BaseBehind(c: Config, s: State)
    requires Inv(c, s)
    ensures s.sender.base <= s.receiver.recvBase <= s.sender.next
  {
    hide Chunks, Concat, Config.Packet, TimerInv, NetInv;
    var r := s.receiver;
    assert !Received(r, r.recvBase);
    assert r.recvBase < s.sender.base ==> r.recvBase !in s.sender.inFlight;
    assert c.initial < r.recvBase ==> Received(r, r.recvBase - 1);
  }

  /** When the sending loop ends because everything was acknowledged, the receiver has already written
      the whole file: this is what makes shutting down at that point safe. */
  lemma CompletedMeansDelivered(c: Config, run: seq<State>, i: nat)
    requires c.Valid() && IsRun(c, run) && i < |run| && run[i].phase == Completed
    ensures run[i].receiver.content == c.file && run[i].receiver.recvBase == c.End()
    ensures run[i].sender.inFlight == map[]
  {
    RunInv(c, run, i);
    InvParts(c, run[i]);
    BaseBehind(c, run[i]);
    WholeFile(c, run[i].receiver);
    hide Chunks, Concat, Config.Packet, TimerInv, NetInv, ReceiverInv, CrossInv;
    assert forall n :: n !in run[i].sender.inFlight;
  }

  /** A download that ends on a FIN, rather than by an abort, ends with the whole file. */
  lemma FinishedMeansDelivered(c: Config, run: seq<State>, i: nat)
    requires c.Valid() && IsRun(c, run) && i < |run|
    requires run[i].receiver.finished && !run[i].receiver.aborted
    ensures run[i].receiver.content == c.file
  {
    RunInv(c, run, i);
    InvParts(c, run[i]);
    WholeFile(c, run[i].receiver);
  }

  function Range(lo: nat, hi: nat): (s: set<nat>)
    ensures forall n :: n in s <==> lo <= n < hi
    ensures lo <= hi ==> |s| == hi - lo
    decreases hi - lo
  {
    if hi <= lo then {} else Range(lo, hi - 1) + {hi - 1}
  }

  /** Only the number in flight is limited, yet the spread of the window is bounded by both window sizes:
      everything from recvBase + receiveWindowSize on is still out, and so is recvBase itself. */
  lemma WindowBound(c: Config, run: seq<State>, i: nat)
    requires c.Valid() && IsRun(c, run) && i < |run|
    ensures var s, r := run[i].sender, run[i].receiver;
            && s.base <= r.recvBase <= s.next <= r.recvBase + c.receiveWindowSize + c.windowSize - 1
            && |s.inFlight| <= c.windowSize
            && (s.base in s.inFlight || s.base == s.next)
  {
    assert c.receiveWindowSize >= 1 && c.windowSize >= 1;
    hide *;
    RunInv(c, run, i);
    InvParts(c, run[i]);
    BaseBehind(c, run[i]);
    Spread(c, run[i].sender, run[i].receiver);
  }

  lemma Spread(c: Config, s: Sender, r: Receiver)
    requires SenderInv(c, s) && ReceiverInv(c, r) && CrossInv(c, s, r) && r.recvBase <= s.next
    requires c.receiveWindowSize >= 1 && c.windowSize >= 1
    ensures s.next <= r.recvBase + c.receiveWindowSize + c.windowSize - 1
    ensures |s.inFlight| <= c.windowSize && (s.base in s.inFlight || s.base == s.next)
  {
    hide *;
    var far := r.recvBase + c.receiveWindowSize;
    InFlightCount(c, s);
    if far < s.next {
      var out := Range(far, s.next) + {r.recvBase};
      forall n | n in out
        ensures n in s.inFlight.Keys
      {
        StillOut(c, s, r, n);
      }
      SubsetSize(out, s.inFlight.Keys);
      assert r.recvBase !in Range(far, s.next);
      assert |out| == s.next - far + 1;
    }
  }

  /** The receiver's base, and what lies beyond its window, cannot have been received. */
  lemma StillOut(c: Config, s: Sender, r: Receiver, n: nat)
    requires SenderInv(c, s) && ReceiverInv(c, r) && CrossInv(c, s, r) && n < s.next
    requires n == r.recvBase || r.recvBase + c.receiveWindowSize <= n
    ensures n in s.inFlight
  {
    hide Concat, Chunks, Config.Packet;
    assert !Received(r, n);
  }

  lemma InFlightCount(c: Config, s: Sender)
    requires SenderInv(c, s)
    ensures |s.inFlight| <= c.windowSize && (s.base in s.inFlight || s.base == s.next)
  {
  }

  /** Retransmission is never lost: each packet in flight has exactly one pending timer entry or one
      queued timeout. */
  lemma OneAlarmEach(c: Config, run: seq<State>, i: nat, n: nat)
    requires c.Valid() && IsRun(c, run) && i < |run| && n in run[i].sender.inFlight
    ensures Alarms(run[i], n) == 1
  {
    RunInv(c, run, i);
  }
}
