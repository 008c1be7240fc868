/** What makes it selective repeat: packets and acknowledgements may come in any order and any number of times. */
module SelectiveRepeat {
  import opened Wrappers
  import opened ByteStrings
  import opened Segments
  import opened FileChunks
  import opened Flow
  import opened Transfer

  // ----- The receiver ---------------------------------------------------------------------------

  /** Below the end of its window the receiver acknowledges every data packet; one that is ahead of its base it
      keeps until it can be written, unless it has it already; beyond the window it drops packets silently. */
  lemma OutOfOrderIsKept(r: Receiver, p: Segment, receiveWindowSize: nat, masks: nat)
    requires !p.IsAck() && !p.IsTermination()
    ensures var (r', ack) := OnSegment(r, p, receiveWindowSize, masks);
            && (p.sequenceNumber < r.recvBase ==> r' == r && ack == Some(AckSegment(p.sequenceNumber, masks)))
            && (r.recvBase <= p.sequenceNumber < r.recvBase + receiveWindowSize ==>
                  ack == Some(AckSegment(p.sequenceNumber, masks)))
            && (r.recvBase < p.sequenceNumber < r.recvBase + receiveWindowSize && r.recvBase !in r.buffer ==>
                  r' == if p.sequenceNumber in r.buffer then r
                        else r.(buffer := r.buffer[p.sequenceNumber := p]))
            && (r.recvBase + receiveWindowSize <= p.sequenceNumber && r.recvBase <= p.sequenceNumber ==>
                  r' == r && ack == None)
  {
    hide Segment.IsAck, Segment.IsTermination, AckSegment, ContiguousEnd;
    if r.recvBase < p.sequenceNumber && r.recvBase !in r.buffer {
      ContiguousStops(r.recvBase, r.buffer[p.sequenceNumber := p]);
    }
  }

  lemma ContiguousStops(base: nat, buffer: map<nat, Segment>)
    requires base !in buffer
    ensures ContiguousEnd(base, buffer) == base
  {
  }

  function Deliver(c: Config, r: Receiver, packets: seq<Segment>): Receiver {
    if packets == [] then r
    else OnSegment(Deliver(c, r, packets[..|packets| - 1]), packets[|packets| - 1], c.receiveWindowSize, c.masks).0
  }

  /** Packets of this transfer within the window the receiver has now. */
  ghost predicate InWindow(c: Config, next: nat, r: Receiver, packets: seq<Segment>) {
    forall p :: p in packets ==> IsPacket(c, next, p) && p.sequenceNumber < r.recvBase + c.receiveWindowSize
  }

  predicate HasNumber(packets: seq<Segment>, n: nat) {
    exists p :: p in packets && p.sequenceNumber == n
  }

  lemma NumberOfLast(packets: seq<Segment>, n: nat)
    requires packets != []
    ensures HasNumber(packets, n)
            <==> HasNumber(packets[..|packets| - 1], n) || packets[|packets| - 1].sequenceNumber == n
  {
    assert packets == packets[..|packets| - 1] + [packets[|packets| - 1]];
  }

  /** However they are ordered and repeated, exactly what was delivered has been received. */
  lemma {:induction false} DeliveredIsReceived(c: Config, next: nat, r: Receiver, packets: seq<Segment>)
    requires c.Valid() && ReceiverInv(c, r) && InWindow(c, next, r, packets)
    ensures var r' := Deliver(c, r, packets);
            && ReceiverInv(c, r') && r.recvBase <= r'.recvBase
            && forall n: nat :: c.initial <= n ==> (Received(r', n) <==> Received(r, n) || HasNumber(packets, n))
  {
    hide OnSegment, ReceiverInv, IsPacket, Received, HasNumber;
    if packets == [] {
      NoNumbers();
    } else {
      var before, p := packets[..|packets| - 1], packets[|packets| - 1];
      assert p in packets && forall q :: q in before ==> q in packets;
      DeliveredIsReceived(c, next, r, before);
      OnPacketInv(c, Deliver(c, r, before), next, p);
      forall n: nat
        ensures HasNumber(packets, n) <==> HasNumber(before, n) || p.sequenceNumber == n
      {
        NumberOfLast(packets, n);
      }
    }
  }

  lemma NoNumbers()
    ensures forall n: nat :: !HasNumber([], n)
  {
  }

  /** Nothing but the received prefix of the file is written, and no other field changes. */
  predicate OnlyWrites(r: Receiver, r': Receiver) {
    && r' == r.(recvBase := r'.recvBase, buffer := r'.buffer, downloaded := r'.downloaded, content := r'.content,
                failed := r'.failed)
    && r.downloaded <= r'.downloaded && |r'.content| == |r.content|
    && (r'.downloaded <= |r.content| ==> r'.content[r'.downloaded..] == r.content[r'.downloaded..])
  }

  lemma WritesOnly(r: Receiver, p: Segment, receiveWindowSize: nat, masks: nat)
    requires !p.IsAck() && !p.IsTermination()
    ensures OnlyWrites(r, OnSegment(r, p, receiveWindowSize, masks).0)
  {
    hide Segment.IsAck, Segment.IsTermination, AckSegment, ContiguousEnd, Payloads, Concat, Without;
  }

  lemma WritesTogether(r: Receiver, s: Receiver, t: Receiver)
    requires OnlyWrites(r, s) && OnlyWrites(s, t)
    ensures OnlyWrites(r, t)
  {
    if t.downloaded <= |r.content| {
      var k := t.downloaded - s.downloaded;
      assert s.content[s.downloaded..][k..] == s.content[t.downloaded..];
      assert r.content[s.downloaded..][k..] == r.content[t.downloaded..];
    }
  }

  lemma {:induction false} DeliveryOnlyWrites(c: Config, next: nat, r: Receiver, packets: seq<Segment>)
    requires c.Valid() && InWindow(c, next, r, packets)
    ensures OnlyWrites(r, Deliver(c, r, packets))
  {
    hide OnSegment, IsPacket, OnlyWrites;
    if packets == [] {
      WritesNothing(r);
    } else {
      var before, p := packets[..|packets| - 1], packets[|packets| - 1];
      assert p in packets && forall q :: q in before ==> q in packets;
      DeliveryOnlyWrites(c, next, r, before);
      IsDataPacket(c, next, p);
      WritesOnly(Deliver(c, r, before), p, c.receiveWindowSize, c.masks);
      WritesTogether(r, Deliver(c, r, before), Deliver(c, r, packets));
    }
  }

  lemma WritesNothing(r: Receiver)
    ensures OnlyWrites(r, r)
  {
  }

  lemma IsDataPacket(c: Config, next: nat, p: Segment)
    requires c.Valid() && IsPacket(c, next, p)
    ensures !p.IsAck() && !p.IsTermination()
  {
    PacketOnWire(c, p.sequenceNumber);
    hide Wire, Chunks, Config.Packet;
  }

  /** What has been received determines the receiver. */
  lemma ReceivedDetermines(c: Config, r: Receiver, s: Receiver, t: Receiver)
    requires ReceiverInv(c, s) && ReceiverInv(c, t) && OnlyWrites(r, s) && OnlyWrites(r, t)
    requires forall n: nat :: c.initial <= n ==> (Received(s, n) <==> Received(t, n))
    ensures s == t
  {
    hide Chunks, Concat, Config.Packet;
    assert !Received(s, s.recvBase) && !Received(t, t.recvBase);
    assert s.recvBase == t.recvBase;
    forall n: nat
      ensures n in s.buffer <==> n in t.buffer
    {
      assert Received(s, n) <==> Received(t, n) || n < c.initial;
    }
    assert s.buffer == t.buffer;
    assert s.downloaded == t.downloaded <= |r.content|;
    assert s.content == s.content[..s.downloaded] + s.content[s.downloaded..];
    assert t.content == t.content[..t.downloaded] + t.content[t.downloaded..];
  }

  /** The receiver ends in the same state whatever the order of the packets in its window, and however often
      each comes. */
  lemma AnyOrder(c: Config, next: nat, r: Receiver, packets: seq<Segment>, others: seq<Segment>)
    requires c.Valid() && ReceiverInv(c, r) && InWindow(c, next, r, packets) && InWindow(c, next, r, others)
    requires forall p :: p in packets <==> p in others
    ensures Deliver(c, r, packets) == Deliver(c, r, others)
  {
    hide Deliver, ReceiverInv, IsPacket, Received, OnlyWrites;
    DeliveredIsReceived(c, next, r, packets);
    DeliveredIsReceived(c, next, r, others);
    DeliveryOnlyWrites(c, next, r, packets);
    DeliveryOnlyWrites(c, next, r, others);
    ReceivedDetermines(c, r, Deliver(c, r, packets), Deliver(c, r, others));
  }

  /** Whatever the order in which the next so many packets come, at the end they are all in the file. */
  lemma RunIsWritten(c: Config, next: nat, r: Receiver, packets: seq<Segment>, end: nat)
    requires c.Valid() && ReceiverInv(c, r) && InWindow(c, next, r, packets) && r.recvBase <= end
    requires forall n :: r.recvBase <= n < end ==> HasNumber(packets, n)
    ensures var r' := Deliver(c, r, packets);
            && end <= r'.recvBase <= c.End() && r'.downloaded == |Concat(c.Pieces()[..r'.recvBase - c.initial])|
            && r'.downloaded <= |r'.content| == |c.file| && r'.content[..r'.downloaded] == c.file[..r'.downloaded]
  {
    hide Deliver, IsPacket, HasNumber, ReceiverInv;
    DeliveredIsReceived(c, next, r, packets);
    var r' := Deliver(c, r, packets);
    PrefixWritten(c, r');
    BaseOpen(c, r');
  }

  lemma BaseOpen(c: Config, r: Receiver)
    requires ReceiverInv(c, r)
    ensures !Received(r, r.recvBase) && c.initial <= r.recvBase
  {
  }

  /** An arriving segment ends the download exactly if the whole file is there and a FIN has come, be it this. */
  lemma DownloadEnds(c: Config, r: Receiver, p: Segment)
    requires c.Valid() && ReceiverInv(c, r) && !r.finished
    requires IsPacket(c, c.End(), p) || p.IsAck() || p.IsTermination()
    ensures var r' := OnReceiverEvent(r, SegmentArrived(p), c.receiveWindowSize, c.masks).0;
            r'.finished <==> (r.finReceived || (!p.IsAck() && p.IsTermination())) && r'.recvBase == c.End()
  {
    var r' := OnSegment(r, p, c.receiveWindowSize, c.masks).0;
    if !p.IsAck() && !p.IsTermination() {
      OnPacketInv(c, r, c.End(), p);
    }
    hide IsPacket, Segment.IsAck, Segment.IsTermination, Chunks, Concat;
    assert FileInv(c, r');
    assert !r'.finished && r'.finReceived == (r.finReceived || (!p.IsAck() && p.IsTermination()));
    WholeIff(c, r');
  }

  /** The whole file has been written exactly if every chunk was. */
  lemma WholeIff(c: Config, r: Receiver)
    requires c.Valid() && FileInv(c, r)
    ensures r.downloaded >= |r.content| <==> r.recvBase == c.End()
  {
    var hi := r.recvBase - c.initial;
    PiecesWithin(c, hi, |c.Pieces()|);
    if hi < |c.Pieces()| {
      PiecesWithin(c, hi, hi + 1);
      PiecesWithin(c, hi + 1, |c.Pieces()|);
      ChunkAt(c.file, MAX_PAYLOAD_SIZE, hi);
      assert c.Pieces()[hi..hi + 1] == [c.Pieces()[hi]];
      ConcatOne(c.Pieces()[hi]);
    }
  }

  // ----- The sender -----------------------------------------------------------------------------

  function Acked(s: Sender, numbers: seq<nat>): Sender {
    if numbers == [] then s
    else OnAck(Acked(s, numbers[..|numbers| - 1]), numbers[|numbers| - 1])
  }

  /** The sender after acknowledgements with these numbers: their packets and timers are gone, and the base is
      the first packet still out. */
  ghost predicate AckedAre(s: Sender, s': Sender, numbers: set<nat>) {
    && s' == s.(base := s'.base, inFlight := s'.inFlight, timers := s'.timers)
    && s'.inFlight == s.inFlight - numbers
    && (forall n :: s'.timers[n] == if n in numbers && n in s.inFlight then 0 else s.timers[n])
    && s.base <= s'.base <= s'.next && (s'.base in s'.inFlight || s'.base == s'.next)
    && forall n :: s.base <= n < s'.base ==> n !in s'.inFlight
  }

  function Numbers(numbers: seq<nat>): set<nat> {
    set n | n in numbers
  }

  lemma AckedOne(s: Sender, s': Sender, numbers: set<nat>, n: nat)
    requires AckedAre(s, s', numbers)
    ensures AckedAre(s, OnAck(s', n), numbers + {n})
  {
    assert n !in s'.inFlight ==> s.inFlight - (numbers + {n}) == s.inFlight - numbers;
    assert s.inFlight - (numbers + {n}) == s.inFlight - numbers - {n};
  }

  lemma {:induction false} AcksRemove(s: Sender, numbers: seq<nat>)
    requires s.base <= s.next && (s.base in s.inFlight || s.base == s.next)
    ensures AckedAre(s, Acked(s, numbers), Numbers(numbers))
  {
    if numbers == [] {
      assert s.inFlight - {} == s.inFlight;
    } else {
      var before, n := numbers[..|numbers| - 1], numbers[|numbers| - 1];
      AcksRemove(s, before);
      AckedOne(s, Acked(s, before), Numbers(before), n);
      assert numbers == before + [n];
      assert Numbers(numbers) == Numbers(before) + {n};
    }
  }

  /** The sender ends in the same state whatever the order of acknowledgements, and however often each comes. */
  lemma AcksInAnyOrder(s: Sender, numbers: seq<nat>, others: seq<nat>)
    requires s.base <= s.next && (s.base in s.inFlight || s.base == s.next)
    requires forall n :: n in numbers <==> n in others
    ensures Acked(s, numbers) == Acked(s, others)
  {
    hide Acked;
    AcksRemove(s, numbers);
    AcksRemove(s, others);
    assert Numbers(numbers) == Numbers(others);
    var a, b := Acked(s, numbers), Acked(s, others);
    assert a.timers == b.timers;
    assert a.base == b.base;
  }

  // ----- What goes out --------------------------------------------------------------------------

  lemma {:induction false} WindowGoesOut(c: Config, s: Sender, count: nat, p: Segment)
    requires c.Valid() && SenderInv(c, s) && count <= Room(s, |c.Pieces()|)
    ensures s.initial <= s.next && s.next + count <= c.End()
    ensures p in WireAll(Packets(s, c.Pieces(), c.masks, count))
            <==> s.next <= p.sequenceNumber < s.next + count && p.sequenceNumber < 0x1_0000
                 && p == c.Packet(p.sequenceNumber)
  {
    hide Wire, WireAll, Packets, Room, Chunks, SenderInv;
    InitialBelowNext(c, s);
    RoomFits(c, s);
    if count == 0 {
      NoPackets(s, c.Pieces(), c.masks);
    } else {
      WindowGoesOut(c, s, count - 1, p);
      PacketsStep(s, c.Pieces(), c.masks, count);
      WireAppend(Packets(s, c.Pieces(), c.masks, count - 1), PacketFor(s, c.Pieces(), c.masks, count - 1));
      PacketNext(c, s, count - 1);
      PacketOnWire(c, s.next + count - 1);
    }
  }

  lemma RoomFits(c: Config, s: Sender)
    requires SenderInv(c, s)
    ensures s.next + Room(s, |c.Pieces()|) <= c.End()
  {
    hide Chunks;
  }

  /** A data packet goes out exactly when it is new and filling the window gets to it, or when its own timeout is
      served while it is in flight; a number above 16 bits never does. */
  lemma WhatGoesOut(c: Config, s: State, action: Action, s': State, p: Segment)
    requires c.Valid() && Inv(c, s) && Step(c, s, action, s')
    ensures p in s'.dataNet <==>
              match action
              case Fill => || p in s.dataNet
                           || (&& s.sender.next <= p.sequenceNumber < s'.sender.next <= c.End()
                               && c.initial <= s.sender.next && p.sequenceNumber < 0x1_0000
                               && p == c.Packet(p.sequenceNumber))
              case Consume => || p in s.dataNet
                              || (&& s.queue[0] == TimedOut(p.sequenceNumber) && p.sequenceNumber in s.sender.inFlight
                                  && p.sequenceNumber < 0x1_0000 && p == s.sender.inFlight[p.sequenceNumber])
              case Lose(data, _) => p in s.dataNet && p !in data
              case _ => p in s.dataNet
  {
    hide Inv, SenderInv, AllAcknowledged, FillWindow, OnReceiverEvent, Wire, WireAll, Chunks, OnAck;
    InvParts(c, s);
    match action
    case Fill =>
      if !AllAcknowledged(s.sender, |c.Pieces()|) {
        FillEffect(c, s);
        FillSenderInv(c, s.sender);
        InitialBelowNext(c, s.sender);
        WindowGoesOut(c, s.sender, Room(s.sender, |c.Pieces()|), p);
      }
    case Consume => ServedGoesOut(c, s, p);
    case _ =>
  }

  lemma ServedGoesOut(c: Config, s: State, p: Segment)
    requires c.Valid() && SenderInv(c, s.sender) && s.queue != []
    ensures p in AfterConsume(s).dataNet <==>
              || p in s.dataNet
              || (&& s.queue[0] == TimedOut(p.sequenceNumber) && p.sequenceNumber in s.sender.inFlight
                  && p.sequenceNumber < 0x1_0000 && p == s.sender.inFlight[p.sequenceNumber])
  {
    hide Wire, WireAll, Chunks, OnAck;
    NothingOnWire();
    if s.queue[0].TimedOut? && s.queue[0].sequenceNumber in s.sender.inFlight {
      var n := s.queue[0].sequenceNumber;
      WireOne(s.sender.inFlight[n]);
      PacketOnWire(c, n);
    }
  }

  lemma NothingOnWire()
    ensures WireAll([]) == {}
  {
  }

  /** The receiver answers a packet exactly if it is below the end of the window, and nothing else. */
  lemma WhatIsAnswered(c: Config, s: State, p: Segment, s': State)
    requires c.Valid() && Inv(c, s) && Step(c, s, Receive(p), s')
    ensures s'.ackNet == s.ackNet + if p.sequenceNumber < s.receiver.recvBase + c.receiveWindowSize
                                    then {AckSegment(p.sequenceNumber, c.masks)} else {}
  {
    hide Inv, Wire, OnSegment, IsPacket, AckSegment, ReceiverInv;
    InvParts(c, s);
    InTransit(c, s, p);
    OnPacketInv(c, s.receiver, s.sender.next, p);
    SmallNumber(c, s.sender.next, p);
    AckOnWire(c, p.sequenceNumber);
  }

  lemma SmallNumber(c: Config, next: nat, p: Segment)
    requires IsPacket(c, next, p)
    ensures p.sequenceNumber < 0x1_0000
  {
  }

  /** Filling leaves nothing unsent that the window has room for. */
  lemma FillsTheWindow(c: Config, s: State)
    requires c.Valid() && Inv(c, s) && s.phase == Sending && !s.waiting && s.sender.base < c.End()
    ensures s.sender.initial <= s.sender.next
    ensures var s' := AfterFill(c, s);
            && s'.phase == Sending && s'.waiting
            && (|s'.sender.inFlight| == c.windowSize || s'.sender.next == c.End())
  {
    hide Inv, FillWindow, WireAll, Window, Chunks, Room;
    InvParts(c, s);
    var t := FillWindow(s.sender, c.Pieces(), c.masks);
    InitialBelowNext(c, s.sender);
    FillSenderInv(c, s.sender);
    assert !AllAcknowledged(s.sender, |c.Pieces()|);
    var room := Room(s.sender, |c.Pieces()|);
    assert t.inFlight.Keys == s.sender.inFlight.Keys + Range(s.sender.next, t.next);
    assert s.sender.inFlight.Keys !! Range(s.sender.next, t.next);
    assert |t.inFlight.Keys| == |s.sender.inFlight.Keys| + room;
    assert |t.inFlight.Keys| == |t.inFlight| && |s.sender.inFlight.Keys| == |s.sender.inFlight|;
    RoomIsGreedy(c, s.sender);
  }

  lemma RoomIsGreedy(c: Config, s: Sender)
    requires SenderInv(c, s)
    ensures |s.inFlight| + Room(s, |c.Pieces()|) == c.windowSize || s.next + Room(s, |c.Pieces()|) == c.End()
  {
    hide Chunks;
  }
}
