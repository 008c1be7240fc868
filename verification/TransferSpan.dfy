/** How far the sender can run ahead of its base: when the textbook bound holds, and when it does not. */
module TransferSpan {
  import opened Collections
  import opened ByteStrings
  import opened Segments
  import opened FileChunks
  import opened Flow
  import opened Transfer
  import opened TransferProgress

  predicate Textbook(s: Sender) {
    s.next <= s.base + s.windowSize
  }

  // ----- When it holds --------------------------------------------------------------------------

  lemma FillTight(c: Config, s: State)
    requires c.Valid() && c.windowSize == 1 && Inv(c, s) && Textbook(s.sender)
    ensures c.initial == s.sender.initial <= s.sender.next && Textbook(AfterFill(c, s).sender)
  {
    hide FillWindow, Window, WireAll, AllAcknowledged, Chunks, ReceiverInv, CrossInv, NetInv, TimerInv, PhaseInv;
    FillSenderInv(c, s.sender);
    InitialBelowNext(c, s.sender);
    InFlightCount(c, s.sender);
    if s.sender.base in s.sender.inFlight {
      assert |s.sender.inFlight| > 0;
    }
  }

  lemma ConsumeTight(s: State)
    requires s.queue != [] && Textbook(s.sender)
    ensures Textbook(AfterConsume(s).sender)
  {
    hide WireAll;
  }

  lemma StepTight(c: Config, s: State, action: Action, s': State)
    requires c.Valid() && c.windowSize == 1 && Inv(c, s) && Textbook(s.sender) && Step(c, s, action, s')
    ensures Textbook(s'.sender)
  {
    hide Inv, AfterFill, AfterConsume, OnReceiverEvent, FillWindow, Wire;
    match action {
      case Fill => FillTight(c, s);
      case Consume => ConsumeTight(s);
      case _ =>
    }
  }

  lemma {:induction false} RunTight(c: Config, run: seq<State>, i: nat)
    requires c.Valid() && c.windowSize == 1 && IsRun(c, run) && i < |run|
    ensures Textbook(run[i].sender)
  {
    hide Inv, Step;
    if i > 0 {
      RunTight(c, run, i - 1);
      RunInv(c, run, i - 1);
      assert Next(c, run[i - 1], run[i - 1 + 1]);
      var action :| Step(c, run[i - 1], action, run[i]);
      StepTight(c, run[i - 1], action, run[i]);
    }
  }

  lemma ShortFileTight(c: Config, run: seq<State>, i: nat)
    requires c.Valid() && |c.Pieces()| <= c.windowSize && IsRun(c, run) && i < |run|
    ensures Textbook(run[i].sender)
  {
    hide *;
    RunInv(c, run, i);
    SenderWithin(c, run[i]);
  }

  lemma SenderWithin(c: Config, s: State)
    requires Inv(c, s) && |c.Pieces()| <= c.windowSize
    ensures Textbook(s.sender)
  {
    hide Chunks, ReceiverInv, CrossInv, NetInv, TimerInv, PhaseInv;
  }

  /** If not even the second number can be encoded, nothing beyond the first is ever received. */
  lemma LateStartTight(c: Config, run: seq<State>, i: nat)
    requires c.Valid() && c.initial + 1 >= 0x1_0000 && IsRun(c, run) && i < |run|
    ensures Textbook(run[i].sender)
  {
    hide *;
    RunInv(c, run, i);
    InvParts(c, run[i]);
    AllInFlight(c, run[i].sender, run[i].receiver);
  }

  lemma AllInFlight(c: Config, s: Sender, r: Receiver)
    requires SenderInv(c, s) && ReceiverInv(c, r) && CrossInv(c, s, r) && c.initial + 1 >= 0x1_0000
    ensures Textbook(s)
  {
    hide Concat, Chunks, Config.Packet;
    var out := Range(s.base, s.next);
    forall n | n in out
      ensures n in s.inFlight.Keys
    {
      assert n != s.base ==> !Received(r, n);
    }
    SubsetSize(out, s.inFlight.Keys);
  }

  // ----- When it does not -----------------------------------------------------------------------

  /** A window's packets are on the wire, as far as their numbers can be encoded. */
  lemma {:induction false} WindowCarries(c: Config, s: Sender, count: nat, i: nat)
    requires c.Valid() && SenderInv(c, s) && i < count <= Room(s, |c.Pieces()|) && s.next + i < 0x1_0000
    ensures s.next + i < c.End() && c.Packet(s.next + i) in WireAll(Packets(s, c.Pieces(), c.masks, count))
  {
    hide *;
    RoomWithin(c, s, i);
    InitialBelowNext(c, s);
    PacketsStep(s, c.Pieces(), c.masks, count);
    WireAppend(Packets(s, c.Pieces(), c.masks, count - 1), PacketFor(s, c.Pieces(), c.masks, count - 1));
    if i < count - 1 {
      WindowCarries(c, s, count - 1, i);
    } else {
      PacketOnWire(c, s.next + i);
    }
  }

  lemma RoomWithin(c: Config, s: Sender, i: nat)
    requires SenderInv(c, s) && i < Room(s, |c.Pieces()|)
    ensures c.initial <= s.next + i < c.End() && s.initial <= s.next
    ensures PacketFor(s, c.Pieces(), c.masks, i) == c.Packet(s.next + i)
  {
    hide Chunks;
  }

  /** The first window is sent whole. */
  lemma FirstFill(c: Config) returns (s: State)
    requires c.Valid() && c.windowSize >= 2 && |c.Pieces()| > c.windowSize && c.initial + 1 < 0x1_0000
    ensures Step(c, Init(c), Fill, s) && Inv(c, s) && s.phase == Sending && s.waiting && s.queue == []
    ensures s.receiver == Init(c).receiver
    ensures s.sender.initial == s.sender.base == c.initial && s.sender.next == c.initial + c.windowSize < c.End()
    ensures s.sender.windowSize == c.windowSize == |s.sender.inFlight|
    ensures c.initial in s.sender.inFlight && c.initial + 1 in s.sender.inFlight
    ensures c.Packet(c.initial) in s.dataNet && c.Packet(c.initial + 1) in s.dataNet
  {
    hide *;
    var s0 := Init(c);
    InitInv(c);
    InitFacts(c);
    s := AfterFill(c, s0);
    FillInv(c, s0);
    InvParts(c, s0);
    FillAction(c, s0);
    FillSenderInv(c, s0.sender);
    FilledCount(c, s0.sender, s.sender);
    WindowCarries(c, s0.sender, c.windowSize, 0);
    WindowCarries(c, s0.sender, c.windowSize, 1);
  }

  lemma InitFacts(c: Config)
    requires c.Valid() && c.windowSize >= 2 && |c.Pieces()| > c.windowSize
    ensures var s := Init(c);
            && s.phase == Sending && !s.waiting && s.queue == [] && s.sender.inFlight == map[]
            && s.sender.initial == s.sender.base == s.sender.next == c.initial
            && s.sender.windowSize == c.windowSize == Room(s.sender, |c.Pieces()|)
            && !AllAcknowledged(s.sender, |c.Pieces()|) && c.initial + c.windowSize < c.End()
            && ReceiverRuns(s.receiver) && !s.receiver.finReceived && s.receiver.recvBase == c.initial
  {
    hide Chunks;
  }

  lemma FillAction(c: Config, s: State)
    requires s.phase == Sending && !s.waiting && s.sender.initial <= s.sender.next
    requires !AllAcknowledged(s.sender, |c.Pieces()|)
    ensures var t := AfterFill(c, s);
            && Step(c, s, Fill, t) && t.sender == FillWindow(s.sender, c.Pieces(), c.masks)
            && t.waiting && t.phase == Sending
            && t.queue == s.queue && t.receiver == s.receiver && t.sender.windowSize == s.sender.windowSize
            && t.sender.initial == s.sender.initial
            && WireAll(Packets(s.sender, c.Pieces(), c.masks, Room(s.sender, |c.Pieces()|))) <= t.dataNet
  {
    hide Chunks, SendFirst, Packets, WireAll, AllAcknowledged, Room;
    SendKeepsConstants(s.sender, s.sender.(next := s.sender.next + Room(s.sender, |c.Pieces()|)), c.Pieces(), c.masks,
                       Room(s.sender, |c.Pieces()|));
  }

  lemma {:induction false} SendKeepsConstants(s: Sender, t: Sender, chunks: seq<Bytes>, masks: nat, count: nat)
    requires s.initial <= s.next && count <= Room(s, |chunks|)
    ensures var u := SendFirst(s, t, chunks, masks, count); u.windowSize == t.windowSize && u.initial == t.initial
  {
    if count > 0 {
      SendKeepsConstants(s, t, chunks, masks, count - 1);
    }
  }

  lemma FilledCount(c: Config, s: Sender, t: Sender)
    requires s.inFlight == map[] && s.next <= t.next
    requires forall n :: n in t.inFlight <==> n in s.inFlight || s.next <= n < t.next
    ensures |t.inFlight| == t.next - s.next
  {
    assert t.inFlight.Keys == Range(s.next, t.next);
    assert |t.inFlight| == |t.inFlight.Keys|;
  }

  /** The receiver takes a packet at or below its base and acknowledges it. */
  lemma Taken(c: Config, s: State, n: nat) returns (t: State)
    requires c.Valid() && Inv(c, s) && c.initial <= n < c.End() && n < 0x1_0000 && n <= s.receiver.recvBase
    requires c.Packet(n) in s.dataNet && ReceiverRuns(s.receiver) && !s.receiver.finReceived
    ensures Step(c, s, Receive(c.Packet(n)), t) && Inv(c, t)
    ensures t == s.(receiver := t.receiver, ackNet := t.ackNet)
    ensures ReceiverRuns(t.receiver) && !t.receiver.finReceived && AckSegment(n, c.masks) in t.ackNet
    ensures n == s.receiver.recvBase ==> n < t.receiver.recvBase
  {
    hide *;
    var p := c.Packet(n);
    NumberOf(c, n);
    t := AfterReceiverEvent(c, s, SegmentArrived(p));
    ReceiveInv(c, s, p);
    InTransit(c, s, p);
    InvParts(c, s);
    BaseAnswered(c, s.receiver, s.sender.next, p);
    AckOnWire(c, n);
    ReceiveEffect(c, s, p);
    if n == s.receiver.recvBase {
      BaseMoves(c, s.receiver, s.sender.next, p);
    }
  }

  lemma NumberOf(c: Config, n: nat)
    requires c.initial <= n < c.End()
    ensures c.Packet(n).sequenceNumber == n
  {
  }

  lemma BaseMoves(c: Config, r: Receiver, next: nat, p: Segment)
    requires c.Valid() && ReceiverInv(c, r) && IsPacket(c, next, p) && p.sequenceNumber == r.recvBase
    ensures r.recvBase < OnReceiverEvent(r, SegmentArrived(p), c.receiveWindowSize, c.masks).0.recvBase
  {
    OnPacketInv(c, r, next, p);
    hide OnSegment, IsPacket, Config.Packet, Chunks, ReceiverInv;
  }

  /** Acknowledging the second packet first frees room while the base stays. */
  lemma AckOutOfOrder(s: Sender, b: nat)
    requires s.base == b < b + 1 < s.next && b in s.inFlight && b + 1 in s.inFlight
    ensures var t := OnAck(s, b + 1);
            && t.base == b && t.next == s.next && |t.inFlight| == |s.inFlight| - 1
            && t.windowSize == s.windowSize && t.initial == s.initial
  {
    FewerInFlight(s.inFlight, b + 1);
  }

  lemma ConsumeEffect(c: Config, s: State, n: nat)
    requires c.Valid() && s.phase == Sending && s.waiting && s.queue == [SegmentArrived(AckSegment(n, c.masks))]
    ensures var t := AfterConsume(s);
            && Step(c, s, Consume, t) && t.sender == OnAck(s.sender, n)
            && !t.waiting && t.phase == Sending && t.queue == []
  {
    hide OnAck;
    AckOnWire(c, n);
    assert AckSegment(n, c.masks).sequenceNumber == n;
  }

  lemma AckEnqueued(c: Config, s: State, a: Segment)
    requires a in s.ackNet
    ensures Step(c, s, DeliverAck(a), s.(queue := s.queue + [SegmentArrived(a)]))
  {
  }

  lemma RoomAgain(c: Config, s: Sender)
    requires s.initial == s.base == c.initial && s.next == c.initial + s.windowSize < c.End()
    requires |s.inFlight| == s.windowSize - 1
    ensures Room(s, |c.Pieces()|) == 1 && !AllAcknowledged(s, |c.Pieces()|)
  {
    hide Chunks;
  }

  lemma SevenStates(c: Config, s0: State, s1: State, s2: State, s3: State, s4: State, s5: State, s6: State)
    requires s0 == Init(c) && Next(c, s0, s1) && Next(c, s1, s2) && Next(c, s2, s3)
    requires Next(c, s3, s4) && Next(c, s4, s5) && Next(c, s5, s6)
    ensures IsRun(c, [s0, s1, s2, s3, s4, s5, s6])
  {
    hide Init, Next;
  }

  lemma ByAction(c: Config, s: State, action: Action, t: State)
    requires Step(c, s, action, t)
    ensures Next(c, s, t)
  {
  }

  /** Both first packets arrive, the second one's acknowledgement overtakes the first one's, and the sender
      fills its window again. */
  lemma Overtaking(c: Config) returns (run: seq<State>)
    requires c.Valid() && c.windowSize >= 2 && |c.Pieces()| > c.windowSize && c.initial + 1 < 0x1_0000
    ensures IsRun(c, run) && !Textbook(run[|run| - 1].sender)
  {
    hide *;
    var b := c.initial;
    InitFacts(c);
    var s1 := FirstFill(c);
    var s2 := Taken(c, s1, b);
    var s3 := Taken(c, s2, b + 1);
    var a := AckSegment(b + 1, c.masks);
    var s4 := s3.(queue := s3.queue + [SegmentArrived(a)]);
    AckEnqueued(c, s3, a);
    var s5 := AfterConsume(s4);
    ConsumeEffect(c, s4, b + 1);
    AckOutOfOrder(s4.sender, b);
    RoomAgain(c, s5.sender);
    var s6 := AfterFill(c, s5);
    FillAction(c, s5);
    FillNext(c, s5.sender);
    ByAction(c, Init(c), Fill, s1);
    ByAction(c, s1, Receive(c.Packet(b)), s2);
    ByAction(c, s2, Receive(c.Packet(b + 1)), s3);
    ByAction(c, s3, DeliverAck(a), s4);
    ByAction(c, s4, Consume, s5);
    ByAction(c, s5, Fill, s6);
    run := [Init(c), s1, s2, s3, s4, s5, s6];
    SevenStates(c, Init(c), s1, s2, s3, s4, s5, s6);
    Beyond(s6.sender);
  }

  lemma Beyond(s: Sender)
    requires s.next > s.base + s.windowSize
    ensures !Textbook(s)
  {
  }

  lemma FillNext(c: Config, s: Sender)
    requires s.initial <= s.next && c.initial == s.initial
    ensures var t := FillWindow(s, c.Pieces(), c.masks); t.next == s.next + Room(s, |c.Pieces()|) && t.base == s.base
  {
    hide Chunks, FillWindow;
    FilledWindow(c, s);
    assert FilledAt(s, FillWindow(s, c.Pieces(), c.masks), c.Pieces(), c.masks, Room(s, |c.Pieces()|), 0);
  }

  /** The textbook bound, next <= base + windowSize, holds in every run exactly when the window is a single
      packet, the whole file fits it, or the second number already exceeds 16 bits. */
  lemma TextbookBoundIff(c: Config)
    requires c.Valid()
    ensures (forall run: seq<State>, i :: IsRun(c, run) && 0 <= i < |run| ==> Textbook(run[i].sender))
            <==> c.windowSize == 1 || |c.Pieces()| <= c.windowSize || c.initial + 1 >= 0x1_0000
  {
    assert c.windowSize >= 1;
    hide *;
    if c.windowSize == 1 || |c.Pieces()| <= c.windowSize || c.initial + 1 >= 0x1_0000 {
      forall run: seq<State>, i | IsRun(c, run) && 0 <= i < |run|
        ensures Textbook(run[i].sender)
      {
        if c.windowSize == 1 {
          RunTight(c, run, i);
        } else if |c.Pieces()| <= c.windowSize {
          ShortFileTight(c, run, i);
        } else {
          LateStartTight(c, run, i);
        }
      }
    } else {
      var run := Overtaking(c);
      assert IsRun(c, run) && !Textbook(run[|run| - 1].sender);
    }
  }
}
