/** The transfer can always be completed, if its sequence numbers fit. */
module TransferProgress {
  import opened Wrappers
  import opened ByteStrings
  import opened Segments
  import opened FileChunks
  import opened Flow
  import opened Transfer

  ghost predicate IsPath(c: Config, path: seq<State>) {
    path != [] && forall i :: 0 <= i < |path| - 1 ==> Next(c, path[i], path[i + 1])
  }

  ghost predicate Links(c: Config, s: State, path: seq<State>, t: State) {
    IsPath(c, path) && path[0] == s && path[|path| - 1] == t
  }

  lemma StayPath(c: Config, s: State)
    ensures Links(c, s, [s], s)
  {
  }

  lemma StepPath(c: Config, s: State, action: Action, s': State)
    requires Step(c, s, action, s')
    ensures Links(c, s, [s, s'], s')
  {
    assert Next(c, s, s');
  }

  function Join(p: seq<State>, q: seq<State>): seq<State> {
    if q == [] then p else p + q[1..]
  }

  lemma JoinPaths(c: Config, s: State, p: seq<State>, m: State, q: seq<State>, t: State)
    requires Links(c, s, p, m) && Links(c, m, q, t)
    ensures Links(c, s, Join(p, q), t)
  {
    var path := Join(p, q);
    forall i | 0 <= i < |path| - 1
      ensures Next(c, path[i], path[i + 1])
    {
      if i >= |p| - 1 {
        assert path[i] == q[i - |p| + 1] && path[i + 1] == q[i - |p| + 2];
      }
    }
  }

  predicate Interrupts(e: Event) {
    e == Aborted || (e.SegmentArrived? && e.segment.IsTermination())
  }

  /** Nobody has asked to stop: the sender is in its loop with no FIN, ERR or abort queued, and the
      receiver is in its loop and has seen no FIN. */
  ghost predicate Healthy(c: Config, s: State) {
    && Inv(c, s) && s.phase == Sending && ReceiverRuns(s.receiver) && !s.receiver.finReceived
    && forall e :: e in s.queue ==> !Interrupts(e)
  }

  /** What a stretch of a run may not take back. */
  ghost predicate Forward(s: State, t: State) {
    s.sender.base <= t.sender.base && s.dataNet <= t.dataNet && s.ackNet <= t.ackNet && s.receiver == t.receiver
  }

  lemma FillHealthy(c: Config, s: State)
    requires c.Valid() && Healthy(c, s) && !s.waiting
    ensures var t := AfterFill(c, s);
            && Step(c, s, Fill, t) && Forward(s, t) && t.queue == s.queue && t.sender.base == s.sender.base
            && (t.phase == Completed || (Healthy(c, t) && t.waiting))
  {
    FillInv(c, s);
    InitialBelowNext(c, s.sender);
    FillSenderInv(c, s.sender);
    hide FillWindow, Window, WireAll, Inv, SenderInv;
  }

  /** One turn of the sending loop without an interruption: a timeout of the base packet sends it
      again, an acknowledgement of it moves the base on. */
  lemma ConsumeHealthy(c: Config, s: State)
    requires c.Valid() && c.End() <= 0x1_0000 && Healthy(c, s) && s.waiting && s.queue != []
    ensures var t, b := AfterConsume(s), s.sender.base;
            && Step(c, s, Consume, t) && Forward(s, t) && Healthy(c, t) && !t.waiting && t.queue == s.queue[1..]
            && c.initial <= b < c.End() && t.sender.initial <= t.sender.next
            && (s.queue[0] == TimedOut(b) ==> c.Packet(b) in t.dataNet)
            && (s.queue[0] == SegmentArrived(AckSegment(b, c.masks)) ==> b < t.sender.base)
  {
    var b := s.sender.base;
    ConsumeInv(c, s);
    assert s.queue[0] in s.queue;
    Dequeue(s.queue, 0);
    InvParts(c, s);
    assert b in s.sender.inFlight && c.initial <= b < c.End();
    match s.queue[0]
    case TimedOut(n) => TimeoutKeeps(c, s.sender, s.receiver, n);
    case SegmentArrived(a) =>
      AckOnWire(c, b);
      if a.IsAck() && !a.IsSyn() {
        ReceiptInQueue(c, s, a);
        if a.sequenceNumber < c.initial {
          NotInFlight(c, s.sender, a.sequenceNumber);
        }
        AckKeeps(c, s.sender, s.receiver, a.sequenceNumber);
      }
    case Aborted =>
  }

  /** Working off the queue: on the way the base packet is sent again if a timeout of it was queued, and
      the base moves on if an acknowledgement of it was. */
  lemma DrainQueue(c: Config, s: State) returns (path: seq<State>, t: State)
    requires c.Valid() && c.End() <= 0x1_0000 && Healthy(c, s) && s.waiting
    ensures Links(c, s, path, t) && Forward(s, t)
    ensures t.phase == Completed || (Healthy(c, t) && t.waiting && t.queue == [])
    ensures c.initial <= s.sender.base < c.End()
    ensures t.phase == Completed || s.sender.base < t.sender.base
            || (TimedOut(s.sender.base) in s.queue ==> c.Packet(s.sender.base) in t.dataNet)
    ensures SegmentArrived(AckSegment(s.sender.base, c.masks)) in s.queue ==>
              t.phase == Completed || s.sender.base < t.sender.base
    decreases |s.queue|
  {
    hide Step, AfterFill, AfterConsume, Healthy, AckSegment, Config.Packet, Links;
    BaseInFlight(c, s);
    if s.queue == [] {
      StayPath(c, s);
      path, t := [s], s;
    } else {
      ConsumeHealthy(c, s);
      var s1 := AfterConsume(s);
      FillHealthy(c, s1);
      var s2 := AfterFill(c, s1);
      StepPath(c, s, Consume, s1);
      StepPath(c, s1, Fill, s2);
      JoinPaths(c, s, [s, s1], s1, [s1, s2], s2);
      path, t := Join([s, s1], [s1, s2]), s2;
      assert s.queue == [s.queue[0]] + s.queue[1..];
      if s2.phase != Completed {
        var rest;
        rest, t := DrainQueue(c, s2);
        JoinPaths(c, s, path, s2, rest, t);
        path := Join(path, rest);
      }
    }
  }

  lemma BaseInFlight(c: Config, s: State)
    requires Healthy(c, s) && s.waiting
    ensures s.sender.base in s.sender.inFlight && c.initial <= s.sender.base < c.End()
    ensures Alarms(s, s.sender.base) == 1
  {
  }

  /** The alarm of the base packet goes off, or already has. */
  lemma RingBase(c: Config, s: State) returns (path: seq<State>, t: State)
    requires c.Valid() && Healthy(c, s) && s.waiting
    ensures Links(c, s, path, t) && Forward(s, t) && Healthy(c, t) && t.waiting
    ensures t.sender.base == s.sender.base && TimedOut(t.sender.base) in t.queue
  {
    var b := s.sender.base;
    BaseInFlight(c, s);
    if s.sender.timers[b] > 0 {
      t := s.(sender := s.sender.(timers := s.sender.timers - multiset{b}), queue := s.queue + [TimedOut(b)]);
      TimerFiresInv(c, s, t, b);
      StepPath(c, s, TimerFires(b), t);
      path := [s, t];
    } else {
      StayPath(c, s);
      path, t := [s], s;
    }
  }

  /** The base packet, once in transit, reaches the receiver, and its acknowledgement comes back. */
  lemma EchoBase(c: Config, s: State) returns (path: seq<State>, t: State)
    requires c.Valid() && c.End() <= 0x1_0000 && Healthy(c, s) && s.waiting
    requires c.initial <= s.sender.base < c.End() && c.Packet(s.sender.base) in s.dataNet
    ensures Links(c, s, path, t) && Healthy(c, t) && t.waiting && t.sender == s.sender
    ensures SegmentArrived(AckSegment(s.sender.base, c.masks)) in t.queue
  {
    var b := s.sender.base;
    var p, a := c.Packet(b), AckSegment(b, c.masks);
    ReceiveHealthy(c, s, p);
    var s1 := AfterReceiverEvent(c, s, SegmentArrived(p));
    t := s1.(queue := s1.queue + [SegmentArrived(a)]);
    AckOnWire(c, b);
    hide AfterReceiverEvent, Inv, AckSegment, Config.Packet, Wire, Segment.IsTermination;
    EnqueueReceipt(c, s1, t, a);
    StepPath(c, s, Receive(p), s1);
    StepPath(c, s1, DeliverAck(a), t);
    JoinPaths(c, s, [s, s1], s1, [s1, t], t);
    path := Join([s, s1], [s1, t]);
  }

  lemma EnqueueReceipt(c: Config, s: State, t: State, a: Segment)
    requires Inv(c, s) && a in s.ackNet && t == s.(queue := s.queue + [SegmentArrived(a)])
    ensures Inv(c, t)
  {
    EnqueueInv(c, s, t, SegmentArrived(a));
  }

  /** The receiver never drops the packet the sender's window starts with: it is never beyond the
      receive window, so it is always acknowledged, new or not. */
  lemma ReceiveHealthy(c: Config, s: State, p: Segment)
    requires c.Valid() && c.End() <= 0x1_0000 && Healthy(c, s) && s.waiting
    requires c.initial <= s.sender.base < c.End() && p == c.Packet(s.sender.base) && p in s.dataNet
    ensures var t := AfterReceiverEvent(c, s, SegmentArrived(p));
            && Step(c, s, Receive(p), t) && Healthy(c, t) && t.waiting && t.sender == s.sender
            && AckSegment(s.sender.base, c.masks) in t.ackNet
  {
    hide *;
    HealthyParts(c, s);
    ReceiveInv(c, s, p);
    BaseBehind(c, s);
    InTransit(c, s, p);
    BaseNumber(c, s);
    BaseAnswered(c, s.receiver, s.sender.next, p);
    AckOnWire(c, s.sender.base);
    ReceiveEffect(c, s, p);
    StillHealthy(c, s, AfterReceiverEvent(c, s, SegmentArrived(p)));
  }

  lemma HealthyParts(c: Config, s: State)
    requires Healthy(c, s)
    ensures Inv(c, s) && ReceiverInv(c, s.receiver) && ReceiverRuns(s.receiver) && !s.receiver.finReceived
  {
    hide ReceiverInv;
  }

  lemma BaseNumber(c: Config, s: State)
    requires c.initial <= s.sender.base < c.End()
    ensures c.Packet(s.sender.base).sequenceNumber == s.sender.base
  {
  }

  lemma ReceiveEffect(c: Config, s: State, p: Segment)
    requires p in s.dataNet && ReceiverRuns(s.receiver)
    ensures var t := AfterReceiverEvent(c, s, SegmentArrived(p));
            var (r, ack) := OnReceiverEvent(s.receiver, SegmentArrived(p), c.receiveWindowSize, c.masks);
            && Step(c, s, Receive(p), t)
            && t == s.(receiver := r, ackNet := t.ackNet)
            && (ack.Some? ==> Wire(ack.value) <= t.ackNet)
  {
    hide OnReceiverEvent, Wire;
  }

  lemma StillHealthy(c: Config, s: State, t: State)
    requires Healthy(c, s) && Inv(c, t) && t == s.(receiver := t.receiver, ackNet := t.ackNet)
    requires ReceiverRuns(t.receiver) && !t.receiver.finReceived
    ensures Healthy(c, t)
  {
    hide Inv;
  }

  lemma BaseAnswered(c: Config, r: Receiver, next: nat, p: Segment)
    requires c.Valid() && ReceiverInv(c, r) && IsPacket(c, next, p) && p.sequenceNumber <= r.recvBase
    requires ReceiverRuns(r) && !r.finReceived
    ensures var (r', ack) := OnReceiverEvent(r, SegmentArrived(p), c.receiveWindowSize, c.masks);
            ReceiverRuns(r') && !r'.finReceived && ack == Some(AckSegment(p.sequenceNumber, c.masks))
  {
    OnPacketInv(c, r, next, p);
    hide OnSegment, IsPacket, AckSegment, Config.Packet, Chunks, Concat;
  }

  /** From any healthy state some continuation acknowledges the base packet, even if everything in
      transit is lost first. */
  lemma AdvanceBase(c: Config, s: State) returns (path: seq<State>, t: State)
    requires c.Valid() && c.End() <= 0x1_0000 && Healthy(c, s) && s.waiting
    ensures Links(c, s, path, t)
    ensures t.phase == Completed || (Healthy(c, t) && t.waiting && s.sender.base < t.sender.base)
  {
    hide Healthy, Links, Forward, Config.Packet, AckSegment;
    var ring, s1 := RingBase(c, s);
    var drain, s2 := DrainQueue(c, s1);
    JoinPaths(c, s, ring, s1, drain, s2);
    path, t := Join(ring, drain), s2;
    BasesForward(s, s1);
    BasesForward(s1, s2);
    if s2.phase != Completed && s2.sender.base == s.sender.base {
      var echo, s3 := EchoBase(c, s2);
      JoinPaths(c, s, path, s2, echo, s3);
      path := Join(path, echo);
      drain, t := DrainQueue(c, s3);
      BasesForward(s3, t);
      JoinPaths(c, s, path, s3, drain, t);
      path := Join(path, drain);
    }
  }

  lemma BasesForward(s: State, t: State)
    requires Forward(s, t)
    ensures s.sender.base <= t.sender.base
  {
  }

  lemma CompleteFrom(c: Config, s: State) returns (path: seq<State>, t: State)
    requires c.Valid() && c.End() <= 0x1_0000 && Healthy(c, s) && s.waiting
    ensures Links(c, s, path, t) && t.phase == Completed
    decreases c.End() - s.sender.base
  {
    BaseInFlight(c, s);
    hide Healthy, Links;
    path, t := AdvanceBase(c, s);
    if t.phase != Completed {
      var m, rest := t, [];
      rest, t := CompleteFrom(c, m);
      JoinPaths(c, s, path, m, rest, t);
      path := Join(path, rest);
    }
  }

  /** No deadlock: from every reachable state in which nobody asked to stop, the transfer can still be
      completed, with the whole file written, even after everything in transit is lost; provided the
      last sequence number fits its 16 bits. */
  lemma CanAlwaysComplete(c: Config, run: seq<State>) returns (more: seq<State>)
    requires c.Valid() && IsRun(c, run) && c.End() <= 0x1_0000
    requires Healthy(c, run[|run| - 1])
    ensures IsRun(c, run + more) && more != []
    ensures var t := (run + more)[|run + more| - 1]; t.phase == Completed && t.receiver.content == c.file
  {
    hide Inv, Healthy, Step, Init, AfterFill;
    var s0 := run[|run| - 1];
    RunInv(c, run, |run| - 1);
    var s := s0.(dataNet := {}, ackNet := {});
    LoseAll(c, s0, s);
    StepPath(c, s0, Lose(s0.dataNet, s0.ackNet), s);
    var path, t := [s0, s], s;
    if !s.waiting {
      FillReady(c, s);
      t := AfterFill(c, s);
      StepPath(c, s, Fill, t);
      JoinPaths(c, s0, path, s, [s, t], t);
      path := Join(path, [s, t]);
    }
    if t.phase != Completed {
      var m, rest := t, [];
      rest, t := CompleteFrom(c, m);
      JoinPaths(c, s0, path, m, rest, t);
      path := Join(path, rest);
    }
    more := path[1..];
    ExtendRun(c, run, path);
    CompletedMeansDelivered(c, run + more, |run + more| - 1);
  }

  lemma LoseAll(c: Config, s0: State, s: State)
    requires Healthy(c, s0) && s == s0.(dataNet := {}, ackNet := {})
    ensures Step(c, s0, Lose(s0.dataNet, s0.ackNet), s) && Healthy(c, s)
  {
    hide Inv;
    LoseInv(c, s0, s, s0.dataNet, s0.ackNet);
  }

  lemma FillReady(c: Config, s: State)
    requires c.Valid() && Healthy(c, s) && !s.waiting
    ensures s.sender.initial <= s.sender.next
    ensures Step(c, s, Fill, AfterFill(c, s))
    ensures AfterFill(c, s).phase == Completed || (Healthy(c, AfterFill(c, s)) && AfterFill(c, s).waiting)
  {
    InitialBelowNext(c, s.sender);
    FillHealthy(c, s);
  }

  lemma ExtendRun(c: Config, run: seq<State>, path: seq<State>)
    requires IsRun(c, run) && IsPath(c, path) && path[0] == run[|run| - 1]
    ensures IsRun(c, run + path[1..])
    ensures |path| > 1 ==> (run + path[1..])[|run + path[1..]| - 1] == path[|path| - 1]
  {
    var all := run + path[1..];
    forall i | 0 <= i < |all| - 1
      ensures Next(c, all[i], all[i + 1])
    {
      if i >= |run| - 1 {
        assert all[i] == path[i - |run| + 1] && all[i + 1] == path[i - |run| + 2];
      }
    }
  }

  /** And only then: a file needing a sequence number above 16 bits never completes, because encoding
      that packet raises and the sender drops the error. */
  lemma TooLongNeverCompletes(c: Config, run: seq<State>, i: nat)
    requires c.Valid() && IsRun(c, run) && i < |run| && c.End() > 0x1_0000
    ensures run[i].phase != Completed
  {
    RunInv(c, run, i);
    InvParts(c, run[i]);
    ChunkCount(c.file, MAX_PAYLOAD_SIZE);
    if run[i].phase == Completed {
      BaseBehind(c, run[i]);
    }
  }

  lemma StartsHealthy(c: Config)
    requires c.Valid()
    ensures IsRun(c, [Init(c)]) && Healthy(c, Init(c))
  {
    hide Inv;
    InitInv(c);
  }

  /** A transfer can complete at all exactly when its last data sequence number fits 16 bits. */
  lemma CompletableIff(c: Config)
    requires c.Valid()
    ensures (exists run: seq<State> :: IsRun(c, run) && run[|run| - 1].phase == Completed) <==> c.End() <= 0x1_0000
  {
    hide Init, Next, Healthy;
    if c.End() <= 0x1_0000 {
      StartsHealthy(c);
      var more := CanAlwaysComplete(c, [Init(c)]);
      var run := [Init(c)] + more;
      assert IsRun(c, run) && run[|run| - 1].phase == Completed;
    } else {
      forall run: seq<State> | IsRun(c, run)
        ensures run[|run| - 1].phase != Completed
      {
        TooLongNeverCompletes(c, run, |run| - 1);
      }
    }
  }

  /** Uploads of at most 20 MB, numbered from 1, always can. */
  lemma UploadsComplete(c: Config)
    requires c.initial == 1 && 1 <= |c.file| <= 20 * 1024 * 1024
    requires c.windowSize >= 1 && c.receiveWindowSize >= 1 && c.masks in {0, 2, 4, 6}
    ensures exists run: seq<State> :: IsRun(c, run) && run[|run| - 1].phase == Completed
  {
    UploadsFitTheHeader(c.file);
    CompletableIff(c);
    hide IsRun, Chunks;
  }

  // ----- What ends a transfer -------------------------------------------------------------------

  predicate IsFin(action: Action) {
    match action
    case ForeignToReceiver(SegmentArrived(p)) => !p.IsAck() && p.IsTermination()
    case _ => false
  }

  /** The sending loop ends when everything is acknowledged at its top, or on a FIN, an ERR or an abort; the receiver
      notes a FIN or an ERR, and aborts on an abort; nothing else does either. */
  lemma WhatEndsIt(c: Config, s: State, action: Action, s': State)
    requires c.Valid() && Inv(c, s) && Step(c, s, action, s')
    ensures s'.phase == match action
                        case Fill => if s.sender.base == c.End() then Completed else Sending
                        case Consume => if Interrupts(s.queue[0]) then Interrupted else Sending
                        case _ => s.phase
    ensures s'.receiver.aborted == (s.receiver.aborted || action == ForeignToReceiver(Aborted))
    ensures s'.receiver.finReceived == (s.receiver.finReceived || IsFin(action))
  {
    hide Inv, FillWindow, Wire, WireAll, OnAck, OnTimeout, OnSegment, ReceiverInv, IsPacket, Segment.IsTermination,
         Segment.IsAck, Segment.IsSyn;
    InvParts(c, s);
    match action
    case Fill => InitialBelowNext(c, s.sender);
    case Receive(p) =>
      InTransit(c, s, p);
      OnPacketInv(c, s.receiver, s.sender.next, p);
    case ForeignToReceiver(e) => ForeignNotes(c, s.receiver, e);
    case _ =>
  }

  lemma ForeignNotes(c: Config, r: Receiver, e: Event)
    requires ReceiverInv(c, r) && IsForeignToReceiver(c, e)
    ensures var r' := OnReceiverEvent(r, e, c.receiveWindowSize, c.masks).0;
            && r'.aborted == (r.aborted || e == Aborted)
            && r'.finReceived == (r.finReceived || IsFin(ForeignToReceiver(e)))
            && !r'.failed && (r'.finished ==> r.finished || e == Aborted || r'.finReceived)
  {
    hide WriteContiguous, Segment.IsTermination, Segment.IsAck, AckSegment;
  }

  /** Who has left its loop does nothing more: the sender sends nothing and moves nothing, the receiver takes and
      answers nothing. */
  lemma EndedStaysEnded(c: Config, s: State, action: Action, s': State)
    requires c.Valid() && Inv(c, s) && Step(c, s, action, s')
    ensures s.phase != Sending ==>
              s'.phase == s.phase && s'.sender == s.sender.(timers := s'.sender.timers) && s'.dataNet <= s.dataNet
    ensures s.receiver.finished ==> s'.receiver == s.receiver && s'.ackNet <= s.ackNet
  {
    hide Inv, FillWindow, Window, WireAll, AllAcknowledged, OnSenderEvent, OnReceiverEvent, Wire;
  }

  /** At any moment an abort or a FIN can reach the sender's queue, and an abort ends the receiver's loop. */
  lemma CanBeStopped(c: Config, s: State, e: Event)
    requires Interrupts(e)
    ensures Step(c, s, ForeignToSender(e), s.(queue := s.queue + [e]))
    ensures ReceiverRuns(s.receiver) ==>
              Step(c, s, ForeignToReceiver(Aborted), s.(receiver := s.receiver.(finished := true, aborted := true)))
  {
    hide Segment.IsTermination;
    assert s.ackNet + {} == s.ackNet;
  }

  predicate AsksToStop(action: Action) {
    match action
    case ForeignToSender(e) => Interrupts(e)
    case ForeignToReceiver(e) => Interrupts(e)
    case _ => false
  }

  /** Steps in which nobody asks to stop. */
  ghost predicate QuietNext(c: Config, s: State, s': State) {
    exists action :: Step(c, s, action, s') && !AsksToStop(action)
  }

  ghost predicate IsQuietRun(c: Config, run: seq<State>) {
    && run != [] && run[0] == Init(c)
    && forall i :: 0 <= i < |run| - 1 ==> QuietNext(c, run[i], run[i + 1])
  }

  ghost predicate Unasked(s: State) {
    && s.phase != Interrupted && ReceiverRuns(s.receiver) && !s.receiver.finReceived && !s.receiver.aborted
    && forall e :: e in s.queue ==> !Interrupts(e)
  }

  lemma QuietReceiver(c: Config, s: State, action: Action, s': State)
    requires c.Valid() && Inv(c, s) && Step(c, s, action, s') && !AsksToStop(action)
    requires ReceiverRuns(s.receiver) && !s.receiver.finReceived
    ensures ReceiverRuns(s'.receiver)
  {
    WhatEndsIt(c, s, action, s');
    StepInv(c, s, action, s');
    InvParts(c, s');
    hide Inv, Wire, AfterFill, AfterConsume, OnSegment, SenderInv, CrossInv, NetInv, TimerInv, Segment.IsTermination;
    if action.Receive? {
      InvParts(c, s);
      InTransit(c, s, action.segment);
      OnPacketInv(c, s.receiver, s.sender.next, action.segment);
    } else if action.ForeignToReceiver? {
      InvParts(c, s);
      ForeignNotes(c, s.receiver, action.e);
    }
  }

  lemma QuietQueue(c: Config, s: State, action: Action, s': State)
    requires c.Valid() && Inv(c, s) && Step(c, s, action, s') && !AsksToStop(action)
    requires forall e :: e in s.queue ==> !Interrupts(e)
    ensures forall e :: e in s'.queue ==> !Interrupts(e)
  {
    hide Inv, FillWindow, Wire, WireAll, OnSenderEvent, OnReceiverEvent, Segment.IsTermination, AckSegment;
    if action.DeliverAck? {
      ReceiptEndsNothing(c, s, action.segment);
    }
  }

  lemma ReceiptEndsNothing(c: Config, s: State, a: Segment)
    requires c.Valid() && Inv(c, s) && a in s.ackNet
    ensures !a.IsTermination()
  {
    InvParts(c, s);
    hide Inv, Received;
    assert IsReceipt(c, s.receiver, a);
    AckOnWire(c, a.sequenceNumber);
  }

  lemma QuietStep(c: Config, s: State, action: Action, s': State)
    requires c.Valid() && Inv(c, s) && Unasked(s) && Step(c, s, action, s') && !AsksToStop(action)
    ensures Unasked(s')
  {
    WhatEndsIt(c, s, action, s');
    QuietReceiver(c, s, action, s');
    QuietQueue(c, s, action, s');
    hide Inv, Step, ReceiverRuns;
    assert action.Consume? ==> s.queue[0] in s.queue by {
      ConsumeHasEvent(c, s, action, s');
    }
  }

  lemma ConsumeHasEvent(c: Config, s: State, action: Action, s': State)
    requires Step(c, s, action, s')
    ensures action.Consume? ==> s.queue != []
  {
  }

  lemma QuietIsRun(c: Config, run: seq<State>)
    requires IsQuietRun(c, run)
    ensures IsRun(c, run)
  {
    hide Step, Init;
    forall i | 0 <= i < |run| - 1
      ensures Next(c, run[i], run[i + 1])
    {
      assert QuietNext(c, run[i], run[i + 1]);
    }
  }

  /** If nobody asks to stop, nothing stops: sender and receiver stay in their loops until everything is
      acknowledged, so that `CanAlwaysComplete` applies throughout. */
  lemma {:induction false} QuietRunsStayHealthy(c: Config, run: seq<State>, i: nat)
    requires c.Valid() && IsQuietRun(c, run) && i < |run|
    ensures run[i].phase == Completed || Healthy(c, run[i])
    ensures Unasked(run[i])
  {
    hide Inv, Step, Init, Unasked, AsksToStop;
    QuietIsRun(c, run);
    RunInv(c, run, i);
    if i == 0 {
      InitUnasked(c);
    } else {
      QuietRunsStayHealthy(c, run, i - 1);
      RunInv(c, run, i - 1);
      assert QuietNext(c, run[i - 1], run[i - 1 + 1]);
      var action :| Step(c, run[i - 1], action, run[i]) && !AsksToStop(action);
      QuietStep(c, run[i - 1], action, run[i]);
    }
    UnaskedHealthy(c, run[i]);
  }

  lemma InitUnasked(c: Config)
    ensures Unasked(Init(c))
  {
  }

  lemma UnaskedHealthy(c: Config, s: State)
    requires Inv(c, s) && Unasked(s)
    ensures s.phase == Completed || Healthy(c, s)
  {
    hide Inv;
  }
}
