/** Under bounded loss, with alarms that fire and queues that are served, every transfer ends within a bound. */
module TransferLiveness {
  import opened ByteStrings
  import opened Segments
  import opened FileChunks
  import opened Flow
  import opened Transfer

  /** A run together with the action of each step. */
  datatype Trace = Trace(states: seq<State>, actions: seq<Action>)

  ghost predicate IsTrace(c: Config, t: Trace) {
    && |t.states| == |t.actions| + 1 && t.states[0] == Init(c)
    && forall i :: 0 <= i < |t.actions| ==> Step(c, t.states[i], t.actions[i], t.states[i + 1])
  }

  /** Step i is a turn of the sending loop with this event at the head of its queue. */
  predicate Serves(t: Trace, i: nat, e: Event)
    requires i < |t.actions| && i < |t.states|
  {
    t.actions[i] == Consume && t.states[i].queue != [] && t.states[i].queue[0] == e
  }

  /** Packet n is sent again. */
  predicate Resends(t: Trace, i: nat, n: nat)
    requires i < |t.actions| && i < |t.states|
  {
    Serves(t, i, TimedOut(n)) && n in t.states[i].sender.inFlight
  }

  /** A copy of packet n reaches the receiver. */
  predicate Arrives(t: Trace, i: nat, n: nat)
    requires i < |t.actions|
  {
    t.actions[i].Receive? && t.actions[i].segment.sequenceNumber == n
  }

  /** It does, and is acknowledged. */
  predicate Answered(c: Config, t: Trace, i: nat, n: nat)
    requires i < |t.actions| && i < |t.states|
  {
    && Arrives(t, i, n)
    && OnReceiverEvent(t.states[i].receiver, SegmentArrived(t.actions[i].segment), c.receiveWindowSize, c.masks).1.Some?
  }

  /** An acknowledgement of packet n reaches the sending loop. */
  predicate Heeds(c: Config, t: Trace, i: nat, n: nat)
    requires i < |t.actions| && i < |t.states|
  {
    Serves(t, i, SegmentArrived(AckSegment(n, c.masks)))
  }

  datatype Kind = Resend | Arrival | Answer | Heed

  predicate Happens(c: Config, t: Trace, kind: Kind, i: nat, n: nat)
    requires i < |t.actions| && i < |t.states|
  {
    match kind
    case Resend => Resends(t, i, n)
    case Arrival => Arrives(t, i, n)
    case Answer => Answered(c, t, i, n)
    case Heed => Heeds(c, t, i, n)
  }

  /** How often it happens to packet n in the steps from lo up to hi. */
  function Count(c: Config, t: Trace, kind: Kind, n: nat, lo: nat, hi: nat): nat
    requires lo <= hi <= |t.actions| && hi < |t.states|
    decreases hi - lo
  {
    if lo == hi then 0 else Count(c, t, kind, n, lo, hi - 1) + if Happens(c, t, kind, hi - 1, n) then 1 else 0
  }

  /** Neither a packet nor its acknowledgements are lost, or on their way past the next one, more than k
      times in a row: k + 1 more sent means one more got through. */
  ghost predicate BoundedLoss(c: Config, t: Trace, k: nat)
    requires |t.states| == |t.actions| + 1
  {
    forall n: nat, lo: nat, hi: nat | lo <= hi <= |t.actions| ::
      && Count(c, t, Resend, n, lo, hi) <= (k + 1) * (Count(c, t, Arrival, n, lo, hi) + 1)
      && Count(c, t, Answer, n, lo, hi) <= (k + 1) * (Count(c, t, Heed, n, lo, hi) + 1)
  }

  /** The timeout of the packet the window starts with is served. */
  predicate BaseTimeout(t: Trace, i: nat)
    requires i < |t.actions| && i < |t.states|
  {
    Serves(t, i, TimedOut(t.states[i].sender.base))
  }

  function BaseTimeouts(t: Trace, lo: nat, hi: nat): nat
    requires lo <= hi <= |t.actions| && hi < |t.states|
    decreases hi - lo
  {
    if lo == hi then 0 else BaseTimeouts(t, lo, hi - 1) + if BaseTimeout(t, hi - 1) then 1 else 0
  }

  lemma {:induction false} TraceInv(c: Config, t: Trace, i: nat)
    requires c.Valid() && IsTrace(c, t) && i <= |t.actions|
    ensures Inv(c, t.states[i])
  {
    hide Inv, Init, Step;
    if i == 0 {
      InitInv(c);
    } else {
      TraceInv(c, t, i - 1);
      StepInv(c, t.states[i - 1], t.actions[i - 1], t.states[i]);
    }
  }

  lemma {:induction false} TimeoutsSplit(t: Trace, lo: nat, mid: nat, hi: nat)
    requires lo <= mid <= hi <= |t.actions| && hi < |t.states|
    ensures BaseTimeouts(t, lo, hi) == BaseTimeouts(t, lo, mid) + BaseTimeouts(t, mid, hi)
    decreases hi - mid
  {
    if mid < hi {
      TimeoutsSplit(t, lo, mid, hi - 1);
    }
  }

  // ----- One step -------------------------------------------------------------------------------

  /** Serving a timeout, like every step but an acknowledgement, leaves the base; no step takes it back. */
  lemma StepBase(c: Config, s: State, action: Action, s': State)
    requires c.Valid() && Inv(c, s) && Step(c, s, action, s')
    ensures s.sender.base <= s'.sender.base
    ensures action == Consume && s.queue != [] && s.queue[0].TimedOut? ==> s'.sender.base == s.sender.base
  {
    hide Inv, OnReceiverEvent, Wire, WireAll, Window;
    if action.Fill? {
      HaveSender(c, s);
      if !AllAcknowledged(s.sender, |c.Pieces()|) {
        FillSenderInv(c, s.sender);
      }
      hide FillWindow, AllAcknowledged, SenderInv;
    }
  }

  lemma HaveSender(c: Config, s: State)
    requires Inv(c, s)
    ensures SenderInv(c, s.sender) && (s.phase == Sending && s.waiting ==> s.sender.base in s.sender.inFlight)
    ensures s.sender.base in s.sender.inFlight ==> c.initial <= s.sender.base < c.End()
  {
    hide ReceiverInv, CrossInv, NetInv, TimerInv, Config.Packet, Chunks;
  }

  /** When the loop heeds the base packet's acknowledgement, the base moves. */
  lemma HeedMoves(c: Config, s: State, s': State)
    requires c.Valid() && Inv(c, s) && Step(c, s, Consume, s')
    requires s.queue != [] && s.queue[0] == SegmentArrived(AckSegment(s.sender.base, c.masks))
    ensures s.sender.base < s'.sender.base
  {
    HaveSender(c, s);
    AckOnWire(c, s.sender.base);
    hide Inv, SenderInv, Wire, WireAll;
    assert AckSegment(s.sender.base, c.masks).sequenceNumber == s.sender.base;
  }

  /** A copy of the base packet that reaches the receiver is always acknowledged. */
  lemma CopyAnswered(c: Config, s: State, p: Segment, s': State)
    requires c.Valid() && Inv(c, s) && Step(c, s, Receive(p), s') && p.sequenceNumber == s.sender.base
    ensures OnReceiverEvent(s.receiver, SegmentArrived(p), c.receiveWindowSize, c.masks).1.Some?
  {
    BaseBehind(c, s);
    InvParts(c, s);
    InTransit(c, s, p);
    OnPacketInv(c, s.receiver, s.sender.next, p);
    hide Inv, ReceiverInv, IsPacket, AckSegment, OnSegment;
  }

  // ----- While the base stays -------------------------------------------------------------------

  ghost predicate BaseStays(t: Trace, b: nat, lo: nat, hi: nat)
    requires lo <= hi < |t.states|
  {
    forall i :: lo <= i <= hi ==> t.states[i].sender.base == b
  }

  lemma {:induction false} StayCounts(c: Config, t: Trace, b: nat, lo: nat, hi: nat)
    requires c.Valid() && IsTrace(c, t) && lo <= hi <= |t.actions| && BaseStays(t, b, lo, hi)
    ensures Count(c, t, Heed, b, lo, hi) == 0
    ensures Count(c, t, Arrival, b, lo, hi) == Count(c, t, Answer, b, lo, hi)
    ensures BaseTimeouts(t, lo, hi) <= Count(c, t, Resend, b, lo, hi)
    decreases hi - lo
  {
    hide Inv, Step, Init;
    if lo < hi {
      StayCounts(c, t, b, lo, hi - 1);
      StayStep(c, t, b, hi - 1);
    }
  }

  lemma StayStep(c: Config, t: Trace, b: nat, i: nat)
    requires c.Valid() && IsTrace(c, t) && i < |t.actions|
    requires t.states[i].sender.base == t.states[i + 1].sender.base == b
    ensures !Heeds(c, t, i, b)
    ensures Arrives(t, i, b) == Answered(c, t, i, b)
    ensures BaseTimeout(t, i) ==> Resends(t, i, b)
  {
    hide Inv, Init, OnReceiverEvent, AckSegment;
    var s, s' := t.states[i], t.states[i + 1];
    TraceInv(c, t, i);
    assert Step(c, s, t.actions[i], s');
    if Heeds(c, t, i, b) {
      HeedMoves(c, s, s');
    }
    if Arrives(t, i, b) {
      assert t.actions[i] == Receive(t.actions[i].segment);
      CopyAnswered(c, s, t.actions[i].segment, s');
    }
    if BaseTimeout(t, i) {
      HaveSender(c, s);
    }
  }

  /** The timeouts of one base packet that are served before it is acknowledged. */
  lemma StayBound(c: Config, t: Trace, k: nat, b: nat, lo: nat, hi: nat)
    requires c.Valid() && IsTrace(c, t) && BoundedLoss(c, t, k)
    requires lo <= hi <= |t.actions| && BaseStays(t, b, lo, hi)
    ensures BaseTimeouts(t, lo, hi) <= (k + 1) * (k + 2)
  {
    hide Inv, Step, Init, Happens, BaseStays, BaseTimeouts;
    StayCounts(c, t, b, lo, hi);
    var answers := Count(c, t, Answer, b, lo, hi);
    assert Count(c, t, Resend, b, lo, hi) <= (k + 1) * (answers + 1);
    assert answers <= (k + 1) * (0 + 1);
    Scale(k + 1, answers + 1, k + 2);
  }

  lemma Scale(a: nat, x: nat, y: nat)
    requires x <= y
    ensures a * x <= a * y
  {
  }

  // ----- The whole run --------------------------------------------------------------------------

  /** Up to step `hi`: when the base got where it is, and how many of its predecessors' timeouts were served. */
  ghost predicate Settled(c: Config, t: Trace, bound: nat, lo: nat, hi: nat)
    requires lo <= hi <= |t.actions| && hi < |t.states|
  {
    && BaseStays(t, t.states[hi].sender.base, lo, hi)
    && c.initial <= t.states[hi].sender.base
    && BaseTimeouts(t, 0, lo) <= (t.states[hi].sender.base - c.initial) * bound
  }

  lemma {:induction false} SettledAt(c: Config, t: Trace, k: nat, hi: nat) returns (lo: nat)
    requires c.Valid() && IsTrace(c, t) && BoundedLoss(c, t, k) && hi <= |t.actions|
    ensures lo <= hi && Settled(c, t, (k + 1) * (k + 2), lo, hi)
  {
    hide Inv, Step, BoundedLoss;
    var bound := (k + 1) * (k + 2);
    if hi == 0 {
      lo := 0;
    } else {
      lo := SettledAt(c, t, k, hi - 1);
      var b, b' := t.states[hi - 1].sender.base, t.states[hi].sender.base;
      TraceInv(c, t, hi - 1);
      StepBase(c, t.states[hi - 1], t.actions[hi - 1], t.states[hi]);
      if b' != b {
        StayBound(c, t, k, b, lo, hi - 1);
        TimeoutsSplit(t, 0, lo, hi - 1);
        assert !BaseTimeout(t, hi - 1);
        Raise(b - c.initial, b' - c.initial, bound);
        lo := hi;
      }
    }
  }

  lemma Raise(x: nat, y: nat, bound: nat)
    requires x < y
    ensures x * bound + bound <= y * bound
  {
    Scale(bound, x + 1, y);
  }

  lemma ConsumeWaits(c: Config, s: State, s': State)
    requires Step(c, s, Consume, s')
    ensures s.phase == Sending && s.waiting
  {
  }

  lemma NoTimeoutAtEnd(c: Config, t: Trace, i: nat)
    requires c.Valid() && IsTrace(c, t) && i < |t.actions| && t.states[i].sender.base == c.End()
    ensures !BaseTimeout(t, i)
  {
    hide Inv, Init, Step;
    TraceInv(c, t, i);
    HaveSender(c, t.states[i]);
    assert Step(c, t.states[i], t.actions[i], t.states[i + 1]);
    if t.actions[i] == Consume {
      ConsumeWaits(c, t.states[i], t.states[i + 1]);
    }
  }

  lemma {:induction false} NoTimeoutsAtEnd(c: Config, t: Trace, lo: nat, hi: nat)
    requires c.Valid() && IsTrace(c, t) && lo <= hi <= |t.actions| && BaseStays(t, c.End(), lo, hi)
    ensures BaseTimeouts(t, lo, hi) == 0
    decreases hi - lo
  {
    hide IsTrace, BaseTimeout;
    if lo < hi {
      NoTimeoutsAtEnd(c, t, lo, hi - 1);
      NoTimeoutAtEnd(c, t, hi - 1);
    }
  }

  /** Under bounded loss only so many timeouts of the packet the window starts with are ever served, however
      the steps interleave: each chunk costs at most (k + 1) * (k + 2). */
  lemma TimeoutsBounded(c: Config, t: Trace, k: nat, hi: nat)
    requires c.Valid() && IsTrace(c, t) && BoundedLoss(c, t, k) && hi <= |t.actions|
    ensures BaseTimeouts(t, 0, hi) <= |c.Pieces()| * ((k + 1) * (k + 2))
  {
    hide Inv, Step, Init, BoundedLoss;
    var bound := (k + 1) * (k + 2);
    var lo := SettledAt(c, t, k, hi);
    var b := t.states[hi].sender.base;
    TimeoutsSplit(t, 0, lo, hi);
    TraceInv(c, t, hi);
    BaseWithin(c, t.states[hi]);
    if b == c.End() {
      NoTimeoutsAtEnd(c, t, lo, hi);
    } else {
      StayBound(c, t, k, b, lo, hi);
      Raise(b - c.initial, |c.Pieces()|, bound);
    }
  }

  lemma BaseWithin(c: Config, s: State)
    requires Inv(c, s)
    ensures c.initial <= s.sender.base <= c.End()
  {
    hide ReceiverInv, CrossInv, NetInv, TimerInv, PhaseInv, Config.Packet, Chunks;
  }

  // ----- Rounds ---------------------------------------------------------------------------------

  /** In a round the alarm of the packet the window starts with goes off and is served, unless the base moves
      on or the loop ends first. */
  ghost predicate Round(t: Trace, from: nat, to: nat)
    requires from <= to <= |t.actions| && to < |t.states|
  {
    || t.states[to].phase != Sending
    || t.states[from].sender.base < t.states[to].sender.base
    || BaseTimeouts(t, from, to) > 0
  }

  ghost predicate IsRounds(t: Trace, rounds: seq<nat>) {
    && rounds != [] && |t.states| == |t.actions| + 1
    && (forall j :: 0 <= j < |rounds| ==> rounds[j] <= |t.actions|)
    && (forall j :: 0 <= j < |rounds| - 1 ==> rounds[j] <= rounds[j + 1] && Round(t, rounds[j], rounds[j + 1]))
  }

  lemma StepPhase(c: Config, s: State, action: Action, s': State)
    requires Step(c, s, action, s') && s.phase != Sending
    ensures s'.phase != Sending
  {
    hide OnReceiverEvent, Wire;
  }

  lemma {:induction false} PhaseStays(c: Config, t: Trace, i: nat, j: nat)
    requires c.Valid() && IsTrace(c, t) && i <= j <= |t.actions|
    ensures t.states[i].phase != Sending ==> t.states[j].phase != Sending
    ensures t.states[i].sender.base <= t.states[j].sender.base
    decreases j - i
  {
    hide Inv, Step, Init;
    if i < j {
      PhaseStays(c, t, i, j - 1);
      assert Step(c, t.states[j - 1], t.actions[j - 1], t.states[j - 1 + 1]);
      TraceInv(c, t, j - 1);
      StepBase(c, t.states[j - 1], t.actions[j - 1], t.states[j]);
      if t.states[j - 1].phase != Sending {
        StepPhase(c, t.states[j - 1], t.actions[j - 1], t.states[j]);
      }
    }
  }

  /** While the loop runs, each round moves the base or serves a timeout. */
  lemma {:induction false} RoundsAdd(c: Config, t: Trace, rounds: seq<nat>)
    requires c.Valid() && IsTrace(c, t) && IsRounds(t, rounds)
    requires t.states[rounds[|rounds| - 1]].phase == Sending
    ensures var last := rounds[|rounds| - 1];
            |rounds| - 1 <= t.states[last].sender.base - c.initial + BaseTimeouts(t, 0, last)
    decreases |rounds|
  {
    hide Inv, Step, Init;
    var j := |rounds| - 1;
    TraceInv(c, t, rounds[j]);
    BaseWithin(c, t.states[rounds[j]]);
    if j > 0 {
      assert Round(t, rounds[j - 1], rounds[j - 1 + 1]);
      PhaseStays(c, t, rounds[j - 1], rounds[j]);
      RoundsAdd(c, t, rounds[..j]);
      TimeoutsSplit(t, 0, rounds[j - 1], rounds[j]);
    }
  }

  /** If no packet and no acknowledgement is lost more than k times in a row, the sending loop has ended after
      |Pieces| * ((k + 1) * (k + 2) + 1) rounds, whatever the windows and the order of steps. If nobody
      interrupted it, the whole file has been written by then. */
  lemma EndsWithin(c: Config, t: Trace, k: nat, rounds: seq<nat>)
    requires c.Valid() && IsTrace(c, t) && BoundedLoss(c, t, k) && IsRounds(t, rounds)
    requires |rounds| > |c.Pieces()| * ((k + 1) * (k + 2) + 1) + 1
    ensures var s := t.states[rounds[|rounds| - 1]];
            && s.phase != Sending
            && (s.phase != Interrupted ==> s.phase == Completed && s.receiver.content == c.file)
  {
    hide Inv, Step, Init, BoundedLoss;
    var last := rounds[|rounds| - 1];
    TraceInv(c, t, last);
    BaseWithin(c, t.states[last]);
    TimeoutsBounded(c, t, k, last);
    assert |c.Pieces()| * ((k + 1) * (k + 2) + 1) == |c.Pieces()| * ((k + 1) * (k + 2)) + |c.Pieces()|;
    if t.states[last].phase == Sending {
      RoundsAdd(c, t, rounds);
    }
    if t.states[last].phase == Completed {
      CompletedState(c, t.states[last]);
    }
  }

  lemma CompletedState(c: Config, s: State)
    requires c.Valid() && Inv(c, s) && s.phase == Completed
    ensures s.receiver.content == c.file
  {
    InvParts(c, s);
    BaseBehind(c, s);
    WholeFile(c, s.receiver);
    hide Chunks, Concat, Config.Packet, TimerInv, NetInv, ReceiverInv, CrossInv;
  }
}
