/** Sending to switches from one thread while a second thread finishes the writes that could not complete. */
module DeferredSender {
  import opened Wrappers
  import opened ByteStrings

  type Queues = map<nat, seq<Bytes>>

  // ----- Slices ---------------------------------------------------------------------------------

  function Slices(data: Bytes, size: nat): (r: seq<Bytes>)
    requires size > 0
  {
    if |data| > size then [data[..size]] + Slices(data[size..], size)
    else if |data| > 0 then [data]
    else []
  }

  /** The slices are the data, none is empty or too long, and all but the last are full. */
  lemma {:induction false} SlicesAreData(data: Bytes, size: nat)
    requires size > 0
    ensures Concat(Slices(data, size)) == data
    ensures forall i :: 0 <= i < |Slices(data, size)| ==> 0 < |Slices(data, size)[i]| <= size
    ensures forall i :: 0 <= i < |Slices(data, size)| - 1 ==> |Slices(data, size)[i]| == size
  {
    if |data| > size {
      SlicesAreData(data[size..], size);
      assert data == data[..size] + data[size..];
    }
  }

  // ----- The two threads ------------------------------------------------------------------------

  /** The thread that calls `send`: between the unlocked look at the flag and what follows it, the other
      thread may act. */
  datatype Sender =
    | Idle
    | Checking(con: nat, data: Bytes)
    | Direct(con: nat, data: Bytes)
    | Deferring(con: nat, data: Bytes)

  /** The deferred thread; it holds the lock whenever it is not waiting. */
  datatype Flusher =
    | Waiting
    | Between(todo: seq<nat>)
    | Draining(con: nat, rest: seq<nat>)
    | Cleaning(con: nat, rest: seq<nat>)

  datatype State = State(sock: seq<Bytes>, submitted: seq<Bytes>, queues: Queues, sending: bool,
                         sender: Sender, flusher: Flusher)

  datatype Label =
    | Submit(con: nat, data: Bytes)
    | Check
    | SendDirect(accepted: nat)
    | DirectWouldBlock
    | Defer
    | StartFlush(writable: seq<nat>)
    | NextConnection
    | SendSlice(accepted: nat)
    | SliceWouldBlock
    | DrainDone
    | Clean
    | EndFlush

  function Enqueued(queues: Queues, con: nat, slices: seq<Bytes>): Queues {
    queues[con := (if con in queues then queues[con] else []) + slices]
  }

  /** The queue after the socket took that much of its first slice. */
  function Taken(q: seq<Bytes>, accepted: nat): seq<Bytes>
    requires q != [] && accepted <= |q[0]|
  {
    if accepted == |q[0]| then q[1..] else [q[0][accepted..]] + q[1..]
  }

  function SenderStep(size: nat, s: State, l: Label): Option<State>
    requires size > 0
  {
    match (l, s.sender)
    case (Submit(con, data), Idle) =>
      if con < |s.submitted| then
        Some(s.(submitted := s.submitted[con := s.submitted[con] + data], sender := Checking(con, data)))
      else None
    case (Check, Checking(con, data)) =>
      Some(s.(sender := if s.sending then Deferring(con, data) else Direct(con, data)))
    case (SendDirect(n), Direct(con, data)) =>
      if n <= |data| && con < |s.sock| then
        Some(s.(sock := s.sock[con := s.sock[con] + data[..n]],
                sender := if n == |data| then Idle else Deferring(con, data[n..])))
      else None
    case (DirectWouldBlock, Direct(con, data)) =>
      Some(s.(sender := Deferring(con, data)))
    case (Defer, Deferring(con, data)) =>
      if s.flusher.Waiting? then
        Some(s.(sending := true, queues := Enqueued(s.queues, con, Slices(data, size)), sender := Idle))
      else None
    case _ => None
  }

  function FlusherStep(s: State, l: Label): Option<State> {
    match (l, s.flusher)
    case (StartFlush(writable), Waiting) =>
      Some(s.(flusher := Between(writable)))
    case (NextConnection, Between(todo)) =>
      if todo == [] then None
      else Some(s.(flusher := if todo[0] in s.queues then Draining(todo[0], todo[1..]) else Between(todo[1..])))
    case (SendSlice(n), Draining(con, rest)) =>
      if con in s.queues && s.queues[con] != [] && n <= |s.queues[con][0]| && con < |s.sock| then
        Some(s.(sock := s.sock[con := s.sock[con] + s.queues[con][0][..n]],
                queues := s.queues[con := Taken(s.queues[con], n)],
                flusher := if n == |s.queues[con][0]| then Draining(con, rest) else Cleaning(con, rest)))
      else None
    case (SliceWouldBlock, Draining(con, rest)) =>
      if con in s.queues && s.queues[con] != [] then Some(s.(flusher := Cleaning(con, rest))) else None
    case (DrainDone, Draining(con, rest)) =>
      if con in s.queues && s.queues[con] == [] then Some(s.(flusher := Cleaning(con, rest))) else None
    case (Clean, Cleaning(con, rest)) =>
      if con !in s.queues || s.queues[con] != [] then Some(s.(flusher := Between(rest)))
      else
        var left := s.queues - {con};
        Some(s.(queues := left, sending := s.sending && left != map[],
                flusher := if left == map[] then Waiting else Between(rest)))
    case (EndFlush, Between(todo)) =>
      if todo == [] then Some(s.(flusher := Waiting)) else None
    case _ => None
  }

  function Step(size: nat, s: State, l: Label): Option<State>
    requires size > 0
  {
    match SenderStep(size, s, l)
    case Some(t) => Some(t)
    case None => FlusherStep(s, l)
  }

  function Run(size: nat, s: State, labels: seq<Label>): Option<State>
    requires size > 0
    decreases |labels|
  {
    if labels == [] then Some(s)
    else
      match Step(size, s, labels[0])
      case None => None
      case Some(t) => Run(size, t, labels[1..])
  }

  function Init(connections: nat): State {
    State(seq(connections, i => []), seq(connections, i => []), map[], false, Idle, Waiting)
  }

  // ----- The invariant --------------------------------------------------------------------------

  function Queued(s: State, con: nat): Bytes {
    if con in s.queues then Concat(s.queues[con]) else []
  }

  /** What the sending thread holds for a connection. */
  function InFlight(s: State, con: nat): Bytes {
    if !s.sender.Idle? && s.sender.con == con then s.sender.data else []
  }

  predicate InOrder(s: State, con: nat)
    requires con < |s.sock| && con < |s.submitted|
  {
    s.submitted[con] == s.sock[con] + Queued(s, con) + InFlight(s, con)
  }

  predicate Inv(s: State) {
    && |s.sock| == |s.submitted|
    && (forall con :: con in s.queues ==> con < |s.sock|)
    && (s.sender.Idle? || s.sender.con < |s.sock|)
    && (forall con: nat :: con < |s.sock| ==> InOrder(s, con))
    && (!s.sending ==> s.queues == map[])
    && (s.sender.Direct? ==> !s.sending)
    && (s.flusher.Draining? || s.flusher.Cleaning? ==> s.flusher.con in s.queues)
  }

  /** One connection's bytes: on the socket, queued, held by the sender. */
  lemma Moved(sock: Bytes, queued: Bytes, held: Bytes, n: nat)
    ensures n <= |held| ==> sock + [] + held == (sock + held[..n]) + [] + held[n..]
    ensures n <= |queued| ==> sock + queued + held == (sock + queued[..n]) + queued[n..] + held
    ensures sock + queued + held == sock + (queued + held) + []
  {
  }

  lemma {:induction false} TakenConcat(q: seq<Bytes>, n: nat)
    requires q != [] && n <= |q[0]|
    ensures n <= |Concat(q)| && Concat(q)[..n] == q[0][..n] && Concat(Taken(q, n)) == Concat(q)[n..]
  {
    if n == |q[0]| {
      assert q[0][..n] == q[0];
    } else {
      assert Taken(q, n)[1..] == q[1..];
    }
  }

  /** The lock orders the queue, the flag keeps direct writes from overtaking it. */
  lemma SenderStepKeeps(size: nat, s: State, l: Label)
    requires size > 0 && Inv(s) && SenderStep(size, s, l).Some?
    ensures Inv(SenderStep(size, s, l).value)
  {
    var t := SenderStep(size, s, l).value;
    forall con: nat | con < |t.sock|
      ensures InOrder(t, con)
    {
      assert InOrder(s, con);
      SenderStepOrder(size, s, l, con);
    }
    hide Concat, Slices, InOrder;
  }

  lemma SenderStepOrder(size: nat, s: State, l: Label, con: nat)
    requires size > 0 && Inv(s) && SenderStep(size, s, l).Some? && con < |s.sock|
    ensures var t := SenderStep(size, s, l).value;
            |t.sock| == |s.sock| && |t.submitted| == |s.submitted| && InOrder(t, con)
  {
    hide Concat, Slices;
    assert InOrder(s, con);
    if l.SendDirect? && s.sender.con == con {
      Moved(s.sock[con], [], s.sender.data, l.accepted);
    } else if l.Defer? && s.sender.con == con {
      var q := if con in s.queues then s.queues[con] else [];
      SlicesAreData(s.sender.data, size);
      ConcatAppend(q, Slices(s.sender.data, size));
      ConcatNothing();
      Moved(s.sock[con], Concat(q), s.sender.data, 0);
    }
  }

  lemma ConcatNothing()
    ensures Concat([]) == []
  {
  }

  lemma FlusherStepKeeps(s: State, l: Label)
    requires Inv(s) && FlusherStep(s, l).Some?
    ensures Inv(FlusherStep(s, l).value)
  {
    var t := FlusherStep(s, l).value;
    forall con: nat | con < |t.sock|
      ensures InOrder(t, con)
    {
      assert InOrder(s, con);
      FlusherStepOrder(s, l, con);
    }
    hide Concat, InOrder, Taken;
  }

  lemma FlusherStepOrder(s: State, l: Label, con: nat)
    requires Inv(s) && FlusherStep(s, l).Some? && con < |s.sock|
    ensures var t := FlusherStep(s, l).value;
            |t.sock| == |s.sock| && |t.submitted| == |s.submitted| && InOrder(t, con)
  {
    hide Concat, Taken;
    assert InOrder(s, con);
    ConcatNothing();
    if l.SendSlice? && s.flusher.con == con {
      TakenConcat(s.queues[con], l.accepted);
      Moved(s.sock[con], Concat(s.queues[con]), InFlight(s, con), l.accepted);
    }
  }

  lemma StepKeeps(size: nat, s: State, l: Label)
    requires size > 0 && Inv(s) && Step(size, s, l).Some?
    ensures Inv(Step(size, s, l).value)
  {
    hide Inv, SenderStep, FlusherStep;
    if SenderStep(size, s, l).Some? {
      SenderStepKeeps(size, s, l);
    } else {
      FlusherStepKeeps(s, l);
    }
  }

  lemma {:induction false} RunKeeps(size: nat, s: State, labels: seq<Label>)
    requires size > 0 && Inv(s) && Run(size, s, labels).Some?
    ensures Inv(Run(size, s, labels).value)
    decreases |labels|
  {
    hide Inv, Step;
    if labels != [] {
      StepKeeps(size, s, labels[0]);
      RunKeeps(size, Step(size, s, labels[0]).value, labels[1..]);
    }
  }

  /** Whatever the interleaving and however the sockets take the bytes, each socket has received a prefix of
      what was submitted for it, the rest is queued or held, in order, and a clear flag means empty queues. */
  lemma AlwaysInOrder(size: nat, connections: nat, labels: seq<Label>)
    requires size > 0 && Run(size, Init(connections), labels).Some?
    ensures var s := Run(size, Init(connections), labels).value;
            && |s.sock| == |s.submitted|
            && (forall con: nat :: con < |s.sock| ==>
                  s.submitted[con] == s.sock[con] + Queued(s, con) + InFlight(s, con))
            && (!s.sending ==> s.queues == map[])
            && (s.queues == map[] && s.sender.Idle? ==> s.sock == s.submitted)
  {
    InitInv(connections);
    RunKeeps(size, Init(connections), labels);
    hide Run, Concat;
    var s := Run(size, Init(connections), labels).value;
    forall con: nat | con < |s.sock|
      ensures s.submitted[con] == s.sock[con] + Queued(s, con) + InFlight(s, con)
      ensures s.queues == map[] && s.sender.Idle? ==> s.sock[con] == s.submitted[con]
    {
      assert InOrder(s, con);
    }
  }

  lemma InitInv(connections: nat)
    ensures Inv(Init(connections))
  {
  }

  // ----- Everything can still be sent -----------------------------------------------------------

  predicate Settled(s: State) {
    s.sender.Idle? && s.flusher.Waiting? && s.queues == map[]
  }

  lemma {:induction false} RunAppend(size: nat, s: State, a: seq<Label>, b: seq<Label>)
    requires size > 0 && Run(size, s, a).Some?
    ensures Run(size, s, a + b) == Run(size, Run(size, s, a).value, b)
    decreases |a|
  {
    if a == [] {
      assert a + b == b;
    } else {
      assert (a + b)[1..] == a[1..] + b;
      RunAppend(size, Step(size, s, a[0]).value, a[1..], b);
    }
  }

  /** Some run without new submissions leads from one state to the other. */
  ghost predicate Leads(size: nat, s: State, t: State)
    requires size > 0
  {
    && t.submitted == s.submitted
    && exists labels :: Run(size, s, labels) == Some(t)
  }

  lemma LeadsStep(size: nat, s: State, l: Label)
    requires size > 0 && Inv(s) && !l.Submit? && Step(size, s, l).Some?
    ensures Leads(size, s, Step(size, s, l).value) && Inv(Step(size, s, l).value)
  {
    StepKeeps(size, s, l);
    hide Inv;
    assert [l][1..] == [];
    assert Run(size, s, [l]) == Step(size, s, l);
  }

  lemma LeadsTrans(size: nat, s: State, t: State, u: State)
    requires size > 0 && Leads(size, s, t) && Leads(size, t, u)
    ensures Leads(size, s, u)
  {
    hide Step;
    var a :| Run(size, s, a) == Some(t);
    var b :| Run(size, t, b) == Some(u);
    RunAppend(size, s, a, b);
  }

  lemma LeadsSelf(size: nat, s: State)
    requires size > 0
    ensures Leads(size, s, s)
  {
    assert Run(size, s, []) == Some(s);
  }

  /** Takes one enabled step further. */
  lemma Onward(size: nat, s: State, t: State, l: Label) returns (u: State)
    requires size > 0 && Leads(size, s, t) && Inv(t) && !l.Submit? && Step(size, t, l).Some?
    ensures Step(size, t, l) == Some(u) && Leads(size, s, u) && Inv(u)
  {
    hide Step, Leads, Inv;
    u := Step(size, t, l).value;
    LeadsStep(size, t, l);
    LeadsTrans(size, s, t, u);
  }

  lemma KeyInRange(s: State, c: nat)
    requires Inv(s) && c in s.queues
    ensures c < |s.sock|
  {
  }

  /** The flusher can always finish its round. */
  lemma {:induction false} RoundEnds(size: nat, s: State) returns (t: State)
    requires size > 0 && Inv(s) && s.flusher.Between?
    ensures Leads(size, s, t) && Inv(t) && t.flusher.Waiting? && t.sender == s.sender
    decreases |s.flusher.todo|
  {
    hide Leads, Inv, SenderStep;
    LeadsSelf(size, s);
    FlusherOnly(size, s);
    if s.flusher.todo == [] {
      t := Onward(size, s, s, EndFlush);
    } else {
      var u := Onward(size, s, s, NextConnection);
      if u.flusher.Draining? {
        u := DrainStops(size, s, u);
      }
      if u.flusher.Waiting? {
        t := u;
      } else {
        t := RoundEnds(size, u);
        LeadsTrans(size, s, u, t);
      }
    }
  }

  /** Outside the sender's own labels, a step is the flusher's. */
  lemma FlusherOnly(size: nat, s: State)
    requires size > 0
    ensures forall l: Label :: !(l.Submit? || l.Check? || l.SendDirect? || l.DirectWouldBlock? || l.Defer?) ==>
              Step(size, s, l) == FlusherStep(s, l)
  {
  }

  /** A socket that would block ends the work on its connection. */
  lemma DrainStops(size: nat, s: State, t: State) returns (u: State)
    requires size > 0 && Leads(size, s, t) && Inv(t) && t.flusher.Draining? && t.flusher.con in t.queues
    ensures Leads(size, s, u) && Inv(u) && u.sender == t.sender
    ensures u.flusher.Waiting? || u.flusher == Between(t.flusher.rest)
  {
    hide Leads, Inv, SenderStep;
    FlusherOnly(size, t);
    var v := Onward(size, s, t, if t.queues[t.flusher.con] == [] then DrainDone else SliceWouldBlock);
    FlusherOnly(size, v);
    u := Onward(size, s, v, Clean);
  }

  lemma FlusherParks(size: nat, s: State) returns (t: State)
    requires size > 0 && Inv(s)
    ensures Leads(size, s, t) && Inv(t) && t.flusher.Waiting? && t.sender == s.sender
  {
    LeadsSelf(size, s);
    FlusherOnly(size, s);
    FlusherHas(s);
    hide Leads, Inv, SenderStep;
    t := s;
    if s.flusher.Draining? {
      t := DrainStops(size, s, s);
    } else if s.flusher.Cleaning? {
      t := Onward(size, s, s, Clean);
    }
    if t.flusher.Between? {
      var u := RoundEnds(size, t);
      LeadsTrans(size, s, t, u);
      t := u;
    }
  }

  lemma FlusherHas(s: State)
    requires Inv(s)
    ensures s.flusher.Draining? || s.flusher.Cleaning? ==> s.flusher.con in s.queues
    ensures !s.sender.Idle? ==> s.sender.con < |s.sock|
  {
  }

  /** With the lock free and a willing socket, the sending thread returns. */
  lemma SenderReturns(size: nat, s: State) returns (t: State)
    requires size > 0 && Inv(s) && s.flusher.Waiting?
    ensures Leads(size, s, t) && Inv(t) && t.flusher.Waiting? && t.sender.Idle?
  {
    LeadsSelf(size, s);
    hide Leads, Inv;
    t := s;
    if t.sender.Checking? {
      t := Onward(size, s, t, Check);
    }
    FlusherHas(t);
    if t.sender.Direct? {
      t := Onward(size, s, t, SendDirect(|t.sender.data|));
    }
    if t.sender.Deferring? {
      t := Onward(size, s, t, Defer);
    }
  }

  /** A willing socket takes the whole queue of the connection being drained. */
  lemma {:induction false} QueueDrains(size: nat, s: State, t: State) returns (u: State)
    requires size > 0 && Leads(size, s, t) && Inv(t) && t.flusher.Draining? && t.flusher.con in t.queues
    ensures Leads(size, s, u) && Inv(u)
    ensures u.sender == t.sender && u.flusher == t.flusher && u.queues == t.queues[t.flusher.con := []]
    decreases |t.queues[t.flusher.con]|
  {
    hide Leads, Inv, SenderStep;
    var con := t.flusher.con;
    if t.queues[con] == [] {
      u := t;
    } else {
      FlusherOnly(size, t);
      KeyInRange(t, con);
      var v := Onward(size, s, t, SendSlice(|t.queues[con][0]|));
      u := QueueDrains(size, s, v);
    }
  }

  lemma ConnectionStarts(size: nat, s: State, con: nat) returns (t: State)
    requires size > 0 && Inv(s) && s.flusher.Waiting? && con in s.queues
    ensures Leads(size, s, t) && Inv(t) && t == s.(flusher := Draining(con, []))
  {
    hide Leads, Inv, SenderStep;
    LeadsSelf(size, s);
    FlusherOnly(size, s);
    var u := Onward(size, s, s, StartFlush([con]));
    FlusherOnly(size, u);
    assert [con][1..] == [];
    t := Onward(size, s, u, NextConnection);
  }

  lemma ConnectionFinishes(size: nat, s: State, t: State) returns (u: State)
    requires size > 0 && Leads(size, s, t) && Inv(t) && t.flusher.Draining? && t.flusher.rest == []
    requires t.flusher.con in t.queues && t.queues[t.flusher.con] == []
    ensures Leads(size, s, u) && Inv(u) && u.flusher.Waiting?
    ensures u.sender == t.sender && u.queues == t.queues - {t.flusher.con}
  {
    hide Leads, Inv, SenderStep;
    FlusherOnly(size, t);
    var v := Onward(size, s, t, DrainDone);
    FlusherOnly(size, v);
    u := Onward(size, s, v, Clean);
    FlusherOnly(size, u);
    if u.flusher.Between? {
      u := Onward(size, s, u, EndFlush);
    }
  }

  lemma ConnectionDrains(size: nat, s: State, con: nat) returns (t: State)
    requires size > 0 && Inv(s) && s.flusher.Waiting? && s.sender.Idle? && con in s.queues
    ensures Leads(size, s, t) && Inv(t) && t.flusher.Waiting? && t.sender.Idle? && t.queues == s.queues - {con}
  {
    hide *;
    var u := ConnectionStarts(size, s, con);
    var v := QueueDrains(size, s, u);
    t := ConnectionFinishes(size, s, v);
    assert v.queues - {con} == s.queues - {con};
  }

  lemma {:induction false} AllDrain(size: nat, s: State) returns (t: State)
    requires size > 0 && Inv(s) && s.flusher.Waiting? && s.sender.Idle?
    ensures Leads(size, s, t) && Inv(t) && Settled(t)
    decreases |s.queues|
  {
    hide Leads, Inv;
    if s.queues == map[] {
      LeadsSelf(size, s);
      t := s;
    } else {
      var con :| con in s.queues;
      var u := ConnectionDrains(size, s, con);
      assert u.queues.Keys == s.queues.Keys - {con};
      assert |u.queues.Keys| < |s.queues.Keys|;
      t := AllDrain(size, u);
      LeadsTrans(size, s, u, t);
    }
  }

  /** From every reachable state the two threads can go on, without further submissions, until every socket
      has received exactly what was submitted for it: no deadlock, no stranded queue. */
  lemma CanAlwaysSettle(size: nat, connections: nat, labels: seq<Label>)
    requires size > 0 && Run(size, Init(connections), labels).Some?
    ensures var s := Run(size, Init(connections), labels).value;
            exists t :: Leads(size, s, t) && Settled(t) && t.sock == s.submitted
  {
    InitInv(connections);
    RunKeeps(size, Init(connections), labels);
    var s := Run(size, Init(connections), labels).value;
    hide Run, Inv, Leads;
    var u := FlusherParks(size, s);
    var v := SenderReturns(size, u);
    var t := AllDrain(size, v);
    LeadsTrans(size, s, u, v);
    LeadsTrans(size, s, v, t);
    SettledSent(t);
    LeadsSame(size, s, t);
  }

  lemma LeadsSame(size: nat, s: State, t: State)
    requires size > 0 && Leads(size, s, t)
    ensures t.submitted == s.submitted
  {
  }

  lemma SettledSent(s: State)
    requires Inv(s) && Settled(s)
    ensures s.sock == s.submitted
  {
    forall con: nat | con < |s.sock|
      ensures s.sock[con] == s.submitted[con]
    {
      assert InOrder(s, con);
    }
  }

  // ----- The object -----------------------------------------------------------------------------

  /** What a socket does with a slice. */
  datatype Answer = Accepted(n: nat) | WouldBlock

  /** The bytes written from a queue under these answers, and the queue left. */
  function Drained(q: seq<Bytes>, answers: seq<Answer>): (Bytes, seq<Bytes>)
    decreases |answers|
  {
    if q == [] || answers == [] || answers[0].WouldBlock? then ([], q)
    else if answers[0].n >= |q[0]| then
      var r := Drained(q[1..], answers[1..]);
      (q[0] + r.0, r.1)
    else (q[0][..answers[0].n], [q[0][answers[0].n..]] + q[1..])
  }

  lemma {:induction false} DrainedConserves(q: seq<Bytes>, answers: seq<Answer>)
    ensures Drained(q, answers).0 + Concat(Drained(q, answers).1) == Concat(q)
    decreases |answers|
  {
    if q != [] && answers != [] && answers[0].Accepted? {
      if answers[0].n >= |q[0]| {
        DrainedConserves(q[1..], answers[1..]);
        var r := Drained(q[1..], answers[1..]);
        assert q[0] + r.0 + Concat(r.1) == q[0] + (r.0 + Concat(r.1));
      } else {
        TakenConcat(q, answers[0].n);
      }
    }
  }

  /** The object's flush of one connection is a run of the flusher's steps. */
  lemma {:induction false} FlushIsRun(size: nat, s: State, t: State, answers: seq<Answer>) returns (u: State)
    requires size > 0 && Leads(size, s, t) && Inv(t) && t.flusher.Draining? && t.flusher.con in t.queues
    requires t.flusher.con < |t.sock|
    ensures Leads(size, s, u) && Inv(u)
    ensures var con := t.flusher.con;
            var r := Drained(t.queues[con], answers);
            u == t.(sock := t.sock[con := t.sock[con] + r.0], queues := t.queues[con := r.1],
                    flusher := Cleaning(con, t.flusher.rest))
    decreases |answers|
  {
    hide Leads, Inv, SenderStep;
    var con := t.flusher.con;
    var q := t.queues[con];
    FlusherOnly(size, t);
    NoChange(t.sock, t.queues, con);
    if q == [] {
      u := Onward(size, s, t, DrainDone);
    } else if answers == [] || answers[0].WouldBlock? {
      u := Onward(size, s, t, SliceWouldBlock);
    } else if answers[0].n < |q[0]| {
      u := Onward(size, s, t, SendSlice(answers[0].n));
    } else {
      var v := Onward(size, s, t, SendSlice(|q[0]|));
      u := FlushIsRun(size, s, v, answers[1..]);
      var r := Drained(q[1..], answers[1..]);
      Twice(t.sock, t.queues, con, q[0], r.0, q[1..], r.1);
    }
  }

  /** The object's turn at a connection of its round is a run of the flusher's steps, with the same bytes written, the
      same queues and flag after it, and the same decision to stop. */
  lemma TurnIsRun(size: nat, s: State, t: State, answers: seq<Answer>) returns (u: State)
    requires size > 0 && Leads(size, s, t) && Inv(t) && t.flusher.Between? && t.flusher.todo != []
    ensures Leads(size, s, u) && Inv(u)
    ensures var con, rest := t.flusher.todo[0], t.flusher.todo[1..];
            if con !in t.queues then u == t.(flusher := Between(rest))
            else
              var r := Drained(t.queues[con], answers);
              var left := if r.1 == [] then t.queues - {con} else t.queues[con := r.1];
              && con < |t.sock|
              && u == t.(sock := t.sock[con := t.sock[con] + r.0], queues := left,
                         sending := t.sending && left != map[],
                         flusher := if left == map[] then Waiting else Between(rest))
  {
    hide Leads, SenderStep, InOrder, Drained;
    var con, rest := t.flusher.todo[0], t.flusher.todo[1..];
    FlusherOnly(size, t);
    u := Onward(size, s, t, NextConnection);
    if con in t.queues {
      var v := FlushIsRun(size, s, u, answers);
      FlusherOnly(size, v);
      u := Onward(size, s, v, Clean);
      var r := Drained(t.queues[con], answers);
      assert t.queues[con := r.1] - {con} == t.queues - {con};
      if r.1 != [] {
        assert con in t.queues[con := r.1];
      }
    }
  }

  lemma RunThree(size: nat, s: State, a: Label, b: Label, c: Label)
    requires size > 0 && Step(size, s, a).Some? && Step(size, Step(size, s, a).value, b).Some?
    ensures Run(size, s, [a, b, c]) == Step(size, Step(size, Step(size, s, a).value, b).value, c)
  {
    hide Step;
    assert [a, b, c][1..] == [b, c] && [b, c][1..] == [c];
    var t := Step(size, Step(size, s, a).value, b).value;
    assert Run(size, t, [c]) == Step(size, t, c) by {
      assert [c][1..] == [];
    }
  }

  /** While the flag is clear a send goes to the socket at once, and what that does not take waits to be queued. */
  lemma ClearFlagSendsDirectly(size: nat, s: State, con: nat, data: Bytes, n: nat)
    requires size > 0 && Inv(s) && s.sender.Idle? && con < |s.sock| && !s.sending && n <= |data|
    ensures Run(size, s, [Submit(con, data), Check, SendDirect(n)])
            == Some(s.(submitted := s.submitted[con := s.submitted[con] + data],
                       sock := s.sock[con := s.sock[con] + data[..n]],
                       sender := if n == |data| then Idle else Deferring(con, data[n..])))
  {
    hide InOrder, Run;
    RunThree(size, s, Submit(con, data), Check, SendDirect(n));
  }

  /** While the flag is set a send never touches the socket: its slices join the end of the queue, as soon as the
      flusher is outside the lock. */
  lemma SetFlagQueues(size: nat, s: State, con: nat, data: Bytes, n: nat)
    requires size > 0 && Inv(s) && s.sender.Idle? && con < |s.sock| && s.sending
    ensures Run(size, s, [Submit(con, data), Check, Defer])
            == if !s.flusher.Waiting? then None
               else Some(s.(submitted := s.submitted[con := s.submitted[con] + data],
                            queues := s.queues[con := (if con in s.queues then s.queues[con] else [])
                                                      + Slices(data, size)]))
    ensures Run(size, s, [Submit(con, data), Check, SendDirect(n)]).None?
  {
    hide InOrder, Run, Slices;
    RunThree(size, s, Submit(con, data), Check, Defer);
    RunThree(size, s, Submit(con, data), Check, SendDirect(n));
  }

  /** At the start nothing is deferred. */
  lemma FirstSendIsDirect(size: nat, connections: nat, con: nat, data: Bytes)
    requires size > 0 && con < connections
    ensures var r := Run(size, Init(connections), [Submit(con, data), Check, SendDirect(|data|)]);
            && r.Some? && con < |r.value.sock| && r.value.sock[con] == data
            && r.value.queues == map[] && r.value.sender == Idle && !r.value.sending
  {
    InitInv(connections);
    ClearFlagSendsDirectly(size, Init(connections), con, data, |data|);
    assert data[..|data|] == data && [] + data == data;
  }

  lemma NoChange(sock: seq<Bytes>, queues: Queues, con: nat)
    requires con < |sock| && con in queues
    ensures sock[con := sock[con] + []] == sock && queues[con := queues[con]] == queues
  {
    assert sock[con] + [] == sock[con];
  }

  lemma Twice(sock: seq<Bytes>, queues: Queues, con: nat, a: Bytes, b: Bytes, p: seq<Bytes>, q: seq<Bytes>)
    requires con < |sock|
    ensures var once := sock[con := sock[con] + a[..|a|]];
            once[con := once[con] + b] == sock[con := sock[con] + (a + b)]
    ensures queues[con := p][con := q] == queues[con := q]
  {
    assert sock[con] + a[..|a|] + b == sock[con] + (a + b);
  }

  /** Flushing got this far: what is written and what draining the remaining queue gives make up the result. */
  ghost predicate Flushing(q: seq<Bytes>, answers: seq<Answer>, written: Bytes, left: seq<Bytes>, k: nat) {
    && k <= |answers|
    && var r := Drained(left, answers[k..]);
       Drained(q, answers) == (written + r.0, r.1)
  }

  lemma FlushingStarts(q: seq<Bytes>, answers: seq<Answer>)
    ensures Flushing(q, answers, [], q, 0)
  {
    assert answers[0..] == answers;
    assert [] + Drained(q, answers).0 == Drained(q, answers).0;
  }

  lemma FlushingSlice(q: seq<Bytes>, answers: seq<Answer>, written: Bytes, left: seq<Bytes>, k: nat)
    requires Flushing(q, answers, written, left, k) && left != [] && k < |answers| && answers[k].Accepted?
    ensures answers[k].n >= |left[0]| ==> Flushing(q, answers, written + left[0], left[1..], k + 1)
    ensures answers[k].n < |left[0]| ==>
              Drained(q, answers) == (written + left[0][..answers[k].n], [left[0][answers[k].n..]] + left[1..])
  {
    assert answers[k..][0] == answers[k] && answers[k..][1..] == answers[k + 1..];
    if answers[k].n >= |left[0]| {
      var r := Drained(left[1..], answers[k + 1..]);
      assert written + (left[0] + r.0) == written + left[0] + r.0;
    }
  }

  lemma FlushingEnds(q: seq<Bytes>, answers: seq<Answer>, written: Bytes, left: seq<Bytes>, k: nat)
    requires Flushing(q, answers, written, left, k)
    requires left == [] || k == |answers| || answers[k].WouldBlock?
    ensures Drained(q, answers) == (written, left)
  {
    if k < |answers| {
      assert answers[k..][0] == answers[k];
    }
    assert written + [] == written;
  }

  lemma Emptied(queues: Queues, con: nat)
    requires con in queues
    ensures queues[con := []] - {con} == queues - {con}
  {
  }

  class DeferredSender {
    const pipeBuf: nat
    var dataForConnection: Queues
    var sending: bool

    constructor (pipeBuf: nat)
      ensures this.pipeBuf == pipeBuf && dataForConnection == map[] && !sending
    {
      this.pipeBuf := pipeBuf;
      dataForConnection, sending := map[], false;
    }

    method Sliceup(data: Bytes) returns (out: seq<Bytes>)
      requires pipeBuf > 0
      ensures out == Slices(data, pipeBuf)
    {
      out := [];
      var left := data;
      while |left| > pipeBuf
        invariant out + Slices(left, pipeBuf) == Slices(data, pipeBuf)
        decreases |left|
      {
        ghost var more := Slices(left[pipeBuf..], pipeBuf);
        assert out + ([left[..pipeBuf]] + more) == out + [left[..pipeBuf]] + more;
        out := out + [left[..pipeBuf]];
        left := left[pipeBuf..];
      }
      if |left| > 0 {
        out := out + [left];
      }
    }

    method Send(con: nat, data: Bytes)
      requires pipeBuf > 0
      modifies this
      ensures sending && dataForConnection == Enqueued(old(dataForConnection), con, Slices(data, pipeBuf))
    {
      sending := true;
      var slices := Sliceup(data);
      if con !in dataForConnection {
        assert [] + slices == slices;
        dataForConnection := dataForConnection[con := slices];
      } else {
        dataForConnection := dataForConnection[con := dataForConnection[con] + slices];
      }
    }

    /** The flusher's work on one writable connection; `stop` ends its round. */
    method Flush(con: nat, answers: seq<Answer>) returns (written: Bytes, stop: bool)
      modifies this
      ensures con !in old(dataForConnection) ==>
                written == [] && !stop && dataForConnection == old(dataForConnection) && sending == old(sending)
      ensures con in old(dataForConnection) ==>
                var q := Drained(old(dataForConnection)[con], answers);
                && written == q.0
                && dataForConnection == (if q.1 == [] then old(dataForConnection) - {con}
                                         else old(dataForConnection)[con := q.1])
                && stop == (dataForConnection == map[])
                && sending == (old(sending) && !stop)
    {
      written, stop := [], false;
      if con !in dataForConnection {
        return;
      }
      hide *;
      ghost var q := dataForConnection[con];
      Emptied(dataForConnection, con);
      var alldata := dataForConnection[con];
      var k := 0;
      FlushingStarts(q, answers);
      while |alldata| > 0 && k < |answers|
        invariant dataForConnection == old(dataForConnection) && sending == old(sending) && !stop
        invariant Flushing(q, answers, written, alldata, k) && k <= |answers|
        decreases |answers| - k
      {
        if answers[k].WouldBlock? {
          break;
        }
        var data := alldata[0];
        FlushingSlice(q, answers, written, alldata, k);
        if answers[k].n < |data| {
          alldata := [data[answers[k].n..]] + alldata[1..];
          written := written + data[..answers[k].n];
          dataForConnection := dataForConnection[con := alldata];
          assert con in dataForConnection;
          return;
        }
        written := written + data;
        alldata := alldata[1..];
        k := k + 1;
      }
      FlushingEnds(q, answers, written, alldata, k);
      dataForConnection := dataForConnection[con := alldata];
      if |alldata| == 0 {
        dataForConnection := dataForConnection - {con};
        if dataForConnection == map[] {
          sending := false;
          stop := true;
        }
      } else {
        assert con in dataForConnection;
      }
    }
  }
}
