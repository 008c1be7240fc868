/** Once submissions stop and sockets take something each round, everything is sent within a bound. */
module DeferredLiveness {
  import opened Wrappers
  import opened ByteStrings
  import opened DeferredSender

  // ----- What is left to do ---------------------------------------------------------------------

  /** The bytes submitted and not yet on a socket. */
  function Missing(submitted: seq<Bytes>, sock: seq<Bytes>): int
    requires |sock| == |submitted|
  {
    if submitted == [] then 0
    else
      var n := |submitted| - 1;
      Missing(submitted[..n], sock[..n]) + |submitted[n]| - |sock[n]|
  }

  lemma {:induction false} MissingAfter(submitted: seq<Bytes>, sock: seq<Bytes>, con: nat, more: Bytes)
    requires |sock| == |submitted| && con < |sock|
    ensures Missing(submitted, sock[con := sock[con] + more]) == Missing(submitted, sock) - |more|
  {
    var n := |submitted| - 1;
    var sent := sock[con := sock[con] + more];
    if con == n {
      assert sent[..n] == sock[..n];
    } else {
      assert sent[..n] == sock[..n][con := sock[con] + more];
      MissingAfter(submitted[..n], sock[..n], con, more);
    }
  }

  lemma {:induction false} MissingNatural(submitted: seq<Bytes>, sock: seq<Bytes>)
    requires |sock| == |submitted| && forall i :: 0 <= i < |sock| ==> |sock[i]| <= |submitted[i]|
    ensures Missing(submitted, sock) >= 0
  {
    if submitted != [] {
      MissingNatural(submitted[..|submitted| - 1], sock[..|sock| - 1]);
    }
  }

  lemma {:induction false} MissingNothing(submitted: seq<Bytes>)
    ensures Missing(submitted, submitted) == 0
  {
    if submitted != [] {
      MissingNothing(submitted[..|submitted| - 1]);
    }
  }

  function Turns(sender: Sender): nat {
    match sender
    case Idle => 0
    case Deferring(_, _) => 2
    case Direct(_, _) => 3
    case Checking(_, _) => 4
  }

  /** Missing bytes, queues not yet dropped, and the sending thread's remaining turns. */
  function Work(s: State): int
    requires |s.sock| == |s.submitted|
  {
    Missing(s.submitted, s.sock) + |s.queues| + Turns(s.sender)
  }

  lemma WorkNatural(s: State)
    requires Inv(s)
    ensures |s.sock| == |s.submitted| && Work(s) >= 0
    ensures s.flusher.Waiting? ==> (Work(s) == 0 <==> Settled(s))
  {
    forall i | 0 <= i < |s.sock|
      ensures |s.sock[i]| <= |s.submitted[i]|
    {
      assert InOrder(s, i);
    }
    MissingNatural(s.submitted, s.sock);
    if Settled(s) {
      SettledSent(s);
      MissingNothing(s.submitted);
    }
    hide Missing;
  }

  // ----- One step -------------------------------------------------------------------------------

  predicate IsSenders(l: Label) { l.Check? || l.SendDirect? || l.DirectWouldBlock? || l.Defer? }

  /** The socket takes nothing of the slice the flusher hands it. */
  predicate Refused(s: State, l: Label) {
    match l
    case SendSlice(n) => n == 0 && s.flusher.Draining? && HasSlice(s, s.flusher.con)
    case SliceWouldBlock => true
    case _ => false
  }

  predicate HasSlice(s: State, con: nat) {
    con in s.queues && s.queues[con] != [] && s.queues[con][0] != []
  }

  predicate Sends(l: Label) {
    l.SendSlice? && l.accepted > 0
  }

  lemma SenderWorks(size: nat, s: State, l: Label)
    requires size > 0 && Inv(s) && !l.Submit? && SenderStep(size, s, l).Some?
    ensures var t := SenderStep(size, s, l).value;
            |t.sock| == |t.submitted| && Work(t) < Work(s) && IsSenders(l) && t.submitted == s.submitted
  {
    hide Slices, Missing, InOrder;
    if l.SendDirect? {
      MissingAfter(s.submitted, s.sock, s.sender.con, s.sender.data[..l.accepted]);
    } else if l.Defer? {
      OneKey(s.queues, s.sender.con, Slices(s.sender.data, size));
    }
  }

  lemma OneKey(queues: Queues, con: nat, slices: seq<Bytes>)
    ensures |Enqueued(queues, con, slices)| <= |queues| + 1
  {
    var more := Enqueued(queues, con, slices);
    assert more.Keys == queues.Keys + {con};
    assert |more.Keys| == |more| && |queues.Keys| == |queues|;
  }

  lemma SameKeys(queues: Queues, con: nat, q: seq<Bytes>)
    requires con in queues
    ensures |queues[con := q]| == |queues| && |queues - {con}| == |queues| - 1
  {
    assert queues[con := q].Keys == queues.Keys && (queues - {con}).Keys == queues.Keys - {con};
    assert |queues[con := q].Keys| == |queues[con := q]| && |(queues - {con}).Keys| == |queues - {con}|;
  }

  lemma FlusherWorks(s: State, l: Label)
    requires Inv(s) && FlusherStep(s, l).Some?
    ensures var t := FlusherStep(s, l).value;
            && |t.sock| == |t.submitted| && t.submitted == s.submitted && Work(t) <= Work(s)
            && (Sends(l) ==> Work(t) < Work(s))
            && (l.Clean? && s.queues[s.flusher.con] == [] ==> Work(t) < Work(s))
  {
    hide Missing, InOrder;
    if l.SendSlice? {
      var con := s.flusher.con;
      MissingAfter(s.submitted, s.sock, con, s.queues[con][0][..l.accepted]);
      SameKeys(s.queues, con, Taken(s.queues[con], l.accepted));
    } else if l.Clean? {
      SameKeys(s.queues, s.flusher.con, []);
    }
  }

  /** The flusher is about to send a byte or to drop a queue. */
  predicate Promising(s: State) {
    match s.flusher
    case Waiting => false
    case Between(todo) => todo != [] && todo[0] in s.queues
    case Draining(con, _) => con in s.queues
    case Cleaning(con, _) => con in s.queues && s.queues[con] == []
  }

  /** The work is below a mark, or about to be. */
  predicate Nearing(s: State, mark: int)
    requires |s.sock| == |s.submitted|
  {
    Work(s) < mark || (Work(s) <= mark && Promising(s))
  }

  lemma FlusherNears(s: State, l: Label, mark: int)
    requires Inv(s) && FlusherStep(s, l).Some? && !Refused(s, l) && Nearing(s, mark)
    ensures var t := FlusherStep(s, l).value; |t.sock| == |t.submitted| && Nearing(t, mark)
  {
    FlusherWorks(s, l);
    hide Work, InOrder;
  }

  lemma StepNears(size: nat, s: State, l: Label, mark: int)
    requires size > 0 && Inv(s) && !l.Submit? && Step(size, s, l).Some? && !Refused(s, l) && Nearing(s, mark)
    ensures Inv(Step(size, s, l).value) && Nearing(Step(size, s, l).value, mark)
  {
    StepKeeps(size, s, l);
    hide Inv, SenderStep, FlusherStep, Work;
    if SenderStep(size, s, l).Some? {
      SenderWorks(size, s, l);
    } else {
      FlusherNears(s, l, mark);
    }
  }

  lemma StepWorks(size: nat, s: State, l: Label)
    requires size > 0 && Inv(s) && !l.Submit? && Step(size, s, l).Some?
    ensures var t := Step(size, s, l).value;
            && Inv(t) && |t.sock| == |t.submitted| && t.submitted == s.submitted && Work(t) <= Work(s)
            && (IsSenders(l) || Sends(l) ==> Work(t) < Work(s))
  {
    StepKeeps(size, s, l);
    SendersOwn(size, s, l);
    hide Inv, SenderStep, FlusherStep, Work;
    if SenderStep(size, s, l).Some? {
      SenderWorks(size, s, l);
    } else {
      FlusherWorks(s, l);
    }
  }

  lemma SendersOwn(size: nat, s: State, l: Label)
    requires size > 0
    ensures IsSenders(l) ==> FlusherStep(s, l).None?
    ensures Sends(l) ==> SenderStep(size, s, l).None?
  {
  }

  // ----- Rounds ---------------------------------------------------------------------------------

  datatype Trace = Trace(states: seq<State>, labels: seq<Label>)

  /** Steps of the two threads without further submissions, from a state that holds the invariant. */
  ghost predicate IsTrace(size: nat, t: Trace)
    requires size > 0
  {
    && |t.states| == |t.labels| + 1 && Inv(t.states[0])
    && forall i :: 0 <= i < |t.labels|
         ==> !t.labels[i].Submit? && Step(size, t.states[i], t.labels[i]) == Some(t.states[i + 1])
  }

  /** The flusher starts on a connection with a queue, and until the end of the round no socket refuses a slice
      before one has taken a byte. */
  ghost predicate Starts(t: Trace, i: nat, to: nat)
    requires i < to <= |t.labels| && to < |t.states|
  {
    && t.labels[i].StartFlush? && t.labels[i].writable != [] && t.labels[i].writable[0] in t.states[i].queues
    && forall k :: i < k < to && Refused(t.states[k], t.labels[k]) ==> exists j :: i < j < k && Sends(t.labels[j])
  }

  /** The flusher is outside the lock at both ends; in between, unless all is settled, it starts on a queue or
      the sending thread takes a turn. */
  ghost predicate Round(t: Trace, from: nat, to: nat)
    requires from <= to <= |t.labels| && to < |t.states|
  {
    && t.states[from].flusher.Waiting? && t.states[to].flusher.Waiting?
    && (Settled(t.states[from]) || exists i :: from <= i < to && (Starts(t, i, to) || IsSenders(t.labels[i])))
  }

  lemma {:induction false} TraceWorks(size: nat, t: Trace, lo: nat, hi: nat)
    requires size > 0 && IsTrace(size, t) && lo <= hi <= |t.labels|
    ensures Inv(t.states[lo]) && Inv(t.states[hi])
    ensures |t.states[lo].sock| == |t.states[lo].submitted| && |t.states[hi].sock| == |t.states[hi].submitted|
    ensures t.states[hi].submitted == t.states[lo].submitted && Work(t.states[hi]) <= Work(t.states[lo])
    decreases hi
  {
    hide Step, Work, Inv;
    if hi > 0 {
      TraceWorks(size, t, if lo < hi then lo else hi - 1, hi - 1);
      assert Step(size, t.states[hi - 1], t.labels[hi - 1]) == Some(t.states[hi - 1 + 1]);
      StepWorks(size, t.states[hi - 1], t.labels[hi - 1]);
    } else {
      Sizes(t.states[0]);
    }
  }

  lemma Sizes(s: State)
    requires Inv(s)
    ensures |s.sock| == |s.submitted|
  {
  }

  lemma {:induction false} TraceNears(size: nat, t: Trace, lo: nat, hi: nat, mark: int)
    requires size > 0 && IsTrace(size, t) && lo <= hi <= |t.labels|
    requires forall i :: lo <= i < hi ==> !Refused(t.states[i], t.labels[i])
    requires |t.states[lo].sock| == |t.states[lo].submitted| && Nearing(t.states[lo], mark)
    ensures |t.states[hi].sock| == |t.states[hi].submitted| && Nearing(t.states[hi], mark)
    decreases hi - lo
  {
    hide Step, Work, Inv, Refused, Nearing;
    if lo < hi {
      TraceNears(size, t, lo, hi - 1, mark);
      TraceWorks(size, t, hi - 1, hi - 1);
      assert Step(size, t.states[hi - 1], t.labels[hi - 1]) == Some(t.states[hi - 1 + 1]);
      StepNears(size, t.states[hi - 1], t.labels[hi - 1], mark);
      TraceWorks(size, t, hi, hi);
    }
  }

  lemma StartNears(size: nat, s: State, l: Label, mark: int)
    requires size > 0 && Inv(s) && l.StartFlush? && Step(size, s, l).Some?
    requires l.writable != [] && l.writable[0] in s.queues
    requires |s.sock| == |s.submitted| && Work(s) <= mark
    ensures var t := Step(size, s, l).value; |t.sock| == |t.submitted| && Nearing(t, mark)
  {
    hide Missing, InOrder;
  }

  lemma SentWorks(size: nat, t: Trace, from: nat, j: nat, to: nat)
    requires size > 0 && IsTrace(size, t) && from <= j < to <= |t.labels| && Sends(t.labels[j])
    ensures |t.states[from].sock| == |t.states[from].submitted| && |t.states[to].sock| == |t.states[to].submitted|
    ensures Work(t.states[to]) < Work(t.states[from])
  {
    hide Step, Work, Inv, Sends;
    TraceWorks(size, t, from, j);
    assert Step(size, t.states[j], t.labels[j]) == Some(t.states[j + 1]);
    StepWorks(size, t.states[j], t.labels[j]);
    TraceWorks(size, t, j + 1, to);
  }

  lemma NearWaiting(s: State, mark: int)
    requires |s.sock| == |s.submitted| && Nearing(s, mark) && s.flusher.Waiting?
    ensures Work(s) < mark
  {
  }

  /** Every round before all is settled leaves less work. */
  lemma RoundWorks(size: nat, t: Trace, from: nat, to: nat)
    requires size > 0 && IsTrace(size, t) && from <= to <= |t.labels| && Round(t, from, to)
    ensures Inv(t.states[from]) && Inv(t.states[to])
    ensures |t.states[from].sock| == |t.states[from].submitted| && |t.states[to].sock| == |t.states[to].submitted|
    ensures Work(t.states[to]) <= Work(t.states[from])
    ensures !Settled(t.states[from]) ==> Work(t.states[to]) < Work(t.states[from])
  {
    hide Step, Work, Inv, Refused, Settled, Sends, Nearing;
    TraceWorks(size, t, from, to);
    if !Settled(t.states[from]) {
      var i :| from <= i < to && (Starts(t, i, to) || IsSenders(t.labels[i]));
      var mark := Work(t.states[from]);
      TraceWorks(size, t, from, i);
      TraceWorks(size, t, i + 1, to);
      assert Step(size, t.states[i], t.labels[i]) == Some(t.states[i + 1]);
      if IsSenders(t.labels[i]) {
        StepWorks(size, t.states[i], t.labels[i]);
      } else if j :| i < j < to && Sends(t.labels[j]) {
        SentWorks(size, t, from, j, to);
      } else {
        StartNears(size, t.states[i], t.labels[i], mark);
        TraceNears(size, t, i + 1, to, mark);
        NearWaiting(t.states[to], mark);
      }
    }
  }

  ghost predicate IsRounds(t: Trace, rounds: seq<nat>) {
    && rounds != [] && |t.states| == |t.labels| + 1
    && (forall j :: 0 <= j < |rounds| ==> rounds[j] <= |t.labels|)
    && (forall j :: 0 <= j < |rounds| - 1 ==> rounds[j] <= rounds[j + 1] && Round(t, rounds[j], rounds[j + 1]))
  }

  lemma {:induction false} RoundsWork(size: nat, t: Trace, rounds: seq<nat>)
    requires size > 0 && IsTrace(size, t) && IsRounds(t, rounds) && |rounds| > 1
    ensures var first, last := t.states[rounds[0]], t.states[rounds[|rounds| - 1]];
            && Inv(first) && Inv(last) && last.flusher.Waiting?
            && |first.sock| == |first.submitted| && |last.sock| == |last.submitted|
            && (Work(last) == 0 || Work(last) + |rounds| - 1 <= Work(first))
    decreases |rounds|
  {
    hide Step, Work, Inv, Settled;
    var j := |rounds| - 1;
    assert Round(t, rounds[j - 1], rounds[j - 1 + 1]);
    RoundWorks(size, t, rounds[j - 1], rounds[j]);
    WorkNatural(t.states[rounds[j - 1]]);
    WorkNatural(t.states[rounds[j]]);
    if j > 1 {
      RoundsWork(size, t, rounds[..j]);
    }
  }

  /** When submissions have stopped and each round's sockets take something, everything submitted is on its
      socket, in order, after as many rounds as there was work: missing bytes, queues, and turns of the sending
      thread. */
  lemma SettlesWithin(size: nat, t: Trace, rounds: seq<nat>)
    requires size > 0 && IsTrace(size, t) && IsRounds(t, rounds) && rounds[0] == 0 && |rounds| > 1
    requires |t.states[0].sock| == |t.states[0].submitted| && |rounds| > Work(t.states[0])
    ensures var last := t.states[rounds[|rounds| - 1]];
            Settled(last) && last.submitted == t.states[0].submitted && last.sock == t.states[0].submitted
  {
    hide Step, Work, Inv, Settled;
    var last := t.states[rounds[|rounds| - 1]];
    RoundsWork(size, t, rounds);
    WorkNatural(last);
    TraceWorks(size, t, 0, rounds[|rounds| - 1]);
    SettledSent(last);
  }
}
