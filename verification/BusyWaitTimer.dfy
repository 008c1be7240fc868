/** The retransmission timer: a deadline-sorted list of callbacks, polled by a sleeping thread. */
module BusyWaitTimer {

  /** One callback: when it is due, the queue to notify and the event's name. */
  datatype Entry = Entry(deadline: real, queue: nat, name: nat)

  const DEFAULT_TIMEOUT: real := 0.1

  predicate AllFrom(cs: seq<Entry>, d: real) {
    forall e :: e in cs ==> d <= e.deadline
  }

  predicate Sorted(cs: seq<Entry>) {
    cs == [] || (AllFrom(cs[1..], cs[0].deadline) && Sorted(cs[1..]))
  }

  /** Before the first entry with a strictly later deadline. */
  function Insert(cs: seq<Entry>, e: Entry): seq<Entry> {
    if cs == [] || cs[0].deadline > e.deadline then [e] + cs else [cs[0]] + Insert(cs[1..], e)
  }

  function Due(cs: seq<Entry>, now: real): seq<Entry> {
    if cs == [] then []
    else if cs[0].deadline <= now then [cs[0]] + Due(cs[1..], now)
    else Due(cs[1..], now)
  }

  function Later(cs: seq<Entry>, now: real): seq<Entry> {
    if cs == [] then []
    else if cs[0].deadline > now then [cs[0]] + Later(cs[1..], now)
    else Later(cs[1..], now)
  }

  function Named(cs: seq<Entry>, name: nat): seq<Entry> {
    if cs == [] then []
    else if cs[0].name == name then [cs[0]] + Named(cs[1..], name)
    else Named(cs[1..], name)
  }

  function NotNamed(cs: seq<Entry>, name: nat): seq<Entry> {
    if cs == [] then []
    else if cs[0].name != name then [cs[0]] + NotNamed(cs[1..], name)
    else NotNamed(cs[1..], name)
  }

  function At(cs: seq<Entry>, deadline: real): seq<Entry> {
    if cs == [] then []
    else if cs[0].deadline == deadline then [cs[0]] + At(cs[1..], deadline)
    else At(cs[1..], deadline)
  }

  lemma Uncons(head: Entry, tail: seq<Entry>)
    ensures ([head] + tail)[0] == head && ([head] + tail)[1..] == tail
    ensures multiset([head] + tail) == multiset{head} + multiset(tail)
  {
  }

  lemma {:induction false} InsertMembers(cs: seq<Entry>, e: Entry)
    ensures multiset(Insert(cs, e)) == multiset(cs) + multiset{e}
    ensures forall x :: x in Insert(cs, e) <==> x in cs || x == e
  {
    Uncons(e, cs);
    if cs != [] && cs[0].deadline <= e.deadline {
      InsertMembers(cs[1..], e);
      Uncons(cs[0], Insert(cs[1..], e));
      Uncons(cs[0], cs[1..]);
      assert cs == [cs[0]] + cs[1..];
    }
  }

  lemma {:induction false} InsertSorts(cs: seq<Entry>, e: Entry)
    requires Sorted(cs)
    ensures Sorted(Insert(cs, e))
  {
    if cs == [] || cs[0].deadline > e.deadline {
      Uncons(e, cs);
    } else {
      InsertSorts(cs[1..], e);
      InsertMembers(cs[1..], e);
      Uncons(cs[0], Insert(cs[1..], e));
    }
  }

  lemma {:induction false} NoneAt(cs: seq<Entry>, d: real)
    requires forall e :: e in cs ==> e.deadline > d
    ensures At(cs, d) == []
  {
    if cs != [] {
      NoneAt(cs[1..], d);
    }
  }

  /** Insertion keeps the list sorted, loses nothing, and is first come first served among equal
      deadlines. */
  lemma {:induction false} InsertKeepsOrder(cs: seq<Entry>, e: Entry, d: real)
    requires Sorted(cs)
    ensures Sorted(Insert(cs, e)) && multiset(Insert(cs, e)) == multiset(cs) + multiset{e}
    ensures At(Insert(cs, e), d) == At(cs, d) + (if e.deadline == d then [e] else [])
    decreases |cs|
  {
    InsertSorts(cs, e);
    InsertMembers(cs, e);
    InsertAt(cs, e, d);
  }

  lemma {:induction false} InsertAt(cs: seq<Entry>, e: Entry, d: real)
    requires Sorted(cs)
    ensures At(Insert(cs, e), d) == At(cs, d) + (if e.deadline == d then [e] else [])
    decreases |cs|
  {
    if cs == [] || cs[0].deadline > e.deadline {
      Uncons(e, cs);
      NoneAt(cs, e.deadline);
    } else {
      InsertAt(cs[1..], e, d);
      Uncons(cs[0], Insert(cs[1..], e));
    }
  }

  lemma {:induction false} NoneDue(cs: seq<Entry>, now: real)
    requires forall e :: e in cs ==> e.deadline > now
    ensures Due(cs, now) == [] && Later(cs, now) == cs
  {
    if cs != [] {
      NoneDue(cs[1..], now);
    }
  }

  lemma SortedTail(cs: seq<Entry>)
    requires Sorted(cs) && cs != []
    ensures Sorted(cs[1..]) && forall e :: e in cs ==> cs[0].deadline <= e.deadline
  {
    assert cs == [cs[0]] + cs[1..];
  }

  /** In a sorted list the due entries are a prefix and the later ones the matching suffix, so polling
      delivers in deadline order and forgets nothing. */
  lemma {:induction false} DueIsPrefix(cs: seq<Entry>, now: real)
    requires Sorted(cs)
    ensures Due(cs, now) + Later(cs, now) == cs
    ensures Sorted(Later(cs, now))
    ensures forall e :: e in Due(cs, now) ==> e.deadline <= now && e in cs
    ensures forall e :: e in Later(cs, now) ==> e.deadline > now
  {
    hide Sorted;
    if cs != [] {
      SortedTail(cs);
      if cs[0].deadline > now {
        NoneDue(cs, now);
      } else {
        assert cs == [cs[0]] + cs[1..];
        DueIsPrefix(cs[1..], now);
      }
    }
  }

  lemma {:induction false} NamedSplit(cs: seq<Entry>, name: nat)
    ensures multiset(cs) == multiset(Named(cs, name)) + multiset(NotNamed(cs, name))
  {
    if cs != [] {
      NamedSplit(cs[1..], name);
      Uncons(cs[0], cs[1..]);
      assert cs == [cs[0]] + cs[1..];
      Uncons(cs[0], Named(cs[1..], name));
      Uncons(cs[0], NotNamed(cs[1..], name));
    }
  }

  lemma {:induction false} NotNamedKeeps(cs: seq<Entry>, name: nat)
    ensures forall e :: e in NotNamed(cs, name) <==> e in cs && e.name != name
    ensures Sorted(cs) ==> Sorted(NotNamed(cs, name))
  {
    if cs != [] {
      NotNamedKeeps(cs[1..], name);
      Uncons(cs[0], NotNamed(cs[1..], name));
    }
  }

  // ----- The timer on values --------------------------------------------------------------------

  datatype Timer = Timer(callbacks: seq<Entry>, timeout: real) {
    /** The thread never sleeps longer than the default, nor a time it cannot sleep. */
    predicate Valid() {
      Sorted(callbacks) && 0.0 < timeout <= DEFAULT_TIMEOUT
    }
  }

  function MinReal(a: real, b: real): real {
    if a <= b then a else b
  }

  datatype Op = Schedule(now: real, delay: real, queue: nat, name: nat) | Cancel(name: nat) | Poll(now: real)

  function Apply(t: Timer, op: Op): Timer {
    match op
    case Schedule(now, delay, queue, name) =>
      Timer(Insert(t.callbacks, Entry(now + delay, queue, name)), MinReal(t.timeout, delay))
    case Cancel(name) => t.(callbacks := NotNamed(t.callbacks, name))
    case Poll(now) =>
      var rest := Later(t.callbacks, now);
      Timer(rest, if rest == [] then DEFAULT_TIMEOUT else MinReal(t.timeout, rest[0].deadline - now))
  }

  predicate CanSchedule(op: Op) {
    op.Schedule? ==> op.delay > 0.0
  }

  lemma ApplyKeepsValid(t: Timer, op: Op)
    requires t.Valid() && CanSchedule(op)
    ensures Apply(t, op).Valid()
    ensures op.Poll? && Apply(t, op).callbacks != [] ==>
              op.now + Apply(t, op).timeout <= Apply(t, op).callbacks[0].deadline
  {
    hide Sorted, Insert, Later, NotNamed;
    match op
    case Schedule(now, delay, queue, name) => InsertSorts(t.callbacks, Entry(now + delay, queue, name));
    case Cancel(name) => NotNamedKeeps(t.callbacks, name);
    case Poll(now) =>
      DueIsPrefix(t.callbacks, now);
      var rest := Later(t.callbacks, now);
      assert rest != [] ==> rest[0] in rest;
  }

  lemma {:induction false} DueCount(cs: seq<Entry>, now: real, name: nat, e: Entry)
    ensures multiset(Due(cs, now))[e] == if e.deadline <= now then multiset(cs)[e] else 0
    ensures multiset(Later(cs, now))[e] == if e.deadline > now then multiset(cs)[e] else 0
    ensures multiset(NotNamed(cs, name))[e] == if e.name != name then multiset(cs)[e] else 0
  {
    if cs != [] {
      DueCount(cs[1..], now, name, e);
      Uncons(cs[0], cs[1..]);
      assert cs == [cs[0]] + cs[1..];
      Uncons(cs[0], Due(cs[1..], now));
      Uncons(cs[0], Later(cs[1..], now));
      Uncons(cs[0], NotNamed(cs[1..], name));
    }
  }

  /** What each operation does to the entries and to the next sleep: a schedule adds one entry, due after its delay,
      and cuts the sleep to the delay if that is shorter; a cancel removes the name; a poll removes, and notifies,
      what is due, and then sleeps no longer than before and exactly until the next deadline if that is sooner, or
      for the default if nothing is left. */
  lemma OperationsMean(t: Timer, op: Op, e: Entry)
    requires t.Valid()
    ensures var t' := Apply(t, op);
            match op
            case Schedule(now, delay, queue, name) =>
              && multiset(t'.callbacks)[e]
                 == multiset(t.callbacks)[e] + (if e == Entry(now + delay, queue, name) then 1 else 0)
              && t'.timeout <= delay && t'.timeout <= t.timeout && t'.timeout in {delay, t.timeout}
            case Cancel(name) =>
              && multiset(t'.callbacks)[e] == (if e.name == name then 0 else multiset(t.callbacks)[e])
              && t'.timeout == t.timeout
            case Poll(now) =>
              && multiset(t'.callbacks)[e] == (if e.deadline <= now then 0 else multiset(t.callbacks)[e])
              && OpDelivered(t, op)[e] == (if e.deadline <= now then multiset(t.callbacks)[e] else 0)
              && (t'.callbacks == [] ==> t'.timeout == 0.1)
              && (e in t'.callbacks ==> now + t'.timeout <= e.deadline && t'.timeout <= t.timeout)
              && (t'.callbacks != [] && t'.timeout < t.timeout ==> now + t'.timeout == t'.callbacks[0].deadline)
  {
    hide Sorted, Insert, Due, Later, NotNamed;
    match op
    case Schedule(now, delay, queue, name) => InsertMembers(t.callbacks, Entry(now + delay, queue, name));
    case Cancel(name) => DueCount(t.callbacks, 0.0, name, e);
    case Poll(now) =>
      DueCount(t.callbacks, now, 0, e);
      DueIsPrefix(t.callbacks, now);
      NextSleep(t, now, e);
  }

  lemma NextSleep(t: Timer, now: real, e: Entry)
    requires Sorted(Later(t.callbacks, now))
    ensures var t' := Apply(t, Poll(now));
            && (t'.callbacks == [] ==> t'.timeout == 0.1)
            && (e in t'.callbacks ==> now + t'.timeout <= e.deadline && t'.timeout <= t.timeout)
            && (t'.callbacks != [] && t'.timeout < t.timeout ==> now + t'.timeout == t'.callbacks[0].deadline)
  {
    hide Sorted, Later;
    if e in Later(t.callbacks, now) {
      SortedTail(Later(t.callbacks, now));
    }
  }

  const Fresh := Timer([], DEFAULT_TIMEOUT)

  function After(ops: seq<Op>): Timer {
    if ops == [] then Fresh else Apply(After(ops[..|ops| - 1]), ops[|ops| - 1])
  }

  function OpScheduled(op: Op): multiset<Entry> {
    if op.Schedule? then multiset{Entry(op.now + op.delay, op.queue, op.name)} else multiset{}
  }

  function OpDelivered(t: Timer, op: Op): multiset<Entry> {
    if op.Poll? then multiset(Due(t.callbacks, op.now)) else multiset{}
  }

  function OpCancelled(t: Timer, op: Op): multiset<Entry> {
    if op.Cancel? then multiset(Named(t.callbacks, op.name)) else multiset{}
  }

  function Scheduled(ops: seq<Op>): multiset<Entry> {
    if ops == [] then multiset{} else Scheduled(ops[..|ops| - 1]) + OpScheduled(ops[|ops| - 1])
  }

  function Delivered(ops: seq<Op>): multiset<Entry> {
    if ops == [] then multiset{}
    else Delivered(ops[..|ops| - 1]) + OpDelivered(After(ops[..|ops| - 1]), ops[|ops| - 1])
  }

  function Cancelled(ops: seq<Op>): multiset<Entry> {
    if ops == [] then multiset{}
    else Cancelled(ops[..|ops| - 1]) + OpCancelled(After(ops[..|ops| - 1]), ops[|ops| - 1])
  }

  lemma StepBalance(t: Timer, op: Op)
    requires Sorted(t.callbacks)
    ensures multiset(t.callbacks) + OpScheduled(op)
            == multiset(Apply(t, op).callbacks) + OpDelivered(t, op) + OpCancelled(t, op)
  {
    hide Sorted, Insert, Due, Later, Named, NotNamed;
    match op
    case Schedule(now, delay, queue, name) => InsertMembers(t.callbacks, Entry(now + delay, queue, name));
    case Cancel(name) => NamedSplit(t.callbacks, name);
    case Poll(now) =>
      DueIsPrefix(t.callbacks, now);
      assert Due(t.callbacks, now) + Later(t.callbacks, now) == t.callbacks;
  }

  lemma Combine(all: multiset<Entry>, p: multiset<Entry>, d: multiset<Entry>, c: multiset<Entry>,
                s: multiset<Entry>, p': multiset<Entry>, d': multiset<Entry>, c': multiset<Entry>)
    requires all == p + d + c && p + s == p' + d' + c'
    ensures all + s == p' + (d + d') + (c + c')
  {
    assert all + s == (p + s) + d + c;
  }

  /** Over any history, every scheduled callback is exactly one of pending, delivered or cancelled. */
  lemma {:induction false} NothingLost(ops: seq<Op>)
    requires forall op :: op in ops ==> CanSchedule(op)
    ensures After(ops).Valid()
    ensures Scheduled(ops) == multiset(After(ops).callbacks) + Delivered(ops) + Cancelled(ops)
  {
    if ops != [] {
      hide Apply, OpScheduled, OpDelivered, OpCancelled, CanSchedule, Sorted;
      var before, op := ops[..|ops| - 1], ops[|ops| - 1];
      NothingLost(before);
      var t := After(before);
      ApplyKeepsValid(t, op);
      StepBalance(t, op);
      Combine(Scheduled(before), multiset(t.callbacks), Delivered(before), Cancelled(before),
              OpScheduled(op), multiset(Apply(t, op).callbacks), OpDelivered(t, op), OpCancelled(t, op));
    }
  }

  /** Punctuality: the thread polls, sleeps for the timeout it computed, and polls again, `late` after the
      sleep was due to end; a schedule in between may have read its clock up to `waited` before the first poll
      and then waited for the lock. What the second poll delivers is late by no more than the default timeout
      and both delays; what was left pending by the first, by no more than `late`. */
  lemma DeliveredPromptly(t: Timer, polled: real, between: seq<Op>, now: real, late: real, waited: real, e: Entry)
    requires t.Valid() && (forall op :: op in between ==> CanSchedule(op) && !op.Poll?)
    requires waited >= 0.0 && forall op :: op in between && op.Schedule? ==> op.now >= polled - waited
    requires late >= 0.0 && now <= polled + Apply(t, Poll(polled)).timeout + late
    requires e in Due(Run(Apply(t, Poll(polled)), between).callbacks, now)
    ensures polled - waited < e.deadline <= now < e.deadline + DEFAULT_TIMEOUT + late + waited
    ensures e in Apply(t, Poll(polled)).callbacks ==> polled < e.deadline && now <= e.deadline + late
  {
    var s := Apply(t, Poll(polled));
    ApplyKeepsValid(t, Poll(polled));
    DueIsPrefix(t.callbacks, polled);
    RunKeepsLater(s, between, polled - waited);
    DueIsPrefix(Run(s, between).callbacks, now);
    if e in s.callbacks {
      SortedTail(s.callbacks);
    }
  }

  function Run(t: Timer, ops: seq<Op>): Timer
    decreases |ops|
  {
    if ops == [] then t else Run(Apply(t, ops[0]), ops[1..])
  }

  /** Running on from a history is the longer history. */
  lemma {:induction false} RunContinues(before: seq<Op>, ops: seq<Op>)
    ensures Run(After(before), ops) == After(before + ops)
    decreases |ops|
  {
    hide Apply;
    if ops == [] {
      assert before + ops == before;
    } else {
      var more := before + [ops[0]];
      assert more[..|more| - 1] == before;
      RunContinues(more, ops[1..]);
      assert more + ops[1..] == before + ops;
    }
  }

  lemma {:induction false} RunKeepsLater(t: Timer, ops: seq<Op>, since: real)
    requires t.Valid() && (forall op :: op in ops ==> CanSchedule(op) && !op.Poll?)
    requires forall op :: op in ops && op.Schedule? ==> op.now >= since
    requires forall e :: e in t.callbacks ==> e.deadline > since
    ensures Run(t, ops).Valid()
    ensures forall e :: e in Run(t, ops).callbacks ==> e.deadline > since
    decreases |ops|
  {
    if ops != [] {
      var op := ops[0];
      ApplyKeepsValid(t, op);
      assert op in ops;
      match op {
        case Schedule(now, delay, queue, name) => InsertMembers(t.callbacks, Entry(now + delay, queue, name));
        case Cancel(name) => NotNamedKeeps(t.callbacks, name);
        case Poll(now) =>
      }
      RunKeepsLater(Apply(t, op), ops[1..], since);
    }
  }

  // ----- The timer as an object -----------------------------------------------------------------

  class BusyWaitTimer {
    var callbacks: seq<Entry>
    var timeout: real
    var notified: seq<Entry>  // what was put into the queues, in order

    ghost function View(): Timer
      reads this
    {
      Timer(callbacks, timeout)
    }

    constructor ()
      ensures View() == Fresh && notified == []
    {
      callbacks, timeout, notified := [], DEFAULT_TIMEOUT, [];
    }

    method InsertSorted(value: Entry)
      modifies this`callbacks
      ensures callbacks == Insert(old(callbacks), value)
    {
      var i := 0;
      ghost var cs := callbacks;
      assert cs[0..] == cs;
      while i < |callbacks| && !(callbacks[i].deadline > value.deadline)
        invariant 0 <= i <= |cs| && callbacks == cs
        invariant Insert(cs, value) == cs[..i] + Insert(cs[i..], value)
      {
        assert cs[i..][1..] == cs[i + 1..];
        i := i + 1;
      }
      callbacks := callbacks[..i] + [value] + callbacks[i..];
    }

    method Schedule(now: real, delayInSeconds: real, q: nat, event: nat)
      modifies this`callbacks, this`timeout
      ensures View() == Apply(old(View()), Op.Schedule(now, delayInSeconds, q, event))
    {
      InsertSorted(Entry(now + delayInSeconds, q, event));
      timeout := MinReal(timeout, delayInSeconds);
    }

    method Cancel(name: nat)
      modifies this`callbacks
      ensures View() == Apply(old(View()), Op.Cancel(name))
    {
      var kept: seq<Entry> := [];
      ghost var cs := callbacks;
      assert cs[0..] == cs;
      for i := 0 to |callbacks|
        invariant callbacks == cs
        invariant NotNamed(cs, name) == kept + NotNamed(cs[i..], name)
      {
        assert cs[i..][1..] == cs[i + 1..];
        if callbacks[i].name != name {
          kept := kept + [callbacks[i]];
        }
      }
      callbacks := kept;
    }

    /** Notifies every callback that is due, in list order, and keeps the rest. */
    method UpdateDeadlines(now: real)
      modifies this
      ensures View() == Apply(old(View()), Poll(now))
      ensures notified == old(notified) + Due(old(callbacks), now)
    {
      ghost var cs, put := callbacks, notified;
      var kept: seq<Entry> := [];
      assert cs[0..] == cs;
      for i := 0 to |callbacks|
        invariant callbacks == cs && timeout == old(timeout)
        invariant put + Due(cs, now) == notified + Due(cs[i..], now)
        invariant Later(cs, now) == kept + Later(cs[i..], now)
      {
        assert cs[i..][1..] == cs[i + 1..];
        if callbacks[i].deadline <= now {
          notified := notified + [callbacks[i]];
        } else {
          kept := kept + [callbacks[i]];
        }
      }
      callbacks := kept;
      timeout := if callbacks == [] then DEFAULT_TIMEOUT else MinReal(timeout, callbacks[0].deadline - now);
    }
  }
}
