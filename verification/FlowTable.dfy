/** The priority-ordered flow table. */
module FlowTable {
  import opened Wrappers
  import opened OfpMatch
  import opened MatchContainment

  datatype Action = Output(port: bv16) | Rewrite(kind: nat, value: nat)

  /** A table entry. `id` stands for the object's identity: entries made later have larger ones. */
  datatype Entry = Entry(id: nat, pattern: Match, priority: nat, actions: seq<Action>,
                         idleTimeout: real, hardTimeout: real, created: real, lastTouched: real)

  /** Section 3.4 of the OpenFlow 1.0.0 specification: exact matches come before every wildcarded one. */
  function EffectivePriority(e: Entry): nat {
    if e.pattern.IsWildcarded() then e.priority else 0x10001
  }

  /** What a flow mod or a request selects entries by. */
  datatype Selector = Selector(pattern: Match, priority: nat, strict: bool, outPort: Option<bv16>)

  predicate OutputsTo(e: Entry, port: bv16) {
    Output(port) in e.actions
  }

  predicate IsMatchedBy(test: NetworkTest, e: Entry, s: Selector) {
    && (s.outPort.Some? ==> OutputsTo(e, s.outPort.value))
    && (if s.strict then Same(e.pattern, s.pattern) && e.priority == s.priority
        else Contains(test, s.pattern, e.pattern))
  }

  predicate IsIdleTimedOut(e: Entry, now: real) {
    e.idleTimeout > 0.0 && now - e.lastTouched > e.idleTimeout
  }

  predicate IsHardTimedOut(e: Entry, now: real) {
    e.hardTimeout > 0.0 && now - e.created > e.hardTimeout
  }

  /** The entry after a packet hit it. */
  function Touched(e: Entry, now: real): Entry {
    e.(lastTouched := now)
  }

  // ----- The order of the table -----------------------------------------------------------------

  /** Higher effective priority first; among equals the newer entry. */
  predicate Above(a: Entry, b: Entry) {
    EffectivePriority(a) > EffectivePriority(b) || (EffectivePriority(a) == EffectivePriority(b) && a.id > b.id)
  }

  predicate Ordered(t: seq<Entry>) {
    forall i, j :: 0 <= i < j < |t| ==> Above(t[i], t[j])
  }

  function Entries(t: seq<Entry>): set<Entry> {
    set i | 0 <= i < |t| :: t[i]
  }

  lemma EntriesOf(t: seq<Entry>, e: Entry)
    ensures e in Entries(t) <==> e in t
  {
  }

  lemma AboveTotal(a: Entry, b: Entry)
    ensures !(Above(a, b) && Above(b, a))
    ensures a.id != b.id ==> Above(a, b) || Above(b, a)
  {
  }

  /** The order leaves no choice: the unordered set of entries determines the table. */
  lemma {:induction false} OrderedIsDetermined(s: seq<Entry>, t: seq<Entry>)
    requires Ordered(s) && Ordered(t) && Entries(s) == Entries(t)
    ensures s == t
  {
    hide EffectivePriority;
    if s != [] && t != [] {
      assert s[0] in Entries(t) && t[0] in Entries(s);
      assert s[0] == t[0] by {
        AboveTotal(s[0], t[0]);
      }
      RestEntries(s);
      RestEntries(t);
      OrderedIsDetermined(s[1..], t[1..]);
      assert s == [s[0]] + s[1..] && t == [t[0]] + t[1..];
    } else {
      NoEntries(s);
      NoEntries(t);
    }
  }

  lemma NoEntries(t: seq<Entry>)
    ensures Entries(t) == {} <==> t == []
  {
    if t != [] {
      assert t[0] in Entries(t);
    }
  }

  lemma RestEntries(t: seq<Entry>)
    requires Ordered(t) && t != []
    ensures Ordered(t[1..]) && Entries(t[1..]) == Entries(t) - {t[0]}
  {
    hide EffectivePriority;
    forall e | e in Entries(t) - {t[0]}
      ensures e in Entries(t[1..])
    {
      EntriesOf(t, e);
      var i :| 0 <= i < |t| && t[i] == e;
      assert t[1..][i - 1] == e;
    }
    forall e | e in Entries(t[1..])
      ensures e in Entries(t) - {t[0]}
    {
      EntriesOf(t[1..], e);
      var i :| 0 <= i < |t[1..]| && t[1..][i] == e;
      assert t[i + 1] == e;
      AboveTotal(t[0], e);
    }
  }

  // ----- Filtering ------------------------------------------------------------------------------

  function Keep(t: seq<Entry>, p: Entry -> bool): seq<Entry> {
    if t == [] then [] else (if p(t[0]) then [t[0]] else []) + Keep(t[1..], p)
  }

  lemma {:induction false} KeepAppend(s: seq<Entry>, t: seq<Entry>, p: Entry -> bool)
    ensures Keep(s + t, p) == Keep(s, p) + Keep(t, p)
  {
    if s == [] {
      assert s + t == t && [] + Keep(t, p) == Keep(t, p);
    } else {
      assert (s + t)[0] == s[0] && (s + t)[1..] == s[1..] + t;
      KeepAppend(s[1..], t, p);
      var first := if p(s[0]) then [s[0]] else [];
      assert first + (Keep(s[1..], p) + Keep(t, p)) == first + Keep(s[1..], p) + Keep(t, p);
    }
  }

  lemma {:induction false} KeepIn(t: seq<Entry>, p: Entry -> bool, e: Entry)
    ensures e in Keep(t, p) <==> e in t && p(e)
  {
    if t != [] {
      KeepIn(t[1..], p, e);
      assert e in t <==> e == t[0] || e in t[1..];
    }
  }

  lemma {:induction false} KeepAgree(t: seq<Entry>, p: Entry -> bool, q: Entry -> bool)
    requires forall e :: e in t ==> p(e) == q(e)
    ensures Keep(t, p) == Keep(t, q)
  {
    if t != [] {
      KeepAgree(t[1..], p, q);
    }
  }

  lemma {:induction false} KeepAll(t: seq<Entry>, p: Entry -> bool)
    requires forall e :: e in t ==> p(e)
    ensures Keep(t, p) == t
  {
    if t != [] {
      KeepAll(t[1..], p);
    }
  }

  lemma OrderedCons(e: Entry, t: seq<Entry>)
    requires Ordered(t) && forall x :: x in t ==> Above(e, x)
    ensures Ordered([e] + t)
  {
    hide Above;
  }

  lemma OrderedTail(t: seq<Entry>)
    requires Ordered(t) && t != []
    ensures Ordered(t[1..]) && forall x :: x in t[1..] ==> Above(t[0], x)
  {
    hide Above;
  }

  /** Filtering keeps the order. */
  lemma {:induction false} KeepOrdered(t: seq<Entry>, p: Entry -> bool)
    requires Ordered(t)
    ensures Ordered(Keep(t, p)) && |Keep(t, p)| <= |t|
  {
    hide Above, Ordered;
    if t == [] {
    } else {
      OrderedTail(t);
      KeepOrdered(t[1..], p);
      forall x | x in Keep(t[1..], p)
        ensures Above(t[0], x)
      {
        KeepIn(t[1..], p, x);
      }
      OrderedCons(t[0], Keep(t[1..], p));
      assert [] + Keep(t[1..], p) == Keep(t[1..], p);
    }
  }

  // ----- Insertion ------------------------------------------------------------------------------

  predicate Newest(t: seq<Entry>, e: Entry) {
    forall x :: x in t ==> x.id < e.id
  }

  /** Where the new entry goes: after every entry of higher effective priority, before all others. */
  predicate GoesAt(t: seq<Entry>, e: Entry, k: nat) {
    && k <= |t|
    && (forall i :: 0 <= i < k ==> EffectivePriority(t[i]) > EffectivePriority(e))
    && (forall i :: k <= i < |t| ==> EffectivePriority(t[i]) <= EffectivePriority(e))
  }

  function Inserted(t: seq<Entry>, e: Entry, k: nat): seq<Entry>
    requires k <= |t|
  {
    t[..k] + [e] + t[k..]
  }

  lemma InsertedOrdered(t: seq<Entry>, e: Entry, k: nat)
    requires Ordered(t) && Newest(t, e) && GoesAt(t, e, k)
    ensures Ordered(Inserted(t, e, k))
  {
    hide EffectivePriority;
    var r := Inserted(t, e, k);
    forall i, j | 0 <= i < j < |r|
      ensures Above(r[i], r[j])
    {
      assert i != k ==> r[i] == t[if i < k then i else i - 1];
      assert j != k ==> r[j] == t[if j < k then j else j - 1];
    }
  }

  lemma InsertedEntries(t: seq<Entry>, e: Entry, k: nat)
    requires k <= |t|
    ensures Entries(Inserted(t, e, k)) == Entries(t) + {e}
  {
    var r := Inserted(t, e, k);
    forall x | x in Entries(t) + {e}
      ensures x in Entries(r)
    {
      if x == e {
        assert r[k] == e;
      } else {
        var i :| 0 <= i < |t| && t[i] == x;
        assert r[if i < k then i else i + 1] == x;
      }
    }
    forall x | x in Entries(r)
      ensures x in Entries(t) + {e}
    {
      var i :| 0 <= i < |r| && r[i] == x;
      assert i != k ==> x == t[if i < k then i else i - 1];
    }
  }

  // ----- Lookup ---------------------------------------------------------------------------------

  /** The best entry of an unordered set for a packet: every other that matches it ranks lower. */
  predicate IsBest(test: NetworkTest, entries: set<Entry>, packet: Match, e: Entry) {
    && e in entries && MatchesPacket(test, e.pattern, packet)
    && forall x :: x in entries && x != e && MatchesPacket(test, x.pattern, packet) ==> Above(e, x)
  }

  lemma BestIsUnique(test: NetworkTest, entries: set<Entry>, packet: Match, a: Entry, b: Entry)
    requires IsBest(test, entries, packet, a) && IsBest(test, entries, packet, b)
    ensures a == b
  {
    AboveTotal(a, b);
  }

  predicate NoWildcards(e: Entry) {
    e.pattern.wildcards & OFPFW_ALL == 0
  }

  /** What the lookup order comes to: an exact entry before every wildcarded one, a higher priority before a
      lower one among the wildcarded, the newer entry first otherwise. */
  predicate Outranks(e: Entry, x: Entry) {
    if NoWildcards(e) && NoWildcards(x) then x.id < e.id
    else if NoWildcards(e) || NoWildcards(x) then NoWildcards(e)
    else x.priority < e.priority || (x.priority == e.priority && x.id < e.id)
  }

  lemma AboveIsOutranks(e: Entry, x: Entry)
    requires e.priority <= 0x1_0000 && x.priority <= 0x1_0000
    ensures Above(e, x) <==> Outranks(e, x)
  {
  }

  /** An exact entry is found before any wildcarded one, whatever their priorities; among wildcarded entries the
      highest priority is found, and among those, or among exact ones, the newest entry. */
  lemma ExactThenPriorityThenNewest(test: NetworkTest, entries: set<Entry>, packet: Match, e: Entry)
    requires forall x :: x in entries ==> x.priority <= 0x1_0000
    ensures IsBest(test, entries, packet, e)
            <==> && e in entries && MatchesPacket(test, e.pattern, packet)
                 && forall x :: x in entries && x != e && MatchesPacket(test, x.pattern, packet) ==> Outranks(e, x)
  {
    forall x | x in entries && e in entries
      ensures Above(e, x) <==> Outranks(e, x)
    {
      AboveIsOutranks(e, x);
    }
    hide Above, Outranks, MatchesWithWildcards;
  }

  /** Overlap is containment one way or the other between exact entries, or between wildcarded ones of the same
      priority. */
  lemma OverlapsIff(test: NetworkTest, e: Entry, x: Entry)
    requires e.priority <= 0x1_0000 && x.priority <= 0x1_0000
    ensures Overlaps(test, e, x)
            <==> && NoWildcards(e) == NoWildcards(x) && (NoWildcards(e) || e.priority == x.priority)
                 && (Contains(test, e.pattern, x.pattern) || Contains(test, x.pattern, e.pattern))
  {
    hide Contains;
  }

  /** Two entries overlap, as the table tests it: same effective priority, and one contains the other. */
  predicate Overlaps(test: NetworkTest, e: Entry, x: Entry) {
    && EffectivePriority(x) == EffectivePriority(e)
    && (Contains(test, e.pattern, x.pattern) || Contains(test, x.pattern, e.pattern))
  }

  class FlowTable {
    const test: NetworkTest
    var table: seq<Entry>

    constructor (test: NetworkTest)
      ensures table == [] && this.test == test
    {
      this.test := test;
      table := [];
    }

    method AddEntry(e: Entry)
      requires Ordered(table) && Newest(table, e)
      modifies this
      ensures Ordered(table)
      ensures Entries(table) == old(Entries(table)) + {e}
      ensures |table| == old(|table|) + 1
      ensures exists k: nat :: GoesAt(old(table), e, k) && table == Inserted(old(table), e, k)
    {
      hide EffectivePriority;
      var priority := EffectivePriority(e);
      var low, high := 0, |table|;
      while low < high
        invariant table == old(table) && 0 <= low <= high <= |table|
        invariant forall i :: 0 <= i < low ==> EffectivePriority(table[i]) > priority
        invariant forall i :: high <= i < |table| ==> EffectivePriority(table[i]) <= priority
      {
        var middle := (low + high) / 2;
        if priority >= EffectivePriority(table[middle]) {
          OrderedFrom(table, middle);
          high := middle;
          continue;
        }
        OrderedFrom(table, middle);
        low := middle + 1;
      }
      InsertedOrdered(table, e, low);
      InsertedEntries(table, e, low);
      table := Inserted(table, e, low);
    }

    /** Deletes in place, stopping as soon as all the given entries are gone. */
    method RemoveSpecificEntries(flows: seq<Entry>)
      requires forall e :: e in flows ==> e in table
      requires forall i, j :: 0 <= i < j < |table| ==> table[i] != table[j]
      modifies this
      ensures table == Keep(old(table), (e: Entry) => e !in flows)
    {
      hide *;
      ghost var was := table;
      if flows == [] {
        KeepAll(was, (e: Entry) => e !in flows);
        return;
      }
      var removeFlows := set e | e in flows;
      var i := 0;
      ghost var k := 0;
      RemovalStarts(was, flows, removeFlows);
      while i < |table|
        invariant Removing(was, flows, table, i, k, removeFlows)
      {
        var entry := table[i];
        if entry in removeFlows {
          RemovalDeletes(was, flows, table, i, k, removeFlows);
          table := table[..i] + table[i + 1..];
          removeFlows := removeFlows - {entry};
          k := k + 1;
          if removeFlows == {} {
            break;
          }
        } else {
          RemovalStays(was, flows, table, i, k, removeFlows);
          i := i + 1;
          k := k + 1;
        }
      }
      RemovalEnds(was, flows, table, i, k, removeFlows);
      assert removeFlows == {};
    }

    /** The idle entries go first, then those only their hard timeout expired. */
    method RemoveExpiredEntries(now: real) returns (idle: seq<Entry>, hard: seq<Entry>)
      requires Ordered(table)
      modifies this
      ensures idle == Keep(old(table), (e: Entry) => IsIdleTimedOut(e, now))
      ensures hard == Keep(old(table), (e: Entry) => !IsIdleTimedOut(e, now) && IsHardTimedOut(e, now))
      ensures table == Keep(old(table), (e: Entry) => !IsIdleTimedOut(e, now) && !IsHardTimedOut(e, now))
      ensures Ordered(table)
    {
      ghost var was := table;
      ghost var isIdle := (e: Entry) => IsIdleTimedOut(e, now);
      ghost var isHard := (e: Entry) => !IsIdleTimedOut(e, now) && IsHardTimedOut(e, now);
      idle, hard := [], [];
      for n := 0 to |table|
        invariant table == was
        invariant idle == Keep(was[..n], isIdle) && hard == Keep(was[..n], isHard)
      {
        KeepNext(was, n, isIdle);
        KeepNext(was, n, isHard);
        if IsIdleTimedOut(table[n], now) {
          idle := idle + [table[n]];
        } else if IsHardTimedOut(table[n], now) {
          hard := hard + [table[n]];
        }
      }
      assert was[..|was|] == was;
      ExpirySplits(was, now);
      OrderedDistinct(was);
      RemoveSpecificEntries(idle);
      ghost var middle := table;
      KeepOrdered(was, (e: Entry) => e !in idle);
      OrderedDistinct(middle);
      HardRemain(was, now);
      RemoveSpecificEntries(hard);
      KeepOrdered(was, (e: Entry) => !IsIdleTimedOut(e, now) && !IsHardTimedOut(e, now));
    }

    function MatchingEntries(s: Selector): seq<Entry>
      reads this
    {
      Keep(table, (e: Entry) => IsMatchedBy(test, e, s))
    }

    method RemoveMatchingEntries(s: Selector) returns (removed: seq<Entry>)
      requires Ordered(table)
      modifies this
      ensures removed == old(MatchingEntries(s))
      ensures table == Keep(old(table), (e: Entry) => !IsMatchedBy(test, e, s))
      ensures Ordered(table)
    {
      hide IsMatchedBy, Above;
      ghost var was := table;
      removed := MatchingEntries(s);
      OrderedDistinct(table);
      MatchingIn(test, table, s);
      RemoveSpecificEntries(removed);
      KeepOrdered(was, (e: Entry) => !IsMatchedBy(test, e, s));
    }

    /** The first match in table order is the best one in the unordered set of entries. */
    method EntryForPacket(packet: Match) returns (found: Option<Entry>)
      requires Ordered(table)
      ensures found.Some? ==> IsBest(test, Entries(table), packet, found.value)
      ensures found.None? <==> forall e :: e in Entries(table) ==> !MatchesPacket(test, e.pattern, packet)
    {
      hide Above, MatchesWithWildcards;
      for i := 0 to |table|
        invariant forall k :: 0 <= k < i ==> !MatchesPacket(test, table[k].pattern, packet)
      {
        if MatchesPacket(test, table[i].pattern, packet) {
          assert table[i] in Entries(table);
          return Some(table[i]);
        }
      }
      return None;
    }

    /** Records in its place in the table that an entry was used. */
    method Touch(e: Entry, now: real) returns (n: nat)
      requires e in table
      modifies this
      ensures n < old(|table|) && old(table)[n] == e
      ensures table == old(table)[n := Touched(e, now)]
    {
      n := 0;
      while table[n] != e
        invariant n < |table| && table == old(table)
        invariant forall i :: 0 <= i < n ==> table[i] != e
        decreases |table| - n
      {
        n := n + 1;
      }
      table := table[n := Touched(e, now)];
    }

    /** Stopping at the first lower priority loses nothing: the answer is that of a full scan. */
    method CheckForOverlappingEntry(e: Entry) returns (overlap: bool)
      requires Ordered(table)
      ensures overlap <==> exists x :: x in Entries(table) && Overlaps(test, e, x)
    {
      hide EffectivePriority, MatchesWithWildcards;
      var priority := EffectivePriority(e);
      for i := 0 to |table|
        invariant forall k :: 0 <= k < i ==> !Overlaps(test, e, table[k])
      {
        var x := table[i];
        assert x in Entries(table);
        if EffectivePriority(x) < priority {
          OrderedFrom(table, i);
          break;
        } else if EffectivePriority(x) == priority {
          if IsMatchedBy(test, x, Selector(e.pattern, 0, false, None))
             || IsMatchedBy(test, e, Selector(x.pattern, 0, false, None)) {
            return true;
          }
        }
      }
      return false;
    }
  }

  lemma OrderedFrom(t: seq<Entry>, k: nat)
    requires Ordered(t) && k < |t|
    ensures forall i :: 0 <= i < k ==> EffectivePriority(t[i]) >= EffectivePriority(t[k])
    ensures forall i :: k <= i < |t| ==> EffectivePriority(t[i]) <= EffectivePriority(t[k])
  {
    hide EffectivePriority;
  }

  lemma OrderedDistinct(t: seq<Entry>)
    requires Ordered(t)
    ensures forall i, j :: 0 <= i < j < |t| ==> t[i] != t[j]
  {
    hide EffectivePriority;
  }

  lemma KeepNext(t: seq<Entry>, k: nat, p: Entry -> bool)
    requires k < |t|
    ensures Keep(t[..k + 1], p) == Keep(t[..k], p) + if p(t[k]) then [t[k]] else []
  {
    assert t[..k + 1] == t[..k] + [t[k]];
    KeepAppend(t[..k], [t[k]], p);
  }

  /** The entries of `flows` still to come. */
  ghost function Pending(flows: seq<Entry>, rest: seq<Entry>): set<Entry> {
    set e | e in flows && e in rest
  }

  /** How far a removal got: k entries of the original table are dealt with, and i of them stay. */
  ghost predicate Removing(was: seq<Entry>, flows: seq<Entry>, t: seq<Entry>, i: nat, k: nat, left: set<Entry>) {
    && i <= |t| && k <= |was| && t[i..] == was[k..]
    && t[..i] == Keep(was[..k], (e: Entry) => e !in flows)
    && left == Pending(flows, was[k..])
    && forall a, b :: 0 <= a < b < |was| ==> was[a] != was[b]
  }

  lemma RemovalStarts(was: seq<Entry>, flows: seq<Entry>, left: set<Entry>)
    requires forall a, b :: 0 <= a < b < |was| ==> was[a] != was[b]
    requires (forall e :: e in flows ==> e in was) && left == set e | e in flows
    ensures Removing(was, flows, was, 0, 0, left)
  {
  }

  lemma RemovalStep(was: seq<Entry>, flows: seq<Entry>, t: seq<Entry>, i: nat, k: nat, left: set<Entry>)
    requires Removing(was, flows, t, i, k, left) && i < |t|
    ensures k < |was| && t[i] == was[k] && (t[i] in left <==> t[i] in flows)
    ensures t[i + 1..] == was[k + 1..]
    ensures left - {t[i]} == Pending(flows, was[k + 1..])
    ensures Keep(was[..k + 1], (e: Entry) => e !in flows) == t[..i] + if t[i] in flows then [] else [t[i]]
  {
    hide Keep;
    assert |t| - i == |t[i..]| == |was[k..]| == |was| - k;
    hide Pending;
    NextOf(was, k);
    NextOf(t, i);
    NotAgain(was, k);
    PendingNext(flows, was[k], was[k + 1..]);
    KeepNext(was, k, (e: Entry) => e !in flows);
  }

  lemma RemovalDeletes(was: seq<Entry>, flows: seq<Entry>, t: seq<Entry>, i: nat, k: nat, left: set<Entry>)
    requires Removing(was, flows, t, i, k, left) && i < |t| && t[i] in left
    ensures Removing(was, flows, t[..i] + t[i + 1..], i, k + 1, left - {t[i]})
  {
    RemovalStep(was, flows, t, i, k, left);
    hide Keep, Pending;
  }

  lemma RemovalStays(was: seq<Entry>, flows: seq<Entry>, t: seq<Entry>, i: nat, k: nat, left: set<Entry>)
    requires Removing(was, flows, t, i, k, left) && i < |t| && t[i] !in left
    ensures Removing(was, flows, t, i + 1, k + 1, left)
  {
    RemovalStep(was, flows, t, i, k, left);
    assert left - {t[i]} == left && t[..i + 1] == t[..i] + [t[i]];
    hide Keep, Pending;
  }

  lemma RemovalEnds(was: seq<Entry>, flows: seq<Entry>, t: seq<Entry>, i: nat, k: nat, left: set<Entry>)
    requires Removing(was, flows, t, i, k, left) && (i >= |t| || left == {})
    ensures t == Keep(was, (e: Entry) => e !in flows) && left == {}
  {
    hide Keep;
    assert i >= |t| ==> was[k..] == [];
    NonePending(flows, was[k..]);
    KeepRest(was, k, flows);
    assert t == t[..i] + t[i..];
  }

  lemma NextOf(t: seq<Entry>, k: nat)
    requires k < |t|
    ensures t[k..] == [t[k]] + t[k + 1..] && t[k..][0] == t[k] && t[k..][1..] == t[k + 1..]
  {
  }

  lemma PendingNext(flows: seq<Entry>, e: Entry, rest: seq<Entry>)
    requires e !in rest
    ensures Pending(flows, rest) == Pending(flows, [e] + rest) - {e}
    ensures e in Pending(flows, [e] + rest) <==> e in flows
  {
  }

  lemma NonePending(flows: seq<Entry>, rest: seq<Entry>)
    requires Pending(flows, rest) == {} || rest == []
    ensures forall e :: e in rest ==> e !in flows
  {
    forall e | e in rest && e in flows
      ensures e in Pending(flows, rest)
    {
    }
  }

  lemma NotAgain(t: seq<Entry>, k: nat)
    requires k < |t| && forall i, j :: 0 <= i < j < |t| ==> t[i] != t[j]
    ensures t[k] !in t[k + 1..] && forall e :: e in t[k..] <==> e == t[k] || e in t[k + 1..]
  {
    assert t[k..] == [t[k]] + t[k + 1..];
  }

  lemma KeepRest(t: seq<Entry>, k: nat, flows: seq<Entry>)
    requires k <= |t| && forall e :: e in t[k..] ==> e !in flows
    ensures Keep(t, (e: Entry) => e !in flows) == Keep(t[..k], (e: Entry) => e !in flows) + t[k..]
  {
    var stays := (e: Entry) => e !in flows;
    assert t == t[..k] + t[k..];
    KeepAppend(t[..k], t[k..], stays);
    KeepAll(t[k..], stays);
  }

  lemma MatchingIn(test: NetworkTest, t: seq<Entry>, s: Selector)
    ensures var m := Keep(t, (e: Entry) => IsMatchedBy(test, e, s));
            && (forall e :: e in m ==> e in t)
            && Keep(t, (e: Entry) => e !in m) == Keep(t, (e: Entry) => !IsMatchedBy(test, e, s))
  {
    hide IsMatchedBy;
    var p := (e: Entry) => IsMatchedBy(test, e, s);
    forall e
      ensures e in Keep(t, p) <==> e in t && p(e)
    {
      KeepIn(t, p, e);
    }
    KeepAgree(t, (e: Entry) => e !in Keep(t, p), (e: Entry) => !IsMatchedBy(test, e, s));
  }

  /** An entry is removed as idle, removed as hard-expired or kept: never two of these. */
  lemma ExpirySplits(t: seq<Entry>, now: real)
    ensures var idle := Keep(t, (e: Entry) => IsIdleTimedOut(e, now));
            var hard := Keep(t, (e: Entry) => !IsIdleTimedOut(e, now) && IsHardTimedOut(e, now));
            forall e :: e in t ==> (e in idle <==> IsIdleTimedOut(e, now))
                                   && (e in hard <==> !IsIdleTimedOut(e, now) && IsHardTimedOut(e, now))
    ensures var idle := Keep(t, (e: Entry) => IsIdleTimedOut(e, now));
            var hard := Keep(t, (e: Entry) => !IsIdleTimedOut(e, now) && IsHardTimedOut(e, now));
            forall e :: e in idle || e in hard ==> e in t
  {
    hide IsIdleTimedOut, IsHardTimedOut;
    forall e
      ensures e in Keep(t, (e: Entry) => IsIdleTimedOut(e, now)) <==> e in t && IsIdleTimedOut(e, now)
      ensures e in Keep(t, (e: Entry) => !IsIdleTimedOut(e, now) && IsHardTimedOut(e, now))
              <==> e in t && !IsIdleTimedOut(e, now) && IsHardTimedOut(e, now)
    {
      KeepIn(t, (e: Entry) => IsIdleTimedOut(e, now), e);
      KeepIn(t, (e: Entry) => !IsIdleTimedOut(e, now) && IsHardTimedOut(e, now), e);
    }
  }

  lemma {:induction false} KeepTwice(t: seq<Entry>, p: Entry -> bool, q: Entry -> bool)
    ensures Keep(Keep(t, p), q) == Keep(t, (e: Entry) => p(e) && q(e))
  {
    if t != [] {
      KeepTwice(t[1..], p, q);
      KeepAppend(if p(t[0]) then [t[0]] else [], Keep(t[1..], p), q);
    }
  }

  /** Removing the idle list and then the hard list leaves exactly the entries not expired. */
  lemma HardRemain(t: seq<Entry>, now: real)
    ensures var idle := Keep(t, (e: Entry) => IsIdleTimedOut(e, now));
            var hard := Keep(t, (e: Entry) => !IsIdleTimedOut(e, now) && IsHardTimedOut(e, now));
            var rest := Keep(t, (e: Entry) => e !in idle);
            && (forall e :: e in hard ==> e in rest)
            && Keep(rest, (e: Entry) => e !in hard)
               == Keep(t, (e: Entry) => !IsIdleTimedOut(e, now) && !IsHardTimedOut(e, now))
  {
    hide IsIdleTimedOut, IsHardTimedOut;
    ExpirySplits(t, now);
    var idle := Keep(t, (e: Entry) => IsIdleTimedOut(e, now));
    var hard := Keep(t, (e: Entry) => !IsIdleTimedOut(e, now) && IsHardTimedOut(e, now));
    var notIdle, notHard := (e: Entry) => e !in idle, (e: Entry) => e !in hard;
    forall e | e in hard
      ensures e in Keep(t, notIdle)
    {
      KeepIn(t, notIdle, e);
    }
    KeepTwice(t, notIdle, notHard);
    KeepAgree(t, (e: Entry) => notIdle(e) && notHard(e),
              (e: Entry) => !IsIdleTimedOut(e, now) && !IsHardTimedOut(e, now));
  }
}
