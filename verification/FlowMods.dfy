/** How a switch applies flow mods to its table. */
module FlowMods {
  import opened Wrappers
  import opened Collections
  import opened OfpMatch
  import opened MatchContainment
  import opened FlowTable

  datatype Command = Add | Modify | ModifyStrict | Delete | DeleteStrict

  datatype FlowMod = FlowMod(command: Command, pattern: Match, priority: nat, actions: seq<Action>,
                             idleTimeout: real, hardTimeout: real,
                             emergency: bool, sendFlowRemoved: bool, checkOverlap: bool, outPort: bv16)

  datatype Reply = Done | BadEmergencyTimeout | NotPermitted | OverlapFound | AllTablesFull

  /** A packet is given as the match built from it. */
  datatype Event = Handle(mod: FlowMod, at: real) | Expire(at: real) | Packet(packet: Match, at: real)

  const OFPP_NONE: bv16 := 0xffff

  function NewEntry(mod: FlowMod, id: nat, now: real): Entry {
    Entry(id, mod.pattern, mod.priority, mod.actions, mod.idleTimeout, mod.hardTimeout, now, now)
  }

  function Wanted(mod: FlowMod): Selector {
    Selector(mod.pattern, mod.priority, mod.command == ModifyStrict || mod.command == DeleteStrict,
             if mod.command.Modify? || mod.command.ModifyStrict? || mod.outPort == OFPP_NONE then None
             else Some(mod.outPort))
  }

  predicate SameKey(e: Entry, pattern: Match, priority: nat) {
    Same(e.pattern, pattern) && e.priority == priority
  }

  function Retarget(test: NetworkTest, e: Entry, s: Selector, actions: seq<Action>): Entry {
    if IsMatchedBy(test, e, s) then e.(actions := actions) else e
  }

  /** A change in place leaves alone what orders and identifies an entry. */
  ghost predicate KeepsKeys(f: Entry -> Entry) {
    forall x: Entry {:trigger f(x)} :: f(x).id == x.id && f(x).pattern == x.pattern && f(x).priority == x.priority
  }

  lemma RetargetKeepsKeys(test: NetworkTest, s: Selector, actions: seq<Action>)
    ensures KeepsKeys((x: Entry) => Retarget(test, x, s, actions))
  {
    hide IsMatchedBy;
  }

  lemma TouchKeepsKeys(test: NetworkTest, entries: set<Entry>, packet: Match, now: real)
    ensures KeepsKeys((x: Entry) => if IsBest(test, entries, packet, x) then Touched(x, now) else x)
  {
    hide IsBest;
  }

  // ----- The specification: an unordered set of entries -----------------------------------------

  ghost predicate OverlapIn(test: NetworkTest, entries: set<Entry>, e: Entry) {
    exists x :: x in entries && Overlaps(test, e, x)
  }

  ghost predicate Hit(test: NetworkTest, entries: set<Entry>, s: Selector) {
    exists x :: x in entries && IsMatchedBy(test, x, s)
  }

  function EmergencyReply(mod: FlowMod): Reply {
    if mod.idleTimeout != 0.0 || mod.hardTimeout != 0.0 then BadEmergencyTimeout
    else if mod.sendFlowRemoved then NotPermitted
    else AllTablesFull
  }

  ghost function WithoutKey(entries: set<Entry>, pattern: Match, priority: nat): set<Entry> {
    set x | x in entries && !SameKey(x, pattern, priority)
  }

  ghost function AddTo(test: NetworkTest, max: nat, entries: set<Entry>, mod: FlowMod, e: Entry): (set<Entry>, Reply) {
    if mod.emergency then (entries, EmergencyReply(mod))
    else if mod.checkOverlap && OverlapIn(test, entries, e) then (entries, OverlapFound)
    else
      var rest := if mod.command == Add then WithoutKey(entries, mod.pattern, mod.priority) else entries;
      if |rest| >= max then (rest, AllTablesFull) else (rest + {e}, Done)
  }

  /** The entries, each changed where it stands. */
  ghost function Image(entries: set<Entry>, f: Entry -> Entry): set<Entry> {
    set x | x in entries :: f(x)
  }

  ghost function ModifyIn(test: NetworkTest, entries: set<Entry>, s: Selector, actions: seq<Action>): set<Entry> {
    Image(entries, (x: Entry) => Retarget(test, x, s, actions))
  }

  /** A packet refreshes the entry it hits. */
  ghost function TouchIn(test: NetworkTest, entries: set<Entry>, packet: Match, now: real): set<Entry> {
    Image(entries, (x: Entry) => if IsBest(test, entries, packet, x) then Touched(x, now) else x)
  }

  ghost function DeleteFrom(test: NetworkTest, entries: set<Entry>, s: Selector): set<Entry> {
    set x | x in entries && !IsMatchedBy(test, x, s)
  }

  ghost function Unexpired(entries: set<Entry>, now: real): set<Entry> {
    set x | x in entries && !IsIdleTimedOut(x, now) && !IsHardTimedOut(x, now)
  }

  ghost function Apply(test: NetworkTest, max: nat, entries: set<Entry>, id: nat, event: Event): (set<Entry>, Reply) {
    match event
    case Expire(at) => (Unexpired(entries, at), Done)
    case Packet(packet, at) => (TouchIn(test, entries, packet, at), Done)
    case Handle(mod, at) =>
      match mod.command
      case Add => AddTo(test, max, entries, mod, NewEntry(mod, id, at))
      case Modify | ModifyStrict =>
        if Hit(test, entries, Wanted(mod)) then (ModifyIn(test, entries, Wanted(mod), mod.actions), Done)
        else AddTo(test, max, entries, mod, NewEntry(mod, id, at))
      case Delete | DeleteStrict => (DeleteFrom(test, entries, Wanted(mod)), Done)
  }

  ghost function Run(test: NetworkTest, max: nat, events: seq<Event>): set<Entry> {
    if events == [] then {}
    else Apply(test, max, Run(test, max, events[..|events| - 1]), |events| - 1, events[|events| - 1]).0
  }

  // ----- What every run keeps -------------------------------------------------------------------

  /** Match and priority identify an entry. */
  ghost predicate UniqueKeys(entries: set<Entry>) {
    forall x, y :: x in entries && y in entries && SameKey(x, y.pattern, y.priority) ==> x == y
  }

  ghost predicate UniqueIds(entries: set<Entry>, bound: nat) {
    && (forall x :: x in entries ==> x.id < bound)
    && (forall x, y :: x in entries && y in entries && x.id == y.id ==> x == y)
  }

  ghost predicate Inv(max: nat, entries: set<Entry>, bound: nat) {
    UniqueKeys(entries) && UniqueIds(entries, bound) && |entries| <= max
  }

  lemma SubsetKeeps(max: nat, entries: set<Entry>, less: set<Entry>, bound: nat)
    requires Inv(max, entries, bound) && less <= entries
    ensures Inv(max, less, bound + 1)
  {
    hide SameKey;
    SubsetSize(less, entries);
  }

  lemma AddKeeps(max: nat, rest: set<Entry>, bound: nat, e: Entry)
    requires UniqueKeys(rest) && UniqueIds(rest, bound) && |rest| < max && e.id == bound
    requires forall x :: x in rest ==> !SameKey(x, e.pattern, e.priority)
    ensures Inv(max, rest + {e}, bound + 1)
  {
    SameKeySymmetric();
    hide SameKey;
  }

  lemma SameKeySymmetric()
    ensures forall x: Entry, y: Entry :: SameKey(x, y.pattern, y.priority) <==> SameKey(y, x.pattern, x.priority)
  {
    forall x: Entry, y: Entry
      ensures SameKey(x, y.pattern, y.priority) <==> SameKey(y, x.pattern, x.priority)
    {
      hide Same;
      SameIsEquivalence(x.pattern, y.pattern, x.pattern);
      SameIsEquivalence(y.pattern, x.pattern, x.pattern);
    }
  }

  lemma AddToKeeps(test: NetworkTest, max: nat, entries: set<Entry>, mod: FlowMod, e: Entry)
    requires Inv(max, entries, e.id) && e.pattern == mod.pattern && e.priority == mod.priority
    requires mod.command == Add || forall x :: x in entries ==> !SameKey(x, e.pattern, e.priority)
    ensures Inv(max, AddTo(test, max, entries, mod, e).0, e.id + 1)
  {
    hide SameKey, Inv, OverlapIn;
    var rest := if mod.command == Add then WithoutKey(entries, mod.pattern, mod.priority) else entries;
    SubsetKeeps(max, entries, entries, e.id);
    SubsetKeeps(max, entries, rest, e.id);
    if |rest| < max {
      InvOfPart(max, entries, rest, e.id);
      AddKeeps(max, rest, e.id, e);
    }
  }

  lemma InvOfPart(max: nat, entries: set<Entry>, rest: set<Entry>, bound: nat)
    requires Inv(max, entries, bound) && rest <= entries
    ensures UniqueKeys(rest) && UniqueIds(rest, bound)
  {
    hide SameKey;
  }

  lemma {:induction false} ImageSize(entries: set<Entry>, f: Entry -> Entry)
    ensures |Image(entries, f)| <= |entries|
  {
    if entries != {} {
      var x :| x in entries;
      ImageSize(entries - {x}, f);
      assert Image(entries, f) == Image(entries - {x}, f) + {f(x)};
    }
  }

  lemma ImageOf(entries: set<Entry>, f: Entry -> Entry, y: Entry) returns (x: Entry)
    requires y in Image(entries, f)
    ensures x in entries && f(x) == y
  {
    x :| x in entries && f(x) == y;
  }

  lemma ImageIds(entries: set<Entry>, f: Entry -> Entry, bound: nat)
    requires KeepsKeys(f) && UniqueIds(entries, bound)
    ensures UniqueIds(Image(entries, f), bound + 1)
  {
    hide Image;
    forall y, z | y in Image(entries, f) && z in Image(entries, f)
      ensures y.id < bound && (y.id == z.id ==> y == z)
    {
      var x := ImageOf(entries, f, y);
      var w := ImageOf(entries, f, z);
    }
  }

  lemma ImageKeys(entries: set<Entry>, f: Entry -> Entry)
    requires KeepsKeys(f) && UniqueKeys(entries)
    ensures UniqueKeys(Image(entries, f))
  {
    hide Image, Same;
    forall y, z | y in Image(entries, f) && z in Image(entries, f) && SameKey(y, z.pattern, z.priority)
      ensures y == z
    {
      var x := ImageOf(entries, f, y);
      var w := ImageOf(entries, f, z);
      assert SameKey(x, w.pattern, w.priority);
    }
  }

  lemma ImageKeeps(max: nat, entries: set<Entry>, bound: nat, f: Entry -> Entry)
    requires Inv(max, entries, bound) && KeepsKeys(f)
    ensures Inv(max, Image(entries, f), bound + 1)
  {
    hide Image, KeepsKeys, UniqueKeys, UniqueIds;
    ImageSize(entries, f);
    ImageIds(entries, f, bound);
    ImageKeys(entries, f);
  }

  /** A modify that acts as add skips the strict removal; it needs none, because containment is reflexive:
      an entry with the same match and priority would have been modified. */
  lemma MissMeansNewKey(test: NetworkTest, entries: set<Entry>, mod: FlowMod)
    requires mod.command == Modify || mod.command == ModifyStrict
    requires !Hit(test, entries, Wanted(mod))
    ensures forall x :: x in entries ==> !SameKey(x, mod.pattern, mod.priority)
  {
    forall x | x in entries && SameKey(x, mod.pattern, mod.priority)
      ensures IsMatchedBy(test, x, Wanted(mod))
    {
      hide Same, Fits;
      SameIsEquivalence(x.pattern, mod.pattern, mod.pattern);
    }
  }

  lemma DeletedWithin(test: NetworkTest, entries: set<Entry>, s: Selector)
    ensures DeleteFrom(test, entries, s) <= entries
  {
  }

  lemma ApplyKeeps(test: NetworkTest, max: nat, entries: set<Entry>, id: nat, event: Event)
    requires Inv(max, entries, id)
    ensures Inv(max, Apply(test, max, entries, id, event).0, id + 1)
  {
    hide Inv, AddTo, Hit, Image, DeleteFrom, Wanted, IsIdleTimedOut, IsHardTimedOut, SameKey, IsMatchedBy, IsBest,
         Retarget, KeepsKeys;
    match event {
      case Expire(at) =>
        assert Unexpired(entries, at) <= entries;
        SubsetKeeps(max, entries, Unexpired(entries, at), id);
      case Packet(packet, at) =>
        TouchKeepsKeys(test, entries, packet, at);
        ImageKeeps(max, entries, id, (x: Entry) => if IsBest(test, entries, packet, x) then Touched(x, at) else x);
      case Handle(mod, at) =>
        match mod.command {
          case Add => AddToKeeps(test, max, entries, mod, NewEntry(mod, id, at));
          case Modify | ModifyStrict =>
            if Hit(test, entries, Wanted(mod)) {
              RetargetKeepsKeys(test, Wanted(mod), mod.actions);
              ImageKeeps(max, entries, id, (x: Entry) => Retarget(test, x, Wanted(mod), mod.actions));
            } else {
              MissMeansNewKey(test, entries, mod);
              AddToKeeps(test, max, entries, mod, NewEntry(mod, id, at));
            }
          case Delete | DeleteStrict =>
            DeletedWithin(test, entries, Wanted(mod));
            SubsetKeeps(max, entries, DeleteFrom(test, entries, Wanted(mod)), id);
        }
    }
  }

  /** Whatever flow mods, packets and expiries come, (match, priority) pairs stay unique and the table stays
      within its bound. */
  lemma {:induction false} RunKeeps(test: NetworkTest, max: nat, events: seq<Event>)
    ensures Inv(max, Run(test, max, events), |events|)
  {
    hide Inv, Apply;
    if events == [] {
      EmptyInv(max);
    } else {
      RunKeeps(test, max, events[..|events| - 1]);
      ApplyKeeps(test, max, Run(test, max, events[..|events| - 1]), |events| - 1, events[|events| - 1]);
    }
  }

  lemma EmptyInv(max: nat)
    ensures Inv(max, {}, 0)
  {
  }

  // ----- What the flow mods do to lookups -------------------------------------------------------

  /** A flow mod that is answered with an error changes nothing. */
  lemma RefusalChangesNothing(test: NetworkTest, max: nat, entries: set<Entry>, id: nat, event: Event)
    requires Inv(max, entries, id)
    ensures Apply(test, max, entries, id, event).1 != Done ==> Apply(test, max, entries, id, event).0 == entries
  {
    hide SameKey, OverlapIn, Hit, ModifyIn, DeleteFrom, Wanted, UniqueKeys, UniqueIds, Unexpired;
    if event.Handle? {
      var mod := event.mod;
      var rest := WithoutKey(entries, mod.pattern, mod.priority);
      if rest != entries {
        var gone :| gone in entries && gone !in rest;
        SubsetSize(rest, entries - {gone});
      }
    }
  }

  /** The only entry with the new one's match and priority is the new one itself. */
  lemma AddReplaces(test: NetworkTest, max: nat, entries: set<Entry>, mod: FlowMod, e: Entry)
    requires mod.command == Add && e.pattern == mod.pattern && e.priority == mod.priority
    requires AddTo(test, max, entries, mod, e).1 == Done
    ensures forall x :: x in AddTo(test, max, entries, mod, e).0 ==>
              (SameKey(x, mod.pattern, mod.priority) <==> x == e)
    ensures forall x :: x in entries && !SameKey(x, mod.pattern, mod.priority)
              ==> x in AddTo(test, max, entries, mod, e).0
  {
    SameIsEquivalence(e.pattern, e.pattern, e.pattern);
    hide Same, OverlapIn;
  }

  /** The overlap flag: an accepted entry overlaps no other, and the refusal names a real overlap. */
  lemma CheckedAddOverlapsNothing(test: NetworkTest, max: nat, entries: set<Entry>, mod: FlowMod, e: Entry)
    requires mod.checkOverlap && e !in entries
    ensures var (after, reply) := AddTo(test, max, entries, mod, e);
            && (reply == Done ==> forall x :: x in after && x != e ==> !Overlaps(test, e, x))
            && (reply == OverlapFound <==> !mod.emergency && exists x :: x in entries && Overlaps(test, e, x))
  {
    hide Overlaps, SameKey;
  }

  /** The table is reported full exactly when it is, the entry an add replaces not counted, and the overlap
      refusal before it; emergency entries are never added. */
  lemma FullExactly(test: NetworkTest, max: nat, entries: set<Entry>, mod: FlowMod, e: Entry)
    requires UniqueKeys(entries) && |entries| <= max
    ensures var reply := AddTo(test, max, entries, mod, e).1;
            && (mod.emergency ==> reply != Done)
            && (!mod.emergency ==>
                  (reply == AllTablesFull
                   <==> && !(mod.checkOverlap && OverlapIn(test, entries, e)) && |entries| == max
                        && !(mod.command == Add
                             && exists x :: x in entries && SameKey(x, mod.pattern, mod.priority))))
  {
    var rest := WithoutKey(entries, mod.pattern, mod.priority);
    hide SameKey, UniqueKeys, OverlapIn;
    if x :| x in entries && SameKey(x, mod.pattern, mod.priority) {
      assert rest <= entries - {x};
      SubsetSize(rest, entries - {x});
    } else {
      assert rest == entries;
    }
  }

  /** A strict delete removes at most one entry. */
  lemma StrictDeleteRemovesOne(test: NetworkTest, entries: set<Entry>, s: Selector)
    requires UniqueKeys(entries) && s.strict
    ensures |entries - DeleteFrom(test, entries, s)| <= 1
    ensures forall x :: x in entries - DeleteFrom(test, entries, s) ==> SameKey(x, s.pattern, s.priority)
  {
    var gone := entries - DeleteFrom(test, entries, s);
    forall x | x in gone
      ensures SameKey(x, s.pattern, s.priority)
    {
    }
    if x :| x in gone {
      forall y | y in gone
        ensures y == x
      {
        KeyTransitive(x, y, s.pattern, s.priority);
      }
      assert gone == {x};
    }
  }

  lemma KeyTransitive(x: Entry, y: Entry, pattern: Match, priority: nat)
    requires SameKey(x, pattern, priority) && SameKey(y, pattern, priority)
    ensures SameKey(x, y.pattern, y.priority)
  {
    hide Same;
    SameIsEquivalence(y.pattern, pattern, pattern);
    SameIsEquivalence(x.pattern, pattern, y.pattern);
  }

  /** A new entry takes exactly the packets it matches that no entry of higher effective priority takes. */
  lemma AddedIsBest(test: NetworkTest, rest: set<Entry>, e: Entry, packet: Match)
    requires forall x :: x in rest ==> x.id < e.id
    ensures IsBest(test, rest + {e}, packet, e)
            <==> MatchesPacket(test, e.pattern, packet)
                 && forall x :: x in rest && MatchesPacket(test, x.pattern, packet)
                      ==> EffectivePriority(x) <= EffectivePriority(e)
  {
    hide MatchesWithWildcards, EffectivePriority;
  }

  /** A change in place never moves a packet to another entry. */
  lemma ImageKeepsLookups(test: NetworkTest, entries: set<Entry>, f: Entry -> Entry, packet: Match, e: Entry)
    requires IsBest(test, entries, packet, e) && KeepsKeys(f)
    ensures IsBest(test, Image(entries, f), packet, f(e))
  {
    hide Image, MatchesWithWildcards, EffectivePriority;
    ImageIn(entries, f, e);
    forall y | y in Image(entries, f) && y != f(e) && MatchesPacket(test, y.pattern, packet)
      ensures Above(f(e), y)
    {
      var x := ImageOf(entries, f, y);
      SamePriority(x, y);
      SamePriority(e, f(e));
    }
  }

  lemma ImageIn(entries: set<Entry>, f: Entry -> Entry, e: Entry)
    requires e in entries
    ensures f(e) in Image(entries, f)
  {
  }

  lemma SamePriority(a: Entry, b: Entry)
    requires a.pattern == b.pattern && a.priority == b.priority
    ensures EffectivePriority(a) == EffectivePriority(b)
  {
  }

  /** A modify changes what packets get, never which entry they hit. */
  lemma ModifyKeepsLookups(test: NetworkTest, entries: set<Entry>, s: Selector, actions: seq<Action>,
                           packet: Match, e: Entry)
    requires IsBest(test, entries, packet, e)
    ensures IsBest(test, ModifyIn(test, entries, s, actions), packet, Retarget(test, e, s, actions))
    ensures Retarget(test, e, s, actions).actions == if IsMatchedBy(test, e, s) then actions else e.actions
  {
    hide IsBest, Image, IsMatchedBy;
    RetargetKeepsKeys(test, s, actions);
    ImageKeepsLookups(test, entries, (x: Entry) => Retarget(test, x, s, actions), packet, e);
  }

  /** Packets never move each other: after one, every other still hits its entry, and gets the same. */
  lemma PacketKeepsLookups(test: NetworkTest, entries: set<Entry>, first: Match, now: real, packet: Match, e: Entry)
    requires IsBest(test, entries, packet, e)
    ensures var f := if IsBest(test, entries, first, e) then Touched(e, now) else e;
            IsBest(test, TouchIn(test, entries, first, now), packet, f) && f.actions == e.actions
  {
    hide IsBest, Image;
    TouchKeepsKeys(test, entries, first, now);
    ImageKeepsLookups(test, entries, (x: Entry) => if IsBest(test, entries, first, x) then Touched(x, now) else x,
                      packet, e);
  }

  /** Idle expiry counts from the last packet that hit the entry. */
  lemma UseDefersExpiry(test: NetworkTest, max: nat, entries: set<Entry>, id: nat, packet: Match, at: real, now: real,
                        e: Entry)
    requires IsBest(test, entries, packet, e)
    ensures var after := Apply(test, max, entries, id, Packet(packet, at)).0;
            Touched(e, at) in Apply(test, max, after, id + 1, Expire(now)).0
            <==> (e.idleTimeout > 0.0 ==> now - at <= e.idleTimeout) && !IsHardTimedOut(e, now)
  {
    hide MatchesWithWildcards, Above, Image;
    ImageIn(entries, (x: Entry) => if IsBest(test, entries, packet, x) then Touched(x, at) else x, e);
  }

  /** After a delete a packet falls through to the next entry that is spared. */
  lemma DeleteFallsThrough(test: NetworkTest, entries: set<Entry>, bound: nat, s: Selector, packet: Match, e: Entry)
    requires UniqueIds(entries, bound)
    ensures IsBest(test, DeleteFrom(test, entries, s), packet, e)
            <==> && e in entries && !IsMatchedBy(test, e, s) && MatchesPacket(test, e.pattern, packet)
                 && forall x :: x in entries && MatchesPacket(test, x.pattern, packet) && Above(x, e)
                      ==> IsMatchedBy(test, x, s)
  {
    hide IsMatchedBy, MatchesWithWildcards, EffectivePriority;
    forall x | x in entries && x != e && e in entries
      ensures Above(x, e) <==> !Above(e, x)
    {
      AboveTotal(x, e);
    }
  }

  /** A delete without a port filter leaves exactly the entries that take some fully specified match its
      own match does not, and those with undefined wildcard bits its match lacks. */
  lemma DeleteLeavesOthers(test: NetworkTest, entries: set<Entry>, pattern: Match, e: Entry)
    requires e in entries && Clean(test, e.pattern)
    ensures e in DeleteFrom(test, entries, Selector(pattern, 0, false, None))
            <==> !UndefinedBitsFit(pattern, e.pattern)
                 || exists packet: Match ::
                      IsExact(packet) && MatchesPacket(test, e.pattern, packet) && !MatchesPacket(test, pattern, packet)
  {
    hide Clean, MatchesWithWildcards, UndefinedBitsFit;
    ContainsIff(test, pattern, e.pattern);
  }

  /** Deleting everything leaves an entry unpacked from all-ones wildcards. */
  lemma DeleteAllLeavesUndefined(test: NetworkTest, entries: set<Entry>, e: Entry)
    requires e in entries && e.pattern == EVERYTHING.(wildcards := 0xFFFF_FFFF)
    ensures e in DeleteFrom(test, entries, Selector(EVERYTHING, 0, false, None))
  {
    EverythingMisses(test, e.pattern);
    hide TakesAllOf, MatchesWithWildcards;
  }

  // ----- Adds and deletes at any moment ---------------------------------------------------------

  ghost function ReplyTo(test: NetworkTest, max: nat, events: seq<Event>, event: Event): Reply {
    Apply(test, max, Run(test, max, events), |events|, event).1
  }

  lemma RunMore(test: NetworkTest, max: nat, events: seq<Event>, event: Event)
    ensures Run(test, max, events + [event]) == Apply(test, max, Run(test, max, events), |events|, event).0
  {
    assert (events + [event])[..|events|] == events;
    hide Apply;
  }

  /** An accepted add, after any events: the table holds the new entry, alone with its match and priority, and
      every other entry it held; with the overlap flag nothing overlaps it; and it takes exactly the packets
      it matches that no kept entry of higher effective priority takes. */
  lemma AddInRun(test: NetworkTest, max: nat, events: seq<Event>, mod: FlowMod, at: real)
    requires mod.command == Add && ReplyTo(test, max, events, Handle(mod, at)) == Done
    ensures var before, after := Run(test, max, events), Run(test, max, events + [Handle(mod, at)]);
            var e := NewEntry(mod, |events|, at);
            && |after| <= max && e !in before && !mod.emergency
            && (forall x :: x in after <==> x == e || (x in before && !SameKey(x, mod.pattern, mod.priority)))
            && (forall x :: x in after && SameKey(x, mod.pattern, mod.priority) ==> x == e)
            && (mod.checkOverlap ==> forall x :: x in after && x != e ==> !Overlaps(test, e, x))
            && (forall packet ::
                  IsBest(test, after, packet, e)
                  <==> MatchesPacket(test, mod.pattern, packet)
                       && forall x :: x in before && !SameKey(x, mod.pattern, mod.priority)
                                      && MatchesPacket(test, x.pattern, packet)
                            ==> EffectivePriority(x) <= EffectivePriority(e))
  {
    var before, e := Run(test, max, events), NewEntry(mod, |events|, at);
    RunKeeps(test, max, events);
    RunKeeps(test, max, events + [Handle(mod, at)]);
    RunMore(test, max, events, Handle(mod, at));
    hide SameKey, Overlaps, MatchesWithWildcards, EffectivePriority, IsBest, Run, UniqueKeys;
    AddReplaces(test, max, before, mod, e);
    if mod.checkOverlap {
      CheckedAddOverlapsNothing(test, max, before, mod, e);
    }
    forall packet
      ensures IsBest(test, WithoutKey(before, mod.pattern, mod.priority) + {e}, packet, e)
              <==> MatchesPacket(test, mod.pattern, packet)
                   && forall x :: x in before && !SameKey(x, mod.pattern, mod.priority)
                                  && MatchesPacket(test, x.pattern, packet)
                        ==> EffectivePriority(x) <= EffectivePriority(e)
    {
      AddedIsBest(test, WithoutKey(before, mod.pattern, mod.priority), e, packet);
    }
  }

  /** A delete, after any events: each packet goes to the highest entry that the delete spares. */
  lemma DeleteInRun(test: NetworkTest, max: nat, events: seq<Event>, mod: FlowMod, at: real, packet: Match, e: Entry)
    requires mod.command == Delete || mod.command == DeleteStrict
    ensures var before, s := Run(test, max, events), Wanted(mod);
            IsBest(test, Run(test, max, events + [Handle(mod, at)]), packet, e)
            <==> && e in before && !IsMatchedBy(test, e, s) && MatchesPacket(test, e.pattern, packet)
                 && forall x :: x in before && MatchesPacket(test, x.pattern, packet) && Above(x, e)
                      ==> IsMatchedBy(test, x, s)
  {
    RunKeeps(test, max, events);
    RunMore(test, max, events, Handle(mod, at));
    hide IsBest, IsMatchedBy, MatchesWithWildcards, Above, Run, DeleteFrom, UniqueKeys;
    DeleteFallsThrough(test, Run(test, max, events), |events|, Wanted(mod), packet, e);
  }

  // ----- Where entries come from ----------------------------------------------------------------

  predicate Makes(event: Event) {
    event.Handle? && event.mod.command in {Add, Modify, ModifyStrict} && !event.mod.emergency
  }

  predicate Modifies(test: NetworkTest, event: Event, e: Entry) {
    && event.Handle? && (event.mod.command == Modify || event.mod.command == ModifyStrict)
    && IsMatchedBy(test, e, Wanted(event.mod))
  }

  /** An entry is as a flow mod made it, up to its actions and its last use. */
  predicate MadeBy(events: seq<Event>, e: Entry) {
    && e.id < |events| && Makes(events[e.id])
    && var mod, at := events[e.id].mod, events[e.id].at;
       && e.pattern == mod.pattern && e.priority == mod.priority && e.created == at
       && e.idleTimeout == mod.idleTimeout && e.hardTimeout == mod.hardTimeout
  }

  /** Its actions are those of the flow mod that made it or of the last modify since that selects it. */
  ghost predicate ActsAs(test: NetworkTest, events: seq<Event>, e: Entry, i: nat) {
    && e.id <= i < |events| && events[i].Handle? && e.actions == events[i].mod.actions
    && (i == e.id || Modifies(test, events[i], e))
    && forall k :: i < k < |events| ==> !Modifies(test, events[k], e)
  }

  predicate Successor(test: NetworkTest, event: Event, x: Entry, y: Entry) {
    y == x.(actions := if Modifies(test, event, x) then event.mod.actions else x.actions, lastTouched := y.lastTouched)
  }

  lemma ComesFrom(test: NetworkTest, max: nat, entries: set<Entry>, id: nat, event: Event, y: Entry)
    requires y in Apply(test, max, entries, id, event).0
    ensures || (Makes(event) && y == NewEntry(event.mod, id, event.at))
            || exists x :: x in entries && Successor(test, event, x, y)
  {
    hide SameKey, OverlapIn, IsMatchedBy, Image, IsBest, IsIdleTimedOut, IsHardTimedOut;
    if event.Packet? {
      var x := ImageOf(entries,
                       (x: Entry) => if IsBest(test, entries, event.packet, x) then Touched(x, event.at) else x, y);
      assert Successor(test, event, x, y);
    } else if event.Handle? && (event.mod.command.Modify? || event.mod.command.ModifyStrict?)
              && Hit(test, entries, Wanted(event.mod)) {
      var x := ImageOf(entries, (x: Entry) => Retarget(test, x, Wanted(event.mod), event.mod.actions), y);
      assert Successor(test, event, x, y);
    } else if y in entries {
      assert Successor(test, event, y, y);
    }
  }

  lemma SuccessorSelected(test: NetworkTest, event: Event, x: Entry, y: Entry, other: Event)
    requires Successor(test, event, x, y)
    ensures Modifies(test, other, x) <==> Modifies(test, other, y)
  {
    hide Contains, Same;
  }

  /** Nothing in the table appears from nowhere: after any events each entry is one that a flow mod made, at
      that time, and it acts as the last flow mod that selects it says. */
  lemma {:induction false} EveryEntryHasOrigin(test: NetworkTest, max: nat, events: seq<Event>, e: Entry)
    requires e in Run(test, max, events)
    ensures MadeBy(events, e) && exists i: nat :: ActsAs(test, events, e, i)
  {
    var before, event := events[..|events| - 1], events[|events| - 1];
    hide Apply, Makes, Modifies, Successor, MadeBy, ActsAs, NewEntry;
    assert events == before + [event];
    ComesFrom(test, max, Run(test, max, before), |before|, event, e);
    if Makes(event) && e == NewEntry(event.mod, |before|, event.at) {
      OriginBegins(test, before, event);
    } else {
      var x :| x in Run(test, max, before) && Successor(test, event, x, e);
      EveryEntryHasOrigin(test, max, before, x);
      var i: nat :| ActsAs(test, before, x, i);
      OriginFollows(test, before, event, x, e, i);
    }
  }

  lemma OriginBegins(test: NetworkTest, before: seq<Event>, event: Event)
    requires Makes(event)
    ensures var e := NewEntry(event.mod, |before|, event.at);
            MadeBy(before + [event], e) && ActsAs(test, before + [event], e, |before|)
  {
    hide Modifies;
  }

  lemma OriginFollows(test: NetworkTest, before: seq<Event>, event: Event, x: Entry, y: Entry, i: nat)
    requires MadeBy(before, x) && ActsAs(test, before, x, i) && Successor(test, event, x, y)
    ensures MadeBy(before + [event], y)
    ensures ActsAs(test, before + [event], y, if Modifies(test, event, y) then |before| else i)
  {
    var events := before + [event];
    forall k: nat | k <= |before|
      ensures Modifies(test, events[k], x) <==> Modifies(test, events[k], y)
    {
      SuccessorSelected(test, event, x, y, events[k]);
    }
    assert events[|before|] == event && forall k: nat :: k < |before| ==> events[k] == before[k];
    assert Modifies(test, event, y) ==> event.Handle?;
    hide Modifies;
    assert Modifies(test, events[|before|], x) <==> Modifies(test, events[|before|], y);
  }

  // ----- What each command selects --------------------------------------------------------------

  /** Has this output action, where the flow mod asks for one. */
  predicate PortSelected(e: Entry, mod: FlowMod) {
    mod.outPort == 0xffff || Action.Output(mod.outPort) in e.actions
  }

  /** A plain delete removes what its match contains, a strict one what has its match and priority, both only
      with an output to the given port, if any. */
  lemma DeleteSelects(test: NetworkTest, max: nat, entries: set<Entry>, id: nat, mod: FlowMod, at: real, e: Entry)
    requires (mod.command == Delete || mod.command == DeleteStrict) && e in entries
    ensures var after := Apply(test, max, entries, id, Handle(mod, at)).0;
            e !in after <==>
              && PortSelected(e, mod)
              && if mod.command == Delete then Contains(test, mod.pattern, e.pattern)
                 else Same(e.pattern, mod.pattern) && e.priority == mod.priority
  {
    hide Same, Contains;
  }

  predicate ModifySelected(test: NetworkTest, e: Entry, mod: FlowMod) {
    if mod.command == Modify then Contains(test, mod.pattern, e.pattern)
    else Same(e.pattern, mod.pattern) && e.priority == mod.priority
  }

  lemma ModifySelectedIs(test: NetworkTest, e: Entry, mod: FlowMod)
    requires mod.command == Modify || mod.command == ModifyStrict
    ensures ModifySelected(test, e, mod) <==> IsMatchedBy(test, e, Wanted(mod))
  {
    hide Same, Contains;
  }

  /** A plain modify gives its actions to what its match contains, a strict one to what has its match and
      priority, whatever the port, and leaves all else alone; if there is nothing it is an add. */
  lemma ModifySelects(test: NetworkTest, max: nat, entries: set<Entry>, id: nat, mod: FlowMod, at: real, e: Entry)
    requires (mod.command == Modify || mod.command == ModifyStrict) && e in entries
    ensures var after := Apply(test, max, entries, id, Handle(mod, at)).0;
            && (ModifySelected(test, e, mod) ==> e.(actions := mod.actions) in after)
            && (!ModifySelected(test, e, mod) ==> e in after)
    ensures (forall x :: x in entries ==> !ModifySelected(test, x, mod)) ==>
              Apply(test, max, entries, id, Handle(mod, at)) == AddTo(test, max, entries, mod, NewEntry(mod, id, at))
  {
    hide ModifySelected, IsMatchedBy, Wanted, OverlapIn, SameKey, Image;
    forall x: Entry
      ensures ModifySelected(test, x, mod) <==> IsMatchedBy(test, x, Wanted(mod))
    {
      ModifySelectedIs(test, x, mod);
    }
    ImageIn(entries, (x: Entry) => Retarget(test, x, Wanted(mod), mod.actions), e);
  }

  /** Expiry removes an entry once it has been idle, or has been there, for longer than a timeout it has. */
  lemma ExpirySelects(test: NetworkTest, max: nat, entries: set<Entry>, id: nat, now: real, e: Entry)
    requires e in entries
    ensures e in Apply(test, max, entries, id, Expire(now)).0
            <==> && (e.idleTimeout <= 0.0 || now <= e.lastTouched + e.idleTimeout)
                 && (e.hardTimeout <= 0.0 || now <= e.created + e.hardTimeout)
  {
  }

  /** The refusals of an add, each exactly where it belongs and in this order. */
  lemma AddReplies(test: NetworkTest, max: nat, entries: set<Entry>, mod: FlowMod, e: Entry)
    ensures var reply := AddTo(test, max, entries, mod, e).1;
            && (reply == BadEmergencyTimeout
                <==> mod.emergency && (mod.idleTimeout != 0.0 || mod.hardTimeout != 0.0))
            && (reply == NotPermitted
                <==> mod.emergency && mod.idleTimeout == mod.hardTimeout == 0.0 && mod.sendFlowRemoved)
            && (reply == OverlapFound
                <==> !mod.emergency && mod.checkOverlap && exists x :: x in entries && Overlaps(test, e, x))
            && (reply == Done ==> e in AddTo(test, max, entries, mod, e).0)
  {
    hide Overlaps, SameKey;
  }

  // ----- The switch -----------------------------------------------------------------------------

  lemma KeepEntries(t: seq<Entry>, p: Entry -> bool)
    ensures Entries(Keep(t, p)) == set x | x in Entries(t) && p(x)
  {
    forall e
      ensures e in Entries(Keep(t, p)) <==> e in Entries(t) && p(e)
    {
      KeepIn(t, p, e);
      EntriesOf(t, e);
      EntriesOf(Keep(t, p), e);
    }
  }

  lemma {:induction false} EntriesSize(t: seq<Entry>)
    requires Ordered(t)
    ensures |Entries(t)| == |t|
  {
    hide Above;
    if t == [] {
      NoEntries(t);
    } else {
      RestEntries(t);
      EntriesSize(t[1..]);
      EntriesOf(t, t[0]);
    }
  }

  /** The table with each entry changed where it stands. */
  function Mapped(t: seq<Entry>, f: Entry -> Entry): (r: seq<Entry>)
    ensures |r| == |t| && forall i :: 0 <= i < |t| ==> r[i] == f(t[i])
  {
    if t == [] then [] else [f(t[0])] + Mapped(t[1..], f)
  }

  lemma MappedOrdered(t: seq<Entry>, f: Entry -> Entry)
    requires Ordered(t) && KeepsKeys(f)
    ensures Ordered(Mapped(t, f))
  {
    hide Mapped, EffectivePriority;
    var r := Mapped(t, f);
    forall i, j | 0 <= i < j < |r|
      ensures Above(r[i], r[j])
    {
      SamePriority(t[i], f(t[i]));
      SamePriority(t[j], f(t[j]));
    }
  }

  lemma MappedEntries(t: seq<Entry>, f: Entry -> Entry)
    ensures Entries(Mapped(t, f)) == Image(Entries(t), f)
  {
    hide Mapped;
    var r := Mapped(t, f);
    forall y | y in Image(Entries(t), f)
      ensures y in Entries(r)
    {
      var x := ImageOf(Entries(t), f, y);
      var i :| 0 <= i < |t| && t[i] == x;
      assert r[i] == y;
    }
  }

  lemma MappedIds(t: seq<Entry>, f: Entry -> Entry, bound: nat)
    requires KeepsKeys(f) && forall e :: e in t ==> e.id < bound
    ensures forall e :: e in Mapped(t, f) ==> e.id < bound
  {
    hide Mapped;
  }

  lemma RetargetIs(test: NetworkTest, e: Entry, s: Selector, actions: seq<Action>)
    ensures Retarget(test, e, s, actions) == if IsMatchedBy(test, e, s) then e.(actions := actions) else e
  {
  }

  lemma HitIff(test: NetworkTest, t: seq<Entry>, s: Selector)
    ensures Hit(test, Entries(t), s) <==> exists i :: 0 <= i < |t| && IsMatchedBy(test, t[i], s)
  {
    hide IsMatchedBy;
    if i :| 0 <= i < |t| && IsMatchedBy(test, t[i], s) {
      assert t[i] in Entries(t);
    }
  }

  lemma RetargetNone(test: NetworkTest, t: seq<Entry>, s: Selector, actions: seq<Action>)
    requires forall i :: 0 <= i < |t| ==> !IsMatchedBy(test, t[i], s)
    ensures Mapped(t, (x: Entry) => Retarget(test, x, s, actions)) == t
  {
    hide IsMatchedBy, Mapped;
  }

  lemma KeepWithin(t: seq<Entry>, p: Entry -> bool)
    ensures forall e :: e in Keep(t, p) ==> e in t
  {
    forall e | e in Keep(t, p)
      ensures e in t
    {
      KeepIn(t, p, e);
    }
  }

  lemma HitInTable(test: NetworkTest, t: seq<Entry>, packet: Match, e: Entry)
    requires IsBest(test, Entries(t), packet, e)
    ensures e in t
  {
    hide MatchesWithWildcards, Above;
  }

  lemma TouchedIsMapped(test: NetworkTest, t: seq<Entry>, packet: Match, now: real, n: nat)
    requires Ordered(t) && n < |t| && IsBest(test, Entries(t), packet, t[n])
    ensures t[n := Touched(t[n], now)]
         == Mapped(t, (x: Entry) => if IsBest(test, Entries(t), packet, x) then Touched(x, now) else x)
  {
    hide IsBest, Mapped, Ordered;
    OrderedDistinct(t);
    forall i | 0 <= i < |t| && i != n
      ensures !IsBest(test, Entries(t), packet, t[i])
    {
      if IsBest(test, Entries(t), packet, t[i]) {
        BestIsUnique(test, Entries(t), packet, t[i], t[n]);
      }
    }
  }

  lemma NoneTouched(test: NetworkTest, t: seq<Entry>, packet: Match, now: real)
    requires forall e :: e in Entries(t) ==> !MatchesPacket(test, e.pattern, packet)
    ensures t == Mapped(t, (x: Entry) => if IsBest(test, Entries(t), packet, x) then Touched(x, now) else x)
  {
    hide Mapped, MatchesWithWildcards, Above;
  }

  class Switch {
    const max: nat
    const test: NetworkTest
    const table: FlowTable
    var nextId: nat

    ghost predicate Valid()
      reads this, table
    {
      table.test == test && Ordered(table.table) && forall e :: e in table.table ==> e.id < nextId
    }

    ghost function View(): set<Entry>
      reads table
    {
      Entries(table.table)
    }

    constructor (test: NetworkTest, max: nat)
      ensures Valid() && View() == {} && nextId == 0 && this.max == max && this.test == test
    {
      this.test := test;
      this.max := max;
      table := new FlowTable(test);
      nextId := 0;
    }

    method FlowModAdd(mod: FlowMod, now: real) returns (reply: Reply)
      requires Valid()
      modifies this, table
      ensures Valid() && nextId == old(nextId) + 1
      ensures (View(), reply) == AddTo(test, max, old(View()), mod, NewEntry(mod, old(nextId), now))
    {
      hide Above, SameKey, IsMatchedBy, Overlaps, GoesAt, Inserted, Keep, Entries;
      var newEntry := NewEntry(mod, nextId, now);
      nextId := nextId + 1;
      if mod.emergency {
        if mod.idleTimeout != 0.0 || mod.hardTimeout != 0.0 {
          return BadEmergencyTimeout;
        }
        if mod.sendFlowRemoved {
          return NotPermitted;
        }
        return AllTablesFull;
      }
      if mod.checkOverlap {
        var overlap := table.CheckForOverlappingEntry(newEntry);
        if overlap {
          return OverlapFound;
        }
      }
      if mod.command == Add {
        RemoveSameKey(mod);
      }
      EntriesSize(table.table);
      if |table.table| >= max {
        return AllTablesFull;
      }
      AllEntries(table.table);
      table.AddEntry(newEntry);
      AllEntries(table.table);
      return Done;
    }

    /** Updates the actions of the matching entries where they stand; acts as add if there are none. */
    method FlowModModify(mod: FlowMod, now: real) returns (reply: Reply)
      requires Valid() && (mod.command == Modify || mod.command == ModifyStrict)
      modifies this, table
      ensures Valid() && nextId == old(nextId) + 1
      ensures (View(), reply) == Apply(test, max, old(View()), old(nextId), Handle(mod, now))
    {
      hide AddTo, Image, IsMatchedBy, Wanted, Ordered, Retarget, Entries, KeepsKeys, Mapped;
      ghost var was := table.table;
      var s := Wanted(mod);
      var modified := false;
      var n := 0;
      while n < |table.table|
        modifies table
        invariant 0 <= n <= |was| == |table.table|
        invariant forall i :: 0 <= i < n ==> table.table[i] == Retarget(test, was[i], s, mod.actions)
        invariant forall i :: n <= i < |was| ==> table.table[i] == was[i]
        invariant modified <==> exists i :: 0 <= i < n && IsMatchedBy(test, was[i], s)
      {
        var e := table.table[n];
        RetargetIs(test, e, s, mod.actions);
        if IsMatchedBy(test, e, s) {
          table.table := table.table[n := e.(actions := mod.actions)];
          modified := true;
        }
        n := n + 1;
      }
      ghost var f := (x: Entry) => Retarget(test, x, s, mod.actions);
      assert table.table == Mapped(was, f);
      RetargetKeepsKeys(test, s, mod.actions);
      MappedOrdered(was, f);
      MappedEntries(was, f);
      MappedIds(was, f, nextId);
      HitIff(test, was, s);
      if !modified {
        RetargetNone(test, was, s, mod.actions);
        reply := FlowModAdd(mod, now);
      } else {
        nextId := nextId + 1;
        reply := Done;
      }
    }

    method FlowModDelete(mod: FlowMod, now: real) returns (reply: Reply)
      requires Valid() && (mod.command == Delete || mod.command == DeleteStrict)
      modifies this, table
      ensures Valid() && nextId == old(nextId) + 1
      ensures (View(), reply) == Apply(test, max, old(View()), old(nextId), Handle(mod, now))
    {
      hide Above, Ordered, IsMatchedBy, Entries, Keep;
      ghost var was := table.table;
      var s := Wanted(mod);
      var removed := table.RemoveMatchingEntries(s);
      nextId := nextId + 1;
      KeepEntries(was, (e: Entry) => !IsMatchedBy(test, e, s));
      KeepWithin(was, (e: Entry) => !IsMatchedBy(test, e, s));
      assert View() == DeleteFrom(test, Entries(was), s);
      reply := Done;
    }

    /** Looks the packet up and refreshes the entry it hits. */
    method RxPacket(packet: Match, now: real) returns (found: Option<Entry>)
      requires Valid()
      modifies this, table
      ensures Valid() && nextId == old(nextId) + 1
      ensures (View(), Done) == Apply(test, max, old(View()), old(nextId), Packet(packet, now))
      ensures found.Some? ==> IsBest(test, old(View()), packet, found.value)
      ensures found.None? <==> forall e :: e in old(View()) ==> !MatchesPacket(test, e.pattern, packet)
    {
      hide Above, Ordered, Image, Entries, KeepsKeys, IsBest, Mapped, MatchesWithWildcards;
      ghost var was := table.table;
      ghost var f := (x: Entry) => if IsBest(test, Entries(was), packet, x) then Touched(x, now) else x;
      found := table.EntryForPacket(packet);
      if found.Some? {
        HitInTable(test, was, packet, found.value);
        var n := table.Touch(found.value, now);
        TouchedIsMapped(test, was, packet, now, n);
      } else {
        NoneTouched(test, was, packet, now);
      }
      TouchKeepsKeys(test, Entries(was), packet, now);
      MappedOrdered(was, f);
      MappedEntries(was, f);
      MappedIds(was, f, nextId);
      nextId := nextId + 1;
    }

    method RemoveExpired(now: real)
      requires Valid()
      modifies this, table
      ensures Valid() && nextId == old(nextId) + 1
      ensures (View(), Done) == Apply(test, max, old(View()), old(nextId), Expire(now))
    {
      hide Above, Ordered, IsIdleTimedOut, IsHardTimedOut, Entries, Keep;
      ghost var was := table.table;
      var idle, hard := table.RemoveExpiredEntries(now);
      nextId := nextId + 1;
      KeepEntries(was, (e: Entry) => !IsIdleTimedOut(e, now) && !IsHardTimedOut(e, now));
      KeepWithin(was, (e: Entry) => !IsIdleTimedOut(e, now) && !IsHardTimedOut(e, now));
      assert View() == Unexpired(Entries(was), now);
    }

    /** The switch does to its ordered table what the specification does to an unordered set. */
    method HandleEvent(event: Event) returns (reply: Reply)
      requires Valid()
      modifies this, table
      ensures Valid() && nextId == old(nextId) + 1
      ensures (View(), reply) == Apply(test, max, old(View()), old(nextId), event)
    {
      hide AddTo, ModifyIn, TouchIn, DeleteFrom, Hit, Unexpired, Valid, View, IsBest;
      match event {
        case Expire(at) =>
          RemoveExpired(at);
          reply := Done;
        case Packet(packet, at) =>
          var _ := RxPacket(packet, at);
          reply := Done;
        case Handle(mod, at) =>
          match mod.command {
            case Add => reply := FlowModAdd(mod, at);
            case Modify | ModifyStrict => reply := FlowModModify(mod, at);
            case Delete | DeleteStrict => reply := FlowModDelete(mod, at);
          }
      }
    }

    method RemoveSameKey(mod: FlowMod)
      requires Valid()
      modifies table
      ensures Valid()
      ensures View() == WithoutKey(old(View()), mod.pattern, mod.priority)
      ensures forall e :: e in table.table ==> e in old(table.table)
    {
      hide Above, Ordered, Same, Entries, Keep;
      ghost var was := table.table;
      var s := Selector(mod.pattern, mod.priority, true, None);
      var removed := table.RemoveMatchingEntries(s);
      KeepEntries(was, (e: Entry) => !IsMatchedBy(test, e, s));
      forall e | e in table.table
        ensures e in was
      {
        KeepIn(was, (e: Entry) => !IsMatchedBy(test, e, s), e);
      }
    }
  }

  lemma AllEntries(t: seq<Entry>)
    ensures forall x :: x in Entries(t) <==> x in t
  {
  }
}
