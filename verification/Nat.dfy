/** Network address and port translation: the port allocator, the record tables and the two flows of a record. */
module Nat {
  import opened Wrappers

  /** A TCP or UDP packet as the translator sees it. */
  datatype Packet = Packet(dlSrc: nat, dlDst: nat, nwSrc: nat, nwDst: nat, tpSrc: nat, tpDst: nat,
                           dlType: nat, proto: nat)

  /** A stripped match; the two fields that may be left open are optional. */
  datatype Key = Key(dlSrc: nat, dlDst: Option<nat>, nwSrc: nat, nwDst: nat, tpSrc: nat, tpDst: Option<nat>,
                     dlType: nat, proto: nat)

  datatype Action =
    | SetDlSrc(mac: nat) | SetDlDst(mac: nat)
    | SetNwSrc(ip: nat) | SetNwDst(ip: nat)
    | SetTpSrc(port: Option<nat>) | SetTpDst(port: Option<nat>)
    | Output(to: nat)

  datatype Flow = Flow(key: Key, inPort: nat, actions: seq<Action>)

  datatype Config = Config(insideIp: nat, outsideIp: nat, dnsIp: Option<nat>, outsidePort: nat, outsideEth: nat)

  /** What a record was made from. */
  datatype Origin = Origin(packet: Packet, port: nat, gateway: nat, dns: bool)

  const TCP: nat := 6
  const UDP: nat := 17
  const FIRST_PORT: nat := 49152
  const END_PORT: nat := 65534
  const FLOW_MEMORY_TIMEOUT: real := 600.0

  function KeyOf(p: Packet): Key {
    Key(p.dlSrc, Some(p.dlDst), p.nwSrc, p.nwDst, p.tpSrc, Some(p.tpDst), p.dlType, p.proto)
  }

  predicate Matches(f: Flow, p: Packet, inPort: nat) {
    && inPort == f.inPort
    && p.dlSrc == f.key.dlSrc && (f.key.dlDst.Some? ==> p.dlDst == f.key.dlDst.value)
    && p.nwSrc == f.key.nwSrc && p.nwDst == f.key.nwDst
    && p.tpSrc == f.key.tpSrc && (f.key.tpDst.Some? ==> p.tpDst == f.key.tpDst.value)
    && p.dlType == f.key.dlType && p.proto == f.key.proto
  }

  function Set(p: Packet, a: Action): Packet {
    match a
    case SetDlSrc(mac) => p.(dlSrc := mac)
    case SetDlDst(mac) => p.(dlDst := mac)
    case SetNwSrc(ip) => p.(nwSrc := ip)
    case SetNwDst(ip) => p.(nwDst := ip)
    case SetTpSrc(port) => if port.Some? then p.(tpSrc := port.value) else p
    case SetTpDst(port) => if port.Some? then p.(tpDst := port.value) else p
    case Output(to) => p
  }

  datatype Sent = Sent(packet: Packet, port: nat)

  /** What comes out when the actions are applied in turn. */
  function Emitted(p: Packet, actions: seq<Action>): seq<Sent>
    decreases |actions|
  {
    if actions == [] then []
    else (if actions[0].Output? then [Sent(p, actions[0].to)] else []) + Emitted(Set(p, actions[0]), actions[1..])
  }

  function Reply(p: Packet): Packet {
    p.(dlSrc := p.dlDst, dlDst := p.dlSrc, nwSrc := p.nwDst, nwDst := p.nwSrc, tpSrc := p.tpDst, tpDst := p.tpSrc)
  }

  // ----- The two flows of a record --------------------------------------------------------------

  function Or(v: Option<nat>, d: nat): nat { if v.Some? then v.value else d }

  function When(condition: bool, a: Action): seq<Action> { if condition then [a] else [] }

  function IncomingFlow(c: Config, o: Origin, fake: Option<nat>): Flow {
    var p := o.packet;
    Flow(Key(o.gateway, None, if o.dns then Or(c.dnsIp, 0) else p.nwDst, c.outsideIp, p.tpDst, fake, p.dlType, p.proto),
         c.outsidePort,
         [SetDlSrc(p.dlDst)] + ([SetDlDst(p.dlSrc)] + ([SetNwDst(p.nwSrc)]
         + (When(o.dns, SetNwSrc(c.insideIp))
         + (When(fake != Some(p.tpSrc), SetTpDst(Some(p.tpSrc)))
         + [Output(o.port)])))))
  }

  function OutgoingFlow(c: Config, o: Origin, fake: Option<nat>): Flow {
    var p := o.packet;
    Flow(KeyOf(p), o.port,
         [SetDlSrc(c.outsideEth)] + ([SetNwSrc(c.outsideIp)]
         + (When(o.dns, SetNwDst(Or(c.dnsIp, 0)))
         + (When(fake != Some(p.tpSrc), SetTpSrc(fake))
         + ([SetDlDst(o.gateway)] + [Output(c.outsidePort)])))))
  }

  /** A flow with an open port in an action cannot be encoded. */
  predicate Encodes(actions: seq<Action>) {
    forall a :: a in actions ==> a != SetTpSrc(None) && a != SetTpDst(None)
  }

  predicate GoodOrigin(c: Config, o: Origin) {
    o.dns ==> c.dnsIp.Some? && o.packet.nwDst == c.insideIp
  }

  // ----- Translation and its inverse ------------------------------------------------------------

  lemma Step(p: Packet, condition: bool, a: Action, rest: seq<Action>)
    requires !a.Output?
    ensures Emitted(p, When(condition, a) + rest) == Emitted(if condition then Set(p, a) else p, rest)
  {
    if condition {
      assert ([a] + rest)[1..] == rest;
    } else {
      assert [] + rest == rest;
    }
  }

  lemma Last(p: Packet, to: nat)
    ensures Emitted(p, [Output(to)]) == [Sent(p, to)]
  {
  }

  function Outward(c: Config, o: Origin, fake: nat, p: Packet): Packet {
    p.(dlSrc := c.outsideEth, dlDst := o.gateway, nwSrc := c.outsideIp,
       nwDst := if o.dns then Or(c.dnsIp, 0) else p.nwDst, tpSrc := fake)
  }

  /** The outgoing flow sends each packet it matches once, outside, from the translator's address and port. */
  lemma OutgoingTranslates(c: Config, o: Origin, fake: nat, p: Packet)
    requires KeyOf(p) == KeyOf(o.packet)
    ensures Emitted(p, OutgoingFlow(c, o, Some(fake)).actions) == [Sent(Outward(c, o, fake, p), c.outsidePort)]
  {
    hide Emitted, When;
    var dns, port := SetNwDst(Or(c.dnsIp, 0)), SetTpSrc(Some(fake));
    var e := [SetDlDst(o.gateway)] + [Output(c.outsidePort)];
    var d := When(Some(fake) != Some(p.tpSrc), port) + e;
    var b := When(o.dns, dns) + d;
    var a := [SetNwSrc(c.outsideIp)] + b;
    var p1 := p.(dlSrc := c.outsideEth);
    var p2 := p1.(nwSrc := c.outsideIp);
    var p3 := if o.dns then Set(p2, dns) else p2;
    var p4 := if Some(fake) != Some(p.tpSrc) then Set(p3, port) else p3;
    Always(p, SetDlSrc(c.outsideEth), a);
    Always(p1, SetNwSrc(c.outsideIp), b);
    Step(p2, o.dns, dns, d);
    Step(p3, Some(fake) != Some(p.tpSrc), port, e);
    Always(p4, SetDlDst(o.gateway), [Output(c.outsidePort)]);
    Last(Set(p4, SetDlDst(o.gateway)), c.outsidePort);
  }

  lemma Always(p: Packet, a: Action, rest: seq<Action>)
    requires !a.Output?
    ensures Emitted(p, [a] + rest) == Emitted(Set(p, a), rest)
  {
    assert ([a] + rest)[1..] == rest;
  }

  /** A reply to a translated packet, whatever its destination MAC, is matched by the incoming flow, which
      turns it into the reply to the packet that was sent inside. */
  lemma IncomingInverts(c: Config, o: Origin, fake: nat, p: Packet, mac: nat)
    requires KeyOf(p) == KeyOf(o.packet) && GoodOrigin(c, o)
    ensures var q := Reply(Outward(c, o, fake, p)).(dlDst := mac);
            var f := IncomingFlow(c, o, Some(fake));
            Matches(f, q, c.outsidePort) && Emitted(q, f.actions) == [Sent(Reply(p), o.port)]
  {
    hide Emitted, When;
    var q := Reply(Outward(c, o, fake, p)).(dlDst := mac);
    var changed := Some(fake) != Some(p.tpSrc);
    var dns, port := SetNwSrc(c.insideIp), SetTpDst(Some(p.tpSrc));
    var d := When(changed, port) + [Output(o.port)];
    var e := When(o.dns, dns) + d;
    var b := [SetNwDst(p.nwSrc)] + e;
    var a := [SetDlDst(p.dlSrc)] + b;
    var q1 := q.(dlSrc := p.dlDst);
    var q2 := q1.(dlDst := p.dlSrc);
    var q3 := q2.(nwDst := p.nwSrc);
    var q4 := if o.dns then Set(q3, dns) else q3;
    Always(q, SetDlSrc(p.dlDst), a);
    Always(q1, SetDlDst(p.dlSrc), b);
    Always(q2, SetNwDst(p.nwSrc), e);
    Step(q3, o.dns, dns, d);
    Step(q4, changed, port, [Output(o.port)]);
    Last(if changed then Set(q4, port) else q4, o.port);
  }

  // ----- Ports ----------------------------------------------------------------------------------

  /** The ports the allocator tries from a given start. */
  predicate Probed(start: nat, port: nat) {
    port == start || start <= port < 65534 || 49152 <= port < 65534
  }

  /** Tried before this port: all of these are taken when the port is given out. */
  predicate ProbedBefore(start: nat, port: nat, earlier: nat) {
    if port >= start then start <= earlier < port
    else earlier == start || start <= earlier < 65534 || 49152 <= earlier < port
  }

  /** Every port that would be tried is taken for this protocol. */
  ghost predicate Exhausted(used: set<(nat, nat)>, proto: nat, start: nat) {
    forall p: nat :: Probed(start, p) ==> (proto, p) in used
  }

  function Start(tpSrc: nat, random: nat): nat { if tpSrc < 1024 then random else tpSrc }

  // ----- Records --------------------------------------------------------------------------------

  class Record {
    const outgoing: Flow
    const incoming: Flow
    const fake: Option<nat>
    ghost const origin: Origin
    var expiresAt: real

    constructor (c: Config, o: Origin, fake: Option<nat>, now: real)
      ensures outgoing == OutgoingFlow(c, o, fake) && incoming == IncomingFlow(c, o, fake)
      ensures this.fake == fake && origin == o && expiresAt == now + 600.0
    {
      outgoing, incoming := OutgoingFlow(c, o, fake), IncomingFlow(c, o, fake);
      this.fake, origin := fake, o;
      expiresAt := now + FLOW_MEMORY_TIMEOUT;
    }

    ghost predicate MadeFor(c: Config) {
      && GoodOrigin(c, origin)
      && outgoing == OutgoingFlow(c, origin, fake) && incoming == IncomingFlow(c, origin, fake)
    }

    function Proto(): nat { outgoing.key.proto }
  }

  /** Records are under their own keys; those with a port are in both tables, and the incoming table holds
      live records only. A record without a port may have lost its incoming entry to another. */
  ghost predicate Tables(out: map<Key, Record>, inc: map<Key, Record>) {
    && (forall k :: k in out ==> out[k].outgoing.key == k)
    && (forall k :: k in out && out[k].fake.Some? ==> out[k].incoming.key in inc && inc[out[k].incoming.key] == out[k])
    && (forall k :: k in inc ==>
          inc[k].incoming.key == k && inc[k].outgoing.key in out && out[inc[k].outgoing.key] == inc[k])
  }

  /** The ports in use are exactly those of the live records, one record each. */
  ghost predicate PortsOf(out: map<Key, Record>, used: set<(nat, nat)>) {
    && (forall k :: k in out && out[k].fake.Some? ==> (out[k].Proto(), out[k].fake.value) in used)
    && (forall u :: u in used ==> exists k :: k in out && out[k].fake == Some(u.1) && out[k].Proto() == u.0)
    && (forall k, l ::
          (k in out && l in out && out[k].fake.Some? && out[k].fake == out[l].fake && out[k].Proto() == out[l].Proto())
          ==> k == l)
  }

  /** What holds in every state, also after the ports ran out and after an expiry that raised. */
  ghost predicate Inv(c: Config, out: map<Key, Record>, inc: map<Key, Record>, used: set<(nat, nat)>) {
    && Tables(out, inc) && PortsOf(out, used)
    && forall k :: k in out ==> out[k].MadeFor(c)
  }

  ghost predicate AllHavePorts(out: map<Key, Record>) {
    forall k :: k in out ==> out[k].fake.Some?
  }

  /** The two tables hold the same records and invert each other. */
  ghost predicate Inverse(out: map<Key, Record>, inc: map<Key, Record>) {
    && (forall k :: k in out ==>
          out[k].outgoing.key == k && out[k].incoming.key in inc && inc[out[k].incoming.key] == out[k])
    && (forall k :: k in inc ==>
          inc[k].incoming.key == k && inc[k].outgoing.key in out && out[inc[k].outgoing.key] == inc[k])
  }

  /** While every record has a port, the tables invert each other. */
  lemma PortsMeanInverse(c: Config, out: map<Key, Record>, inc: map<Key, Record>, used: set<(nat, nat)>)
    requires Inv(c, out, inc, used) && AllHavePorts(out)
    ensures Inverse(out, inc)
  {
  }

  class NAT {
    const config: Config
    var gatewayEth: Option<nat>
    var usedPorts: set<(nat, nat)>
    var recordByOutgoing: map<Key, Record>
    var recordByIncoming: map<Key, Record>

    ghost predicate Valid()
      reads this
    {
      Inv(config, recordByOutgoing, recordByIncoming, usedPorts)
    }

    constructor (config: Config)
      ensures Valid() && this.config == config && gatewayEth == None
      ensures recordByOutgoing == map[] && recordByIncoming == map[] && usedPorts == {}
    {
      this.config := config;
      gatewayEth := None;
      usedPorts, recordByOutgoing, recordByIncoming := {}, map[], map[];
    }

    /** Gives the first free port in probing order; gives none exactly when every port it would try is taken. */
    method PickPort(flow: Key, random: nat) returns (port: Option<nat>)
      requires FIRST_PORT <= random <= END_PORT && flow.tpSrc < 0x10000
      modifies this`usedPorts
      ensures var start := Start(flow.tpSrc, random);
              && (port.None? <==> Exhausted(old(usedPorts), flow.proto, start))
              && (port.Some? ==> Probed(start, port.value)
                                 && forall p: nat ::
                                      ProbedBefore(start, port.value, p) ==> (flow.proto, p) in old(usedPorts))
      ensures port.Some? ==> 1024 <= port.value < 0x10000 && (flow.proto, port.value) !in old(usedPorts)
      ensures usedPorts == old(usedPorts) + if port.Some? then {(flow.proto, port.value)} else {}
    {
      var p := flow.tpSrc;
      if p < 1024 {
        p := random;
      }
      ghost var start := p;
      var cycle := 0;
      while cycle < 2
        modifies {}
        invariant 0 <= cycle <= 2 && 1024 <= p < 0x10000
        invariant cycle == 0 ==> start <= p && (p == start || p < END_PORT)
                                 && forall q: nat :: start <= q < p ==> (flow.proto, q) in usedPorts
        invariant cycle > 0 ==> FIRST_PORT <= p < END_PORT && (flow.proto, start) in usedPorts
                                && forall q: nat :: start <= q < END_PORT ==> (flow.proto, q) in usedPorts
        invariant cycle > 0 ==>
                    forall q: nat ::
                      FIRST_PORT <= q < (if cycle == 1 then p else END_PORT) ==> (flow.proto, q) in usedPorts
        decreases 2 - cycle, 0x10000 - p
      {
        if (flow.proto, p) !in usedPorts {
          break;
        }
        p := p + 1;
        if p >= END_PORT {
          p := FIRST_PORT;
          cycle := cycle + 1;
        }
      }
      if cycle == 2 {
        return None;
      }
      usedPorts := usedPorts + {(flow.proto, p)};
      return Some(p);
    }

    /** One record more, in both tables, on the port found for it, if any. The tables still invert each other
        exactly if they did and a record without a port pushed no other out of the incoming table. */
    method Create(o: Origin, random: nat, now: real) returns (r: Record)
      requires Valid() && GoodOrigin(config, o) && KeyOf(o.packet) !in recordByOutgoing
      requires FIRST_PORT <= random <= END_PORT && o.packet.tpSrc < 0x10000
      modifies this`usedPorts, this`recordByOutgoing, this`recordByIncoming
      ensures Valid()
      ensures fresh(r) && r.origin == o && r.expiresAt == now + FLOW_MEMORY_TIMEOUT
      ensures r.outgoing == OutgoingFlow(config, o, r.fake) && r.incoming == IncomingFlow(config, o, r.fake)
      ensures recordByOutgoing == old(recordByOutgoing)[KeyOf(o.packet) := r]
      ensures recordByIncoming == old(recordByIncoming)[r.incoming.key := r]
      ensures r.fake.None? <==> Exhausted(old(usedPorts), o.packet.proto, Start(o.packet.tpSrc, random))
      ensures Inverse(recordByOutgoing, recordByIncoming)
              <==> old(Inverse(recordByOutgoing, recordByIncoming)) && r.incoming.key !in old(recordByIncoming)
      ensures r.fake.Some? ==> r.incoming.key !in old(recordByIncoming)
      ensures Encodes(r.outgoing.actions) <==> r.fake.Some?
    {
      hide Inv, Inverse, OutgoingFlow, IncomingFlow, Encodes, Exhausted;
      var fake := PickPort(KeyOf(o.packet), random);
      r := new Record(config, o, fake, now);
      KeyFacts(config, o, fake);
      OutgoingEncodes(config, o, fake);
      if fake.Some? {
        CreateKeeps(config, recordByOutgoing, recordByIncoming, old(usedPorts), r);
      } else {
        assert usedPorts == old(usedPorts);
        PortlessKeeps(config, recordByOutgoing, recordByIncoming, old(usedPorts), r);
      }
      CreateInverse(config, recordByOutgoing, recordByIncoming, old(usedPorts), r);
      recordByIncoming := recordByIncoming[r.incoming.key := r];
      recordByOutgoing := recordByOutgoing[r.outgoing.key := r];
    }

    /** Drops the expired records. It raises a key error exactly when one of them has no port; even then
        every record not yet expired stays where it was. */
    method Expire(now: real) returns (raised: bool)
      requires Valid()
      modifies this`usedPorts, this`recordByOutgoing, this`recordByIncoming
      ensures Valid()
      ensures raised <==> exists k :: k in old(recordByOutgoing) && now > old(recordByOutgoing)[k].expiresAt
                                      && old(recordByOutgoing)[k].fake.None?
      ensures forall k :: k in recordByOutgoing ==>
                k in old(recordByOutgoing) && recordByOutgoing[k] == old(recordByOutgoing)[k]
      ensures forall k :: k in old(recordByOutgoing) && now <= old(recordByOutgoing)[k].expiresAt
                ==> k in recordByOutgoing
      ensures !raised ==>
                && (forall k :: k in recordByOutgoing ==> now <= old(recordByOutgoing)[k].expiresAt)
                && (forall k :: k in recordByIncoming <==>
                                k in old(recordByIncoming) && now <= old(recordByIncoming)[k].expiresAt)
                && (forall k :: k in recordByIncoming ==> recordByIncoming[k] == old(recordByIncoming)[k])
    {
      hide Inv, Left;
      ghost var was, wasIn := recordByOutgoing, recordByIncoming;
      var dead := set k | k in recordByOutgoing && now > recordByOutgoing[k].expiresAt :: recordByOutgoing[k];
      ghost var all := dead;
      OwnKeys(config, was, wasIn, usedPorts);
      NoneLeft(was, all - dead);
      NoneLeft(wasIn, all - dead);
      while dead != {}
        modifies this`usedPorts, this`recordByOutgoing, this`recordByIncoming
        invariant dead <= all
        invariant forall r :: r in all && r !in dead ==> r.fake.Some?
        invariant Valid()
        invariant Left(was, recordByOutgoing, all - dead) && Left(wasIn, recordByIncoming, all - dead)
      {
        var r: Record :| r in dead;
        ghost var gone := all - dead;
        ExpireFinds(config, was, recordByOutgoing, recordByIncoming, usedPorts, gone, r);
        DropLeft(was, recordByOutgoing, gone, r, r.outgoing.key);
        if r.fake.None? {
          DropPortless(config, recordByOutgoing, recordByIncoming, usedPorts, r);
          if r.incoming.key !in recordByIncoming {
            DropUnlisted(config, recordByOutgoing, recordByIncoming, usedPorts, r);
          }
          LeftMeans(was, recordByOutgoing - {r.outgoing.key}, gone + {r});
        } else {
          DropPorted(config, recordByOutgoing, recordByIncoming, usedPorts, r);
          DropLeft(wasIn, recordByIncoming, gone, r, r.incoming.key);
        }
        assert all - (dead - {r}) == gone + {r};
        dead := dead - {r};
        if r.outgoing.key !in recordByOutgoing {
          return true;
        }
        recordByOutgoing := recordByOutgoing - {r.outgoing.key};
        if r.incoming.key !in recordByIncoming {
          return true;
        }
        recordByIncoming := recordByIncoming - {r.incoming.key};
        if r.fake.None? || (r.Proto(), r.fake.value) !in usedPorts {
          return true;
        }
        usedPorts := usedPorts - {(r.Proto(), r.fake.value)};
      }
      LeftMeans(was, recordByOutgoing, all - dead);
      LeftMeans(wasIn, recordByIncoming, all - dead);
      return false;
    }

    predicate IsDnsHack(p: Packet, incoming: bool) {
      p.proto == UDP && p.tpDst == 53 && p.nwDst == config.insideIp && config.dnsIp.Some? && !incoming
    }

    /** Whether a packet is the translator's business; `local` says that its destination is a local address. */
    predicate Handled(p: Packet, port: nat, local: bool)
      reads this
    {
      && gatewayEth.Some? && p.proto in {6, 17}
      && if port == config.outsidePort then p.nwDst == config.outsideIp else !local || IsDnsHack(p, false)
    }

    method HandlePacketIn(p: Packet, port: nat, local: bool, random: nat, now: real) returns (outcome: Outcome)
      requires Valid() && FIRST_PORT <= random <= END_PORT && p.tpSrc < 0x10000
      modifies this`usedPorts, this`recordByOutgoing, this`recordByIncoming
      modifies set k | k in recordByOutgoing :: recordByOutgoing[k]
      ensures !old(Handled(p, port, local)) ==>
                outcome == (if gatewayEth.None? then AskedForGateway else Ignored) && usedPorts == old(usedPorts)
                && recordByOutgoing == old(recordByOutgoing) && recordByIncoming == old(recordByIncoming)
      ensures old(Handled(p, port, local)) && port == config.outsidePort ==>
                && usedPorts == old(usedPorts)
                && recordByOutgoing == old(recordByOutgoing) && recordByIncoming == old(recordByIncoming)
                && var k := KeyOf(p).(dlDst := None);
                   && (k in old(recordByIncoming) ==>
                         recordByIncoming[k].expiresAt == now + FLOW_MEMORY_TIMEOUT)
                   && outcome == if k in old(recordByIncoming)
                                 then FlowsSent(old(recordByIncoming)[k].outgoing, old(recordByIncoming)[k].incoming)
                                 else Dropping
      ensures forall r: Record :: old(allocated(r)) && r.expiresAt != old(r.expiresAt) ==>
                && r.expiresAt == now + FLOW_MEMORY_TIMEOUT
                && (outcome == FlowsSent(r.incoming, r.outgoing) || outcome == FlowsSent(r.outgoing, r.incoming)
                    || (outcome == EncodingFailed && KeyOf(p) in recordByOutgoing && r == recordByOutgoing[KeyOf(p)]))
      ensures old(Handled(p, port, local)) && port != config.outsidePort ==>
                && KeyOf(p) in recordByOutgoing && recordByOutgoing.Keys == old(recordByOutgoing.Keys) + {KeyOf(p)}
                && (forall k :: k in old(recordByOutgoing) ==> recordByOutgoing[k] == old(recordByOutgoing)[k])
                && recordByOutgoing[KeyOf(p)].expiresAt == now + FLOW_MEMORY_TIMEOUT
                && outcome == if recordByOutgoing[KeyOf(p)].fake.None? then EncodingFailed
                              else FlowsSent(recordByOutgoing[KeyOf(p)].incoming, recordByOutgoing[KeyOf(p)].outgoing)
      ensures old(Handled(p, port, local)) && port != config.outsidePort && KeyOf(p) !in old(recordByOutgoing) ==>
                recordByOutgoing[KeyOf(p)].origin
                == Origin(p, port, gatewayEth.value,
                          p.proto == 17 && p.tpDst == 53 && p.nwDst == config.insideIp && config.dnsIp.Some?)
      ensures Valid()
      ensures AllHavePorts(recordByOutgoing) <==>
                old(AllHavePorts(recordByOutgoing))
                && !(&& old(Handled(p, port, local)) && port != config.outsidePort
                     && KeyOf(p) !in old(recordByOutgoing)
                     && Exhausted(old(usedPorts), p.proto, Start(p.tpSrc, random)))
    {
      hide OutgoingFlow, IncomingFlow, Exhausted, Encodes, Inv, AllHavePorts;
      var incoming := port == config.outsidePort;
      if gatewayEth.None? {
        return AskedForGateway;
      }
      if p.proto !in {TCP, UDP} {
        return Ignored;
      }
      var dnsHack := IsDnsHack(p, incoming);
      if !incoming {
        if local && !dnsHack {
          return Ignored;
        }
      } else if p.nwDst != config.outsideIp {
        return Ignored;
      }
      var r: Record;
      if incoming {
        var k := KeyOf(p).(dlDst := None);
        if k !in recordByIncoming {
          return Dropping;
        }
        IncomingIsLive(config, recordByOutgoing, recordByIncoming, usedPorts, k);
        r := recordByIncoming[k];
        r.expiresAt := now + FLOW_MEMORY_TIMEOUT;
        return FlowsSent(r.outgoing, r.incoming);
      }
      if KeyOf(p) !in recordByOutgoing {
        r := Create(Origin(p, port, gatewayEth.value, dnsHack), random, now);
        PortsAfter(old(recordByOutgoing), KeyOf(p), r);
      } else {
        LiveEncodes(config, recordByOutgoing, recordByIncoming, usedPorts, KeyOf(p));
        r := recordByOutgoing[KeyOf(p)];
        r.expiresAt := now + FLOW_MEMORY_TIMEOUT;
      }
      if !Encodes(r.outgoing.actions) {
        return EncodingFailed;
      }
      return FlowsSent(r.incoming, r.outgoing);
    }
  }

  /** The records of a table that are not among those gone. */
  ghost predicate Left(was: map<Key, Record>, now: map<Key, Record>, gone: set<Record>) {
    forall k :: (k in now <==> k in was && was[k] !in gone) && (k in now ==> now[k] == was[k])
  }

  lemma NoneLeft(was: map<Key, Record>, gone: set<Record>)
    requires gone == {}
    ensures Left(was, was, gone)
  {
  }

  lemma LeftMeans(was: map<Key, Record>, now: map<Key, Record>, gone: set<Record>)
    requires Left(was, now, gone)
    ensures forall k :: (k in now <==> k in was && was[k] !in gone) && (k in now ==> now[k] == was[k])
  {
  }

  lemma DropLeft(was: map<Key, Record>, now: map<Key, Record>, gone: set<Record>, r: Record, key: Key)
    requires Left(was, now, gone) && key in now && now[key] == r
    requires forall k :: k in was && was[k] == r ==> k == key
    ensures Left(was, now - {key}, gone + {r})
  {
  }

  lemma OwnKeys(c: Config, out: map<Key, Record>, inc: map<Key, Record>, used: set<(nat, nat)>)
    requires Inv(c, out, inc, used)
    ensures forall k :: k in out ==> out[k].outgoing.key == k
    ensures forall k :: k in inc ==>
              inc[k].incoming.key == k && inc[k].outgoing.key in out && out[inc[k].outgoing.key] == inc[k]
  {
  }

  lemma ExpireFinds(c: Config, was: map<Key, Record>, out: map<Key, Record>, inc: map<Key, Record>,
                    used: set<(nat, nat)>, gone: set<Record>, r: Record)
    requires Inv(c, out, inc, used) && Left(was, out, gone) && r !in gone
    requires exists k :: k in was && was[k] == r
    requires forall k :: k in was ==> was[k].outgoing.key == k
    ensures r.outgoing.key in out && out[r.outgoing.key] == r
    ensures r.fake.Some? ==>
              r.incoming.key in inc && inc[r.incoming.key] == r && (r.Proto(), r.fake.value) in used
  {
  }

  /** Dropping a record with a port from both tables and freeing its port. */
  lemma DropPorted(c: Config, out: map<Key, Record>, inc: map<Key, Record>, used: set<(nat, nat)>, r: Record)
    requires Inv(c, out, inc, used) && r.outgoing.key in out && out[r.outgoing.key] == r && r.fake.Some?
    ensures Inv(c, out - {r.outgoing.key}, inc - {r.incoming.key}, used - {(r.Proto(), r.fake.value)})
  {
    assert inc[r.incoming.key] == r;
    DropTables(out, inc, r);
    DropPort(out, used, r);
    hide Tables, PortsOf, Record.MadeFor;
  }

  lemma DropTables(out: map<Key, Record>, inc: map<Key, Record>, r: Record)
    requires Tables(out, inc) && r.outgoing.key in out && out[r.outgoing.key] == r
    requires forall k :: k in out && out[k].fake.Some? && out[k].incoming.key == r.incoming.key ==> out[k] == r
    ensures Tables(out - {r.outgoing.key}, inc - {r.incoming.key})
  {
  }

  lemma DropPort(out: map<Key, Record>, used: set<(nat, nat)>, r: Record)
    requires PortsOf(out, used) && r.fake.Some? && r.outgoing.key in out && out[r.outgoing.key] == r
    ensures PortsOf(out - {r.outgoing.key}, used - {(r.Proto(), r.fake.value)})
  {
    var less := out - {r.outgoing.key};
    forall u | u in used && u != (r.Proto(), r.fake.value)
      ensures exists k :: k in less && less[k].fake == Some(u.1) && less[k].Proto() == u.0
    {
      var k :| k in out && out[k].fake == Some(u.1) && out[k].Proto() == u.0;
      assert k in less && less[k] == out[k];
    }
  }

  /** Dropping a record without a port takes at most another such record's incoming entry with it. */
  lemma DropPortless(c: Config, out: map<Key, Record>, inc: map<Key, Record>, used: set<(nat, nat)>, r: Record)
    requires Inv(c, out, inc, used) && r.outgoing.key in out && out[r.outgoing.key] == r && r.fake.None?
    ensures Inv(c, out - {r.outgoing.key}, inc - {r.incoming.key}, used)
  {
    PortlessApart(c, out, r);
    DropTables(out, inc, r);
    DropNoPort(out, used, r);
    hide Tables, PortsOf, Record.MadeFor;
  }

  lemma DropUnlisted(c: Config, out: map<Key, Record>, inc: map<Key, Record>, used: set<(nat, nat)>, r: Record)
    requires Inv(c, out, inc, used) && r.outgoing.key in out && out[r.outgoing.key] == r && r.fake.None?
    requires r.incoming.key !in inc
    ensures Inv(c, out - {r.outgoing.key}, inc, used)
  {
    hide *;
    DropPortless(c, out, inc, used, r);
    assert inc - {r.incoming.key} == inc;
  }

  /** The incoming match of a record without a port is never that of one with a port. */
  lemma PortlessApart(c: Config, out: map<Key, Record>, r: Record)
    requires r.MadeFor(c) && r.fake.None? && forall k :: k in out ==> out[k].MadeFor(c)
    ensures forall k :: k in out && out[k].fake.Some? ==> out[k].incoming.key != r.incoming.key
  {
    hide Record.MadeFor;
    MadeFacts(c, r);
    forall k | k in out && out[k].fake.Some?
      ensures out[k].incoming.key != r.incoming.key
    {
      MadeFacts(c, out[k]);
    }
  }

  lemma DropNoPort(out: map<Key, Record>, used: set<(nat, nat)>, r: Record)
    requires PortsOf(out, used) && r.fake.None? && r.outgoing.key in out && out[r.outgoing.key] == r
    ensures PortsOf(out - {r.outgoing.key}, used)
  {
    var less := out - {r.outgoing.key};
    forall u | u in used
      ensures exists k :: k in less && less[k].fake == Some(u.1) && less[k].Proto() == u.0
    {
      var k :| k in out && out[k].fake == Some(u.1) && out[k].Proto() == u.0;
      assert k in less && less[k] == out[k];
    }
  }

  /** What handling a packet leads to; `Dropping` installs a flow that ignores such packets for a while. */
  datatype Outcome = Ignored | AskedForGateway | Dropping | FlowsSent(first: Flow, second: Flow) | EncodingFailed

  lemma EncodesJoin(a: seq<Action>, b: seq<Action>)
    ensures Encodes(a + b) <==> Encodes(a) && Encodes(b)
  {
    forall x
      ensures x in a + b <==> x in a || x in b
    {
    }
  }

  lemma EncodesWhen(condition: bool, a: Action)
    ensures Encodes(When(condition, a)) <==> (condition ==> a != SetTpSrc(None) && a != SetTpDst(None))
    ensures Encodes([a]) <==> a != SetTpSrc(None) && a != SetTpDst(None)
  {
    if condition {
      assert a in When(condition, a);
    }
    assert a in [a];
  }

  lemma KeyFacts(c: Config, o: Origin, fake: Option<nat>)
    ensures OutgoingFlow(c, o, fake).key == KeyOf(o.packet)
    ensures IncomingFlow(c, o, fake).key.tpDst == fake && IncomingFlow(c, o, fake).key.proto == o.packet.proto
  {
  }

  /** Without a port the outgoing flow would set the source port to nothing. */
  lemma OutgoingEncodes(c: Config, o: Origin, fake: Option<nat>)
    ensures Encodes(OutgoingFlow(c, o, fake).actions) <==> fake.Some?
  {
    hide Encodes, When, KeyOf;
    var e := [SetDlDst(o.gateway)] + [Output(c.outsidePort)];
    var d := When(fake != Some(o.packet.tpSrc), SetTpSrc(fake)) + e;
    var b := When(o.dns, SetNwDst(Or(c.dnsIp, 0))) + d;
    var a := [SetNwSrc(c.outsideIp)] + b;
    EncodesJoin([SetDlSrc(c.outsideEth)], a);
    EncodesJoin([SetNwSrc(c.outsideIp)], b);
    EncodesJoin(When(o.dns, SetNwDst(Or(c.dnsIp, 0))), d);
    EncodesJoin(When(fake != Some(o.packet.tpSrc), SetTpSrc(fake)), e);
    EncodesJoin([SetDlDst(o.gateway)], [Output(c.outsidePort)]);
    EncodesWhen(o.dns, SetNwDst(Or(c.dnsIp, 0)));
    EncodesWhen(fake != Some(o.packet.tpSrc), SetTpSrc(fake));
    EncodesWhen(true, SetDlSrc(c.outsideEth));
    EncodesWhen(true, SetNwSrc(c.outsideIp));
    EncodesWhen(true, SetDlDst(o.gateway));
    EncodesWhen(true, Output(c.outsidePort));
  }

  lemma IncomingIsLive(c: Config, out: map<Key, Record>, inc: map<Key, Record>, used: set<(nat, nat)>, k: Key)
    requires Inv(c, out, inc, used) && k in inc
    ensures inc[k].outgoing.key in out && out[inc[k].outgoing.key] == inc[k]
  {
  }

  lemma LiveEncodes(c: Config, out: map<Key, Record>, inc: map<Key, Record>, used: set<(nat, nat)>, k: Key)
    requires Inv(c, out, inc, used) && k in out
    ensures Encodes(out[k].outgoing.actions) <==> out[k].fake.Some?
  {
    OutgoingEncodes(c, out[k].origin, out[k].fake);
    hide Encodes, Tables, PortsOf;
  }

  lemma PortsAfter(out: map<Key, Record>, k: Key, r: Record)
    requires k !in out
    ensures AllHavePorts(out[k := r]) <==> AllHavePorts(out) && r.fake.Some?
  {
    assert out[k := r][k] == r;
    assert forall l :: l in out ==> l in out[k := r] && out[k := r][l] == out[l];
  }

  /** No live record has a new record's incoming match if it got a port, because none has its port. */
  lemma CreateKeeps(c: Config, out: map<Key, Record>, inc: map<Key, Record>, used: set<(nat, nat)>, r: Record)
    requires Inv(c, out, inc, used) && r.MadeFor(c) && r.fake.Some?
    requires r.outgoing.key !in out && (r.Proto(), r.fake.value) !in used
    ensures r.incoming.key !in inc
    ensures Inv(c, out[r.outgoing.key := r], inc[r.incoming.key := r], used + {(r.Proto(), r.fake.value)})
  {
    MadeFacts(c, r);
    forall k | k in inc
      ensures k != r.incoming.key
    {
      MadeFacts(c, inc[k]);
    }
    CreateTables(out, inc, r);
    CreatePort(out, used, r);
    hide Tables, PortsOf, Record.MadeFor;
  }

  /** A record without a port can only push out another one's incoming entry. */
  lemma PortlessKeeps(c: Config, out: map<Key, Record>, inc: map<Key, Record>, used: set<(nat, nat)>, r: Record)
    requires Inv(c, out, inc, used) && r.MadeFor(c) && r.fake.None? && r.outgoing.key !in out
    ensures Inv(c, out[r.outgoing.key := r], inc[r.incoming.key := r], used)
  {
    PortlessApart(c, out, r);
    CreateTables(out, inc, r);
    CreateNoPort(out, used, r);
    hide Tables, PortsOf, Record.MadeFor;
  }

  lemma CreateTables(out: map<Key, Record>, inc: map<Key, Record>, r: Record)
    requires Tables(out, inc) && r.outgoing.key !in out
    requires forall k :: k in out && out[k].fake.Some? ==> out[k].incoming.key != r.incoming.key
    ensures Tables(out[r.outgoing.key := r], inc[r.incoming.key := r])
  {
  }

  lemma CreateInverse(c: Config, out: map<Key, Record>, inc: map<Key, Record>, used: set<(nat, nat)>, r: Record)
    requires Inv(c, out, inc, used) && r.outgoing.key !in out
    ensures Inverse(out[r.outgoing.key := r], inc[r.incoming.key := r])
            <==> Inverse(out, inc) && r.incoming.key !in inc
  {
    hide PortsOf, Record.MadeFor;
    var out', inc' := out[r.outgoing.key := r], inc[r.incoming.key := r];
    if Inverse(out', inc') {
      forall k | k in out
        ensures out[k].incoming.key in inc && inc[out[k].incoming.key] == out[k]
        ensures out[k].incoming.key != r.incoming.key
      {
        assert k in out' && out'[k] == out[k];
      }
      forall key | key in inc
        ensures key != r.incoming.key
      {
        assert out[inc[key].outgoing.key] == inc[key];
      }
    }
  }

  lemma CreateNoPort(out: map<Key, Record>, used: set<(nat, nat)>, r: Record)
    requires PortsOf(out, used) && r.fake.None? && r.outgoing.key !in out
    ensures PortsOf(out[r.outgoing.key := r], used)
  {
    var more := out[r.outgoing.key := r];
    forall u | u in used
      ensures exists k :: k in more && more[k].fake == Some(u.1) && more[k].Proto() == u.0
    {
      var k :| k in out && out[k].fake == Some(u.1) && out[k].Proto() == u.0;
      assert k in more && more[k] == out[k];
    }
  }

  lemma MadeFacts(c: Config, r: Record)
    requires r.MadeFor(c)
    ensures r.incoming.key.tpDst == r.fake && r.incoming.key.proto == r.Proto()
    ensures r.outgoing.key == KeyOf(r.origin.packet)
  {
    KeyFacts(c, r.origin, r.fake);
  }

  lemma CreatePort(out: map<Key, Record>, used: set<(nat, nat)>, r: Record)
    requires PortsOf(out, used) && r.fake.Some? && r.outgoing.key !in out && (r.Proto(), r.fake.value) !in used
    ensures PortsOf(out[r.outgoing.key := r], used + {(r.Proto(), r.fake.value)})
  {
    var more := out[r.outgoing.key := r];
    forall u | u in used
      ensures exists k :: k in more && more[k].fake == Some(u.1) && more[k].Proto() == u.0
    {
      var k :| k in out && out[k].fake == Some(u.1) && out[k].Proto() == u.0;
      assert k in more && more[k] == out[k];
    }
    assert more[r.outgoing.key] == r;
  }

  /** Replies to one live record's packets are never matched by the incoming flow of another with a port. */
  lemma NoCrossTalk(c: Config, out: map<Key, Record>, inc: map<Key, Record>, used: set<(nat, nat)>,
                    k: Key, l: Key, p: Packet, mac: nat)
    requires Inv(c, out, inc, used) && k in out && l in out && KeyOf(p) == k
    requires out[k].fake.Some? && out[l].fake.Some?
    requires var reply := Reply(Outward(c, out[k].origin, out[k].fake.value, p)).(dlDst := mac);
             Matches(out[l].incoming, reply, c.outsidePort)
    ensures l == k
  {
    MadeFacts(c, out[k]);
    MadeFacts(c, out[l]);
  }

  /** While a record with a port lives, its flows carry packets out and the replies back in, and no other
      such record's incoming flow takes those replies. Records without a port have no flows installed. */
  lemma LiveRecordTranslates(c: Config, out: map<Key, Record>, inc: map<Key, Record>, used: set<(nat, nat)>,
                             k: Key, p: Packet, mac: nat)
    requires Inv(c, out, inc, used) && k in out && out[k].fake.Some? && KeyOf(p) == k
    ensures var r := out[k];
            var sent := Outward(c, r.origin, r.fake.value, p);
            var reply := Reply(sent).(dlDst := mac);
            && Emitted(p, r.outgoing.actions) == [Sent(sent, c.outsidePort)]
            && sent.nwSrc == c.outsideIp && sent.tpSrc == r.fake.value
            && Emitted(reply, r.incoming.actions) == [Sent(Reply(p), r.origin.port)]
            && forall l :: l in out && out[l].fake.Some? ==>
                 (Matches(out[l].incoming, reply, c.outsidePort) <==> l == k)
  {
    hide OutgoingFlow, IncomingFlow, Matches, Emitted, PortsOf;
    var r := out[k];
    MadeFacts(c, r);
    OutgoingTranslates(c, r.origin, r.fake.value, p);
    IncomingInverts(c, r.origin, r.fake.value, p, mac);
    var reply := Reply(Outward(c, r.origin, r.fake.value, p)).(dlDst := mac);
    forall l | l in out && out[l].fake.Some? && Matches(out[l].incoming, reply, c.outsidePort)
      ensures l == k
    {
      NoCrossTalk(c, out, inc, used, k, l, p, mac);
    }
  }

  /** An outgoing flow takes a packet from the record's own port if it agrees in all eight fields; an incoming
      one takes from outside whatever the MAC it is addressed to, and without a port whatever the port. */
  lemma FlowsMatch(c: Config, o: Origin, fake: Option<nat>, p: Packet, port: nat)
    ensures Matches(OutgoingFlow(c, o, fake), p, port) <==> p == o.packet && port == o.port
    ensures Matches(IncomingFlow(c, o, fake), p, port)
            <==> && port == c.outsidePort && p.dlSrc == o.gateway && p.nwDst == c.outsideIp
                 && (fake.Some? ==> p.tpDst == fake.value)
                 && p.nwSrc == (if o.dns then Or(c.dnsIp, 0) else o.packet.nwDst) && p.tpSrc == o.packet.tpDst
                 && p.dlType == o.packet.dlType && p.proto == o.packet.proto
  {
  }

  /** From the packet that came in on a port inside, to the one that goes out to the gateway from the outside
      address, to the server's answer, which leaves by the port the packet came in on as the answer to it. A
      query to the translator itself for a name goes to the name server, which answers in its stead. */
  lemma ThereAndBack(c: Config, out: map<Key, Record>, inc: map<Key, Record>, used: set<(nat, nat)>,
                     p: Packet, port: nat, gateway: nat, mac: nat)
    requires Inv(c, out, inc, used) && KeyOf(p) in out && out[KeyOf(p)].fake.Some?
    requires var dns := p.proto == 17 && p.tpDst == 53 && p.nwDst == c.insideIp && c.dnsIp.Some?;
             out[KeyOf(p)].origin == Origin(p, port, gateway, dns)
    ensures var r := out[KeyOf(p)];
            var fake := r.fake.value;
            var server := if p.proto == 17 && p.tpDst == 53 && p.nwDst == c.insideIp && c.dnsIp.Some? then c.dnsIp.value
                          else p.nwDst;
            var there := Packet(c.outsideEth, gateway, c.outsideIp, server, fake, p.tpDst, p.dlType, p.proto);
            var answer := Packet(gateway, mac, server, c.outsideIp, p.tpDst, fake, p.dlType, p.proto);
            var back := Packet(p.dlDst, p.dlSrc, p.nwDst, p.nwSrc, p.tpDst, p.tpSrc, p.dlType, p.proto);
            && Matches(r.outgoing, p, port) && Emitted(p, r.outgoing.actions) == [Sent(there, c.outsidePort)]
            && Matches(r.incoming, answer, c.outsidePort)
            && Emitted(answer, r.incoming.actions) == [Sent(back, port)]
            && forall l :: l in out && out[l].fake.Some? && l != KeyOf(p) ==>
                 !Matches(out[l].incoming, answer, c.outsidePort)
  {
    hide OutgoingFlow, IncomingFlow, Matches, Emitted, PortsOf, Tables;
    var r := out[KeyOf(p)];
    LiveRecordTranslates(c, out, inc, used, KeyOf(p), p, mac);
    FlowsMatch(c, r.origin, r.fake, p, port);
  }
}
