/** The matches built from packets, and what they specify. */
module PacketMatch {
  import opened Wrappers
  import opened OfpMatch
  import opened MatchContainment
  import opened MatchObject

  const OFP_VLAN_NONE: bv16 := 0xffff
  const OFP_DL_TYPE_NOT_ETH_TYPE: bv16 := 0x05ff

  datatype Transport = Ports(src: bv16, dst: bv16) | Icmp(kind: bv8, code: bv8) | NoTransport

  datatype Payload =
    | Ipv4(src: bv32, dst: bv32, proto: bv8, tos: bv8, fragment: bool, transport: Transport)
    | Arp(opcode: bv16, src: bv32, dst: bv32)
    | OtherPayload

  /** A VLAN tag carries a 12-bit identifier and a 3-bit priority. */
  datatype Tag = Tag(id: bv12, pcp: bv3, etherType: bv16)

  /** `snap` is the type in an LLC header that has one. */
  datatype Frame = Frame(src: bv48, dst: bv48, etherType: bv16, snap: Option<bv16>, tag: Option<Tag>, payload: Payload)

  /** The type before a tag. */
  function OuterType(f: Frame): bv16 {
    if f.snap.Some? then f.snap.value
    else if f.etherType < 1536 then OFP_DL_TYPE_NOT_ETH_TYPE
    else f.etherType
  }

  function FrameType(f: Frame): bv16 {
    if f.tag.Some? then f.tag.value.etherType else OuterType(f)
  }

  function IdValue(id: bv12): bv16 { id as bv16 }
  function PcpValue(pcp: bv3): bv8 { pcp as bv8 }

  function FrameVlan(f: Frame): bv16 {
    if f.tag.Some? then IdValue(f.tag.value.id) else OFP_VLAN_NONE
  }

  function FramePcp(f: Frame): bv8 {
    if f.tag.Some? then PcpValue(f.tag.value.pcp) else 0
  }

  const START: bv32 := NormalizeWildcards(OFPFW_ALL)

  /** Everything but the payload. */
  function LinkMatch(f: Frame, inPort: Option<bv16>): Match {
    Match(Cleared(START, if inPort.Some? then LINK else LINK & !IN_PORT),
          if inPort.Some? then inPort.value else 0, f.src, f.dst, FrameVlan(f), FramePcp(f), FrameType(f),
          0, 0, 0, 0, 0, 0)
  }

  function WithTp(m: Match, src: bv16, dst: bv16): Match {
    m.(tpSrc := src, tpDst := dst, wildcards := Cleared(m.wildcards, TP))
  }

  function WithAddresses(m: Match, src: bv32, dst: bv32): Match {
    WithNwDst(WithNwSrc(m, Some(Address(src, 32))), Some(Address(dst, 32)))
  }

  function WithIp(m: Match, p: Payload): Match
    requires p.Ipv4?
  {
    WithAddresses(m, p.src, p.dst).(nwProto := p.proto, nwTos := p.tos,
                                    wildcards := Cleared(WithAddresses(m, p.src, p.dst).wildcards, NW_PROTO | NW_TOS))
  }

  function FromPacket(f: Frame, inPort: Option<bv16>, specFrags: bool): Match {
    var m := LinkMatch(f, inPort);
    match f.payload
    case Ipv4(_, _, _, _, fragment, transport) =>
      var n := WithIp(m, f.payload);
      if specFrags && fragment then WithTp(n, 0, 0) else WithTransport(n, transport)
    case Arp(opcode, src, dst) => if opcode <= 255 then WithArp(m, LowByte(opcode), src, dst) else m
    case OtherPayload => m
  }

  function WithTransport(m: Match, t: Transport): Match {
    match t
    case Ports(src, dst) => WithTp(m, src, dst)
    case Icmp(kind, code) => WithTp(m, Widened(kind), Widened(code))
    case NoTransport => m
  }

  function WithArp(m: Match, opcode: bv8, src: bv32, dst: bv32): Match {
    var n := WithAddresses(m, src, dst);
    n.(nwProto := opcode, wildcards := Cleared(n.wildcards, NW_PROTO))
  }

  function LowByte(x: bv16): bv8 { (x & 0xFF) as bv8 }
  function Widened(x: bv8): bv16 { x as bv16 }

  // ----- What is specified ----------------------------------------------------------------------

  const LINK_DONE: bv32 := 0x2820E0

  lemma LinkWildcards(f: Frame, port: bv16)
    ensures LinkMatch(f, Some(port)).wildcards == LINK_DONE
  {
  }

  lemma AddressWildcards(m: Match, src: bv32, dst: bv32)
    requires m.wildcards == LINK_DONE
    ensures WithAddresses(m, src, dst).wildcards == 0x2000E0
  {
  }

  lemma IpWildcards(m: Match, p: Payload)
    requires m.wildcards == LINK_DONE && p.Ipv4?
    ensures WithIp(m, p).wildcards == 0xC0
  {
    hide WithAddresses;
    AddressWildcards(m, p.src, p.dst);
  }

  lemma ArpWildcards(m: Match, opcode: bv8, src: bv32, dst: bv32)
    requires m.wildcards == LINK_DONE
    ensures WithArp(m, opcode, src, dst).wildcards == 0x2000C0
  {
    hide WithAddresses;
    AddressWildcards(m, src, dst);
  }

  lemma TransportWildcards(m: Match, t: Transport)
    requires m.wildcards == 0xC0
    ensures WithTransport(m, t).wildcards == if t.NoTransport? then 0xC0 else 0
    ensures WithTp(m, 0, 0).wildcards == 0
  {
    hide Cleared;
    TpCleared();
  }

  lemma TpCleared()
    ensures Cleared(0xC0, TP) == 0
  {
  }

  predicate HasTransport(p: Payload, specFrags: bool) {
    p.Ipv4? && ((specFrags && p.fragment) || !p.transport.NoTransport?)
  }

  /** Which wildcard bits are left, for each kind of payload. */
  function LeftWild(p: Payload, specFrags: bool): bv32 {
    if HasTransport(p, specFrags) then 0
    else if p.Ipv4? then 0xC0
    else if p.Arp? && p.opcode <= 255 then 0x2000C0
    else LINK_DONE
  }

  lemma BuiltWildcards(f: Frame, port: bv16, specFrags: bool)
    ensures FromPacket(f, Some(port), specFrags).wildcards == LeftWild(f.payload, specFrags)
  {
    hide LinkMatch, WithIp, WithArp, WithTransport, WithTp, LowByte;
    var m := LinkMatch(f, Some(port));
    LinkWildcards(f, port);
    match f.payload
    case Ipv4(_, _, _, _, _, transport) =>
      IpWildcards(m, f.payload);
      TransportWildcards(WithIp(m, f.payload), transport);
    case Arp(opcode, src, dst) => ArpWildcards(m, LowByte(opcode), src, dst);
    case OtherPayload =>
  }

  predicate SameLinkValues(a: Match, b: Match) {
    && a.inPort == b.inPort && a.dlSrc == b.dlSrc && a.dlDst == b.dlDst
    && a.dlVlan == b.dlVlan && a.dlVlanPcp == b.dlVlanPcp && a.dlType == b.dlType
  }

  lemma AddressValues(m: Match, src: bv32, dst: bv32)
    ensures SameLinkValues(WithAddresses(m, src, dst), m)
  {
    hide WithBits, OpenBits, Ip;
  }

  lemma IpValues(m: Match, p: Payload)
    requires p.Ipv4?
    ensures SameLinkValues(WithIp(m, p), m)
  {
    hide WithAddresses, Cleared;
    AddressValues(m, p.src, p.dst);
  }

  lemma TransportValues(m: Match, t: Transport)
    ensures SameLinkValues(WithTransport(m, t), m) && SameLinkValues(WithTp(m, 0, 0), m)
  {
    hide Cleared;
  }

  lemma ArpValues(m: Match, opcode: bv8, src: bv32, dst: bv32)
    ensures SameLinkValues(WithArp(m, opcode, src, dst), m)
  {
    hide WithAddresses, Cleared;
    AddressValues(m, src, dst);
  }

  lemma SameValuesTrans(a: Match, b: Match, c: Match)
    ensures SameLinkValues(a, a) && (SameLinkValues(a, b) && SameLinkValues(b, c) ==> SameLinkValues(a, c))
  {
  }

  lemma PayloadValues(f: Frame, inPort: Option<bv16>, specFrags: bool)
    ensures SameLinkValues(FromPacket(f, inPort, specFrags), LinkMatch(f, inPort))
  {
    hide LinkMatch, WithAddresses, WithIp, WithTp, WithTransport, WithArp, LowByte, SameLinkValues;
    var m := LinkMatch(f, inPort);
    SameValuesTrans(m, m, m);
    match f.payload
    case Ipv4(_, _, _, _, _, transport) =>
      var n := WithIp(m, f.payload);
      IpValues(m, f.payload);
      TransportValues(n, transport);
      SameValuesTrans(FromPacket(f, inPort, specFrags), n, m);
    case Arp(opcode, src, dst) => ArpValues(m, LowByte(opcode), src, dst);
    case OtherPayload =>
  }

  lemma BuiltValues(f: Frame, port: bv16, specFrags: bool)
    ensures var m := FromPacket(f, Some(port), specFrags);
            && m.inPort == port && m.dlSrc == f.src && m.dlDst == f.dst
            && m.dlVlan == FrameVlan(f) && m.dlVlanPcp == FramePcp(f) && m.dlType == FrameType(f)
  {
    PayloadValues(f, Some(port), specFrags);
    hide Cleared, FrameVlan, FramePcp, FrameType, FromPacket;
  }

  lemma LeftLink(p: Payload, specFrags: bool)
    ensures var w := LeftWild(p, specFrags);
            !Wild(w, IN_PORT) && !Wild(w, DL_SRC) && !Wild(w, DL_DST) && !Wild(w, DL_TYPE)
            && !Wild(w, DL_VLAN) && !Wild(w, DL_VLAN_PCP)
    ensures LeftWild(p, specFrags) & OFPFW_ALL == 0 <==> HasTransport(p, specFrags)
  {
  }

  /** A packet on a port specifies all its link fields, an untagged one no VLAN and priority 0; and it is
      fully specified exactly if it is IPv4 with a transport header or a fragment where those count. */
  lemma PacketSpecifies(f: Frame, port: bv16, specFrags: bool)
    ensures var m := FromPacket(f, Some(port), specFrags);
            && m.InPort() == Some(port) && m.DlSrc() == Some(f.src) && m.DlDst() == Some(f.dst)
            && m.DlType() == Some(FrameType(f))
            && m.DlVlan() == Some(FrameVlan(f)) && m.DlVlanPcp() == Some(FramePcp(f))
            && (IsExact(m) <==> HasTransport(f.payload, specFrags))
  {
    hide FromPacket, Wild, LeftWild, FrameVlan, FramePcp, FrameType, HasTransport;
    BuiltWildcards(f, port, specFrags);
    BuiltValues(f, port, specFrags);
    LeftLink(f.payload, specFrags);
  }

  // ----- The headers ----------------------------------------------------------------------------

  function ShownProto(p: Payload): Option<bv8> {
    match p
    case Ipv4(_, _, proto, _, _, _) => Some(proto)
    case Arp(opcode, _, _) => if opcode <= 255 then Some(LowByte(opcode)) else None
    case OtherPayload => None
  }

  function ShownTos(p: Payload): Option<bv8> {
    if p.Ipv4? then Some(p.tos) else None
  }

  predicate ShowsAddresses(p: Payload) {
    p.Ipv4? || (p.Arp? && p.opcode <= 255)
  }

  function ShownSrc(p: Payload): (n: Network)
    ensures Proper(n)
  {
    if ShowsAddresses(p) then Network(p.src, 32) else Anything
  }

  function ShownDst(p: Payload): (n: Network)
    ensures Proper(n)
  {
    if ShowsAddresses(p) then Network(p.dst, 32) else Anything
  }

  function ShownTpSrc(p: Payload, specFrags: bool): Option<bv16> {
    if !HasTransport(p, specFrags) then None
    else if specFrags && p.fragment then Some(0)
    else if p.transport.Ports? then Some(p.transport.src)
    else Some(Widened(p.transport.kind))
  }

  function ShownTpDst(p: Payload, specFrags: bool): Option<bv16> {
    if !HasTransport(p, specFrags) then None
    else if specFrags && p.fragment then Some(0)
    else if p.transport.Ports? then Some(p.transport.dst)
    else Some(Widened(p.transport.code))
  }

  lemma IpHeader(m: Match, p: Payload)
    requires p.Ipv4?
    ensures var n := WithIp(m, p);
            n == m.(nwSrc := p.src, nwDst := p.dst, nwProto := p.proto, nwTos := p.tos, wildcards := n.wildcards)
  {
    hide Cleared, WithBits, OpenBits;
  }

  lemma ArpHeader(m: Match, opcode: bv8, src: bv32, dst: bv32)
    ensures var n := WithArp(m, opcode, src, dst);
            n == m.(nwSrc := src, nwDst := dst, nwProto := opcode, wildcards := n.wildcards)
  {
    hide Cleared, WithBits, OpenBits;
  }

  lemma TransportHeader(m: Match, t: Transport)
    ensures var n := WithTransport(m, t);
            && n == m.(tpSrc := n.tpSrc, tpDst := n.tpDst, wildcards := n.wildcards)
            && (t.Ports? ==> n.tpSrc == t.src && n.tpDst == t.dst)
            && (t.Icmp? ==> n.tpSrc == Widened(t.kind) && n.tpDst == Widened(t.code))
    ensures WithTp(m, 0, 0) == m.(tpSrc := 0, tpDst := 0, wildcards := WithTp(m, 0, 0).wildcards)
  {
    hide Cleared, Widened;
  }

  lemma IpHeaderValues(f: Frame, port: bv16, specFrags: bool)
    requires f.payload.Ipv4?
    ensures var m := FromPacket(f, Some(port), specFrags);
            var p := f.payload;
            && m.nwProto == p.proto && m.nwTos == p.tos && m.nwSrc == p.src && m.nwDst == p.dst
            && (HasTransport(p, specFrags) ==>
                  Some(m.tpSrc) == ShownTpSrc(p, specFrags) && Some(m.tpDst) == ShownTpDst(p, specFrags))
  {
    hide LinkMatch, WithIp, WithTransport, WithTp, Widened;
    var m := LinkMatch(f, Some(port));
    IpHeader(m, f.payload);
    TransportHeader(WithIp(m, f.payload), f.payload.transport);
  }

  lemma HeaderValues(f: Frame, port: bv16, specFrags: bool)
    ensures var m := FromPacket(f, Some(port), specFrags);
            var p := f.payload;
            && (ShownProto(p).Some? ==> m.nwProto == ShownProto(p).value)
            && (ShownTos(p).Some? ==> m.nwTos == ShownTos(p).value)
            && (ShowsAddresses(p) ==> m.nwSrc == p.src && m.nwDst == p.dst)
            && (HasTransport(p, specFrags) ==>
                  Some(m.tpSrc) == ShownTpSrc(p, specFrags) && Some(m.tpDst) == ShownTpDst(p, specFrags))
  {
    if f.payload.Ipv4? {
      hide FromPacket, ShownTpSrc, ShownTpDst;
      IpHeaderValues(f, port, specFrags);
    } else if f.payload.Arp? && f.payload.opcode <= 255 {
      ArpHeaderValues(f, port, specFrags);
    }
  }

  lemma ArpHeaderValues(f: Frame, port: bv16, specFrags: bool)
    requires f.payload.Arp? && f.payload.opcode <= 255
    ensures var m := FromPacket(f, Some(port), specFrags);
            var p := f.payload;
            m.nwProto == LowByte(p.opcode) && m.nwSrc == p.src && m.nwDst == p.dst
  {
    hide LinkMatch, WithArp, LowByte;
    ArpHeader(LinkMatch(f, Some(port)), LowByte(f.payload.opcode), f.payload.src, f.payload.dst);
  }

  lemma LeftHeaders(p: Payload, specFrags: bool)
    ensures var w := LeftWild(p, specFrags);
            && Wild(w, NW_PROTO) == ShownProto(p).None? && Wild(w, NW_TOS) == ShownTos(p).None?
            && Wild(w, TP_SRC) == Wild(w, TP_DST) == !HasTransport(p, specFrags)
  {
    hide LowByte, Widened;
  }

  lemma LeftNetworks(m: Match, p: Payload, specFrags: bool)
    requires m.wildcards == LeftWild(p, specFrags)
    ensures GetNwSrc(m) == if ShowsAddresses(p) then Network(m.nwSrc, 32) else Anything
    ensures GetNwDst(m) == if ShowsAddresses(p) then Network(m.nwDst, 32) else Anything
  {
  }

  /** What the match built from a packet shows of its headers: what they say, and nothing where there are none. */
  lemma PacketShows(f: Frame, port: bv16, specFrags: bool)
    ensures var m := FromPacket(f, Some(port), specFrags);
            var p := f.payload;
            && m.NwProto() == ShownProto(p) && m.NwTos() == ShownTos(p)
            && m.TpSrc() == ShownTpSrc(p, specFrags) && m.TpDst() == ShownTpDst(p, specFrags)
            && GetNwSrc(m) == ShownSrc(p) && GetNwDst(m) == ShownDst(p)
  {
    var m := FromPacket(f, Some(port), specFrags);
    hide FromPacket, Wild, LeftWild, HasTransport, LowByte, Widened, GetNwSrc, GetNwDst;
    BuiltWildcards(f, port, specFrags);
    HeaderValues(f, port, specFrags);
    LeftHeaders(f.payload, specFrags);
    LeftNetworks(m, f.payload, specFrags);
    NoTp(f.payload, specFrags);
  }

  lemma NoTp(p: Payload, specFrags: bool)
    ensures HasTransport(p, specFrags) == ShownTpSrc(p, specFrags).Some? == ShownTpDst(p, specFrags).Some?
  {
  }
}
