/** What containment says of the packets there are. */
module PacketContainment {
  import opened Wrappers
  import opened OfpMatch
  import opened MatchContainment
  import opened MatchObject
  import opened PacketMatch

  const VLAN_TYPE: bv16 := 0x8100
  const ICMP: bv8 := 1
  const TCP: bv8 := 6
  const UDP: bv8 := 17

  predicate HasPortsProto(proto: bv8) { proto == TCP || proto == UDP }
  predicate IsOther(proto: bv8) { !HasPortsProto(proto) && proto != ICMP }

  /** Frames with lengths may have an LLC header with a type; the type 0x8100 announces a tag. */
  predicate LinkParsed(f: Frame) {
    (f.snap.Some? ==> f.etherType < 1536) && (f.tag.Some? <==> OuterType(f) == VLAN_TYPE)
  }

  /** A frame as parsing bytes gives it: the types decide tag and header, the protocol the transport. A complete
      one also has the headers its type and protocol announce; only the first fragment has a transport. */
  predicate Parsed(f: Frame, complete: bool) {
    && LinkParsed(f)
    && match f.payload
       case Ipv4(_, _, proto, _, fragment, transport) =>
         && FrameType(f) == IP
         && (match transport
             case Ports(_, _) => HasPortsProto(proto)
             case Icmp(_, _) => proto == ICMP
             case NoTransport => complete ==> fragment || IsOther(proto))
       case Arp(_, _, _) => FrameType(f) == ARP
       case OtherPayload => complete ==> FrameType(f) != IP && FrameType(f) != ARP
  }

  /** Every packet that b takes on a port, a takes as well. */
  ghost predicate TakesPacketsOf(test: NetworkTest, a: Match, b: Match, complete: bool) {
    forall f: Frame, port: bv16, specFrags: bool ::
      Parsed(f, complete) && MatchesPacket(test, b, FromPacket(f, Some(port), specFrags))
      ==> MatchesPacket(test, a, FromPacket(f, Some(port), specFrags))
  }

  ghost predicate TakesSome(test: NetworkTest, b: Match, complete: bool) {
    exists f: Frame, port: bv16 :: Parsed(f, complete) && MatchesPacket(test, b, FromPacket(f, Some(port), true))
  }

  // ----- What a match asks of a packet ----------------------------------------------------------

  predicate WantsTp(b: Match) { b.TpSrc().Some? || b.TpDst().Some? }

  predicate WantsIp(b: Match) { b.NwTos().Some? || WantsTp(b) }

  predicate WantsHeader(b: Match) {
    WantsIp(b) || b.NwProto().Some? || GetNwSrc(b).Network? || GetNwDst(b).Network?
  }

  /** Some packet's VLAN fields are as this match demands. */
  predicate TagPossible(b: Match) {
    && (b.DlVlan().Some? ==> b.DlVlan().value == OFP_VLAN_NONE || b.DlVlan().value < 0x1000)
    && (b.DlVlanPcp().Some? ==> b.DlVlanPcp().value < 8)
    && (b.DlVlan() == Some(OFP_VLAN_NONE) && b.DlVlanPcp().Some? ==> b.DlVlanPcp().value == 0)
    && (b.DlVlan() == Some(OFP_VLAN_NONE) ==> b.DlType() != Some(VLAN_TYPE))
  }

  /** The transport field can have this value under this protocol: ICMP has bytes there, and a protocol
      without ports has zeroes, in fragments. */
  predicate TpPossible(proto: Option<bv8>, tp: Option<bv16>) {
    proto.Some? && tp.Some? ==>
      && (proto.value == ICMP ==> tp.value < 256)
      && (IsOther(proto.value) ==> tp.value == 0)
  }

  /** Some packet's headers are as this match demands. */
  predicate HeadersPossible(b: Match) {
    && (WantsIp(b) && b.DlType().Some? ==> b.DlType().value == IP)
    && (WantsHeader(b) && b.DlType().Some? ==> b.DlType().value == IP || b.DlType().value == ARP)
    && TpPossible(b.NwProto(), b.TpSrc()) && TpPossible(b.NwProto(), b.TpDst())
  }

  // ----- What it implies ------------------------------------------------------------------------

  predicate ImpliesPcp(b: Match) { b.DlVlan() == Some(OFP_VLAN_NONE) && b.DlVlanPcp().None? }
  predicate ImpliesType(b: Match) { WantsIp(b) && b.DlType().None? }
  predicate ImpliesTp(b: Match) { WantsTp(b) && b.NwProto().Some? && IsOther(b.NwProto().value) }

  /** Untagged packets have priority 0. */
  function WithPcp(b: Match): Match {
    if ImpliesPcp(b) then b.(dlVlanPcp := 0, wildcards := Cleared(b.wildcards, DL_VLAN_PCP)) else b
  }

  /** Packets with a type of service or a transport are IPv4. */
  function WithType(b: Match): Match {
    if ImpliesType(b) then b.(dlType := IP, wildcards := Cleared(b.wildcards, DL_TYPE)) else b
  }

  /** Without a protocol that has them, only fragments show transport fields, and they show zeroes. */
  function WithZeroTp(b: Match): Match {
    if ImpliesTp(b) then b.(tpSrc := 0, tpDst := 0, wildcards := Cleared(b.wildcards, TP)) else b
  }

  /** The match with all that its packets have in common beyond what it says. */
  function Implied(b: Match): Match {
    WithZeroTp(WithType(WithPcp(b)))
  }

  /** The same wildcards but for these bits, none of which concerns the addresses. */
  predicate FewerWild(w: bv32, v: bv32) {
    BitsWithin(w, v) && w & !OFPFW_ALL == v & !OFPFW_ALL
  }

  lemma PcpCleared(w: bv32)
    ensures var v := Cleared(w, DL_VLAN_PCP);
            && !Wild(v, DL_VLAN_PCP) && Wild(v, IN_PORT) == Wild(w, IN_PORT)
            && Wild(v, DL_SRC) == Wild(w, DL_SRC) && Wild(v, DL_DST) == Wild(w, DL_DST)
            && Wild(v, DL_VLAN) == Wild(w, DL_VLAN) && Wild(v, DL_TYPE) == Wild(w, DL_TYPE)
  {
  }

  lemma PcpClearedHeaders(w: bv32)
    ensures var v := Cleared(w, DL_VLAN_PCP);
            && Wild(v, NW_TOS) == Wild(w, NW_TOS) && Wild(v, NW_PROTO) == Wild(w, NW_PROTO)
            && Wild(v, TP_SRC) == Wild(w, TP_SRC) && Wild(v, TP_DST) == Wild(w, TP_DST)
  {
  }

  lemma TypeCleared(w: bv32)
    ensures var v := Cleared(w, DL_TYPE);
            && !Wild(v, DL_TYPE) && Wild(v, IN_PORT) == Wild(w, IN_PORT)
            && Wild(v, DL_SRC) == Wild(w, DL_SRC) && Wild(v, DL_DST) == Wild(w, DL_DST)
            && Wild(v, DL_VLAN) == Wild(w, DL_VLAN) && Wild(v, DL_VLAN_PCP) == Wild(w, DL_VLAN_PCP)
  {
  }

  lemma TypeClearedHeaders(w: bv32)
    ensures var v := Cleared(w, DL_TYPE);
            && Wild(v, NW_TOS) == Wild(w, NW_TOS) && Wild(v, NW_PROTO) == Wild(w, NW_PROTO)
            && Wild(v, TP_SRC) == Wild(w, TP_SRC) && Wild(v, TP_DST) == Wild(w, TP_DST)
  {
  }

  lemma TpClearedLink(w: bv32)
    ensures var v := Cleared(w, TP);
            && Wild(v, IN_PORT) == Wild(w, IN_PORT) && Wild(v, DL_TYPE) == Wild(w, DL_TYPE)
            && Wild(v, DL_SRC) == Wild(w, DL_SRC) && Wild(v, DL_DST) == Wild(w, DL_DST)
            && Wild(v, DL_VLAN) == Wild(w, DL_VLAN) && Wild(v, DL_VLAN_PCP) == Wild(w, DL_VLAN_PCP)
  {
  }

  lemma TpClearedHeaders(w: bv32)
    ensures var v := Cleared(w, TP);
            && Wild(v, NW_TOS) == Wild(w, NW_TOS) && Wild(v, NW_PROTO) == Wild(w, NW_PROTO)
            && !Wild(v, TP_SRC) && !Wild(v, TP_DST)
  {
  }

  lemma PcpBits(w: bv32)
    ensures FewerWild(w, Cleared(w, DL_VLAN_PCP))
  {
  }

  lemma TypeBits(w: bv32)
    ensures FewerWild(w, Cleared(w, DL_TYPE))
  {
  }

  lemma TpBits(w: bv32)
    ensures FewerWild(w, Cleared(w, TP))
  {
  }

  predicate SameAddressBits(w: bv32, v: bv32) {
    w & NW_SRC_MASK == v & NW_SRC_MASK && w & NW_DST_MASK == v & NW_DST_MASK
  }

  lemma PcpAddresses(w: bv32)
    ensures SameAddressBits(w, Cleared(w, DL_VLAN_PCP))
  {
  }

  lemma TypeAddresses(w: bv32)
    ensures SameAddressBits(w, Cleared(w, DL_TYPE))
  {
  }

  lemma TpAddresses(w: bv32)
    ensures SameAddressBits(w, Cleared(w, TP))
  {
  }

  lemma NetworksByBits(m: Match, n: Match)
    requires SameAddressBits(m.wildcards, n.wildcards) && n.nwSrc == m.nwSrc && n.nwDst == m.nwDst
    ensures GetNwSrc(n) == GetNwSrc(m) && GetNwDst(n) == GetNwDst(m)
  {
    hide GetNwSrc, GetNwDst, Read;
    GetIsRead(m);
    GetIsRead(n);
  }

  /** All the fields but those an implied one may replace. */
  predicate SameFields(a: Match, b: Match) {
    && a.InPort() == b.InPort() && a.DlSrc() == b.DlSrc() && a.DlDst() == b.DlDst() && a.DlVlan() == b.DlVlan()
    && a.NwTos() == b.NwTos() && a.NwProto() == b.NwProto()
    && GetNwSrc(a) == GetNwSrc(b) && GetNwDst(a) == GetNwDst(b)
  }

  lemma PcpFields(b: Match)
    ensures var i := WithPcp(b);
            && SameFields(i, b) && i.DlType() == b.DlType() && i.TpSrc() == b.TpSrc() && i.TpDst() == b.TpDst()
            && i.DlVlanPcp() == (if ImpliesPcp(b) then Some(0) else b.DlVlanPcp())
            && FewerWild(b.wildcards, i.wildcards)
  {
    PcpCleared(b.wildcards);
    PcpClearedHeaders(b.wildcards);
    PcpBits(b.wildcards);
    SelfWild(b.wildcards);
    PcpAddresses(b.wildcards);
    if ImpliesPcp(b) {
      NetworksByBits(b, WithPcp(b));
    }
    hide Wild, Cleared, GetNwSrc, GetNwDst, FewerWild, SameAddressBits, ImpliesPcp, ImpliesType, ImpliesTp;
  }

  lemma SelfWild(w: bv32)
    ensures FewerWild(w, w)
  {
  }

  lemma TypeFields(b: Match)
    ensures var i := WithType(b);
            && SameFields(i, b) && i.DlVlanPcp() == b.DlVlanPcp() && i.TpSrc() == b.TpSrc() && i.TpDst() == b.TpDst()
            && i.DlType() == (if ImpliesType(b) then Some(IP) else b.DlType())
            && FewerWild(b.wildcards, i.wildcards)
  {
    TypeCleared(b.wildcards);
    TypeClearedHeaders(b.wildcards);
    TypeBits(b.wildcards);
    SelfWild(b.wildcards);
    TypeAddresses(b.wildcards);
    if ImpliesType(b) {
      NetworksByBits(b, WithType(b));
    }
    hide Wild, Cleared, GetNwSrc, GetNwDst, FewerWild, SameAddressBits, ImpliesPcp, ImpliesType, ImpliesTp;
  }

  lemma TpSet(b: Match, i: Match)
    requires i == b.(tpSrc := 0, tpDst := 0, wildcards := Cleared(b.wildcards, TP))
    ensures SameFields(i, b) && i.DlVlanPcp() == b.DlVlanPcp() && i.DlType() == b.DlType()
    ensures i.TpSrc() == Some(0) && i.TpDst() == Some(0) && FewerWild(b.wildcards, i.wildcards)
  {
    hide Wild, Cleared, GetNwSrc, GetNwDst, FewerWild, SameAddressBits;
    TpClearedLink(b.wildcards);
    TpClearedHeaders(b.wildcards);
    TpBits(b.wildcards);
    TpAddresses(b.wildcards);
    NetworksByBits(b, i);
  }

  lemma TpFields(b: Match)
    ensures var i := WithZeroTp(b);
            && SameFields(i, b) && i.DlVlanPcp() == b.DlVlanPcp() && i.DlType() == b.DlType()
            && i.TpSrc() == (if ImpliesTp(b) then Some(0) else b.TpSrc())
            && i.TpDst() == (if ImpliesTp(b) then Some(0) else b.TpDst())
            && FewerWild(b.wildcards, i.wildcards)
  {
    hide Field, Cleared, GetNwSrc, GetNwDst, FewerWild, ImpliesTp;
    SelfWild(b.wildcards);
    if ImpliesTp(b) {
      TpSet(b, WithZeroTp(b));
    }
  }

  lemma FewerWildTrans(w: bv32, v: bv32, u: bv32)
    requires FewerWild(w, v) && FewerWild(v, u)
    ensures FewerWild(w, u)
  {
  }

  /** What is implied: the priority, the type and the transport fields, each where it is. */
  lemma ImpliedFields(b: Match)
    ensures var i := Implied(b);
            && SameFields(i, b) && FewerWild(b.wildcards, i.wildcards)
            && i.DlVlanPcp() == (if ImpliesPcp(b) then Some(0) else b.DlVlanPcp())
            && i.DlType() == (if ImpliesType(b) then Some(IP) else b.DlType())
            && i.TpSrc() == (if ImpliesTp(b) then Some(0) else b.TpSrc())
            && i.TpDst() == (if ImpliesTp(b) then Some(0) else b.TpDst())
  {
    var c := WithPcp(b);
    var d := WithType(c);
    PcpFields(b);
    TypeFields(c);
    TpFields(d);
    hide WithPcp, WithType, WithZeroTp, Field, GetNwSrc, GetNwDst, FewerWild;
    FewerWildTrans(b.wildcards, c.wildcards, d.wildcards);
    FewerWildTrans(b.wildcards, d.wildcards, Implied(b).wildcards);
  }

  // ----- The match contains what it implies, and takes the same packets -------------------------

  lemma SameUndefined(w: bv32, v: bv32, u: bv32)
    requires FewerWild(w, v)
    ensures UndefinedWithin(u, v) <==> UndefinedWithin(u, w)
  {
  }

  lemma FewerWithin(w: bv32, v: bv32)
    requires FewerWild(w, v)
    ensures BitsWithin(w, v)
  {
  }

  lemma ImpliedClean(test: NetworkTest, a: Match, b: Match)
    ensures Clean(test, Implied(b)) <==> Clean(test, b)
    ensures UndefinedBitsFit(a, Implied(b)) <==> UndefinedBitsFit(a, b)
  {
    ImpliedFields(b);
    SameUndefined(b.wildcards, Implied(b).wildcards, a.wildcards);
    hide Implied, GetNwSrc, GetNwDst, HasStrayBits, UndefinedWithin, FewerWild, Field;
  }

  lemma CleanFitsSelf(test: NetworkTest, n: Network)
    requires Proper(n) && (test == AsGiven ==> !HasStrayBits(n))
    ensures NetworkFits(test, n, n)
  {
    hide PrefixMask;
  }

  /** The implied match demands all the match demands. */
  lemma ImpliedDemands(b: Match)
    requires HeadersPossible(b)
    ensures FieldsFit(b, Implied(b))
  {
    ImpliedFields(b);
    hide Implied, Field, GetNwSrc, GetNwDst, FewerWild;
  }

  lemma ContainsImplied(test: NetworkTest, b: Match)
    requires Clean(test, b) && HeadersPossible(b)
    ensures Contains(test, b, Implied(b))
  {
    ImpliedDemands(b);
    ImpliedFields(b);
    FewerWithin(b.wildcards, Implied(b).wildcards);
    CleanFitsSelf(test, GetNwSrc(b));
    CleanFitsSelf(test, GetNwDst(b));
    hide Implied, Field, GetNwSrc, GetNwDst, FewerWild, BitsWithin, FieldsFit, NetworkFits, HasStrayBits, Same;
  }

  lemma PacketHosts(f: Frame, port: bv16, specFrags: bool)
    ensures HasHosts(FromPacket(f, Some(port), specFrags))
  {
    PacketShows(f, port, specFrags);
    hide FromPacket, Field, GetNwSrc, GetNwDst;
  }

  /** For a packet's match the shortcut for equal matches makes no difference. */
  lemma PacketFits(test: NetworkTest, b: Match, p: Match)
    requires HasHosts(p)
    ensures MatchesPacket(test, b, p) <==> Fits(test, b, p, false)
  {
    hide Same, Fits, HasHosts;
    if Same(b, p) {
      HostsFitThemselves(test, b, p);
    }
  }

  lemma UntaggedPcp(f: Frame)
    ensures FrameVlan(f) == OFP_VLAN_NONE || FrameVlan(f) < 0x1000
    ensures FramePcp(f) < 8 && (FrameVlan(f) == OFP_VLAN_NONE ==> FramePcp(f) == 0)
    ensures LinkParsed(f) && FrameVlan(f) == OFP_VLAN_NONE ==> FrameType(f) != VLAN_TYPE
  {
  }

  lemma BytesAreSmall(x: bv8)
    ensures Widened(x) < 256
  {
  }

  /** What parsing guarantees of what a packet shows. */
  lemma ParsedShows(f: Frame, specFrags: bool, complete: bool)
    requires Parsed(f, complete)
    ensures var p := f.payload;
            var src, dst := ShownTpSrc(p, specFrags), ShownTpDst(p, specFrags);
            && (ShownTos(p).Some? || src.Some? || dst.Some? ==> FrameType(f) == IP)
            && (ShownProto(p).Some? || ShowsAddresses(p) ==> FrameType(f) == IP || FrameType(f) == ARP)
            && (src.Some? <==> dst.Some?) && (src.Some? ==> ShownProto(p).Some?)
            && (src.Some? && ShownProto(p).value == ICMP ==> src.value < 256 && dst.value < 256)
            && (src.Some? && IsOther(ShownProto(p).value) ==> src.value == 0 && dst.value == 0)
  {
    hide FrameType, LinkParsed, Widened, LowByte;
    if f.payload.Ipv4? && f.payload.transport.Icmp? {
      BytesAreSmall(f.payload.transport.kind);
      BytesAreSmall(f.payload.transport.code);
    }
  }

  lemma TakenTag(b: Match, f: Frame, p: Match)
    requires LinkParsed(f) && FieldFits(b.DlVlan(), p.DlVlan()) && FieldFits(b.DlVlanPcp(), p.DlVlanPcp())
    requires FieldFits(b.DlType(), p.DlType()) && p.DlType() == Some(FrameType(f))
    requires p.DlVlan() == Some(FrameVlan(f)) && p.DlVlanPcp() == Some(FramePcp(f))
    ensures TagPossible(b) && (ImpliesPcp(b) ==> p.DlVlanPcp() == Some(0))
  {
    UntaggedPcp(f);
    hide Field, FrameVlan, FramePcp, FrameType, LinkParsed;
  }

  lemma ParsedLink(f: Frame, complete: bool)
    requires Parsed(f, complete)
    ensures LinkParsed(f)
  {
  }

  lemma TakenTp(proto: Option<bv8>, tp: Option<bv16>, shownProto: Option<bv8>, shownTp: Option<bv16>)
    requires FieldFits(proto, shownProto) && FieldFits(tp, shownTp)
    requires shownTp.Some? ==>
               && shownProto.Some? && (shownProto.value == ICMP ==> shownTp.value < 256)
               && (IsOther(shownProto.value) ==> shownTp.value == 0)
    ensures TpPossible(proto, tp)
  {
  }

  /** What a packet's match shows, parsed. */
  ghost predicate ShowsParsed(p: Match) {
    && (p.NwTos().Some? || p.TpSrc().Some? || p.TpDst().Some? ==> p.DlType() == Some(IP))
    && (p.NwProto().Some? || GetNwSrc(p).Network? || GetNwDst(p).Network?
        ==> p.DlType() == Some(IP) || p.DlType() == Some(ARP))
    && (p.TpSrc().Some? <==> p.TpDst().Some?) && (p.TpSrc().Some? ==> p.NwProto().Some?)
    && (p.TpSrc().Some? && p.NwProto().value == ICMP ==> p.TpSrc().value < 256 && p.TpDst().value < 256)
    && (p.TpSrc().Some? && IsOther(p.NwProto().value) ==> p.TpSrc().value == 0 && p.TpDst().value == 0)
  }

  lemma PacketShowsParsed(f: Frame, port: bv16, specFrags: bool, complete: bool)
    requires Parsed(f, complete)
    ensures ShowsParsed(FromPacket(f, Some(port), specFrags))
  {
    PacketSpecifies(f, port, specFrags);
    PacketShows(f, port, specFrags);
    ParsedShows(f, specFrags, complete);
    hide FromPacket, Parsed, FrameVlan, FramePcp, FrameType, ShownProto, ShownTos, ShownTpSrc, ShownTpDst, Field,
         GetNwSrc, GetNwDst, IsOther;
  }

  ghost predicate NetworksShown(b: Match, p: Match) {
    (GetNwSrc(b).Network? ==> GetNwSrc(p).Network?) && (GetNwDst(b).Network? ==> GetNwDst(p).Network?)
  }

  lemma TakenHeaders(b: Match, p: Match)
    requires ShowsParsed(p) && FieldsFit(b, p) && NetworksShown(b, p)
    ensures HeadersPossible(b)
  {
    hide Field, GetNwSrc, GetNwDst, TpPossible, IsOther;
    TakenTp(b.NwProto(), b.TpSrc(), p.NwProto(), p.TpSrc());
    TakenTp(b.NwProto(), b.TpDst(), p.NwProto(), p.TpDst());
  }

  lemma TakenImplied(b: Match, p: Match)
    requires ShowsParsed(p) && FieldsFit(b, p) && (ImpliesPcp(b) ==> p.DlVlanPcp() == Some(0))
    ensures FieldsFit(Implied(b), p)
  {
    ImpliedFields(b);
    hide Field, GetNwSrc, GetNwDst, Implied, FewerWild, IsOther;
  }

  /** A packet a match takes is possible, and taken by what the match implies. */
  lemma Taken(test: NetworkTest, b: Match, f: Frame, port: bv16, specFrags: bool, complete: bool)
    requires Parsed(f, complete) && MatchesPacket(test, b, FromPacket(f, Some(port), specFrags))
    ensures TagPossible(b) && HeadersPossible(b) && Clean(test, b)
    ensures MatchesPacket(test, Implied(b), FromPacket(f, Some(port), specFrags))
  {
    hide FromPacket, Parsed, ShowsParsed, FieldsFit, MatchesPacket, Fits, Clean, TagPossible, HeadersPossible, Implied,
         NetworksShown, HasHosts, ImpliesPcp, LinkParsed;
    var p := FromPacket(f, Some(port), specFrags);
    PacketHosts(f, port, specFrags);
    PacketShowsParsed(f, port, specFrags, complete);
    PacketSpecifies(f, port, specFrags);
    PacketFits(test, b, p);
    PacketFits(test, Implied(b), p);
    FitsMeans(test, b, p);
    ParsedLink(f, complete);
    TakenTag(b, f, p);
    TakenHeaders(b, p);
    TakenImplied(b, p);
    SameNetworksFit(test, b, Implied(b), p);
    if !Clean(test, b) {
      UncleanTakesNothing(test, b, p);
    }
  }

  lemma FitsMeans(test: NetworkTest, b: Match, p: Match)
    requires Fits(test, b, p, false)
    ensures FieldsFit(b, p) && NetworksShown(b, p)
    ensures FieldFits(b.DlVlan(), p.DlVlan()) && FieldFits(b.DlVlanPcp(), p.DlVlanPcp())
    ensures FieldFits(b.DlType(), p.DlType())
  {
    hide GetNwSrc, GetNwDst, InNetwork, Field;
  }

  lemma SameNetworksFit(test: NetworkTest, b: Match, i: Match, p: Match)
    requires i == Implied(b) && Fits(test, b, p, false) && FieldsFit(i, p)
    ensures Fits(test, i, p, false)
  {
    ImpliedFields(b);
    FitsNetworks(test, b, p, false);
    FitsFrom(test, i, p);
    hide GetNwSrc, GetNwDst, NetworkFits, Field, Implied, FieldsFit, FewerWild, Fits;
  }

  // ----- A packet that tells matches apart ------------------------------------------------------

  function PickId(v: Option<bv16>, avoid: bv16): bv12 {
    if v.Some? then (v.value & 0xFFF) as bv12 else if avoid == 5 then 6 else 5
  }

  function PickPcp(v: Option<bv8>, avoid: bv8): bv3 {
    if v.Some? then (v.value & 7) as bv3 else if avoid == 1 then 2 else 1
  }

  function PickByte(v: Option<bv16>, avoid: bv16): bv8 {
    if v.Some? then LowByte(v.value) else if avoid == 5 then 6 else 5
  }

  /** The type b wants; or one with the header b wants, or with none, and not a's. */
  function PickType(a: Match, b: Match): bv16 {
    if b.DlType().Some? then b.DlType().value
    else if WantsHeader(b) then if a.dlType == IP then ARP else IP
    else if a.dlType == 0x9999 then 0x8888 else 0x9999
  }

  function PickProto(a: Match, b: Match): bv8 {
    if b.NwProto().Some? then b.NwProto().value
    else if WantsTp(b) then if a.nwProto == TCP then UDP else TCP
    else if a.nwProto == 50 then 51 else 50
  }

  function PickTransport(a: Match, b: Match): Transport {
    var proto := PickProto(a, b);
    if HasPortsProto(proto) then Ports(Pick16(b.TpSrc(), a.tpSrc), Pick16(b.TpDst(), a.tpDst))
    else if proto == ICMP then Icmp(PickByte(b.TpSrc(), a.tpSrc), PickByte(b.TpDst(), a.tpDst))
    else NoTransport
  }

  function PickPayload(a: Match, b: Match): Payload {
    var src, dst := FillAddress(GetNwSrc(b), a.nwSrc), FillAddress(GetNwDst(b), a.nwDst);
    if PickType(a, b) == IP then
      Ipv4(src, dst, PickProto(a, b), Pick8(b.NwTos(), a.nwTos), WantsTp(b) && IsOther(PickProto(a, b)),
           PickTransport(a, b))
    else if PickType(a, b) == ARP then Arp(Widened(PickProto(a, b)), src, dst)
    else OtherPayload
  }

  /** A VLAN tag as b demands, and unlike a where b leaves a choice; none where b wants untagged packets. */
  function PickTag(a: Match, b: Match): Option<Tag> {
    if b.DlVlan() == Some(OFP_VLAN_NONE) then None
    else Some(Tag(PickId(b.DlVlan(), a.dlVlan), PickPcp(b.DlVlanPcp(), a.dlVlanPcp), PickType(a, b)))
  }

  /** Tagged, or with an LLC header for the type, which may be below 1536. */
  function SeparatingFrame(a: Match, b: Match): Frame {
    var tag := PickTag(a, b);
    Frame(Pick48(b.DlSrc(), a.dlSrc), Pick48(b.DlDst(), a.dlDst), if tag.Some? then VLAN_TYPE else 0,
          if tag.Some? then None else Some(PickType(a, b)), tag, PickPayload(a, b))
  }

  lemma IdApart(v: Option<bv16>, avoid: bv16)
    requires v.Some? ==> v.value < 0x1000
    ensures Apart(v, Some(IdValue(PickId(v, avoid))), avoid)
  {
    if v.Some? {
      IdCast(v.value);
    }
  }

  lemma IdCast(v: bv16)
    requires v < 0x1000
    ensures ((v & 0xFFF) as bv12) as bv16 == v
  {
  }

  lemma PcpApart(v: Option<bv8>, avoid: bv8)
    requires v.Some? ==> v.value < 8
    ensures Apart(v, Some(PcpValue(PickPcp(v, avoid))), avoid)
  {
    if v.Some? {
      PcpCast(v.value);
    }
  }

  lemma PcpCast(v: bv8)
    requires v < 8
    ensures ((v & 7) as bv3) as bv8 == v
  {
  }

  lemma ByteApart(v: Option<bv16>, avoid: bv16)
    requires v.Some? ==> v.value < 256
    ensures Apart(v, Some(Widened(PickByte(v, avoid))), avoid)
  {
    if v.Some? {
      ByteCast(v.value);
    }
  }

  lemma ByteCast(v: bv16)
    requires v < 256
    ensures Widened(LowByte(v)) == v
  {
  }

  lemma WideCast(x: bv8)
    ensures Widened(x) <= 255 && LowByte(Widened(x)) == x
  {
  }

  /** What is implied is said: nothing more follows. */
  predicate Complete(b: Match) {
    && !ImpliesPcp(b) && !ImpliesType(b)
    && (ImpliesTp(b) ==> b.TpSrc() == Some(0) && b.TpDst() == Some(0))
  }

  lemma FrameIsParsed(a: Match, b: Match)
    requires TagPossible(b)
    ensures Parsed(SeparatingFrame(a, b), true) && FrameType(SeparatingFrame(a, b)) == PickType(a, b)
  {
    hide Field, Pick16, Pick8, Pick48, PickId, PickPcp, PickByte, FillAddress, GetNwSrc, GetNwDst, PickType, PickProto,
         Widened, LowByte;
    if b.DlVlan() == Some(OFP_VLAN_NONE) {
      PickedType(a, b);
    }
  }

  lemma PickedType(a: Match, b: Match)
    requires TagPossible(b) && b.DlVlan() == Some(OFP_VLAN_NONE)
    ensures PickType(a, b) != VLAN_TYPE
  {
    hide Field, GetNwSrc, GetNwDst;
  }

  lemma TypeApart(a: Match, b: Match)
    ensures Apart(b.DlType(), Some(PickType(a, b)), a.dlType)
  {
    hide Field, GetNwSrc, GetNwDst;
  }

  lemma ProtoApart(a: Match, b: Match)
    ensures Apart(b.NwProto(), Some(PickProto(a, b)), a.nwProto)
  {
    hide Field, GetNwSrc, GetNwDst;
  }

  lemma TagApart(a: Match, b: Match)
    requires TagPossible(b) && !ImpliesPcp(b)
    ensures var f := SeparatingFrame(a, b);
            Apart(b.DlVlan(), Some(FrameVlan(f)), a.dlVlan) && Apart(b.DlVlanPcp(), Some(FramePcp(f)), a.dlVlanPcp)
  {
    hide Field, Pick16, Pick8, Pick48, FillAddress, GetNwSrc, GetNwDst, PickId, PickPcp, PickType, PickPayload, IdValue,
         PcpValue;
    if b.DlVlan() != Some(OFP_VLAN_NONE) {
      IdApart(b.DlVlan(), a.dlVlan);
      PcpApart(b.DlVlanPcp(), a.dlVlanPcp);
    }
  }

  lemma LinkSeparates(a: Match, b: Match, port: bv16, p: Match)
    requires TagPossible(b) && !ImpliesPcp(b) && port == Pick16(b.InPort(), a.inPort)
    requires p == FromPacket(SeparatingFrame(a, b), Some(port), true)
    ensures LinkApart(a, b, p)
  {
    hide Field, Pick16, Pick8, Pick48, FromPacket, FrameVlan, FramePcp, FrameType, PickTag, PickPayload, PickType,
         TagPossible, ImpliesPcp, Apart, GetNwSrc, GetNwDst;
    PacketSpecifies(SeparatingFrame(a, b), port, true);
    FrameIsParsed(a, b);
    TagApart(a, b);
    TypeApart(a, b);
    PickApart(b.InPort(), b.NwTos(), b.DlSrc(), a.inPort, a.nwTos, a.dlSrc);
    PickApart(b.InPort(), b.NwTos(), b.DlDst(), a.inPort, a.nwTos, a.dlDst);
  }

  /** The transport fields, for an IPv4 packet. */
  lemma TransportApart(a: Match, b: Match)
    requires HeadersPossible(b) && Complete(b) && PickType(a, b) == IP
    ensures Apart(b.TpSrc(), ShownTpSrc(PickPayload(a, b), true), a.tpSrc)
    ensures Apart(b.TpDst(), ShownTpDst(PickPayload(a, b), true), a.tpDst)
  {
    hide Field, Pick8, Pick48, Pick16, PickByte, FillAddress, GetNwSrc, GetNwDst, PickType, Widened, LowByte;
    if HasPortsProto(PickProto(a, b)) {
      PickApart(b.TpSrc(), b.NwTos(), b.DlSrc(), a.tpSrc, a.nwTos, a.dlSrc);
      PickApart(b.TpDst(), b.NwTos(), b.DlSrc(), a.tpDst, a.nwTos, a.dlSrc);
    } else if PickProto(a, b) == ICMP {
      ByteApart(b.TpSrc(), a.tpSrc);
      ByteApart(b.TpDst(), a.tpDst);
    }
  }

  lemma HeadersSeparate(a: Match, b: Match)
    requires HeadersPossible(b) && Complete(b)
    ensures var p := PickPayload(a, b);
            && Apart(b.NwProto(), ShownProto(p), a.nwProto) && Apart(b.NwTos(), ShownTos(p), a.nwTos)
            && Apart(b.TpSrc(), ShownTpSrc(p, true), a.tpSrc) && Apart(b.TpDst(), ShownTpDst(p, true), a.tpDst)
            && NetworkApart(GetNwSrc(b), ShownSrc(p), a.nwSrc) && NetworkApart(GetNwDst(b), ShownDst(p), a.nwDst)
  {
    hide Field, Pick8, Pick48, Pick16, PickByte, PickProto, PickTransport, FillAddress, GetNwSrc, GetNwDst, Widened,
         LowByte, TpPossible, IsOther;
    ProtoApart(a, b);
    WideCast(PickProto(a, b));
    PickApart(b.TpSrc(), b.NwTos(), b.DlSrc(), a.tpSrc, a.nwTos, a.dlSrc);
    if PickType(a, b) == IP {
      TransportApart(a, b);
    }
  }

  lemma FrameSeparates(a: Match, b: Match, port: bv16, p: Match)
    requires TagPossible(b) && HeadersPossible(b) && Complete(b) && port == Pick16(b.InPort(), a.inPort)
    requires p == FromPacket(SeparatingFrame(a, b), Some(port), true)
    ensures Separates(a, b, p)
  {
    hide Field, Pick16, FromPacket, PickPayload, PickTag, PickType, TagPossible, HeadersPossible, LinkApart, Apart,
         NetworkApart, GetNwSrc, GetNwDst, ShownProto, ShownTos, ShownTpSrc, ShownTpDst, ShownSrc, ShownDst, ImpliesPcp,
         ImpliesType, ImpliesTp;
    LinkSeparates(a, b, port, p);
    HeadersSeparate(a, b);
    PacketShows(SeparatingFrame(a, b), port, true);
  }

  lemma ImpliedComplete(b: Match)
    requires TagPossible(b) && HeadersPossible(b)
    ensures TagPossible(Implied(b)) && HeadersPossible(Implied(b)) && Complete(Implied(b))
  {
    ImpliedFields(b);
    hide Implied, Field, GetNwSrc, GetNwDst, FewerWild;
  }

  // ----- The theorems ---------------------------------------------------------------------------

  /** A match that some packet can be as it demands. */
  predicate Possible(test: NetworkTest, b: Match) {
    Clean(test, b) && TagPossible(b) && HeadersPossible(b)
  }

  /** The packet that tells a from what b implies: b takes it, and a only if it contains what b implies. */
  lemma Telling(test: NetworkTest, a: Match, b: Match) returns (f: Frame, port: bv16)
    requires Possible(test, b)
    ensures Parsed(f, true) && MatchesPacket(test, b, FromPacket(f, Some(port), true))
    ensures MatchesPacket(test, a, FromPacket(f, Some(port), true)) ==> MatchesPacket(test, a, Implied(b))
    ensures UndefinedBitsFit(a, b) && MatchesPacket(test, a, FromPacket(f, Some(port), true)) ==>
              Contains(test, a, Implied(b))
  {
    hide MatchesPacket, FromPacket, Parsed, Contains, Clean, TagPossible, HeadersPossible, Implied, Complete, Separates,
         SeparatingFrame, UndefinedBitsFit, Pick16;
    var i := Implied(b);
    ImpliedClean(test, a, b);
    ImpliedComplete(b);
    port := Pick16(i.InPort(), a.inPort);
    f := SeparatingFrame(a, i);
    var p := FromPacket(f, Some(port), true);
    FrameIsParsed(a, i);
    FrameSeparates(a, i, port, p);
    SeparatorTells(test, a, i, p);
    ContainsImplied(test, b);
    ContainsSound(test, b, i, p);
  }

  lemma CompleteIsParsed(f: Frame)
    requires Parsed(f, true)
    ensures Parsed(f, false)
  {
  }

  /** Which matches take any packet at all: those without stray address bits whose VLAN fields, headers and
      transport fields some packet has. It makes no difference whether truncated packets count. */
  lemma TakesSomePacketIff(test: NetworkTest, b: Match, complete: bool)
    ensures Possible(test, b) <==> TakesSome(test, b, complete)
  {
    hide MatchesPacket, FromPacket, Parsed, Clean, TagPossible, HeadersPossible, Implied;
    if Possible(test, b) {
      var f, port := Telling(test, b, b);
      CompleteIsParsed(f);
      assert Parsed(f, complete);
    }
    forall f: Frame, port: bv16 | Parsed(f, complete) && MatchesPacket(test, b, FromPacket(f, Some(port), true))
      ensures Possible(test, b)
    {
      Taken(test, b, f, port, true, complete);
    }
  }

  /** What containment says of packets: a takes every packet b takes, and has b's undefined wildcard bits,
      exactly if it contains b with what b implies. */
  lemma TakesPacketsIff(test: NetworkTest, a: Match, b: Match, complete: bool)
    requires Possible(test, b)
    ensures Contains(test, a, Implied(b)) <==> UndefinedBitsFit(a, b) && TakesPacketsOf(test, a, b, complete)
  {
    hide MatchesPacket, FromPacket, Parsed, Contains, Possible, Implied, UndefinedBitsFit;
    if Contains(test, a, Implied(b)) {
      ContainsUndefined(test, a, Implied(b));
      ImpliedClean(test, a, b);
      forall f: Frame, port: bv16, specFrags: bool |
        Parsed(f, complete) && MatchesPacket(test, b, FromPacket(f, Some(port), specFrags))
        ensures MatchesPacket(test, a, FromPacket(f, Some(port), specFrags))
      {
        Taken(test, b, f, port, specFrags, complete);
        ContainsSound(test, a, Implied(b), FromPacket(f, Some(port), specFrags));
      }
    }
    if UndefinedBitsFit(a, b) && TakesPacketsOf(test, a, b, complete) {
      var f, port := Telling(test, a, b);
      CompleteIsParsed(f);
      assert Parsed(f, complete);
    }
  }

  /** A match that takes no packet is included in every match, contained or not. */
  lemma ImpossibleTakesNothing(test: NetworkTest, a: Match, b: Match, complete: bool)
    requires !Possible(test, b)
    ensures TakesPacketsOf(test, a, b, complete)
  {
    hide MatchesPacket, FromPacket, Parsed, Clean, TagPossible, HeadersPossible, Implied;
    forall f: Frame, port: bv16, specFrags: bool |
      Parsed(f, complete) && MatchesPacket(test, b, FromPacket(f, Some(port), specFrags))
      ensures false
    {
      Taken(test, b, f, port, specFrags, complete);
    }
  }

  lemma LooseTrans(test: NetworkTest, a: Match, b: Match, p: Match)
    requires MatchesPacket(test, a, b) && MatchesPacket(test, b, p)
    ensures MatchesPacket(test, a, p)
  {
    if Same(a, b) {
      ContainsSound(test, a, b, p);
    } else if Same(b, p) {
      SameIsEquivalence(b, p, a);
      SameIsEquivalence(a, a, a);
      FitsSame(test, a, b, a, p, false);
    } else {
      LooseFits(test, a, b, p);
    }
    hide Same, Fits;
  }

  lemma LooseFits(test: NetworkTest, a: Match, b: Match, p: Match)
    requires Fits(test, a, b, false) && Fits(test, b, p, false)
    ensures Fits(test, a, p, false)
  {
    hide NetworkFits, GetNwSrc, GetNwDst, Field;
    NetworkFitsTrans(test, GetNwSrc(a), GetNwSrc(b), GetNwSrc(p));
    NetworkFitsTrans(test, GetNwDst(a), GetNwDst(b), GetNwDst(p));
  }

  /** When a takes every packet b takes, for all matches: when b takes none, or when a matches what b implies,
      wildcards aside. */
  lemma InclusionIff(test: NetworkTest, a: Match, b: Match, complete: bool)
    ensures TakesPacketsOf(test, a, b, complete) <==> !Possible(test, b) || MatchesPacket(test, a, Implied(b))
  {
    hide MatchesPacket, FromPacket, Parsed, Contains, Clean, TagPossible, HeadersPossible, Implied;
    if !Possible(test, b) {
      ImpossibleTakesNothing(test, a, b, complete);
    } else if MatchesPacket(test, a, Implied(b)) {
      forall f: Frame, port: bv16, specFrags: bool |
        Parsed(f, complete) && MatchesPacket(test, b, FromPacket(f, Some(port), specFrags))
        ensures MatchesPacket(test, a, FromPacket(f, Some(port), specFrags))
      {
        Taken(test, b, f, port, specFrags, complete);
        LooseTrans(test, a, Implied(b), FromPacket(f, Some(port), specFrags));
      }
    } else {
      var f, port := Telling(test, a, b);
      CompleteIsParsed(f);
      assert Parsed(f, complete);
    }
  }

  // ----- Named cases ----------------------------------------------------------------------------

  /** Untagged packets; and untagged packets of priority 0, which are all of them. */
  const UNTAGGED := EVERYTHING.(wildcards := Cleared(START, DL_VLAN), dlVlan := OFP_VLAN_NONE)
  const UNTAGGED_PCP := UNTAGGED.(wildcards := Cleared(START, DL_VLAN | DL_VLAN_PCP))

  /** Port 80 whatever the type; and under IPv4, which is the only type it has. */
  const WEB := EVERYTHING.(wildcards := Cleared(START, TP_DST), tpDst := 80)
  const IP_WEB := WEB.(wildcards := Cleared(START, TP_DST | DL_TYPE), dlType := IP)

  /** Port 80 under ARP, which no packet has; and the packets of one switch port. */
  const ARP_WEB := WEB.(wildcards := Cleared(START, TP_DST | DL_TYPE), dlType := ARP)
  const ON_PORT := EVERYTHING.(wildcards := Cleared(START, IN_PORT), inPort := 1)

  /** Every untagged packet has priority 0, yet the match that says so does not contain the one that leaves
      it open. */
  lemma UntaggedNotContained(test: NetworkTest, complete: bool)
    ensures TakesPacketsOf(test, UNTAGGED_PCP, UNTAGGED, complete) && !Contains(test, UNTAGGED_PCP, UNTAGGED)
  {
    UntaggedImplied(test);
    hide Possible, Contains, Implied, TakesPacketsOf;
    ContainsReflexive(test, UNTAGGED_PCP);
    TakesPacketsIff(test, UNTAGGED_PCP, UNTAGGED, complete);
  }

  lemma UntaggedImplied(test: NetworkTest)
    ensures Possible(test, UNTAGGED) && Implied(UNTAGGED) == UNTAGGED_PCP && !Contains(test, UNTAGGED_PCP, UNTAGGED)
  {
  }

  /** Every packet to port 80 is IPv4, yet the match that says so does not contain the one that does not. */
  lemma WebNotContained(test: NetworkTest, complete: bool)
    ensures TakesPacketsOf(test, IP_WEB, WEB, complete) && !Contains(test, IP_WEB, WEB)
  {
    WebImplied(test);
    hide Possible, Contains, Implied, TakesPacketsOf;
    ContainsReflexive(test, IP_WEB);
    TakesPacketsIff(test, IP_WEB, WEB, complete);
  }

  lemma WebImplied(test: NetworkTest)
    ensures Possible(test, WEB) && Implied(WEB) == IP_WEB && !Contains(test, IP_WEB, WEB)
  {
  }

  /** A port under ARP takes no packet, so every match includes it; those that do not name the port do not
      contain it, with or without what it implies. */
  lemma ArpWebTakesNothing(test: NetworkTest, complete: bool)
    ensures !TakesSome(test, ARP_WEB, complete) && TakesPacketsOf(test, ON_PORT, ARP_WEB, complete)
    ensures !Contains(test, ON_PORT, ARP_WEB) && !Contains(test, ON_PORT, Implied(ARP_WEB))
  {
    ArpWebImpossible(test);
    hide Possible, Contains, Implied, TakesPacketsOf, TakesSome;
    TakesSomePacketIff(test, ARP_WEB, complete);
    ImpossibleTakesNothing(test, ON_PORT, ARP_WEB, complete);
  }

  lemma ArpWebImpossible(test: NetworkTest)
    ensures !Possible(test, ARP_WEB)
    ensures !Contains(test, ON_PORT, ARP_WEB) && !Contains(test, ON_PORT, Implied(ARP_WEB))
  {
  }
}
