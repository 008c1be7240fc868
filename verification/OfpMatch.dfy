/** The OpenFlow 1.0 match: its wildcard bits, its wire format and containment between matches. */
module OfpMatch {
  import opened Wrappers

  const IN_PORT: bv32 := 1
  const DL_VLAN: bv32 := 2
  const DL_SRC: bv32 := 4
  const DL_DST: bv32 := 8
  const DL_TYPE: bv32 := 16
  const NW_PROTO: bv32 := 32
  const TP_SRC: bv32 := 64
  const TP_DST: bv32 := 128
  const DL_VLAN_PCP: bv32 := 1048576
  const NW_TOS: bv32 := 2097152
  const NW_SRC_ALL: bv32 := 8192
  const NW_SRC_MASK: bv32 := 16128
  const NW_DST_ALL: bv32 := 524288
  const NW_DST_MASK: bv32 := 1032192
  const OFPFW_ALL: bv32 := 0x3FFFFF
  const IP: bv16 := 0x0800
  const ARP: bv16 := 0x0806
  const IPV6: bv16 := 0x86dd

  /** A field is its stored value unless its wildcard bits are all set. */
  function Field<T>(wildcards: bv32, bits: bv32, value: T): Option<T> {
    if Wild(wildcards, bits) then None else Some(value)
  }

  predicate Wild(wildcards: bv32, bits: bv32) { wildcards & bits == bits }

  function Or0_16(v: Option<bv16>): bv16 { if v.Some? then v.value else 0 }
  function Or0_8(v: Option<bv8>): bv8 { if v.Some? then v.value else 0 }
  function Or0_32(v: Option<bv32>): bv32 { if v.Some? then v.value else 0 }
  function Or0_48(v: Option<bv48>): bv48 { if v.Some? then v.value else 0 }

  datatype Match = Match(wildcards: bv32, inPort: bv16, dlSrc: bv48, dlDst: bv48, dlVlan: bv16, dlVlanPcp: bv8,
                         dlType: bv16, nwTos: bv8, nwProto: bv8, nwSrc: bv32, nwDst: bv32, tpSrc: bv16, tpDst: bv16) {
    function InPort(): Option<bv16> { Field(wildcards, IN_PORT, inPort) }
    function DlSrc(): Option<bv48> { Field(wildcards, DL_SRC, dlSrc) }
    function DlDst(): Option<bv48> { Field(wildcards, DL_DST, dlDst) }
    function DlVlan(): Option<bv16> { Field(wildcards, DL_VLAN, dlVlan) }
    function DlVlanPcp(): Option<bv8> { Field(wildcards, DL_VLAN_PCP, dlVlanPcp) }
    function DlType(): Option<bv16> { Field(wildcards, DL_TYPE, dlType) }
    function NwTos(): Option<bv8> { Field(wildcards, NW_TOS, nwTos) }
    function NwProto(): Option<bv8> { Field(wildcards, NW_PROTO, nwProto) }
    function NwSrc(): Option<bv32> { Field(wildcards, NW_SRC_ALL, nwSrc) }
    function NwDst(): Option<bv32> { Field(wildcards, NW_DST_ALL, nwDst) }
    function TpSrc(): Option<bv16> { Field(wildcards, TP_SRC, tpSrc) }
    function TpDst(): Option<bv16> { Field(wildcards, TP_DST, tpDst) }

    /** How many low bits of the address are wildcarded. */
    function SrcBits(): bv32 { (wildcards & NW_SRC_MASK) >> 8 }
    function DstBits(): bv32 { (wildcards & NW_DST_MASK) >> 14 }

    predicate IsIp() { DlType() == Some(IP) }
    predicate IsIpOrArp() { DlType() == Some(IP) || DlType() == Some(ARP) }
    predicate HasPorts() { IsIp() && NwProto().Some? && NwProto().value in {1, 6, 17} }

    predicate IsWildcarded() { wildcards & OFPFW_ALL != 0 }
  }

  predicate SameLink(a: Match, b: Match) {
    && a.InPort() == b.InPort() && a.DlSrc() == b.DlSrc() && a.DlDst() == b.DlDst()
    && a.DlVlan() == b.DlVlan() && a.DlVlanPcp() == b.DlVlanPcp() && a.DlType() == b.DlType()
  }

  predicate SameNetwork(a: Match, b: Match) {
    && a.NwTos() == b.NwTos() && a.NwProto() == b.NwProto()
    && a.NwSrc() == b.NwSrc() && a.NwDst() == b.NwDst()
  }

  predicate SameTransport(a: Match, b: Match) {
    a.TpSrc() == b.TpSrc() && a.TpDst() == b.TpDst()
  }

  /** The equality the source defines: the wildcard bits and every visible field. */
  predicate Same(a: Match, b: Match) {
    a.wildcards == b.wildcards && SameLink(a, b) && SameNetwork(a, b) && SameTransport(a, b)
  }

  // ----- Wildcards on the wire ------------------------------------------------------------------

  function NormalizeWildcards(wildcards: bv32): bv32 {
    var w := if ((wildcards & NW_SRC_MASK) >> 8) > 32 then (wildcards & !NW_SRC_MASK) | (32 << 8) else wildcards;
    if ((w & NW_DST_MASK) >> 14) > 32 then (w & !NW_DST_MASK) | (32 << 14) else w
  }

  const TP: bv32 := TP_SRC | TP_DST
  const NOT_ARP: bv32 := NW_TOS | TP
  const NOT_IPV6: bv32 := NW_SRC_MASK | NW_DST_MASK | TP
  const NOT_IP: bv32 := NW_TOS | NW_PROTO | NW_SRC_MASK | NW_DST_MASK | TP

  function Cleared(wildcards: bv32, bits: bv32): bv32 { wildcards & !bits }
  function WithSet(wildcards: bv32, bits: bv32): bv32 { wildcards | bits }

  function WireWildcards(m: Match): bv32 {
    if m.IsIp() then
      if m.HasPorts() then m.wildcards else Cleared(m.wildcards, TP)
    else if m.DlType() == Some(ARP) then Cleared(m.wildcards, NOT_ARP)
    else if m.DlType() == Some(IPV6) then Cleared(m.wildcards, NOT_IPV6)
    else Cleared(m.wildcards, NOT_IP)
  }

  /** Reads the stored fields, which on the wire are zero where they were wildcarded. */
  function UnwireWildcards(m: Match, wildcards: bv32): bv32 {
    if m.dlType == IP then
      if m.nwProto in {1, 6, 17} then wildcards else WithSet(wildcards, TP)
    else if m.dlType == ARP then WithSet(wildcards, NOT_ARP)
    else WithSet(wildcards, NOT_IP)
  }

  function ClearTp(m: Match): Match {
    m.(tpSrc := 0, tpDst := 0, wildcards := WithSet(m.wildcards, TP))
  }

  function ClearNwTos(m: Match): Match {
    m.(nwTos := 0, wildcards := WithSet(m.wildcards, NW_TOS))
  }

  function ClearNwProto(m: Match): Match {
    m.(nwProto := 0, wildcards := WithSet(m.wildcards, NW_PROTO))
  }

  function WildAddresses(wildcards: bv32): bv32 {
    (((wildcards & !NW_SRC_MASK) | NW_SRC_ALL) & !NW_DST_MASK) | NW_DST_ALL
  }

  function ClearNwAddresses(m: Match): Match {
    m.(nwSrc := 0, nwDst := 0, wildcards := WildAddresses(m.wildcards))
  }

  /** Wildcards the fields that cannot matter for the match's protocol. */
  function Fixed(m: Match): Match {
    if m.IsIp() then
      if m.HasPorts() then m else ClearTp(m)
    else if m.DlType() == Some(ARP) then ClearNwTos(ClearTp(m))
    else ClearTp(ClearNwAddresses(ClearNwProto(ClearNwTos(m))))
  }

  // ----- Bytes ----------------------------------------------------------------------------------

  function U16(x: bv16): seq<bv8> { [(x >> 8) as bv8, (x & 0xFF) as bv8] }
  function U32(x: bv32): seq<bv8> { U16((x >> 16) as bv16) + U16((x & 0xFFFF) as bv16) }
  function U48(x: bv48): seq<bv8> { U16((x >> 32) as bv16) + U32((x & 0xFFFF_FFFF) as bv32) }

  function Get16(d: seq<bv8>, i: nat): bv16
    requires i + 2 <= |d|
  {
    ((d[i] as bv16) << 8) | (d[i + 1] as bv16)
  }

  function Get32(d: seq<bv8>, i: nat): bv32
    requires i + 4 <= |d|
  {
    ((Get16(d, i) as bv32) << 16) | (Get16(d, i + 2) as bv32)
  }

  function Get48(d: seq<bv8>, i: nat): bv48
    requires i + 6 <= |d|
  {
    ((Get16(d, i) as bv48) << 32) | (Get32(d, i + 2) as bv48)
  }

  /** What the wire carries for each field. */
  function WireValues(m: Match, flowMod: bool): Match {
    Match(if flowMod then WireWildcards(m) else m.wildcards,
          Or0_16(m.InPort()), Or0_48(m.DlSrc()), Or0_48(m.DlDst()), Or0_16(m.DlVlan()), Or0_8(m.DlVlanPcp()),
          Or0_16(m.DlType()),
          if m.IsIp() then Or0_8(m.NwTos()) else 0,
          if m.IsIpOrArp() then Or0_8(m.NwProto()) else 0,
          if m.IsIpOrArp() then Or0_32(m.NwSrc()) else 0,
          if m.IsIpOrArp() then Or0_32(m.NwDst()) else 0,
          if m.HasPorts() then Or0_16(m.TpSrc()) else 0,
          if m.HasPorts() then Or0_16(m.TpDst()) else 0)
  }

  function Bytes(v: Match): seq<bv8> {
    U32(v.wildcards) + U16(v.inPort) + U48(v.dlSrc) + U48(v.dlDst)
    + U16(v.dlVlan) + [v.dlVlanPcp, 0]
    + U16(v.dlType) + [v.nwTos, v.nwProto, 0, 0]
    + U32(v.nwSrc) + U32(v.nwDst) + U16(v.tpSrc) + U16(v.tpDst)
  }

  function Pack(m: Match, flowMod: bool): (d: seq<bv8>)
    ensures |d| == 40
  {
    Bytes(WireValues(m, flowMod))
  }

  function Parse(d: seq<bv8>): Match
    requires |d| == 40
  {
    Match(Get32(d, 0), Get16(d, 4), Get48(d, 6), Get48(d, 12), Get16(d, 18), d[20],
          Get16(d, 22), d[24], d[25], Get32(d, 28), Get32(d, 32), Get16(d, 36), Get16(d, 38))
  }

  function Unpack(d: seq<bv8>, flowMod: bool): Match
    requires |d| == 40
  {
    var v := Parse(d);
    v.(wildcards := NormalizeWildcards(if flowMod then UnwireWildcards(v, v.wildcards) else v.wildcards))
  }

  lemma Get16At(before: seq<bv8>, x: bv16, after: seq<bv8>)
    ensures Get16(before + U16(x) + after, |before|) == x
  {
  }

  lemma Get32At(before: seq<bv8>, x: bv32, after: seq<bv8>)
    ensures Get32(before + U32(x) + after, |before|) == x
  {
    var hi, lo := (x >> 16) as bv16, (x & 0xFFFF) as bv16;
    var d := before + U32(x) + after;
    Get16At(before, hi, U16(lo) + after);
    assert d == before + U16(hi) + (U16(lo) + after);
    Get16At(before + U16(hi), lo, after);
    assert d == (before + U16(hi)) + U16(lo) + after;
  }

  lemma Get48At(before: seq<bv8>, x: bv48, after: seq<bv8>)
    ensures Get48(before + U48(x) + after, |before|) == x
  {
    var hi, lo := (x >> 32) as bv16, (x & 0xFFFF_FFFF) as bv32;
    var d := before + U48(x) + after;
    Get16At(before, hi, U32(lo) + after);
    assert d == before + U16(hi) + (U32(lo) + after);
    Get32At(before + U16(hi), lo, after);
    assert d == (before + U16(hi)) + U32(lo) + after;
  }

  /** The byte layout loses nothing: section 5.2.3 of the OpenFlow 1.0.0 specification. */
  lemma ParseOfBytes(v: Match)
    ensures |Bytes(v)| == 40 && Parse(Bytes(v)) == v
  {
    hide U16, U32, U48, Get16, Get32, Get48;
    ParseLow(v);
    ParseMiddle(v);
    ParseHigh(v);
    ParseLast(v);
  }

  lemma FieldSizes(v: Match)
    ensures |U32(v.wildcards)| == |U32(v.nwSrc)| == |U32(v.nwDst)| == 4
    ensures |U48(v.dlSrc)| == |U48(v.dlDst)| == 6
    ensures |U16(v.inPort)| == |U16(v.dlVlan)| == |U16(v.dlType)| == |U16(v.tpSrc)| == |U16(v.tpDst)| == 2
  {
  }

  lemma ParseLow(v: Match)
    ensures |Bytes(v)| == 40
    ensures var d := Bytes(v);
            Get32(d, 0) == v.wildcards && Get16(d, 4) == v.inPort && Get48(d, 6) == v.dlSrc
  {
    var d := Bytes(v);
    FieldSizes(v);
    hide U16, U32, U48, Get16, Get32, Get48;
    Get32At(d[..0], v.wildcards, d[4..]);
    assert d == d[..0] + U32(v.wildcards) + d[4..];
    Get16At(d[..4], v.inPort, d[6..]);
    assert d == d[..4] + U16(v.inPort) + d[6..];
    Get48At(d[..6], v.dlSrc, d[12..]);
    assert d == d[..6] + U48(v.dlSrc) + d[12..];
  }

  lemma ParseMiddle(v: Match)
    ensures |Bytes(v)| == 40
    ensures var d := Bytes(v);
            Get48(d, 12) == v.dlDst && Get16(d, 18) == v.dlVlan && d[20] == v.dlVlanPcp
  {
    var d := Bytes(v);
    FieldSizes(v);
    hide U16, U32, U48, Get16, Get32, Get48;
    Get48At(d[..12], v.dlDst, d[18..]);
    assert d == d[..12] + U48(v.dlDst) + d[18..];
    Get16At(d[..18], v.dlVlan, d[20..]);
    assert d == d[..18] + U16(v.dlVlan) + d[20..];
  }

  lemma ParseHigh(v: Match)
    ensures |Bytes(v)| == 40
    ensures var d := Bytes(v);
            Get16(d, 22) == v.dlType && d[24] == v.nwTos && d[25] == v.nwProto && Get32(d, 28) == v.nwSrc
  {
    var d := Bytes(v);
    FieldSizes(v);
    hide U16, U32, U48, Get16, Get32, Get48;
    Get16At(d[..22], v.dlType, d[24..]);
    assert d == d[..22] + U16(v.dlType) + d[24..];
    Get32At(d[..28], v.nwSrc, d[32..]);
    assert d == d[..28] + U32(v.nwSrc) + d[32..];
  }

  lemma ParseLast(v: Match)
    ensures |Bytes(v)| == 40
    ensures var d := Bytes(v); Get32(d, 32) == v.nwDst && Get16(d, 36) == v.tpSrc && Get16(d, 38) == v.tpDst
  {
    var d := Bytes(v);
    FieldSizes(v);
    hide U16, U32, U48, Get16, Get32, Get48;
    Get32At(d[..32], v.nwDst, d[36..]);
    assert d == d[..32] + U32(v.nwDst) + d[36..];
    Get16At(d[..36], v.tpSrc, d[38..]);
    assert d == d[..36] + U16(v.tpSrc) + d[38..];
    Get16At(d[..38], v.tpDst, []);
    assert d == d[..38] + U16(v.tpDst) + [];
  }

  // ----- The round trip -------------------------------------------------------------------------

  function Normalized(m: Match): Match {
    m.(wildcards := NormalizeWildcards(m.wildcards))
  }

  lemma WireProtocol(m: Match)
    ensures SameProtocol(m, WireValues(m, true))
  {
  }

  lemma IpBits(w: bv32)
    ensures WithSet(Cleared(w, TP), TP) == WithSet(w, TP)
  {
  }

  lemma ArpCleared(w: bv32)
    ensures WithSet(Cleared(w, NOT_ARP), NOT_ARP) == WithSet(w, NOT_ARP)
  {
  }

  lemma NonIpCleared(w: bv32)
    ensures WithSet(Cleared(w, NOT_IP), NOT_IP) == WithSet(w, NOT_IP)
  {
  }

  lemma Ipv6Cleared(w: bv32)
    ensures WithSet(Cleared(w, NOT_IPV6), NOT_IP) == WithSet(w, NOT_IP)
  {
  }

  lemma ArpBits(w: bv32)
    ensures WithSet(w, NOT_ARP) == WithSet(WithSet(w, TP), NW_TOS)
  {
  }

  /** All prefix bits set normalise to a full wildcard. */
  lemma NonIpBits(w: bv32)
    ensures NormalizeWildcards(WithSet(w, NOT_IP))
         == NormalizeWildcards(WithSet(WildAddresses(WithSet(WithSet(w, NW_TOS), NW_PROTO)), TP))
  {
  }

  /** The stored type on the wire tells the same protocols apart as the match does. */
  predicate SameProtocol(m: Match, v: Match) {
    && (v.dlType == IP <==> m.IsIp()) && (v.dlType == ARP <==> m.DlType() == Some(ARP))
    && (m.IsIp() ==> (v.nwProto in {1, 6, 17} <==> m.HasPorts()))
  }

  lemma IpRoundTrip(m: Match, v: Match)
    requires SameProtocol(m, v) && m.IsIp()
    ensures UnwireWildcards(v, WireWildcards(m)) == Fixed(m).wildcards
  {
    hide Field, Cleared, WithSet, Match.HasPorts;
    IpBits(m.wildcards);
  }

  lemma ArpRoundTrip(m: Match, v: Match)
    requires SameProtocol(m, v) && m.DlType() == Some(ARP)
    ensures UnwireWildcards(v, WireWildcards(m)) == Fixed(m).wildcards
  {
    hide Field, Cleared, WithSet, Match.HasPorts;
    ArpCleared(m.wildcards);
    ArpBits(m.wildcards);
  }

  lemma NonIpRoundTrip(m: Match, v: Match)
    requires SameProtocol(m, v) && !m.IsIpOrArp()
    ensures NormalizeWildcards(UnwireWildcards(v, WireWildcards(m))) == NormalizeWildcards(Fixed(m).wildcards)
  {
    hide Field, Cleared, WithSet, WildAddresses, NormalizeWildcards, Match.HasPorts;
    NonIpCleared(m.wildcards);
    Ipv6Cleared(m.wildcards);
    NonIpBits(m.wildcards);
  }

  lemma WildcardsRoundTrip(m: Match)
    ensures var v := WireValues(m, true);
            NormalizeWildcards(UnwireWildcards(v, v.wildcards)) == NormalizeWildcards(Fixed(m).wildcards)
  {
    hide WireValues, UnwireWildcards, WireWildcards, NormalizeWildcards, Fixed, Field, SameProtocol;
    var v := WireValues(m, true);
    WireProtocol(m);
    WireWildcardsValue(m);
    if m.IsIp() {
      IpRoundTrip(m, v);
    } else if m.DlType() == Some(ARP) {
      ArpRoundTrip(m, v);
    } else {
      NonIpRoundTrip(m, v);
    }
  }

  lemma WireWildcardsValue(m: Match)
    ensures WireValues(m, true).wildcards == WireWildcards(m)
  {
  }

  lemma UnpackOfPack(m: Match, flowMod: bool)
    ensures var v := WireValues(m, flowMod);
            Unpack(Pack(m, flowMod), flowMod)
            == v.(wildcards := NormalizeWildcards(if flowMod then UnwireWildcards(v, v.wildcards) else v.wildcards))
  {
    hide Bytes, Parse, WireValues;
    ParseOfBytes(WireValues(m, flowMod));
  }

  const LINK: bv32 := IN_PORT | DL_VLAN | DL_SRC | DL_DST | DL_TYPE | DL_VLAN_PCP

  predicate AgreeOnLink(w: bv32, w': bv32) { w & LINK == w' & LINK }

  lemma LinkBits(w: bv32, w': bv32)
    requires AgreeOnLink(w, w')
    ensures Wild(w, IN_PORT) == Wild(w', IN_PORT)
    ensures Wild(w, DL_SRC) == Wild(w', DL_SRC) && Wild(w, DL_DST) == Wild(w', DL_DST)
    ensures Wild(w, DL_VLAN) == Wild(w', DL_VLAN)
    ensures Wild(w, DL_VLAN_PCP) == Wild(w', DL_VLAN_PCP)
    ensures Wild(w, DL_TYPE) == Wild(w', DL_TYPE)
  {
  }

  /** Normalising never changes which fields are visible. */
  lemma NormalizedVisible(m: Match)
    ensures SameLink(Normalized(m), m) && SameNetwork(Normalized(m), m) && SameTransport(Normalized(m), m)
  {
    NormalizedLink(m);
    NormalizedRest(m);
    hide SameLink, SameNetwork, SameTransport;
  }

  lemma NormalizedLinkBits(w: bv32)
    ensures NormalizeWildcards(w) & LINK == w & LINK
  {
  }

  lemma NormalizedLink(m: Match)
    ensures SameLink(Normalized(m), m)
  {
    NormalizedLinkBits(m.wildcards);
    LinkBits(NormalizeWildcards(m.wildcards), m.wildcards);
    hide NormalizeWildcards;
  }

  lemma NormalizedRest(m: Match)
    ensures SameNetwork(Normalized(m), m) && SameTransport(Normalized(m), m)
  {
  }

  predicate KeepsLink(m: Match, f: Match) {
    && AgreeOnLink(f.wildcards, m.wildcards)
    && f.inPort == m.inPort && f.dlSrc == m.dlSrc && f.dlDst == m.dlDst
    && f.dlVlan == m.dlVlan && f.dlVlanPcp == m.dlVlanPcp && f.dlType == m.dlType
  }

  lemma ClearKeepsLink(m: Match)
    ensures KeepsLink(m, ClearTp(m)) && KeepsLink(m, ClearNwTos(m)) && KeepsLink(m, ClearNwProto(m))
    ensures KeepsLink(m, ClearNwAddresses(m))
  {
  }

  lemma KeepsLinkTrans(a: Match, b: Match, c: Match)
    requires KeepsLink(a, b) && KeepsLink(b, c)
    ensures KeepsLink(a, c)
  {
  }

  lemma FixedKeepsLink(m: Match)
    ensures KeepsLink(m, Fixed(m))
  {
    hide KeepsLink, ClearTp, ClearNwTos, ClearNwProto, ClearNwAddresses, Match.IsIp, Match.HasPorts, Match.DlType;
    ClearKeepsLink(m);
    if Fixed(m) == m {
      assert KeepsLink(m, m) by { KeepsLinkSelf(m); }
    } else if Fixed(m) == ClearNwTos(ClearTp(m)) {
      ClearKeepsLink(ClearTp(m));
      KeepsLinkTrans(m, ClearTp(m), ClearNwTos(ClearTp(m)));
    } else if Fixed(m) != ClearTp(m) {
      var a := ClearNwTos(m);
      var b := ClearNwProto(a);
      var c := ClearNwAddresses(b);
      ClearKeepsLink(a);
      ClearKeepsLink(b);
      ClearKeepsLink(c);
      KeepsLinkTrans(m, a, b);
      KeepsLinkTrans(m, b, c);
      KeepsLinkTrans(m, c, ClearTp(c));
    }
  }

  lemma KeepsLinkSelf(m: Match)
    ensures KeepsLink(m, m)
  {
  }

  lemma Carried(w: bv32, w': bv32, bits: bv32, x: bv16, y: bv8, z: bv48)
    requires Wild(w, bits) == Wild(w', bits)
    ensures Field(w', bits, Or0_16(Field(w, bits, x))) == Field(w', bits, x)
    ensures Field(w', bits, Or0_8(Field(w, bits, y))) == Field(w', bits, y)
    ensures Field(w', bits, Or0_48(Field(w, bits, z))) == Field(w', bits, z)
  {
  }

  lemma WireLink(m: Match)
    ensures var v := WireValues(m, true);
            && v.inPort == Or0_16(m.InPort()) && v.dlSrc == Or0_48(m.DlSrc()) && v.dlDst == Or0_48(m.DlDst())
            && v.dlVlan == Or0_16(m.DlVlan()) && v.dlVlanPcp == Or0_8(m.DlVlanPcp()) && v.dlType == Or0_16(m.DlType())
  {
    hide Field, WireWildcards;
  }

  lemma LinkFields(m: Match, f: Match)
    requires KeepsLink(m, f)
    ensures f.inPort == m.inPort && f.dlSrc == m.dlSrc && f.dlDst == m.dlDst
    ensures f.dlVlan == m.dlVlan && f.dlVlanPcp == m.dlVlanPcp && f.dlType == m.dlType
    ensures AgreeOnLink(f.wildcards, m.wildcards)
  {
  }

  /** Every field a fixed match still shows is carried by the wire. */
  lemma CarriedLink(m: Match)
    ensures SameLink(WireValues(m, true).(wildcards := Fixed(m).wildcards), Fixed(m))
  {
    hide WireValues, Fixed, Field, Wild, AgreeOnLink, Or0_16, Or0_8, Or0_48, KeepsLink;
    FixedKeepsLink(m);
    LinkFields(m, Fixed(m));
    WireLink(m);
    var w, w' := m.wildcards, Fixed(m).wildcards;
    LinkBits(w', w);
    Carried(w, w', IN_PORT, m.inPort, 0, 0);
    Carried(w, w', DL_SRC, 0, 0, m.dlSrc);
    Carried(w, w', DL_DST, 0, 0, m.dlDst);
    Carried(w, w', DL_VLAN, m.dlVlan, 0, 0);
    Carried(w, w', DL_VLAN_PCP, 0, m.dlVlanPcp, 0);
    Carried(w, w', DL_TYPE, m.dlType, 0, 0);
  }

  lemma FixedTos(m: Match)
    ensures m.IsIp() ==> Wild(Fixed(m).wildcards, NW_TOS) == Wild(m.wildcards, NW_TOS) && Fixed(m).nwTos == m.nwTos
    ensures !m.IsIp() ==> Wild(Fixed(m).wildcards, NW_TOS)
  {
  }

  lemma FixedProto(m: Match)
    ensures m.IsIpOrArp() ==>
              Wild(Fixed(m).wildcards, NW_PROTO) == Wild(m.wildcards, NW_PROTO) && Fixed(m).nwProto == m.nwProto
    ensures !m.IsIpOrArp() ==> Wild(Fixed(m).wildcards, NW_PROTO)
  {
  }

  lemma CarriedProtocol(m: Match)
    ensures var v := WireValues(m, true).(wildcards := Fixed(m).wildcards);
            v.NwTos() == Fixed(m).NwTos() && v.NwProto() == Fixed(m).NwProto()
  {
    hide WireWildcards, Fixed, Wild, Match.IsIp, Match.IsIpOrArp, Match.HasPorts;
    FixedTos(m);
    FixedProto(m);
  }

  lemma CarriedAddresses(m: Match)
    ensures var v := WireValues(m, true).(wildcards := Fixed(m).wildcards);
            v.NwSrc() == Fixed(m).NwSrc() && v.NwDst() == Fixed(m).NwDst()
  {
    hide WireWildcards, Match.HasPorts;
  }

  lemma CarriedNetwork(m: Match)
    ensures SameNetwork(WireValues(m, true).(wildcards := Fixed(m).wildcards), Fixed(m))
  {
    CarriedProtocol(m);
    CarriedAddresses(m);
    hide WireValues, Fixed, Field;
  }

  lemma CarriedTransport(m: Match)
    ensures SameTransport(WireValues(m, true).(wildcards := Fixed(m).wildcards), Fixed(m))
  {
    hide WireWildcards;
  }

  lemma FixedCarried(m: Match)
    ensures Same(Normalized(WireValues(m, true).(wildcards := Fixed(m).wildcards)), Normalized(Fixed(m)))
  {
    var v := WireValues(m, true).(wildcards := Fixed(m).wildcards);
    CarriedLink(m);
    CarriedNetwork(m);
    CarriedTransport(m);
    NormalizedVisible(v);
    NormalizedVisible(Fixed(m));
    hide WireValues, Fixed, NormalizeWildcards, Field;
  }

  /** Packing a match for a flow mod and unpacking it again gives the match with its irrelevant fields
      wildcarded and its prefix wildcards normalised, for every match. */
  lemma FlowModRoundTrip(m: Match)
    ensures Same(Unpack(Pack(m, true), true), Normalized(Fixed(m)))
  {
    hide WireValues, Fixed, UnwireWildcards, NormalizeWildcards, Unpack, Pack, Same;
    UnpackOfPack(m, true);
    WildcardsRoundTrip(m);
    FixedCarried(m);
  }

  /** It gives the fixed match itself exactly when no prefix wildcard that matters exceeds 32 bits. */
  lemma FlowModRoundTripExact(m: Match)
    ensures Same(Unpack(Pack(m, true), true), Fixed(m))
            <==> (m.IsIpOrArp() ==> m.SrcBits() <= 32 && m.DstBits() <= 32)
  {
    FlowModRoundTrip(m);
    FixedNormalizedIff(m);
    hide Fixed, Unpack, Pack, NormalizeWildcards;
    NormalizedVisible(Fixed(m));
  }

  lemma FixedNormalizedIff(m: Match)
    ensures NormalizeWildcards(Fixed(m).wildcards) == Fixed(m).wildcards
            <==> (m.IsIpOrArp() ==> m.SrcBits() <= 32 && m.DstBits() <= 32)
  {
    NormalIff(Fixed(m));
    FixedBits(m);
    hide NormalizeWildcards, Fixed, Match.SrcBits, Match.DstBits;
  }

  lemma FixedBits(m: Match)
    ensures m.IsIpOrArp() ==> Fixed(m).SrcBits() == m.SrcBits() && Fixed(m).DstBits() == m.DstBits()
    ensures !m.IsIpOrArp() ==> Fixed(m).SrcBits() == 32 && Fixed(m).DstBits() == 32
  {
  }

  predicate ZeroOrWild16(v: Option<bv16>) { v.None? || v.value == 0 }
  predicate ZeroOrWild8(v: Option<bv8>) { v.None? || v.value == 0 }
  predicate ZeroOrWild32(v: Option<bv32>) { v.None? || v.value == 0 }

  /** Fields that do not apply to the match's protocol are wildcarded or zero. */
  predicate IgnoredFieldsClear(m: Match) {
    && (!m.IsIp() ==> ZeroOrWild8(m.NwTos()))
    && (!m.IsIpOrArp() ==> ZeroOrWild8(m.NwProto()) && ZeroOrWild32(m.NwSrc()) && ZeroOrWild32(m.NwDst()))
    && (!m.HasPorts() ==> ZeroOrWild16(m.TpSrc()) && ZeroOrWild16(m.TpDst()))
  }

  /** Outside a flow mod the wildcards travel unchanged, and the match survives exactly when its
      irrelevant fields are clear and its prefix wildcards are normal. */
  lemma PlainRoundTrip(m: Match)
    ensures Same(Unpack(Pack(m, false), false), m)
            <==> IgnoredFieldsClear(m) && m.SrcBits() <= 32 && m.DstBits() <= 32
  {
    UnpackOfPack(m, false);
    NormalIff(m);
    PlainCarried(m, NormalizeWildcards(m.wildcards));
    hide WireValues, Unpack, Pack, NormalizeWildcards, IgnoredFieldsClear;
  }

  lemma NormalIff(m: Match)
    ensures NormalizeWildcards(m.wildcards) == m.wildcards <==> m.SrcBits() <= 32 && m.DstBits() <= 32
  {
  }

  lemma PlainLink(m: Match)
    ensures WireValues(m, false).wildcards == m.wildcards && SameLink(WireValues(m, false), m)
  {
  }

  lemma PlainNetwork(m: Match)
    ensures SameNetwork(WireValues(m, false), m) <==>
            && (!m.IsIp() ==> ZeroOrWild8(m.NwTos()))
            && (!m.IsIpOrArp() ==> ZeroOrWild8(m.NwProto()) && ZeroOrWild32(m.NwSrc()) && ZeroOrWild32(m.NwDst()))
  {
    PlainProtocol(m);
    PlainAddresses(m);
    hide WireValues, Field, ZeroOrWild8, ZeroOrWild32;
  }

  lemma PlainProtocol(m: Match)
    ensures WireValues(m, false).NwTos() == m.NwTos() <==> (!m.IsIp() ==> ZeroOrWild8(m.NwTos()))
    ensures WireValues(m, false).NwProto() == m.NwProto() <==> (!m.IsIpOrArp() ==> ZeroOrWild8(m.NwProto()))
  {
  }

  lemma PlainAddresses(m: Match)
    ensures WireValues(m, false).NwSrc() == m.NwSrc() <==> (!m.IsIpOrArp() ==> ZeroOrWild32(m.NwSrc()))
    ensures WireValues(m, false).NwDst() == m.NwDst() <==> (!m.IsIpOrArp() ==> ZeroOrWild32(m.NwDst()))
  {
  }

  lemma PlainTransport(m: Match)
    ensures SameTransport(WireValues(m, false), m) <==>
            (!m.HasPorts() ==> ZeroOrWild16(m.TpSrc()) && ZeroOrWild16(m.TpDst()))
  {
  }

  lemma PlainCarried(m: Match, w: bv32)
    ensures WireValues(m, false).wildcards == m.wildcards
    ensures Same(WireValues(m, false).(wildcards := w), m) <==> w == m.wildcards && IgnoredFieldsClear(m)
  {
    PlainLink(m);
    PlainNetwork(m);
    PlainTransport(m);
    hide WireValues, SameLink, SameNetwork, SameTransport, Field;
    assert w == m.wildcards ==> WireValues(m, false).(wildcards := w) == WireValues(m, false);
  }
}
