/** The match as the object the switch and the controller update in place. */
module MatchObject {
  import opened Wrappers
  import opened OfpMatch
  import opened MatchContainment

  /** An address to set: more than 32 prefix bits means all of them. */
  datatype Address = Address(ip: bv32, bits: bv32)

  function Clamp(bits: bv32): bv32 { if bits > 32 then 32 else bits }

  /** How many low bits the address leaves open. */
  function OpenBits(a: Option<Address>): (w: bv32)
    ensures w <= 32
  {
    if a.None? then 32 else 32 - Clamp(a.value.bits)
  }

  function Ip(a: Option<Address>): bv32 { if a.None? then 0 else a.value.ip }

  function WithBits(w: bv32, mask: bv32, bits: bv32): bv32 { (w & !mask) | bits }

  function WithNwSrc(m: Match, a: Option<Address>): Match {
    m.(nwSrc := Ip(a), wildcards := WithBits(m.wildcards, NW_SRC_MASK, OpenBits(a) << 8))
  }

  function WithNwDst(m: Match, a: Option<Address>): Match {
    m.(nwDst := Ip(a), wildcards := WithBits(m.wildcards, NW_DST_MASK, OpenBits(a) << 14))
  }

  function Chosen(a: Option<Address>): Network {
    if a.Some? && a.value.bits > 0 then Network(a.value.ip, Clamp(a.value.bits)) else Anything
  }

  /** Everything but the two addresses. */
  predicate SameBesidesAddresses(a: Match, b: Match) {
    SameLink(a, b) && a.NwTos() == b.NwTos() && a.NwProto() == b.NwProto() && SameTransport(a, b)
  }

  const ADDRESSES: bv32 := NW_SRC_MASK | NW_DST_MASK

  lemma OtherBits(w: bv32, w': bv32)
    requires w & !ADDRESSES == w' & !ADDRESSES
    ensures w & LINK == w' & LINK
    ensures (w & NW_TOS == NW_TOS) == (w' & NW_TOS == NW_TOS)
    ensures (w & NW_PROTO == NW_PROTO) == (w' & NW_PROTO == NW_PROTO)
    ensures (w & TP_SRC == TP_SRC) == (w' & TP_SRC == TP_SRC) && (w & TP_DST == TP_DST) == (w' & TP_DST == TP_DST)
  {
  }

  lemma LinkOnly(m: Match, w: bv32, src: bv32, dst: bv32)
    requires w & LINK == m.wildcards & LINK
    ensures SameLink(m.(wildcards := w, nwSrc := src, nwDst := dst), m)
  {
    LinkBits(w, m.wildcards);
  }

  lemma AddressesOnly(m: Match, w: bv32, src: bv32, dst: bv32)
    requires w & !ADDRESSES == m.wildcards & !ADDRESSES
    ensures SameBesidesAddresses(m.(wildcards := w, nwSrc := src, nwDst := dst), m)
  {
    hide SameLink;
    OtherBits(w, m.wildcards);
    LinkOnly(m, w, src, dst);
  }

  lemma SrcLeavesDst(w: bv32)
    ensures w & NW_DST_MASK == (w & !NW_SRC_MASK) & NW_DST_MASK
  {
  }

  lemma SrcLeavesRest(w: bv32)
    ensures w & !ADDRESSES == (w & !NW_SRC_MASK) & !ADDRESSES
  {
  }

  lemma DstLeavesSrc(w: bv32)
    ensures w & NW_SRC_MASK == (w & !NW_DST_MASK) & NW_SRC_MASK
  {
  }

  lemma DstLeavesRest(w: bv32)
    ensures w & !ADDRESSES == (w & !NW_DST_MASK) & !ADDRESSES
  {
  }

  lemma Unaffected(w: bv32)
    ensures w & NW_DST_MASK == (w & !NW_SRC_MASK) & NW_DST_MASK && w & !ADDRESSES == (w & !NW_SRC_MASK) & !ADDRESSES
    ensures w & NW_SRC_MASK == (w & !NW_DST_MASK) & NW_SRC_MASK && w & !ADDRESSES == (w & !NW_DST_MASK) & !ADDRESSES
  {
    SrcLeavesDst(w);
    SrcLeavesRest(w);
    DstLeavesSrc(w);
    DstLeavesRest(w);
  }

  /** The address read back depends on the address's own wildcard bits only. */
  function Read(address: bv32, wild: bv32): Network {
    if wild >= 32 then Anything else Network(address, 32 - wild)
  }

  lemma GetIsRead(m: Match)
    ensures GetNwSrc(m) == Read(m.nwSrc, (m.wildcards & NW_SRC_MASK) >> 8)
    ensures GetNwDst(m) == Read(m.nwDst, (m.wildcards & NW_DST_MASK) >> 14)
  {
    AllBit(m.wildcards);
  }

  lemma AllBit(w: bv32)
    ensures w & NW_SRC_ALL == NW_SRC_ALL <==> (w & NW_SRC_MASK) >> 8 >= 32
    ensures w & NW_DST_ALL == NW_DST_ALL <==> (w & NW_DST_MASK) >> 14 >= 32
  {
  }

  /** What is set is what is read back, and nothing else changes. */
  lemma SetNwSrcThenGet(m: Match, a: Option<Address>)
    ensures GetNwSrc(WithNwSrc(m, a)) == Chosen(a)
    ensures GetNwDst(WithNwSrc(m, a)) == GetNwDst(m)
    ensures SameBesidesAddresses(WithNwSrc(m, a), m)
  {
    hide GetNwSrc, GetNwDst, SameBesidesAddresses;
    var n := WithNwSrc(m, a);
    SrcBitsSet(m.wildcards, OpenBits(a));
    Unaffected(n.wildcards);
    Unaffected(m.wildcards);
    GetIsRead(n);
    GetIsRead(m);
    AddressesOnly(m, n.wildcards, n.nwSrc, m.nwDst);
  }

  lemma SetNwDstThenGet(m: Match, a: Option<Address>)
    ensures GetNwDst(WithNwDst(m, a)) == Chosen(a)
    ensures GetNwSrc(WithNwDst(m, a)) == GetNwSrc(m)
    ensures SameBesidesAddresses(WithNwDst(m, a), m)
  {
    hide GetNwSrc, GetNwDst, SameBesidesAddresses;
    var n := WithNwDst(m, a);
    DstBitsSet(m.wildcards, OpenBits(a));
    Unaffected(n.wildcards);
    Unaffected(m.wildcards);
    GetIsRead(n);
    GetIsRead(m);
    AddressesOnly(m, n.wildcards, m.nwSrc, n.nwDst);
  }

  lemma SrcBitsSet(w: bv32, bits: bv32)
    requires bits <= 32
    ensures WithBits(w, NW_SRC_MASK, bits << 8) & !NW_SRC_MASK == w & !NW_SRC_MASK
    ensures (WithBits(w, NW_SRC_MASK, bits << 8) & NW_SRC_MASK) >> 8 == bits
  {
  }

  lemma DstBitsSet(w: bv32, bits: bv32)
    requires bits <= 32
    ensures WithBits(w, NW_DST_MASK, bits << 14) & !NW_DST_MASK == w & !NW_DST_MASK
    ensures (WithBits(w, NW_DST_MASK, bits << 14) & NW_DST_MASK) >> 14 == bits
  {
  }

  /** The match object; its stored fields are one value, replaced field by field. */
  class MatchObject {
    var fields: Match

    constructor ()
      ensures fields.IsWildcarded() && fields.SrcBits() == 32 && fields.DstBits() == 32
      ensures fields == Match(NormalizeWildcards(OFPFW_ALL), 0, 0, 0, 0, 0, 0, 0, 0, 0, 0, 0, 0)
    {
      fields := Match(NormalizeWildcards(OFPFW_ALL), 0, 0, 0, 0, 0, 0, 0, 0, 0, 0, 0, 0);
    }

    method SetNwSrc(a: Option<Address>)
      modifies this
      ensures fields == WithNwSrc(old(fields), a)
    {
      var cleared := fields.wildcards & !NW_SRC_MASK;
      if a.None? {
        fields := fields.(nwSrc := 0, wildcards := cleared | NW_SRC_ALL);
        return;
      }
      fields := fields.(nwSrc := a.value.ip, wildcards := cleared | ((32 - Clamp(a.value.bits)) << 8));
    }

    method SetNwDst(a: Option<Address>)
      modifies this
      ensures fields == WithNwDst(old(fields), a)
    {
      var cleared := fields.wildcards & !NW_DST_MASK;
      if a.None? {
        fields := fields.(nwDst := 0, wildcards := cleared | NW_DST_ALL);
        return;
      }
      fields := fields.(nwDst := a.value.ip, wildcards := cleared | ((32 - Clamp(a.value.bits)) << 14));
    }

    method WildNwTos()
      modifies this
      ensures fields == ClearNwTos(old(fields))
    {
      fields := fields.(nwTos := 0, wildcards := fields.wildcards | NW_TOS);
    }

    method WildNwProto()
      modifies this
      ensures fields == ClearNwProto(old(fields))
    {
      fields := fields.(nwProto := 0, wildcards := fields.wildcards | NW_PROTO);
    }

    method WildTransport()
      modifies this
      ensures fields == ClearTp(old(fields))
    {
      fields := fields.(tpSrc := 0, wildcards := fields.wildcards | TP_SRC);
      fields := fields.(tpDst := 0, wildcards := fields.wildcards | TP_DST);
    }

    method Fix()
      modifies this
      ensures fields == Fixed(old(fields))
    {
      hide ClearTp, ClearNwTos, ClearNwProto, ClearNwAddresses, WithNwSrc, WithNwDst, Match.IsIp, Match.HasPorts,
           Match.DlType;
      if fields.IsIp() {
        if !fields.HasPorts() {
          WildTransport();
        }
      } else if fields.DlType() == Some(ARP) {
        WildTransport();
        WildNwTos();
      } else {
        WildNwTos();
        WildNwProto();
        BothAddresses(fields);
        SetNwSrc(None);
        SetNwDst(None);
        WildTransport();
      }
    }

    method Unpack(raw: seq<bv8>, flowMod: bool)
      requires |raw| == 40
      modifies this
      ensures fields == OfpMatch.Unpack(raw, flowMod)
    {
      hide NormalizeWildcards, UnwireWildcards, Get16, Get32, Get48;
      fields := fields.(inPort := Get16(raw, 4), dlSrc := Get48(raw, 6), dlDst := Get48(raw, 12));
      fields := fields.(dlVlan := Get16(raw, 18), dlVlanPcp := raw[20]);
      fields := fields.(dlType := Get16(raw, 22), nwTos := raw[24], nwProto := raw[25]);
      fields := fields.(nwSrc := Get32(raw, 28), nwDst := Get32(raw, 32));
      fields := fields.(tpSrc := Get16(raw, 36), tpDst := Get16(raw, 38));
      var w := Get32(raw, 0);
      UnwireIgnoresBits(fields, fields.(wildcards := w), w);
      fields := fields.(wildcards := NormalizeWildcards(if flowMod then UnwireWildcards(fields, w) else w));
    }
  }

  lemma BothAddresses(m: Match)
    ensures WithNwDst(WithNwSrc(m, None), None) == ClearNwAddresses(m)
  {
  }

  lemma UnwireIgnoresBits(m: Match, n: Match, w: bv32)
    requires n == m.(wildcards := n.wildcards)
    ensures UnwireWildcards(m, w) == UnwireWildcards(n, w)
  {
  }

  /** Sending a match in a flow mod leaves the receiver's object as fixing the sender's object does,
      up to normalised prefix wildcards. */
  method PackThenUnpack(sender: MatchObject, receiver: MatchObject)
    requires sender != receiver
    modifies sender, receiver
    ensures sender.fields == Fixed(old(sender.fields))
    ensures Same(receiver.fields, Normalized(sender.fields))
  {
    hide *;
    FlowModRoundTrip(sender.fields);
    var raw := Pack(sender.fields, true);
    receiver.Unpack(raw, true);
    sender.Fix();
  }
}
