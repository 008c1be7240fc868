/** When one match contains another, and what that means for the packets they match. */
module MatchContainment {
  import opened Wrappers
  import opened OfpMatch

  /** `IPAddr.inNetwork` is defined in a file that is not part of this model. It masks the address and
      compares it either with the network address as given or with its masked form; everything below
      holds for both readings. */
  datatype NetworkTest = AsGiven | Masked

  /** An address with its prefix length, or nothing when fully wildcarded. */
  datatype Network = Anything | Network(address: bv32, bits: bv32)

  predicate Proper(n: Network) {
    n.Network? ==> 0 < n.bits <= 32
  }

  function GetNwSrc(m: Match): (r: Network)
    ensures Proper(r)
  {
    if m.wildcards & NW_SRC_ALL == NW_SRC_ALL then Anything else Network(m.nwSrc, 32 - m.SrcBits())
  }

  function GetNwDst(m: Match): (r: Network)
    ensures Proper(r)
  {
    if m.wildcards & NW_DST_ALL == NW_DST_ALL then Anything else Network(m.nwDst, 32 - m.DstBits())
  }

  /** The address bits a prefix of this length fixes. */
  function PrefixMask(bits: bv32): bv32
    requires 0 < bits <= 32
  {
    !(((1 as bv32) << (32 - bits)) - 1)
  }

  predicate InNetwork(test: NetworkTest, ip: bv32, network: bv32, bits: bv32)
    requires 0 < bits <= 32
  {
    Under(test, ip, network, PrefixMask(bits))
  }

  predicate Under(test: NetworkTest, ip: bv32, network: bv32, mask: bv32) {
    ip & mask == if test == AsGiven then network else network & mask
  }

  predicate NetworkFits(test: NetworkTest, mine: Network, others: Network)
    requires Proper(mine) && Proper(others)
  {
    mine.Network? ==>
      others.Network? && mine.bits <= others.bits && InNetwork(test, others.address, mine.address, mine.bits)
  }

  predicate FieldFits<T(==)>(mine: Option<T>, others: Option<T>) {
    mine.Some? ==> mine == others
  }

  const NW_MASKS: bv32 := NW_SRC_MASK | NW_DST_MASK

  predicate BitsFit(a: Match, b: Match) {
    BitsWithin(a.wildcards, b.wildcards)
  }

  predicate BitsWithin(w: bv32, v: bv32) {
    (w & !NW_MASKS) | (v & !NW_MASKS) == w & !NW_MASKS
  }

  predicate FieldsFit(a: Match, b: Match) {
    && FieldFits(a.InPort(), b.InPort()) && FieldFits(a.DlVlan(), b.DlVlan())
    && FieldFits(a.DlSrc(), b.DlSrc()) && FieldFits(a.DlDst(), b.DlDst()) && FieldFits(a.DlType(), b.DlType())
    && FieldFits(a.NwProto(), b.NwProto()) && FieldFits(a.TpSrc(), b.TpSrc()) && FieldFits(a.TpDst(), b.TpDst())
    && FieldFits(a.DlVlanPcp(), b.DlVlanPcp()) && FieldFits(a.NwTos(), b.NwTos())
  }

  predicate Fits(test: NetworkTest, a: Match, b: Match, considerOtherWildcards: bool) {
    && (considerOtherWildcards ==> BitsFit(a, b))
    && FieldsFit(a, b)
    && NetworkFits(test, GetNwSrc(a), GetNwSrc(b))
    && NetworkFits(test, GetNwDst(a), GetNwDst(b))
  }

  predicate MatchesWithWildcards(test: NetworkTest, a: Match, b: Match, considerOtherWildcards: bool) {
    Same(a, b) || Fits(test, a, b, considerOtherWildcards)
  }

  /** Containment, as flow mods and overlap checks use it. */
  predicate Contains(test: NetworkTest, a: Match, b: Match) {
    MatchesWithWildcards(test, a, b, true)
  }

  /** Matching of a packet, given as the match built from it. */
  predicate MatchesPacket(test: NetworkTest, a: Match, packet: Match) {
    MatchesWithWildcards(test, a, packet, false)
  }

  // ----- A preorder, and sound ------------------------------------------------------------------

  lemma MaskNarrower(a: bv32, b: bv32)
    requires 0 < a <= b <= 32
    ensures PrefixMask(a) & PrefixMask(b) == PrefixMask(a)
  {
  }

  lemma UnderTrans(test: NetworkTest, x: bv32, y: bv32, z: bv32, wide: bv32, narrow: bv32)
    requires wide & narrow == wide && Under(test, y, x, wide) && Under(test, z, y, narrow)
    ensures Under(test, z, x, wide)
  {
  }

  lemma InNetworkTrans(test: NetworkTest, x: bv32, a: bv32, y: bv32, b: bv32, z: bv32)
    requires 0 < a <= b <= 32 && InNetwork(test, y, x, a) && InNetwork(test, z, y, b)
    ensures InNetwork(test, z, x, a)
  {
    hide PrefixMask, Under;
    MaskNarrower(a, b);
    UnderTrans(test, x, y, z, PrefixMask(a), PrefixMask(b));
  }

  lemma NetworkFitsTrans(test: NetworkTest, a: Network, b: Network, c: Network)
    requires Proper(a) && Proper(b) && Proper(c)
    requires NetworkFits(test, a, b) && NetworkFits(test, b, c)
    ensures NetworkFits(test, a, c)
  {
    if a.Network? {
      InNetworkTrans(test, a.address, a.bits, b.address, b.bits, c.address);
    }
    hide InNetwork;
  }

  lemma BitsFitTrans(a: Match, b: Match, c: Match)
    requires BitsFit(a, b) && BitsFit(b, c)
    ensures BitsFit(a, c)
  {
  }

  lemma FitsTrans(test: NetworkTest, a: Match, b: Match, c: Match, k: bool)
    requires Fits(test, a, b, true) && Fits(test, b, c, k)
    ensures Fits(test, a, c, k)
  {
    if k {
      BitsFitTrans(a, b, c);
    }
    NetworkFitsTrans(test, GetNwSrc(a), GetNwSrc(b), GetNwSrc(c));
    NetworkFitsTrans(test, GetNwDst(a), GetNwDst(b), GetNwDst(c));
    hide BitsFit, NetworkFits, GetNwSrc, GetNwDst, Field;
  }

  lemma SameNetworks(a: Match, b: Match)
    requires Same(a, b)
    ensures GetNwSrc(a) == GetNwSrc(b) && GetNwDst(a) == GetNwDst(b)
  {
  }

  lemma FitsSame(test: NetworkTest, a: Match, b: Match, a': Match, b': Match, k: bool)
    requires Same(a, a') && Same(b, b') && Fits(test, a, b, k)
    ensures Fits(test, a', b', k)
  {
    SameNetworks(a, a');
    SameNetworks(b, b');
    hide GetNwSrc, GetNwDst, NetworkFits, Field;
  }

  lemma SameIsEquivalence(a: Match, b: Match, c: Match)
    ensures Same(a, a) && (Same(a, b) ==> Same(b, a)) && (Same(a, b) && Same(b, c) ==> Same(a, c))
  {
    hide Field;
  }

  lemma ContainsReflexive(test: NetworkTest, a: Match)
    ensures Contains(test, a, a)
  {
    SameIsEquivalence(a, a, a);
  }

  /** The general step: containment followed by either kind of matching is that kind of matching. */
  lemma ContainsThen(test: NetworkTest, a: Match, b: Match, c: Match, k: bool)
    requires Contains(test, a, b) && MatchesWithWildcards(test, b, c, k)
    ensures MatchesWithWildcards(test, a, c, k)
  {
    SameIsEquivalence(a, b, c);
    SameIsEquivalence(b, a, c);
    SameIsEquivalence(c, c, c);
    SameIsEquivalence(a, a, a);
    hide Same, Fits;
    if Same(a, b) {
      if Fits(test, b, c, k) {
        FitsSame(test, b, c, a, c, k);
      }
    } else if Same(b, c) {
      FitsSame(test, a, b, a, c, true);
      FitsWeaker(test, a, c, k);
    } else {
      FitsTrans(test, a, b, c, k);
    }
  }

  lemma FitsWeaker(test: NetworkTest, a: Match, b: Match, k: bool)
    requires Fits(test, a, b, true)
    ensures Fits(test, a, b, k)
  {
  }

  lemma ContainsTransitive(test: NetworkTest, a: Match, b: Match, c: Match)
    requires Contains(test, a, b) && Contains(test, b, c)
    ensures Contains(test, a, c)
  {
    ContainsThen(test, a, b, c, true);
  }

  /** Soundness: a containing match matches every packet the contained one matches. */
  lemma ContainsSound(test: NetworkTest, a: Match, b: Match, packet: Match)
    requires Contains(test, a, b) && MatchesPacket(test, b, packet)
    ensures MatchesPacket(test, a, packet)
  {
    ContainsThen(test, a, b, packet, false);
  }

  // ----- What matching means --------------------------------------------------------------------

  function Half(x: bv32): bv32 { x >> 1 }
  function Twice(x: bv32): bv32 { x << 1 }
  predicate IsOdd(x: bv32) { x & 1 != 0 }

  /** An address without its low bits. */
  function DropBits(x: bv32, count: bv32): bv32
    decreases count
  {
    if count == 0 then x else DropBits(Half(x), count - 1)
  }

  predicate LowBitsClear(x: bv32, count: bv32)
    decreases count
  {
    count == 0 || (!IsOdd(x) && LowBitsClear(Half(x), count - 1))
  }

  predicate SameUnder(x: bv32, y: bv32, mask: bv32) { x & mask == y & mask }
  predicate Kept(x: bv32, mask: bv32) { x & mask == x }

  lemma NextMask(count: bv32)
    requires 0 < count < 32
    ensures PrefixMask(32 - count) == Twice(PrefixMask(32 - (count - 1)))
  {
  }

  lemma WholeMask(x: bv32, y: bv32)
    ensures (SameUnder(x, y, PrefixMask(32)) <==> x == y) && Kept(x, PrefixMask(32))
  {
  }

  lemma HalveUnder(x: bv32, y: bv32, mask: bv32)
    ensures SameUnder(x, y, Twice(mask)) <==> SameUnder(Half(x), Half(y), mask)
  {
    ShiftedUnder(x, mask);
    ShiftedUnder(y, mask);
    EvenByHalf(x & Twice(mask), y & Twice(mask));
    hide Half, Twice, IsOdd;
  }

  lemma ShiftedUnder(x: bv32, mask: bv32)
    ensures Half(x & Twice(mask)) == Half(x) & mask & 0x7FFF_FFFF && !IsOdd(x & Twice(mask))
    ensures Half(x) & mask & 0x7FFF_FFFF == Half(x) & mask
  {
  }

  lemma EvenByHalf(x: bv32, y: bv32)
    ensures x == y <==> Half(x) == Half(y) && IsOdd(x) == IsOdd(y)
  {
  }

  lemma HalveKept(x: bv32, mask: bv32)
    ensures Kept(x, Twice(mask)) <==> Kept(Half(x), mask) && !IsOdd(x)
  {
    ShiftedUnder(x, mask);
    EvenByHalf(x & Twice(mask), x);
    hide Half, Twice, IsOdd;
  }

  /** Equal under a prefix mask is equal but for the low bits. */
  lemma {:induction false} MaskDropsBits(x: bv32, y: bv32, count: bv32)
    requires count < 32
    ensures SameUnder(x, y, PrefixMask(32 - count)) <==> DropBits(x, count) == DropBits(y, count)
    ensures Kept(x, PrefixMask(32 - count)) <==> LowBitsClear(x, count)
    decreases count
  {
    hide PrefixMask, Half, IsOdd, Twice, SameUnder, Kept;
    if count == 0 {
      WholeMask(x, y);
    } else {
      NextMask(count);
      MaskDropsBits(Half(x), Half(y), count - 1);
      HalveUnder(x, y, PrefixMask(32 - (count - 1)));
      HalveKept(x, PrefixMask(32 - (count - 1)));
    }
  }

  /** A field agrees if its wildcard bit is set or the values are equal. */
  predicate Agrees<T(==)>(wildcards: bv32, bit: bv32, mine: T, packets: T) {
    wildcards & bit != 0 || mine == packets
  }

  /** Addresses agree but for as many low bits as the wildcard count says; whatever they are from 32 on. Where the
      network address is compared as given, it must have those bits clear. */
  predicate AddressAgrees(test: NetworkTest, count: bv32, mine: bv32, packets: bv32) {
    count < 32 ==> DropBits(packets, count) == DropBits(mine, count) && (test == AsGiven ==> LowBitsClear(mine, count))
  }

  predicate LinkAgrees(a: Match, p: Match) {
    && Agrees(a.wildcards, 1, a.inPort, p.inPort) && Agrees(a.wildcards, 2, a.dlVlan, p.dlVlan)
    && Agrees(a.wildcards, 4, a.dlSrc, p.dlSrc) && Agrees(a.wildcards, 8, a.dlDst, p.dlDst)
    && Agrees(a.wildcards, 16, a.dlType, p.dlType) && Agrees(a.wildcards, 0x10_0000, a.dlVlanPcp, p.dlVlanPcp)
  }

  predicate HeadersAgree(a: Match, p: Match) {
    && Agrees(a.wildcards, 32, a.nwProto, p.nwProto) && Agrees(a.wildcards, 0x20_0000, a.nwTos, p.nwTos)
    && Agrees(a.wildcards, 64, a.tpSrc, p.tpSrc) && Agrees(a.wildcards, 128, a.tpDst, p.tpDst)
  }

  lemma UnderMeans(test: NetworkTest, count: bv32, mine: bv32, packets: bv32)
    requires count < 32
    ensures InNetwork(test, packets, mine, 32 - count) <==> AddressAgrees(test, count, mine, packets)
  {
    MaskDropsBits(packets, mine, count);
    MaskDropsBits(mine, mine, count);
    UnderSplits(test, packets, mine, PrefixMask(32 - count));
    hide Under, Half, IsOdd, SameUnder, Kept, PrefixMask;
  }

  lemma UnderSplits(test: NetworkTest, ip: bv32, network: bv32, mask: bv32)
    ensures Under(test, ip, network, mask)
            <==> SameUnder(ip, network, mask) && (test == AsGiven ==> Kept(network, mask))
  {
    if test == AsGiven {
      MaskTwice(ip, mask);
      if ip & mask == network {
        assert network & mask == network;
      }
    }
  }

  lemma MaskTwice(x: bv32, mask: bv32)
    ensures (x & mask) & mask == x & mask
  {
  }

  lemma SingleBit(w: bv32, bit: bv32)
    requires bit in {1, 2, 4, 8, 16, 32, 64, 128, 0x10_0000, 0x20_0000}
    ensures Wild(w, bit) <==> w & bit != 0
  {
  }

  lemma FieldAgrees<T>(w: bv32, bit: bv32, mine: T, packets: T)
    requires bit in {1, 2, 4, 8, 16, 32, 64, 128, 0x10_0000, 0x20_0000}
    ensures FieldFits(Field(w, bit, mine), Some(packets)) <==> Agrees(w, bit, mine, packets)
  {
    SingleBit(w, bit);
    hide Wild;
  }

  function SrcCount(w: bv32): bv32 { (w >> 8) & 63 }
  function DstCount(w: bv32): bv32 { (w >> 14) & 63 }

  lemma Counts(m: Match)
    ensures GetNwSrc(m) == if SrcCount(m.wildcards) < 32 then Network(m.nwSrc, 32 - SrcCount(m.wildcards)) else Anything
    ensures GetNwDst(m) == if DstCount(m.wildcards) < 32 then Network(m.nwDst, 32 - DstCount(m.wildcards)) else Anything
  {
  }

  lemma ExactShows(p: Match)
    requires p.wildcards & OFPFW_ALL == 0
    ensures forall bit: bv32 ::
              bit in {1, 2, 4, 8, 16, 32, 64, 128, 0x10_0000, 0x20_0000} ==> !Wild(p.wildcards, bit)
    ensures SrcCount(p.wildcards) == 0 && DstCount(p.wildcards) == 0
  {
  }

  lemma LinkMeans(a: Match, p: Match)
    requires p.wildcards & OFPFW_ALL == 0
    ensures LinkAgrees(a, p)
            <==> && FieldFits(a.InPort(), p.InPort()) && FieldFits(a.DlVlan(), p.DlVlan())
                 && FieldFits(a.DlSrc(), p.DlSrc()) && FieldFits(a.DlDst(), p.DlDst())
                 && FieldFits(a.DlType(), p.DlType()) && FieldFits(a.DlVlanPcp(), p.DlVlanPcp())
  {
    hide Wild, Agrees, SrcCount, DstCount;
    ExactShows(p);
    FieldAgrees(a.wildcards, 1, a.inPort, p.inPort);
    FieldAgrees(a.wildcards, 2, a.dlVlan, p.dlVlan);
    FieldAgrees(a.wildcards, 4, a.dlSrc, p.dlSrc);
    FieldAgrees(a.wildcards, 8, a.dlDst, p.dlDst);
    FieldAgrees(a.wildcards, 16, a.dlType, p.dlType);
    FieldAgrees(a.wildcards, 0x10_0000, a.dlVlanPcp, p.dlVlanPcp);
  }

  lemma HeadersMean(a: Match, p: Match)
    requires p.wildcards & OFPFW_ALL == 0
    ensures HeadersAgree(a, p)
            <==> && FieldFits(a.NwProto(), p.NwProto()) && FieldFits(a.NwTos(), p.NwTos())
                 && FieldFits(a.TpSrc(), p.TpSrc()) && FieldFits(a.TpDst(), p.TpDst())
  {
    hide Wild, Agrees, SrcCount, DstCount;
    ExactShows(p);
    FieldAgrees(a.wildcards, 32, a.nwProto, p.nwProto);
    FieldAgrees(a.wildcards, 0x20_0000, a.nwTos, p.nwTos);
    FieldAgrees(a.wildcards, 64, a.tpSrc, p.tpSrc);
    FieldAgrees(a.wildcards, 128, a.tpDst, p.tpDst);
  }

  lemma NetworksMean(test: NetworkTest, a: Match, p: Match)
    requires p.wildcards & OFPFW_ALL == 0
    ensures NetworkFits(test, GetNwSrc(a), GetNwSrc(p))
            <==> AddressAgrees(test, SrcCount(a.wildcards), a.nwSrc, p.nwSrc)
    ensures NetworkFits(test, GetNwDst(a), GetNwDst(p))
            <==> AddressAgrees(test, DstCount(a.wildcards), a.nwDst, p.nwDst)
  {
    Counts(a);
    Counts(p);
    ExactShows(p);
    hide GetNwSrc, GetNwDst, SrcCount, DstCount, NetworkFits, AddressAgrees, Wild;
    NetworkMeans(test, SrcCount(a.wildcards), a.nwSrc, p.nwSrc);
    NetworkMeans(test, DstCount(a.wildcards), a.nwDst, p.nwDst);
  }

  lemma NetworkMeans(test: NetworkTest, count: bv32, mine: bv32, packets: bv32)
    ensures NetworkFits(test, if count < 32 then Network(mine, 32 - count) else Anything, Network(packets, 32))
            <==> AddressAgrees(test, count, mine, packets)
  {
    hide InNetwork, DropBits, LowBitsClear;
    if count < 32 {
      UnderMeans(test, count, mine, packets);
    }
  }

  lemma {:induction false} NoBitsDropped(test: NetworkTest, x: bv32)
    ensures AddressAgrees(test, 0, x, x)
  {
  }

  /** A match takes a fully specified packet exactly if each field has its wildcard bit set or the packet's value,
      and the addresses agree but for the low bits their wildcard counts leave open. */
  lemma MatchesMeans(test: NetworkTest, a: Match, p: Match)
    requires p.wildcards & OFPFW_ALL == 0
    ensures MatchesPacket(test, a, p)
            <==> && LinkAgrees(a, p) && HeadersAgree(a, p)
                 && AddressAgrees(test, SrcCount(a.wildcards), a.nwSrc, p.nwSrc)
                 && AddressAgrees(test, DstCount(a.wildcards), a.nwDst, p.nwDst)
  {
    hide Field, GetNwSrc, GetNwDst, SrcCount, DstCount, NetworkFits, AddressAgrees, LinkAgrees, HeadersAgree, Wild,
         Same;
    LinkMeans(a, p);
    HeadersMean(a, p);
    NetworksMean(test, a, p);
    if Same(a, p) {
      SameExactFits(test, a, p);
    }
  }

  lemma SameExactFits(test: NetworkTest, a: Match, p: Match)
    requires Same(a, p) && p.wildcards & OFPFW_ALL == 0
    ensures Fits(test, a, p, false)
  {
    hide Field, GetNwSrc, GetNwDst, SrcCount, DstCount, AddressAgrees, Wild;
    ExactShows(p);
    NetworksMean(test, a, p);
    SameAddresses(a, p);
    NoBitsDropped(test, p.nwSrc);
    NoBitsDropped(test, p.nwDst);
    hide NetworkFits;
  }

  lemma SameAddresses(a: Match, p: Match)
    requires Same(a, p) && p.wildcards & OFPFW_ALL == 0
    ensures a.nwSrc == p.nwSrc && a.nwDst == p.nwDst && a.wildcards == p.wildcards
  {
  }

  lemma SameField<T>(w: bv32, bit: bv32, x: T, y: T)
    requires bit in {1, 2, 4, 8, 16, 32, 64, 128, 0x10_0000, 0x20_0000}
    ensures Field(w, bit, x) == Field(w, bit, y) <==> Agrees(w, bit, x, y)
  {
    SingleBit(w, bit);
    hide Wild;
  }

  lemma SameAddress(w: bv32, x: bv32, y: bv32)
    ensures Field(w, NW_SRC_ALL, x) == Field(w, NW_SRC_ALL, y) <==> SrcCount(w) >= 32 || x == y
    ensures Field(w, NW_DST_ALL, x) == Field(w, NW_DST_ALL, y) <==> DstCount(w) >= 32 || x == y
  {
  }

  /** Two matches are equal exactly if their wildcards are and each field is wildcarded or has the same value; of
      an address all bits count unless its wildcard count is 32 or more. */
  lemma EqualIff(a: Match, b: Match)
    ensures Same(a, b)
            <==> && a.wildcards == b.wildcards && LinkAgrees(a, b) && HeadersAgree(a, b)
                 && (SrcCount(a.wildcards) >= 32 || a.nwSrc == b.nwSrc)
                 && (DstCount(a.wildcards) >= 32 || a.nwDst == b.nwDst)
  {
    hide Field, Agrees, SrcCount, DstCount;
    var w := a.wildcards;
    SameField(w, 1, a.inPort, b.inPort);
    SameField(w, 2, a.dlVlan, b.dlVlan);
    SameField(w, 4, a.dlSrc, b.dlSrc);
    SameField(w, 8, a.dlDst, b.dlDst);
    SameField(w, 16, a.dlType, b.dlType);
    SameField(w, 0x10_0000, a.dlVlanPcp, b.dlVlanPcp);
    SameField(w, 32, a.nwProto, b.nwProto);
    SameField(w, 0x20_0000, a.nwTos, b.nwTos);
    SameField(w, 64, a.tpSrc, b.tpSrc);
    SameField(w, 128, a.tpDst, b.tpDst);
    SameAddress(w, a.nwSrc, b.nwSrc);
    SameAddress(w, a.nwDst, b.nwDst);
  }

  // ----- Complete as well -----------------------------------------------------------------------

  /** A fully specified match: every field present. */
  predicate IsExact(m: Match) {
    !m.IsWildcarded()
  }

  /** Address bits below the prefix. */
  predicate HasStrayBits(n: Network)
    requires Proper(n)
  {
    n.Network? && n.address & PrefixMask(n.bits) != n.address
  }

  /** No stray bits where the network address is compared as given; where it is masked they do not count. */
  predicate Clean(test: NetworkTest, m: Match) {
    test == AsGiven ==> !HasStrayBits(GetNwSrc(m)) && !HasStrayBits(GetNwDst(m))
  }

  /** Bits of x under the mask, of y elsewhere. */
  function Blend(x: bv32, mask: bv32, y: bv32): bv32 { (x & mask) | (y & !mask) }

  /** The address in `mine` that differs from `avoid` in every bit the prefix leaves free. */
  function FillAddress(mine: Network, avoid: bv32): bv32
    requires Proper(mine)
  {
    if mine.Anything? then !avoid
    else Blend(mine.address, PrefixMask(mine.bits), !avoid)
  }

  /** What a packet shows where a match demands the field, and where it does not: nothing, or not the value
      to avoid. */
  predicate Apart<T(==)>(field: Option<T>, shown: Option<T>, avoid: T) {
    if field.Some? then shown == field else shown.Some? ==> shown.value != avoid
  }

  predicate NetworkApart(field: Network, shown: Network, avoid: bv32)
    requires Proper(field)
  {
    shown == Network(FillAddress(field, avoid), 32) || (field.Anything? && shown.Anything?)
  }

  predicate LinkApart(a: Match, b: Match, p: Match) {
    && Apart(b.InPort(), p.InPort(), a.inPort) && Apart(b.DlVlan(), p.DlVlan(), a.dlVlan)
    && Apart(b.DlSrc(), p.DlSrc(), a.dlSrc) && Apart(b.DlDst(), p.DlDst(), a.dlDst)
    && Apart(b.DlType(), p.DlType(), a.dlType) && Apart(b.DlVlanPcp(), p.DlVlanPcp(), a.dlVlanPcp)
  }

  predicate HeadersApart(a: Match, b: Match, p: Match) {
    && Apart(b.NwProto(), p.NwProto(), a.nwProto) && Apart(b.NwTos(), p.NwTos(), a.nwTos)
    && Apart(b.TpSrc(), p.TpSrc(), a.tpSrc) && Apart(b.TpDst(), p.TpDst(), a.tpDst)
    && NetworkApart(GetNwSrc(b), GetNwSrc(p), a.nwSrc) && NetworkApart(GetNwDst(b), GetNwDst(p), a.nwDst)
  }

  /** A packet's match that is as b demands and, wherever b leaves a choice, unlike a. */
  predicate Separates(a: Match, b: Match, p: Match) {
    LinkApart(a, b, p) && HeadersApart(a, b, p)
  }

  function Pick16(field: Option<bv16>, avoid: bv16): bv16 { if field.Some? then field.value else !avoid }
  function Pick8(field: Option<bv8>, avoid: bv8): bv8 { if field.Some? then field.value else !avoid }
  function Pick48(field: Option<bv48>, avoid: bv48): bv48 { if field.Some? then field.value else !avoid }

  function Separator(a: Match, b: Match): Match {
    Match(0, Pick16(b.InPort(), a.inPort), Pick48(b.DlSrc(), a.dlSrc), Pick48(b.DlDst(), a.dlDst),
          Pick16(b.DlVlan(), a.dlVlan), Pick8(b.DlVlanPcp(), a.dlVlanPcp), Pick16(b.DlType(), a.dlType),
          Pick8(b.NwTos(), a.nwTos), Pick8(b.NwProto(), a.nwProto),
          FillAddress(GetNwSrc(b), a.nwSrc), FillAddress(GetNwDst(b), a.nwDst),
          Pick16(b.TpSrc(), a.tpSrc), Pick16(b.TpDst(), a.tpDst))
  }

  lemma PickApart(f: Option<bv16>, g: Option<bv8>, h: Option<bv48>, x: bv16, y: bv8, z: bv48)
    ensures Apart(f, Some(Pick16(f, x)), x) && Apart(g, Some(Pick8(g, y)), y) && Apart(h, Some(Pick48(h, z)), z)
  {
    assert x & 1 != !x & 1 && y & 1 != !y & 1 && z & 1 != !z & 1;
  }

  lemma SeparatorSeparates(a: Match, b: Match)
    ensures Separates(a, b, Separator(a, b)) && IsExact(Separator(a, b))
  {
    hide GetNwSrc, GetNwDst, Field, FillAddress, Apart, Pick16, Pick8, Pick48;
    PlainShows(Separator(a, b));
    PickApart(b.InPort(), b.DlVlanPcp(), b.DlSrc(), a.inPort, a.dlVlanPcp, a.dlSrc);
    PickApart(b.DlVlan(), b.NwTos(), b.DlDst(), a.dlVlan, a.nwTos, a.dlDst);
    PickApart(b.DlType(), b.NwProto(), b.DlDst(), a.dlType, a.nwProto, a.dlDst);
    PickApart(b.TpSrc(), b.NwProto(), b.DlDst(), a.tpSrc, a.nwProto, a.dlDst);
    PickApart(b.TpDst(), b.NwProto(), b.DlDst(), a.tpDst, a.nwProto, a.dlDst);
  }

  lemma PlainShows(p: Match)
    requires p.wildcards == 0
    ensures p.InPort() == Some(p.inPort) && p.DlSrc() == Some(p.dlSrc) && p.DlDst() == Some(p.dlDst)
    ensures p.DlVlan() == Some(p.dlVlan) && p.DlVlanPcp() == Some(p.dlVlanPcp) && p.DlType() == Some(p.dlType)
    ensures p.NwTos() == Some(p.nwTos) && p.NwProto() == Some(p.nwProto)
    ensures p.TpSrc() == Some(p.tpSrc) && p.TpDst() == Some(p.tpDst)
    ensures GetNwSrc(p) == Network(p.nwSrc, 32) && GetNwDst(p) == Network(p.nwDst, 32)
    ensures IsExact(p)
  {
  }

  lemma FillUnder(test: NetworkTest, x: bv32, mask: bv32, avoid: bv32)
    requires test == AsGiven ==> x & mask == x
    ensures Under(test, Blend(x, mask, !avoid), x, mask)
  {
  }

  lemma FillFits(test: NetworkTest, mine: Network, avoid: bv32)
    requires Proper(mine) && (test == AsGiven ==> !HasStrayBits(mine))
    ensures NetworkFits(test, mine, Network(FillAddress(mine, avoid), 32))
  {
    hide PrefixMask, Under, Blend;
    if mine.Network? {
      FillUnder(test, mine.address, PrefixMask(mine.bits), avoid);
    }
  }

  lemma SeparatorFits(test: NetworkTest, a: Match, b: Match, p: Match)
    requires Clean(test, b) && Separates(a, b, p)
    ensures Fits(test, b, p, false)
  {
    hide GetNwSrc, GetNwDst, FillAddress, HasStrayBits, Field, InNetwork;
    FillFits(test, GetNwSrc(b), a.nwSrc);
    FillFits(test, GetNwDst(b), a.nwDst);
    FitsFrom(test, b, p);
  }

  lemma FitsFrom(test: NetworkTest, a: Match, b: Match)
    requires FieldsFit(a, b)
    requires NetworkFits(test, GetNwSrc(a), GetNwSrc(b)) && NetworkFits(test, GetNwDst(a), GetNwDst(b))
    ensures Fits(test, a, b, false)
  {
    hide FieldsFit, NetworkFits, GetNwSrc, GetNwDst;
  }

  lemma TopBit(bits: bv32)
    requires 0 < bits <= 32
    ensures PrefixMask(bits) & 0x8000_0000 == 0x8000_0000
  {
  }

  lemma ComplementNotUnder(test: NetworkTest, x: bv32, mask: bv32)
    requires mask & 0x8000_0000 == 0x8000_0000
    ensures !Under(test, !x, x, mask)
  {
  }

  lemma NoFixedBit(x: bv32, d: bv32)
    requires !x & d == x & d
    ensures d == 0
  {
    assert (x & d) & (!x & d) == 0;
    assert d == (x & d) | (!x & d);
  }

  lemma Split(x: bv32, mask: bv32, y: bv32, other: bv32)
    ensures (((y & other) | (!x & !other)) & mask) & !other == !x & (mask & !other)
    ensures (x & mask) & !other == x & (mask & !other)
  {
  }

  lemma Inside(mask: bv32, other: bv32)
    requires mask & !other == 0
    ensures mask & other == mask
  {
    assert mask == (mask & other) | (mask & !other);
  }

  lemma BlendInside(x: bv32, mask: bv32, y: bv32, other: bv32)
    requires mask & other == mask
    ensures ((y & other) | (!x & !other)) & mask == y & mask
  {
    assert ((y & other) | (!x & !other)) & (mask & other) == y & (mask & other);
  }

  lemma BlendBits(x: bv32, mask: bv32, y: bv32, other: bv32)
    requires ((y & other) | (!x & !other)) & mask == x & mask
    ensures mask & other == mask && y & mask == x & mask
  {
    Split(x, mask, y, other);
    NoFixedBit(x, mask & !other);
    Inside(mask, other);
    BlendInside(x, mask, y, other);
  }

  lemma BlendUnder(test: NetworkTest, x: bv32, mask: bv32, y: bv32, other: bv32)
    requires Under(test, Blend(y, other, !x), x, mask)
    ensures mask & other == mask && Under(test, y, x, mask)
  {
    assert ((y & other) | (!x & !other)) & mask == x & mask by { UnderMasked(test, Blend(y, other, !x), x, mask); }
    BlendBits(x, mask, y, other);
  }

  lemma UnderMasked(test: NetworkTest, ip: bv32, x: bv32, mask: bv32)
    requires Under(test, ip, x, mask)
    ensures ip & mask == x & mask
  {
  }

  lemma MaskOrder(a: bv32, b: bv32)
    requires 0 < a <= 32 && 0 < b <= 32 && PrefixMask(a) & PrefixMask(b) == PrefixMask(a)
    ensures a <= b
  {
  }

  lemma PrefixDecides(test: NetworkTest, x: bv32, bits: bv32, y: bv32, other: bv32)
    requires 0 < bits <= 32 && 0 < other <= 32
    requires Under(test, Blend(y, PrefixMask(other), !x), x, PrefixMask(bits))
    ensures bits <= other && Under(test, y, x, PrefixMask(bits))
  {
    hide PrefixMask, Under, Blend;
    BlendUnder(test, x, PrefixMask(bits), y, PrefixMask(other));
    MaskOrder(bits, other);
  }

  /** If the address avoiding a's lies in a's network, a's prefix is no longer than b's. */
  lemma FillDecides(test: NetworkTest, mine: Network, others: Network)
    requires Proper(mine) && Proper(others)
    requires mine.Network? ==> NetworkFits(test, mine, Network(FillAddress(others, mine.address), 32))
    ensures NetworkFits(test, mine, others)
  {
    hide PrefixMask, Under, Blend;
    if mine.Network? {
      if others.Network? {
        PrefixDecides(test, mine.address, mine.bits, others.address, others.bits);
      } else {
        TopBit(mine.bits);
        ComplementNotUnder(test, mine.address, PrefixMask(mine.bits));
      }
    }
  }

  // ----- The converse ---------------------------------------------------------------------------

  lemma Decide<T>(mine: Option<T>, others: Option<T>, shown: Option<T>, avoid: T)
    requires FieldFits(mine, shown) && Apart(others, shown, avoid) && (mine.Some? ==> avoid == mine.value)
    ensures FieldFits(mine, others)
  {
  }

  lemma DecideNetwork(test: NetworkTest, mine: Network, others: Network, shown: Network, avoid: bv32)
    requires Proper(mine) && Proper(others) && Proper(shown) && NetworkFits(test, mine, shown)
    requires NetworkApart(others, shown, avoid) && (mine.Network? ==> avoid == mine.address)
    ensures NetworkFits(test, mine, others)
  {
    hide InNetwork, FillAddress;
    FillDecides(test, mine, others);
  }

  lemma FieldShows(a: Match)
    ensures (a.InPort().Some? ==> a.InPort().value == a.inPort) && (a.DlVlan().Some? ==> a.DlVlan().value == a.dlVlan)
    ensures (a.DlSrc().Some? ==> a.DlSrc().value == a.dlSrc) && (a.DlDst().Some? ==> a.DlDst().value == a.dlDst)
    ensures a.DlType().Some? ==> a.DlType().value == a.dlType
    ensures a.DlVlanPcp().Some? ==> a.DlVlanPcp().value == a.dlVlanPcp
    ensures (a.NwTos().Some? ==> a.NwTos().value == a.nwTos) && (a.NwProto().Some? ==> a.NwProto().value == a.nwProto)
    ensures (a.TpSrc().Some? ==> a.TpSrc().value == a.tpSrc) && (a.TpDst().Some? ==> a.TpDst().value == a.tpDst)
  {
  }

  lemma SeparatorDecidesFields(a: Match, b: Match, p: Match)
    requires Separates(a, b, p) && FieldsFit(a, p)
    ensures FieldsFit(a, b)
  {
    hide FieldFits, Field, Apart, FillAddress, GetNwSrc, GetNwDst;
    FieldShows(a);
    Decide(a.InPort(), b.InPort(), p.InPort(), a.inPort);
    Decide(a.DlVlan(), b.DlVlan(), p.DlVlan(), a.dlVlan);
    Decide(a.DlSrc(), b.DlSrc(), p.DlSrc(), a.dlSrc);
    Decide(a.DlDst(), b.DlDst(), p.DlDst(), a.dlDst);
    Decide(a.DlType(), b.DlType(), p.DlType(), a.dlType);
    Decide(a.DlVlanPcp(), b.DlVlanPcp(), p.DlVlanPcp(), a.dlVlanPcp);
    Decide(a.NwTos(), b.NwTos(), p.NwTos(), a.nwTos);
    Decide(a.NwProto(), b.NwProto(), p.NwProto(), a.nwProto);
    Decide(a.TpSrc(), b.TpSrc(), p.TpSrc(), a.tpSrc);
    Decide(a.TpDst(), b.TpDst(), p.TpDst(), a.tpDst);
  }

  /** Each wildcard flag of b is one of a's. */
  predicate FlagsFit(w: bv32, v: bv32) {
    && (v & IN_PORT == IN_PORT ==> w & IN_PORT == IN_PORT) && (v & DL_VLAN == DL_VLAN ==> w & DL_VLAN == DL_VLAN)
    && (v & DL_SRC == DL_SRC ==> w & DL_SRC == DL_SRC) && (v & DL_DST == DL_DST ==> w & DL_DST == DL_DST)
    && (v & DL_TYPE == DL_TYPE ==> w & DL_TYPE == DL_TYPE) && (v & NW_PROTO == NW_PROTO ==> w & NW_PROTO == NW_PROTO)
    && (v & TP_SRC == TP_SRC ==> w & TP_SRC == TP_SRC) && (v & TP_DST == TP_DST ==> w & TP_DST == TP_DST)
    && (v & DL_VLAN_PCP == DL_VLAN_PCP ==> w & DL_VLAN_PCP == DL_VLAN_PCP)
    && (v & NW_TOS == NW_TOS ==> w & NW_TOS == NW_TOS)
  }

  /** The undefined wildcard bits of b are among a's. */
  predicate UndefinedBitsFit(a: Match, b: Match) {
    UndefinedWithin(a.wildcards, b.wildcards)
  }

  predicate UndefinedWithin(w: bv32, v: bv32) {
    (v & !OFPFW_ALL) & !w == 0
  }

  lemma FlagsFitBits(w: bv32, v: bv32)
    requires UndefinedWithin(w, v) && FlagsFit(w, v)
    ensures BitsWithin(w, v)
  {
  }

  lemma FieldsFitFlags(a: Match, b: Match)
    requires FieldsFit(a, b)
    ensures FlagsFit(a.wildcards, b.wildcards)
  {
  }

  /** A match that matches a separating packet matches b, wildcards aside. */
  lemma SeparatorDecides(test: NetworkTest, a: Match, b: Match, p: Match)
    requires Separates(a, b, p) && Fits(test, a, p, false)
    ensures Fits(test, a, b, false)
  {
    hide FieldsFit, NetworkFits, LinkApart, NetworkApart, Apart, Field, FillAddress, GetNwSrc, GetNwDst;
    SeparatorDecidesFields(a, b, p);
    NetworkShows(a);
    DecideNetwork(test, GetNwSrc(a), GetNwSrc(b), GetNwSrc(p), a.nwSrc);
    DecideNetwork(test, GetNwDst(a), GetNwDst(b), GetNwDst(p), a.nwDst);
  }

  /** The wildcards of the fields follow from the fields, the undefined ones do not. */
  lemma FitsWithBits(test: NetworkTest, a: Match, b: Match)
    requires Fits(test, a, b, false) && UndefinedBitsFit(a, b)
    ensures Fits(test, a, b, true)
  {
    hide FieldsFit, NetworkFits, FlagsFit, GetNwSrc, GetNwDst;
    FieldsFitFlags(a, b);
    FlagsFitBits(a.wildcards, b.wildcards);
  }

  /** One separating packet decides containment. */
  lemma SeparatorTells(test: NetworkTest, a: Match, b: Match, p: Match)
    requires Clean(test, b) && Separates(a, b, p)
    ensures MatchesPacket(test, b, p)
    ensures MatchesPacket(test, a, p) ==> MatchesPacket(test, a, b)
    ensures UndefinedBitsFit(a, b) && MatchesPacket(test, a, p) ==> Contains(test, a, b)
  {
    hide Same, Fits, UndefinedBitsFit, Separates, Clean, HasHosts;
    SeparatorFits(test, a, b, p);
    SeparatorHosts(a, b, p);
    if MatchesPacket(test, a, p) {
      if Same(a, p) {
        HostsFitThemselves(test, a, p);
      }
      SeparatorDecides(test, a, b, p);
      if UndefinedBitsFit(a, b) {
        FitsWithBits(test, a, b);
      }
    }
  }

  /** Whole addresses or none, as a packet's match has them. */
  predicate HasHosts(p: Match) {
    && (GetNwSrc(p).Network? ==> GetNwSrc(p).bits == 32)
    && (GetNwDst(p).Network? ==> GetNwDst(p).bits == 32)
  }

  lemma SeparatorHosts(a: Match, b: Match, p: Match)
    requires Separates(a, b, p)
    ensures HasHosts(p)
  {
    hide LinkApart, Apart, FillAddress, GetNwSrc, GetNwDst, Field;
  }

  lemma NetworkShows(a: Match)
    ensures GetNwSrc(a).Network? ==> GetNwSrc(a).address == a.nwSrc
    ensures GetNwDst(a).Network? ==> GetNwDst(a).address == a.nwDst
  {
  }

  /** Every fully specified match b takes, a takes as well. */
  ghost predicate TakesAllOf(test: NetworkTest, a: Match, b: Match) {
    forall packet: Match :: IsExact(packet) && MatchesPacket(test, b, packet) ==> MatchesPacket(test, a, packet)
  }

  /** What containment says, whatever a is: a takes every fully specified match b takes, and has b's
      undefined wildcard bits, which no packet can show. */
  lemma ContainsIff(test: NetworkTest, a: Match, b: Match)
    requires Clean(test, b)
    ensures Contains(test, a, b) <==> UndefinedBitsFit(a, b) && TakesAllOf(test, a, b)
  {
    hide Separator, Separates, Clean, MatchesPacket, Contains, UndefinedBitsFit;
    if Contains(test, a, b) {
      ContainsUndefined(test, a, b);
      forall packet: Match | IsExact(packet) && MatchesPacket(test, b, packet)
        ensures MatchesPacket(test, a, packet)
      {
        ContainsSound(test, a, b, packet);
      }
    }
    SeparatorSeparates(a, b);
    SeparatorTells(test, a, b, Separator(a, b));
  }

  lemma ContainsUndefined(test: NetworkTest, a: Match, b: Match)
    requires Contains(test, a, b)
    ensures UndefinedBitsFit(a, b)
  {
    hide FieldsFit, NetworkFits, GetNwSrc, GetNwDst, SameLink, SameNetwork, SameTransport, BitsWithin, UndefinedWithin;
    UndefinedOf(a.wildcards, b.wildcards);
  }

  lemma UndefinedOf(w: bv32, v: bv32)
    requires w == v || BitsWithin(w, v)
    ensures UndefinedWithin(w, v)
  {
  }

  lemma HostsFitThemselves(test: NetworkTest, a: Match, p: Match)
    requires Same(a, p) && HasHosts(p)
    ensures Fits(test, a, p, false)
  {
    hide Field, InNetwork, BitsFit, GetNwSrc, GetNwDst;
    SameNetworks(a, p);
    HostFits(test, GetNwSrc(p));
    HostFits(test, GetNwDst(p));
  }

  lemma ExactNetworks(p: Match)
    requires IsExact(p)
    ensures GetNwSrc(p) == Network(p.nwSrc, 32) && GetNwDst(p) == Network(p.nwDst, 32)
  {
  }

  lemma HostFits(test: NetworkTest, n: Network)
    requires Proper(n) && (n.Network? ==> n.bits == 32)
    ensures NetworkFits(test, n, n)
  {
    HostMask();
    hide PrefixMask;
  }

  // ----- Where containment and inclusion part -------------------------------------------------

  lemma StrayNotUnder(network: bv32, mask: bv32, ip: bv32)
    requires network & mask != network
    ensures !Under(AsGiven, ip, network, mask)
  {
    assert (ip & mask) & mask == ip & mask;
  }

  /** A stray address bit, where it counts, leaves a match that takes nothing. */
  lemma StrayTakesNothing(mine: Network, shown: Network)
    requires Proper(mine) && Proper(shown) && HasStrayBits(mine)
    ensures !NetworkFits(AsGiven, mine, shown)
  {
    hide PrefixMask, Under;
    if shown.Network? {
      StrayNotUnder(mine.address, PrefixMask(mine.bits), shown.address);
    }
  }

  lemma HostHasNoStray(n: Network)
    requires Proper(n) && (n.Network? ==> n.bits == 32)
    ensures !HasStrayBits(n)
  {
    HostMask();
    hide PrefixMask;
  }

  lemma FitsNetworks(test: NetworkTest, a: Match, b: Match, k: bool)
    requires Fits(test, a, b, k)
    ensures NetworkFits(test, GetNwSrc(a), GetNwSrc(b)) && NetworkFits(test, GetNwDst(a), GetNwDst(b))
  {
    hide FieldsFit, NetworkFits, GetNwSrc, GetNwDst;
  }

  lemma UncleanTakesNothing(test: NetworkTest, b: Match, packet: Match)
    requires !Clean(test, b) && HasHosts(packet)
    ensures !MatchesPacket(test, b, packet)
  {
    hide Same, Fits, NetworkFits, GetNwSrc, GetNwDst, HasStrayBits;
    HostHasNoStray(GetNwSrc(packet));
    HostHasNoStray(GetNwDst(packet));
    if Same(b, packet) {
      SameNetworks(b, packet);
    } else if Fits(test, b, packet, false) {
      FitsNetworks(test, b, packet, false);
      if HasStrayBits(GetNwSrc(b)) {
        StrayTakesNothing(GetNwSrc(b), GetNwSrc(packet));
      } else {
        StrayTakesNothing(GetNwDst(b), GetNwDst(packet));
      }
    }
  }

  lemma HostMask()
    ensures PrefixMask(32) == 0xFFFF_FFFF
  {
  }

  /** Clean matches are exactly those that take some fully specified match. */
  lemma CleanIff(test: NetworkTest, b: Match)
    ensures Clean(test, b) <==> exists packet: Match :: IsExact(packet) && MatchesPacket(test, b, packet)
  {
    hide Separator, Separates, Clean, MatchesPacket, Contains;
    if Clean(test, b) {
      SeparatorSeparates(b, b);
      SeparatorTells(test, b, b, Separator(b, b));
    } else {
      forall packet: Match | IsExact(packet)
        ensures !MatchesPacket(test, b, packet)
      {
        ExactNetworks(packet);
        UncleanTakesNothing(test, b, packet);
      }
    }
  }

  const EVERYTHING := Match(OFPFW_ALL, 0, 0, 0, 0, 0, 0, 0, 0, 0, 0, 0, 0)

  /** The named case: everything wildcarded takes all that any match takes, yet does not contain the
      same match with undefined bits set, such as one unpacked from all-ones wildcards. */
  lemma EverythingMisses(test: NetworkTest, b: Match)
    requires b == EVERYTHING.(wildcards := 0xFFFF_FFFF)
    ensures TakesAllOf(test, EVERYTHING, b) && !Contains(test, EVERYTHING, b)
  {
    hide MatchesPacket, Contains, Clean;
    EverythingClean(test, b);
    ContainsIff(test, EVERYTHING, b);
    forall packet: Match
      ensures MatchesPacket(test, EVERYTHING, packet)
    {
      AllWildTakesAll(test, EVERYTHING, packet);
    }
  }

  lemma EverythingClean(test: NetworkTest, b: Match)
    requires b.wildcards & OFPFW_ALL == OFPFW_ALL
    ensures Clean(test, b)
  {
    AllWildNetworks(b);
    hide GetNwSrc, GetNwDst, PrefixMask;
  }

  lemma AllWildTakesAll(test: NetworkTest, a: Match, packet: Match)
    requires a.wildcards & OFPFW_ALL == OFPFW_ALL
    ensures MatchesPacket(test, a, packet)
  {
    hide GetNwSrc, GetNwDst, Same;
    AllWildFields(a);
    AllWildNetworks(a);
  }

  lemma AllWildNetworks(a: Match)
    requires a.wildcards & OFPFW_ALL == OFPFW_ALL
    ensures GetNwSrc(a) == Anything && GetNwDst(a) == Anything
  {
  }

  lemma AllWildFields(a: Match)
    requires a.wildcards & OFPFW_ALL == OFPFW_ALL
    ensures a.InPort().None? && a.DlVlan().None? && a.DlSrc().None? && a.DlDst().None? && a.DlType().None?
    ensures a.NwProto().None? && a.TpSrc().None? && a.TpDst().None? && a.DlVlanPcp().None? && a.NwTos().None?
  {
  }
}
