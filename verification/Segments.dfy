/** The RDTP segment: its checksum and its wire format. */
module Segments {
  import opened Wrappers
  import opened ByteStrings

  function Word(hi: byte, lo: byte): nat {
    256 * (hi as int) + (lo as int)
  }

  const SIZE_MAX_SEG: nat := 1400
  const HEADERS_LENGTH: nat := 8
  const MAX_PAYLOAD_SIZE: nat := SIZE_MAX_SEG - HEADERS_LENGTH
  const SYN_MASK: nat := 32
  const ACK_MASK: nat := 16
  const ERR_MASK: nat := 8

  datatype Segment = Segment(sequenceNumber: nat, payloadLength: nat, flags: nat, payload: seq<byte>) {
    predicate IsSyn() { flags / SYN_MASK % 2 == 1 }
    predicate IsAck() { flags / ACK_MASK % 2 == 1 }
    predicate IsErr() { flags / ERR_MASK % 2 == 1 }
    predicate IsFin() { flags % 2 == 1 }
    predicate IsTermination() { IsFin() || IsErr() }

    /** The segment's three header words and its payload words, as one unbounded sum;
        None where the constructor would raise. */
    function Total(): Option<nat> {
      match WordSum(payload, 0, payloadLength)
      case None => None
      case Some(words) => Some(sequenceNumber + payloadLength * 32 + flags % 64 + words)
    }

    function Checksum(): (c: Option<nat>)
      ensures c.Some? <==> Constructible()
      ensures c.Some? ==> Total().Some? && c.value < 0x1_0000 && (Total().value + c.value) % 0x1_0000 == 0xFFFF
    {
      WordSumDefined(payload, 0, payloadLength);
      match Total()
      case None => None
      case Some(t) => Some(0xFFFF - t % 0x1_0000)
    }

    /** Exactly the declared lengths for which summing the payload raises nothing: a trailing odd
        byte is read from the end of the payload, so one byte too many is tolerated after an even one. */
    predicate Constructible() {
      || payloadLength <= |payload|
      || (payloadLength == |payload| + 1 && payloadLength % 2 == 1 && |payload| > 0)
    }
  }

  /** The sum of the 16-bit words of the payload from position i on, with the trailing odd byte. */
  function WordSum(payload: seq<byte>, i: nat, length: nat): Option<nat>
    decreases length - i
  {
    if i + 1 < length then
      if |payload| < i + 2 then None
      else
        match WordSum(payload, i + 2, length)
        case None => None
        case Some(rest) => Some(Word(payload[i], payload[i + 1]) + rest)
    else if length % 2 != 0 then
      if |payload| == 0 then None else Some(payload[|payload| - 1])
    else Some(0)
  }

  lemma {:induction false} WordSumDefined(payload: seq<byte>, i: nat, length: nat)
    requires i % 2 == 0
    requires i <= length && i <= |payload|
    ensures WordSum(payload, i, length).Some? <==> Segment(0, length, 0, payload).Constructible()
    decreases length - i
  {
    if i + 1 < length && i + 2 <= |payload| {
      WordSumDefined(payload, i + 2, length);
    }
  }

  /** Summing got to position i: what the remaining words add is still to come. */
  ghost predicate Summed(s: Segment, i: nat, sum: nat) {
    s.Total() == match WordSum(s.payload, i, s.payloadLength)
                 case None => None
                 case Some(rest) => Some(sum + rest)
  }

  lemma SumStarts(s: Segment)
    ensures Summed(s, 0, s.sequenceNumber + s.payloadLength * 32 + s.flags % 64)
  {
    hide WordSum;
  }

  lemma SumStep(s: Segment, i: nat, sum: nat)
    requires Summed(s, i, sum) && i + 1 < s.payloadLength
    ensures |s.payload| < i + 2 ==> s.Total().None?
    ensures i + 2 <= |s.payload| ==> Summed(s, i + 2, sum + Word(s.payload[i], s.payload[i + 1]))
  {
    hide Segment.Total, Word;
  }

  lemma SumEnds(s: Segment, i: nat, sum: nat)
    requires Summed(s, i, sum) && s.payloadLength <= i + 1
    ensures s.Total() == if s.payloadLength % 2 == 0 then Some(sum)
                         else if s.payload == [] then None else Some(sum + s.payload[|s.payload| - 1])
  {
    hide Segment.Total, Word;
  }

  lemma ChecksumOfTotal(s: Segment)
    ensures s.Checksum() == match s.Total() { case None => None case Some(t) => Some(0xFFFF - t % 0x1_0000) }
  {
    hide Segment.Total;
  }

  /** The checksum as the source accumulates it, two bytes at a time. */
  method CalculateChecksum(s: Segment) returns (c: Option<nat>)
    ensures c == s.Checksum()
  {
    hide *;
    var checksum: nat := s.sequenceNumber + s.payloadLength * 32 + s.flags % 64;
    ChecksumOfTotal(s);
    SumStarts(s);
    var i := 0;
    while i + 1 < s.payloadLength
      invariant Summed(s, i, checksum)
    {
      SumStep(s, i, checksum);
      if |s.payload| < i + 2 {
        return None;
      }
      checksum := checksum + Word(s.payload[i], s.payload[i + 1]);
      i := i + 2;
    }
    SumEnds(s, i, checksum);
    if s.payloadLength % 2 != 0 {
      if |s.payload| == 0 {
        return None;
      }
      checksum := checksum + s.payload[|s.payload| - 1];
    }
    c := Some(0xFFFF - checksum % 0x1_0000);
  }

  function U16(n: nat): seq<byte>
    requires n < 0x1_0000
  {
    [n / 256, n % 256]
  }

  /** The wire bytes; None where `struct.pack` raises because a field does not fit 16 bits. */
  function ToBytes(s: Segment): (data: Option<seq<byte>>)
    requires s.Constructible()
  {
    if s.sequenceNumber < 0x1_0000 && s.payloadLength * 32 < 0x1_0000 then
      Some(U16(s.Checksum().value) + U16(s.sequenceNumber) + U16(s.payloadLength * 32)
           + U16(s.flags % 64) + s.payload)
    else None
  }

  /** None where the header is short or the checksum of the rebuilt segment cannot be computed. */
  function FromBytes(data: seq<byte>): (s: Option<Segment>)
    ensures s.Some? ==> s.value.Constructible()
  {
    if |data| < HEADERS_LENGTH then None
    else
      var s := Segment(Word(data[2], data[3]), Word(data[4], data[5]) / 32,
                       Word(data[6], data[7]) % 64, data[HEADERS_LENGTH..]);
      if s.Constructible() then Some(s) else None
  }

  predicate Encodable(s: Segment) {
    s.sequenceNumber < 0x1_0000 && s.payloadLength <= 2047 && s.flags < 64
  }

  lemma WordOfU16(n: nat)
    requires n < 0x1_0000
    ensures |U16(n)| == 2 && Word(U16(n)[0], U16(n)[1]) == n
  {
  }

  lemma U16OfWord(hi: byte, lo: byte)
    ensures Word(hi, lo) < 0x1_0000 && U16(Word(hi, lo)) == [hi, lo]
  {
  }

  /** Where each header word and the payload lie in an encoding. */
  lemma Layout(s: Segment)
    requires s.Constructible() && ToBytes(s).Some?
    ensures var d := ToBytes(s).value;
            && |d| == HEADERS_LENGTH + |s.payload| && d[HEADERS_LENGTH..] == s.payload
            && Word(d[0], d[1]) == s.Checksum().value
            && Word(d[2], d[3]) == s.sequenceNumber
            && Word(d[4], d[5]) == s.payloadLength * 32
            && Word(d[6], d[7]) == s.flags % 64
  {
    WordOfU16(s.Checksum().value);
    WordOfU16(s.sequenceNumber);
    WordOfU16(s.payloadLength * 32);
    WordOfU16(s.flags % 64);
  }

  lemma ModSmall(n: nat, m: nat)
    requires 0 < m
    ensures n % m == n <==> n < m
  {
  }

  lemma DivBy32(n: nat)
    ensures n * 32 / 32 == n
  {
  }

  /** Decoding an encoding restores every field, the flags cut down to the six bits of the wire. */
  lemma DecodeOfEncode(s: Segment)
    requires s.Constructible() && ToBytes(s).Some?
    ensures FromBytes(ToBytes(s).value) == Some(s.(flags := s.flags % 64))
  {
    Layout(s);
    var data := ToBytes(s).value;
    var length, flags := Word(data[4], data[5]), Word(data[6], data[7]);
    DivBy32(s.payloadLength);
    ModSmall(flags, 64);
    assert FromBytes(data) == Some(Segment(Word(data[2], data[3]), length / 32, flags % 64, s.payload));
  }

  /** Decoding undoes encoding exactly for the segments whose three header fields fit their wire
      widths; every other segment either cannot be sent or comes back changed. */
  lemma RoundTrip(s: Segment)
    requires s.Constructible()
    ensures (ToBytes(s).Some? && FromBytes(ToBytes(s).value) == Some(s)) <==> Encodable(s)
  {
    if ToBytes(s).Some? {
      DecodeOfEncode(s);
      ModSmall(s.flags, 64);
    }
  }

  /** Two bytes carry the multiple of 32 below their word only if the low five bits were zero. */
  lemma LowBitsZero(hi: byte, lo: byte)
    ensures Word(hi, lo) / 32 * 32 == Word(hi, lo) <==> lo % 32 == 0
  {
    assert Word(hi, lo) == 32 * (8 * (hi as int) + lo / 32) + lo % 32;
  }

  lemma HighByteZero(hi: byte, lo: byte)
    ensures Word(hi, lo) % 64 == Word(hi, lo) <==> hi == 0 && lo < 64
  {
    ModSmall(Word(hi, lo), 64);
  }

  lemma SameWord(hi: byte, lo: byte, hi': byte, lo': byte)
    requires Word(hi, lo) == Word(hi', lo')
    ensures hi == hi' && lo == lo'
  {
  }

  /** Which received bytes are reproduced by encoding the segment they decode to: those that carry
      the right checksum and zeroes in the header's unused bits. */
  lemma ReencodeIff(data: seq<byte>)
    requires FromBytes(data).Some?
    ensures ToBytes(FromBytes(data).value).Some?
    ensures ToBytes(FromBytes(data).value) == Some(data) <==>
            && Word(data[0], data[1]) == FromBytes(data).value.Checksum().value
            && data[5] % 32 == 0 && data[6] == 0 && data[7] < 64
  {
    var s := FromBytes(data).value;
    U16OfWord(data[2], data[3]);
    U16OfWord(data[4], data[5]);
    Layout(s);
    var back := ToBytes(s).value;
    SameWord(back[2], back[3], data[2], data[3]);
    LowBitsZero(data[4], data[5]);
    HighByteZero(data[6], data[7]);
    ModSmall(s.flags, 64);
    if && Word(data[0], data[1]) == s.Checksum().value
       && data[5] % 32 == 0 && data[6] == 0 && data[7] < 64 {
      SameWord(back[0], back[1], data[0], data[1]);
      SameWord(back[4], back[5], data[4], data[5]);
      SameWord(back[6], back[7], data[6], data[7]);
      assert back == back[..HEADERS_LENGTH] + back[HEADERS_LENGTH..];
      assert data == data[..HEADERS_LENGTH] + data[HEADERS_LENGTH..];
      assert back[..HEADERS_LENGTH] == data[..HEADERS_LENGTH];
    }
  }

  /** The two kinds of segment the flow phase sends; `masks` are the client and protocol type bits. */
  function DataSegment(sequenceNumber: nat, masks: nat, payload: seq<byte>): Segment {
    Segment(sequenceNumber, |payload|, masks, payload)
  }

  function AckSegment(sequenceNumber: nat, masks: nat): Segment {
    Segment(sequenceNumber, 0, ACK_MASK + masks, [])
  }

  function Bit(b: bool): nat { if b then 1 else 0 }

  /** Each flag is read from its own bit, whatever the others are and whatever is above them; either of FIN and ERR
      ends a connection. */
  lemma FlagsAreBits(s: Segment, above: nat, syn: bool, ack: bool, err: bool, kinds: nat, fin: bool)
    requires kinds < 4 && s.flags == 64 * above + 32 * Bit(syn) + 16 * Bit(ack) + 8 * Bit(err) + 2 * kinds + Bit(fin)
    ensures s.IsSyn() == syn && s.IsAck() == ack && s.IsErr() == err && s.IsFin() == fin
    ensures s.IsTermination() == (fin || err)
  {
    var low := 2 * kinds + Bit(fin);
    OddQuotient(s.flags, 32, above, syn, 16 * Bit(ack) + 8 * Bit(err) + low);
    OddQuotient(s.flags, 16, 2 * above + Bit(syn), ack, 8 * Bit(err) + low);
    OddQuotient(s.flags, 8, 4 * above + 2 * Bit(syn) + Bit(ack), err, low);
    OddQuotient(s.flags, 1, 32 * above + 16 * Bit(syn) + 8 * Bit(ack) + 4 * Bit(err) + kinds, fin, 0);
  }

  lemma OddQuotient(n: nat, place: nat, half: nat, odd: bool, rest: nat)
    requires place in {1, 8, 16, 32} && rest < place && n == place * (2 * half + Bit(odd)) + rest
    ensures n / place % 2 == 1 <==> odd
  {
    assert n / place == 2 * half + Bit(odd);
  }

  /** Neither kind is mistaken for the other, whatever the type bits. */
  lemma FlagBits(masks: nat)
    requires masks in {0, 2, 4, 6}
    ensures !DataSegment(0, masks, []).IsAck() && !DataSegment(0, masks, []).IsTermination()
    ensures var a := AckSegment(0, masks); a.IsAck() && !a.IsSyn() && !a.IsTermination()
  {
  }
}
