/** Cutting a connection's byte stream into OpenFlow messages. */
module Framing {
  import opened ByteStrings

  const OFP_VERSION: byte := 1
  const OFPT_HELLO: byte := 0

  /** Whether the unpacker of its type accepts a message's bytes and consumes all of them. */
  type Unpackers = Bytes -> bool

  datatype Parsed = Parsed(messages: seq<Bytes>, rest: Bytes, ok: bool)

  function Length(s: Bytes): nat
    requires |s| >= 8
  {
    256 * (s[2] as int) + s[3] as int
  }

  predicate GoodVersion(s: Bytes)
    requires |s| >= 8
  {
    s[0] == 1 || s[1] == 0
  }

  /** Whether the front of the stream shows neither a whole message nor a bad one yet. */
  predicate Stuck(s: Bytes) {
    |s| < 8 || (GoodVersion(s) && |s| < Length(s))
  }

  /** Whether the front of the stream is a message no unpacker accepts. */
  predicate Bad(u: Unpackers, s: Bytes)
    requires !Stuck(s)
  {
    !GoodVersion(s) || Length(s) < 8 || !u(s[..Length(s)])
  }

  predicate IsMessage(u: Unpackers, m: Bytes) {
    |m| >= 8 && GoodVersion(m) && Length(m) == |m| && u(m)
  }

  /** Whole-stream parsing: messages up to the first that is incomplete or bad. */
  function Parse(u: Unpackers, s: Bytes): (r: Parsed)
    decreases |s|
  {
    if Stuck(s) then Parsed([], s, true)
    else if Bad(u, s) then Parsed([], s, false)
    else
      var p := Parse(u, s[Length(s)..]);
      p.(messages := [s[..Length(s)]] + p.messages)
  }

  // ----- What whole-stream parsing is -----------------------------------------------------------

  /** Nothing is lost or invented: the messages and the rest are the stream. */
  lemma {:induction false} ParseConserves(u: Unpackers, s: Bytes)
    ensures var p := Parse(u, s);
            && s == Concat(p.messages) + p.rest
            && (forall m :: m in p.messages ==> IsMessage(u, m))
            && (p.ok <==> Stuck(p.rest))
    decreases |s|
  {
    if Parse(u, s).messages != [] {
      var n := Length(s);
      ParseConserves(u, s[n..]);
      FirstIsMessage(u, s);
      var p := Parse(u, s[n..]);
      assert Parse(u, s).messages[1..] == p.messages;
      assert s == s[..n] + s[n..];
    }
  }

  lemma FirstIsMessage(u: Unpackers, s: Bytes)
    requires Parse(u, s).messages != []
    ensures !Stuck(s) && IsMessage(u, s[..Length(s)]) && Parse(u, s).messages[0] == s[..Length(s)]
  {
  }

  lemma ParseNext(u: Unpackers, m: Bytes, t: Bytes)
    requires IsMessage(u, m)
    ensures Parse(u, m + t) == Parse(u, t).(messages := [m] + Parse(u, t).messages)
  {
    assert (m + t)[..Length(m + t)] == m && (m + t)[Length(m + t)..] == t;
  }

  /** Concatenated messages parse back to themselves. */
  lemma {:induction false} ParseOfConcat(u: Unpackers, messages: seq<Bytes>)
    requires forall m :: m in messages ==> IsMessage(u, m)
    ensures Parse(u, Concat(messages)) == Parsed(messages, [], true)
  {
    if messages != [] {
      ParseOfConcat(u, messages[1..]);
      ParseNext(u, messages[0], Concat(messages[1..]));
    }
  }

  lemma BadStays(u: Unpackers, s: Bytes, t: Bytes)
    requires !Stuck(s) && Bad(u, s)
    ensures Parse(u, s + t) == Parsed([], s + t, false)
  {
    if GoodVersion(s) {
      assert (s + t)[..Length(s)] == s[..Length(s)];
    }
  }

  lemma ParseFirst(u: Unpackers, s: Bytes)
    requires !Stuck(s) && !Bad(u, s)
    ensures var p := Parse(u, s[Length(s)..]);
            Parse(u, s) == p.(messages := [s[..Length(s)]] + p.messages) && IsMessage(u, s[..Length(s)])
  {
  }

  lemma ParseStops(u: Unpackers, s: Bytes)
    requires Stuck(s) || Bad(u, s)
    ensures Parse(u, s) == Parsed([], s, Stuck(s))
  {
  }

  /** Parsing can stop and go on with what was left over. */
  lemma {:induction false} ParseAppend(u: Unpackers, s: Bytes, t: Bytes)
    ensures var p := Parse(u, s);
            var q := Parse(u, p.rest + t);
            && (p.ok ==> Parse(u, s + t) == Parsed(p.messages + q.messages, q.rest, q.ok))
            && (!p.ok ==> Parse(u, s + t) == Parsed(p.messages, p.rest + t, false))
    decreases |s|
  {
    hide Parse, IsMessage, Bad;
    if Stuck(s) {
      ParseStops(u, s);
    } else if Bad(u, s) {
      ParseStops(u, s);
      BadStays(u, s, t);
    } else {
      var n := Length(s);
      ParseFirst(u, s);
      LongEnough(u, s);
      ParseAppend(u, s[n..], t);
      assert s + t == s[..n] + (s[n..] + t);
      ParseNext(u, s[..n], s[n..] + t);
      var p := Parse(u, s[n..]);
      var q := Parse(u, p.rest + t);
      assert [s[..n]] + (p.messages + q.messages) == [s[..n]] + p.messages + q.messages;
    }
  }

  lemma LongEnough(u: Unpackers, s: Bytes)
    requires !Stuck(s) && !Bad(u, s)
    ensures 8 <= Length(s) <= |s|
  {
  }

  // ----- Reading in chunks ----------------------------------------------------------------------

  datatype Reader = Reader(buf: Bytes, dispatched: seq<Bytes>, open: bool)

  /** One read; a connection that fails is closed and never read again. */
  function Feed(u: Unpackers, r: Reader, d: Bytes): Reader {
    if !r.open then r
    else if d == [] then r.(open := false)
    else
      var p := Parse(u, r.buf + d);
      Reader(if p.ok then p.rest else r.buf + d, r.dispatched + p.messages, p.ok)
  }

  function FeedAll(u: Unpackers, chunks: seq<Bytes>): Reader {
    if chunks == [] then Reader([], [], true)
    else Feed(u, FeedAll(u, chunks[..|chunks| - 1]), chunks[|chunks| - 1])
  }

  /** A reader in the state whole-stream parsing of what was received describes. */
  ghost predicate Agrees(u: Unpackers, r: Reader, received: Bytes) {
    var p := Parse(u, received);
    r.dispatched == p.messages && r.open == p.ok && (p.ok ==> r.buf == p.rest)
  }

  lemma FeedAgrees(u: Unpackers, r: Reader, received: Bytes, d: Bytes)
    requires Agrees(u, r, received) && d != []
    ensures Agrees(u, Feed(u, r, d), received + d)
  {
    hide Parse;
    ParseAppend(u, received, d);
  }

  /** However the stream is cut into non-empty reads, well-formed or not, the messages dispatched and
      whether the connection survives are those of parsing the whole stream at once. */
  lemma {:induction false} ChunkingIndependent(u: Unpackers, chunks: seq<Bytes>)
    requires forall d :: d in chunks ==> d != []
    ensures Agrees(u, FeedAll(u, chunks), Concat(chunks))
  {
    if chunks == [] {
      ParseStops(u, []);
    } else {
      hide Parse, Concat, Agrees, Feed;
      var n := |chunks| - 1;
      assert forall d :: d in chunks[..n] ==> d in chunks;
      ChunkingIndependent(u, chunks[..n]);
      ConcatLast(chunks);
      assert chunks[n] in chunks;
      FeedAgrees(u, FeedAll(u, chunks[..n]), Concat(chunks[..n]), chunks[n]);
    }
  }

  /** While the connection is open, what was dispatched followed by the buffer is what was received. */
  lemma DispatchedThenBuffered(u: Unpackers, chunks: seq<Bytes>)
    requires (forall d :: d in chunks ==> d != []) && FeedAll(u, chunks).open
    ensures Concat(FeedAll(u, chunks).dispatched) + FeedAll(u, chunks).buf == Concat(chunks)
    ensures Stuck(FeedAll(u, chunks).buf)
  {
    hide Parse, FeedAll, Concat, Stuck;
    ChunkingIndependent(u, chunks);
    ParseConserves(u, Concat(chunks));
  }

  /** The messages a peer sends are dispatched one for one, in order, however they arrive. */
  lemma MessagesArrive(u: Unpackers, messages: seq<Bytes>, chunks: seq<Bytes>)
    requires forall m :: m in messages ==> IsMessage(u, m)
    requires forall d :: d in chunks ==> d != []
    requires Concat(chunks) == Concat(messages)
    ensures FeedAll(u, chunks) == Reader([], messages, true)
  {
    hide Parse, FeedAll, Concat, IsMessage;
    ParseOfConcat(u, messages);
    ChunkingIndependent(u, chunks);
  }

  class Connection {
    const unpackers: Unpackers
    var buf: Bytes
    var dispatched: seq<Bytes>

    constructor (unpackers: Unpackers)
      ensures buf == [] && dispatched == [] && this.unpackers == unpackers
    {
      this.unpackers := unpackers;
      buf, dispatched := [], [];
    }

    /** False, or an exception, makes the caller close the connection. */
    method Read(d: Bytes) returns (open: bool)
      modifies this
      ensures Reader(buf, dispatched, open) == Feed(unpackers, Reader(old(buf), old(dispatched), true), d)
    {
      hide *;
      FedNothing(unpackers, Reader(buf, dispatched, true));
      if |d| == 0 {
        return false;
      }
      buf := buf + d;
      var bufLen := |buf|;
      var offset := 0;
      ghost var was := Reader(old(buf), dispatched, true);
      ReadingStarts(unpackers, dispatched, buf);
      while bufLen - offset >= 8
        modifies this`dispatched
        invariant 0 <= offset <= bufLen == |buf|
        invariant Reading(unpackers, was.dispatched, dispatched, buf, offset)
        decreases bufLen - offset
      {
        ReadingFront(unpackers, buf, offset);
        if buf[offset] != OFP_VERSION {
          if buf[offset + 1] != OFPT_HELLO {
            FedBad(unpackers, was, d, dispatched, offset);
            return false;
          }
        }
        var msgLength := 256 * (buf[offset + 2] as int) + buf[offset + 3] as int;
        if bufLen - offset < msgLength {
          break;
        }
        if msgLength < 8 || !unpackers(buf[offset..offset + msgLength]) {
          FedBad(unpackers, was, d, dispatched, offset);
          return false;
        }
        ReadingMessage(unpackers, was.dispatched, dispatched, buf, offset);
        dispatched := dispatched + [buf[offset..offset + msgLength]];
        offset := offset + msgLength;
      }
      ShortIsStuck(buf, offset);
      FedOpen(unpackers, was, d, dispatched, offset);
      if offset != 0 {
        buf := buf[offset..];
      }
      return true;
    }
  }

  lemma FedNothing(u: Unpackers, r: Reader)
    ensures r.open ==> Feed(u, r, []) == r.(open := false)
  {
  }

  lemma ShortIsStuck(buf: Bytes, offset: nat)
    requires offset <= |buf|
    ensures |buf| - offset < 8 ==> Stuck(buf[offset..])
    ensures offset == 0 ==> buf[offset..] == buf
  {
  }

  lemma FedBad(u: Unpackers, r: Reader, d: Bytes, dispatched: seq<Bytes>, offset: nat)
    requires r.open && d != [] && Reading(u, r.dispatched, dispatched, r.buf + d, offset)
    requires !Stuck((r.buf + d)[offset..]) && Bad(u, (r.buf + d)[offset..])
    ensures Feed(u, r, d) == Reader(r.buf + d, dispatched, false)
  {
    hide Parse, Reading, Bad, Stuck;
    ReadingBad(u, r.dispatched, dispatched, r.buf + d, offset);
  }

  lemma FedOpen(u: Unpackers, r: Reader, d: Bytes, dispatched: seq<Bytes>, offset: nat)
    requires r.open && d != [] && Reading(u, r.dispatched, dispatched, r.buf + d, offset) && offset <= |r.buf + d|
    requires Stuck((r.buf + d)[offset..])
    ensures Feed(u, r, d) == Reader((r.buf + d)[offset..], dispatched, true)
  {
    hide Parse, Reading, Stuck;
    ReadingEnds(u, r.dispatched, dispatched, r.buf + d, offset);
  }

  /** Dispatching got to `offset`: what is dispatched and what parsing the remainder gives make up the parse. */
  ghost predicate Reading(u: Unpackers, was: seq<Bytes>, dispatched: seq<Bytes>, buf: Bytes, offset: nat) {
    && offset <= |buf|
    && var all := Parse(u, buf);
       var p := Parse(u, buf[offset..]);
       p.ok == all.ok && p.rest == all.rest && was + all.messages == dispatched + p.messages
  }

  lemma ReadingStarts(u: Unpackers, was: seq<Bytes>, buf: Bytes)
    ensures Reading(u, was, was, buf, 0)
  {
    assert buf[0..] == buf;
  }

  lemma Front(buf: Bytes, offset: nat)
    requires offset + 8 <= |buf|
    ensures var s := buf[offset..];
            && Length(s) == 256 * (buf[offset + 2] as int) + buf[offset + 3] as int
            && (GoodVersion(s) <==> buf[offset] == OFP_VERSION || buf[offset + 1] == OFPT_HELLO)
            && (Length(s) <= |s| ==> s[..Length(s)] == buf[offset..offset + Length(s)]
                                     && s[Length(s)..] == buf[offset + Length(s)..])
  {
  }

  lemma ReadingBad(u: Unpackers, was: seq<Bytes>, dispatched: seq<Bytes>, buf: Bytes, offset: nat)
    requires Reading(u, was, dispatched, buf, offset) && !Stuck(buf[offset..]) && Bad(u, buf[offset..])
    ensures !Parse(u, buf).ok && dispatched == was + Parse(u, buf).messages
  {
    ParseStops(u, buf[offset..]);
    hide Parse;
  }

  lemma ReadingMessage(u: Unpackers, was: seq<Bytes>, dispatched: seq<Bytes>, buf: Bytes, offset: nat)
    requires Reading(u, was, dispatched, buf, offset) && !Stuck(buf[offset..]) && !Bad(u, buf[offset..])
    ensures var n := Length(buf[offset..]);
            offset + n <= |buf| && Reading(u, was, dispatched + [buf[offset..offset + n]], buf, offset + n)
  {
    var s := buf[offset..];
    var n := Length(s);
    hide Parse, Bad, IsMessage;
    LongEnough(u, s);
    Front(buf, offset);
    ParseFirst(u, s);
    var p := Parse(u, s[n..]);
    assert dispatched + ([s[..n]] + p.messages) == dispatched + [s[..n]] + p.messages;
  }

  lemma ReadingFront(u: Unpackers, buf: Bytes, offset: nat)
    requires offset + 8 <= |buf|
    ensures var s := buf[offset..];
            var n := 256 * (buf[offset + 2] as int) + buf[offset + 3] as int;
            var good := buf[offset] == OFP_VERSION || buf[offset + 1] == OFPT_HELLO;
            && (Stuck(s) <==> good && |buf| - offset < n)
            && (!Stuck(s) ==> (Bad(u, s) <==> !good || n < 8 || !u(buf[offset..offset + n])))
            && n == Length(s) && (Stuck(s) || Bad(u, s) || offset + n <= |buf|)
  {
    Front(buf, offset);
    hide Length, GoodVersion;
  }

  lemma ReadingEnds(u: Unpackers, was: seq<Bytes>, dispatched: seq<Bytes>, buf: Bytes, offset: nat)
    requires Reading(u, was, dispatched, buf, offset) && Stuck(buf[offset..])
    ensures Parse(u, buf) == Parsed(Parse(u, buf).messages, buf[offset..], true)
    ensures dispatched == was + Parse(u, buf).messages
  {
    ParseStops(u, buf[offset..]);
  }
}
