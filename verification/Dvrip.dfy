/**
 The reading side of a DVRIP connection: messages of a 20-byte header and a payload, read from a
 stream that arrives in pieces of any size, with timeouts anywhere between them.
 */
module Dvrip {
  import opened Bytes

  const HEAD: byte := 0xFF
  const MAX_PAYLOAD: nat := 4 * 1024 * 1024
  const MAX_RESYNC_SCAN: nat := 4 * 1024 * 1024

  datatype Header = Header(session: nat, sequence: nat, msgId: nat, dataLen: nat)
  datatype Message = Message(session: nat, sequence: nat, msgId: nat, payload: seq<byte>)

  predicate Fits(m: Message) {
    m.session < 0x1_0000_0000 && m.sequence < 0x1_0000_0000 && m.msgId < 0x1_0000 && |m.payload| <= MAX_PAYLOAD
  }

  function HeaderOf(m: Message): Header {
    Header(m.session, m.sequence, m.msgId, |m.payload|)
  }

  function EncodeHeader(h: Header): (b: seq<byte>)
    ensures |b| == 20 && b[0] == HEAD
  {
    [HEAD, 0, 0, 0] + Le32(h.session) + Le32(h.sequence) + [0, 0] + Le16(h.msgId) + Le32(h.dataLen)
  }

  function Encode(m: Message): seq<byte> {
    EncodeHeader(HeaderOf(m)) + m.payload
  }

  function EncodeAll(ms: seq<Message>): seq<byte> {
    if ms == [] then [] else Encode(ms[0]) + EncodeAll(ms[1..])
  }

  function DecodeHeader(h: seq<byte>): Header
    requires |h| == 20
  {
    Header(FromLe32(h, 4), FromLe32(h, 8), FromLe16(h, 14), FromLe32(h, 16))
  }

  lemma {:induction false} HeaderRoundTrip(h: Header)
    requires h.session < 0x1_0000_0000 && h.sequence < 0x1_0000_0000 && h.msgId < 0x1_0000 && h.dataLen < 0x1_0000_0000
    ensures DecodeHeader(EncodeHeader(h)) == h
  {
    HeaderSlices(h);
    var b := EncodeHeader(h);
    hide EncodeHeader;
    Word32At(b, 4, h.session);
    Word32At(b, 8, h.sequence);
    Word16At(b, 14, h.msgId);
    Word32At(b, 16, h.dataLen);
    hide FromLe32, FromLe16;
  }

  lemma {:induction false} HeaderSlices(h: Header)
    ensures var b := EncodeHeader(h);
      b[4..8] == Le32(h.session) && b[8..12] == Le32(h.sequence) && b[14..16] == Le16(h.msgId)
        && b[16..20] == Le32(h.dataLen)
  {
    hide Le32, Le16;
  }

  lemma {:induction false} Word32At(b: seq<byte>, at: nat, x: nat)
    requires at + 4 <= |b| && b[at..at + 4] == Le32(x) && x < 0x1_0000_0000
    ensures FromLe32(b, at) == x
  {
    var w := b[at..at + 4];
    assert b[at] == w[0] && b[at + 1] == w[1] && b[at + 2] == w[2] && b[at + 3] == w[3];
    assert [] + w + [] == w;
    Le32RoundTrip(x, [], []);
    hide Le32;
  }

  lemma {:induction false} Word16At(b: seq<byte>, at: nat, x: nat)
    requires at + 2 <= |b| && b[at..at + 2] == Le16(x) && x < 0x1_0000
    ensures FromLe16(b, at) == x
  {
    var w := b[at..at + 2];
    assert b[at] == w[0] && b[at + 1] == w[1];
    assert [] + w + [] == w;
    Le16RoundTrip(x, [], []);
    hide Le16;
  }

  // ------------------------------------------------------------ the connection

  /** What one read of the socket gives: bytes, or nothing in time. No events left: the other side closed. */
  datatype Event = Data(bytes: seq<byte>) | Timeout

  /** Bytes read and not used yet, and the reads to come. */
  datatype Conn = Conn(pending: seq<byte>, script: seq<Event>)

  predicate Healthy(c: Conn) {
    forall e :: e in c.script && e.Data? ==> e.bytes != []
  }

  function Arriving(script: seq<Event>): seq<byte> {
    if script == [] then []
    else (if script[0].Data? then script[0].bytes else []) + Arriving(script[1..])
  }

  /** Every byte still to be consumed, in order. */
  function Stream(c: Conn): seq<byte> {
    c.pending + Arriving(c.script)
  }

  function Timeouts(script: seq<Event>): nat {
    if script == [] then 0 else (if script[0].Timeout? then 1 else 0) + Timeouts(script[1..])
  }

  datatype Read = Got(bytes: seq<byte>) | TimedOut | Gone

  /** Exactly `n` bytes, reading as often as needed. An empty read is a closed connection. */
  function ReadExact(c: Conn, n: nat): (Read, Conn)
    decreases |c.script|
  {
    if |c.pending| >= n then (Got(c.pending[..n]), Conn(c.pending[n..], c.script))
    else if c.script == [] then (Gone, c)
    else
      var next, rest := c.script[0], c.script[1..];
      if next.Timeout? then (TimedOut, Conn(c.pending, rest))
      else if next.bytes == [] then (Gone, Conn(c.pending, rest))
      else ReadExact(Conn(c.pending + next.bytes, rest), n)
  }

  /** Throws away `n` bytes; false if they did not all come. */
  function Discard(c: Conn, n: nat): (bool, Conn)
    decreases |c.script|
  {
    if |c.pending| >= n then (true, Conn(c.pending[n..], c.script))
    else if c.script == [] then (false, Conn([], []))
    else
      var next, rest := c.script[0], c.script[1..];
      if next.Timeout? || next.bytes == [] then (false, Conn([], rest))
      else Discard(Conn(next.bytes, rest), n - |c.pending|)
  }

  /** How one call ended. `Drained`: the payload timed out and its rest was thrown away; `Lost`: not even that. */
  datatype Outcome =
    | Received(header: Header, payload: seq<byte>)
    | HeaderTimeout
    | BadFrame
    | Drained
    | Lost
    | Closed

  function ReadPayload(c: Conn, h: Header): (Outcome, Conn) {
    if h.dataLen == 0 then (Received(h, []), c)
    else
      var (r, c1) := ReadExact(c, h.dataLen);
      match r
      case Got(p) => (Received(h, p), c1)
      case Gone => (Closed, c1)
      case TimedOut =>
        var (ok, c2) := Discard(c1, h.dataLen);
        (if ok then Drained else Lost, c2)
  }

  function Recv(c: Conn): (Outcome, Conn) {
    var (r, c1) := ReadExact(c, 20);
    match r
    case TimedOut => (HeaderTimeout, c1)
    case Gone => (Closed, c1)
    case Got(h) =>
      ReadExactLength(c, 20);
      if h[0] != HEAD || DecodeHeader(h).dataLen > MAX_PAYLOAD then (BadFrame, c1)
      else ReadPayload(c1, DecodeHeader(h))
  }

  lemma {:induction false} ReadExactLength(c: Conn, n: nat)
    ensures ReadExact(c, n).0.Got? ==> |ReadExact(c, n).0.bytes| == n
    decreases |c.script|
  {
    if |c.pending| < n && c.script != [] && c.script[0].Data? && c.script[0].bytes != [] {
      ReadExactLength(Conn(c.pending + c.script[0].bytes, c.script[1..]), n);
    }
  }

  // ------------------------------------------------------------ what a read consumes

  lemma {:induction false} ReadConsumes(c: Conn, n: nat)
    requires Healthy(c)
    ensures var (r, c1) := ReadExact(c, n);
      && Healthy(c1)
      && (r.Got? ==> |r.bytes| == n && Stream(c) == r.bytes + Stream(c1) && Timeouts(c1.script) == Timeouts(c.script))
      && (r.TimedOut? ==> Stream(c1) == Stream(c) && Timeouts(c1.script) + 1 == Timeouts(c.script) && |c1.pending| < n)
      && (r.Gone? ==> |Stream(c)| < n)
    decreases |c.script|
  {
    if |c.pending| >= n {
      assert c.pending == c.pending[..n] + c.pending[n..];
    } else if c.script != [] {
      var next, rest := c.script[0], c.script[1..];
      if next.Data? {
        ReadConsumes(Conn(c.pending + next.bytes, rest), n);
        ConcatAssociative(c.pending, next.bytes, Arriving(rest));
      } else {
        assert [] + Arriving(rest) == Arriving(rest);
      }
    }
  }

  lemma {:induction false} DiscardConsumes(c: Conn, n: nat)
    requires Healthy(c) && n <= |Stream(c)|
    ensures var (ok, c1) := Discard(c, n);
      && Healthy(c1) && Timeouts(c1.script) <= Timeouts(c.script)
      && (ok ==> Stream(c1) == Stream(c)[n..])
      && (!ok ==> exists k :: |c.pending| <= k < n && Stream(c1) == Stream(c)[k..])
    decreases |c.script|
  {
    hide *;
    DiscardHead(c, n);
    var p, s := |c.pending|, Stream(c);
    if p >= n {
      TakenFront(c, n);
    } else {
      NotOver(c);
      var next, c2 := c.script[0], AfterRead(c);
      ReadOne(c);
      if next.Data? {
        DiscardConsumes(c2, n - p);
        TailOfTail(s, p);
        var (ok, c1) := Discard(c2, n - p);
        if !ok {
          var k :| |c2.pending| <= k < n - p && Stream(c1) == Stream(c2)[k..];
          assert Stream(c1) == s[p + k..];
        }
      }
    }
  }

  /** The connection once what was pending is gone and one more read was made. */
  function AfterRead(c: Conn): Conn
    requires c.script != []
  {
    Conn(if c.script[0].Data? then c.script[0].bytes else [], c.script[1..])
  }

  lemma {:induction false} ReadOne(c: Conn)
    requires c.script != [] && Healthy(c)
    ensures var c2 := AfterRead(c);
      Healthy(c2) && c2 == Conn(if c.script[0].Data? then c.script[0].bytes else [], c.script[1..])
      && Timeouts(c2.script) <= Timeouts(c.script)
      && |c.pending| <= |Stream(c)| && Stream(c2) == Stream(c)[|c.pending|..]
      && (c.script[0].Data? ==> c.script[0].bytes != [])
  {
    assert Stream(c)[|c.pending|..] == Arriving(c.script);
  }

  lemma {:induction false} TakenFront(c: Conn, n: nat)
    requires |c.pending| >= n && Healthy(c)
    ensures var c1 := Conn(c.pending[n..], c.script);
      |Stream(c)| >= n && Stream(c1) == Stream(c)[n..] && Healthy(c1)
  {
    hide Arriving;
  }

  lemma {:induction false} NotOver(c: Conn)
    ensures |Stream(c)| > |c.pending| ==> c.script != []
    ensures |Stream(c)| >= |c.pending|
  {
  }

  lemma {:induction false} TailOfTail(s: seq<byte>, p: nat)
    requires p <= |s|
    ensures forall k :: 0 <= k <= |s| - p ==> s[p..][k..] == s[p + k..]
  {
  }

  /** A drain uses up what is pending first. */
  lemma {:induction false} DiscardTaken(c: Conn, n: nat)
    ensures |c.pending| >= n ==> Discard(c, n) == (true, Conn(c.pending[n..], c.script))
    ensures |c.pending| < n ==> Discard(c, n) == Discard(Conn([], c.script), n - |c.pending|)
  {
    DiscardHead(c, n);
    if |c.pending| < n {
      DiscardHead(Conn([], c.script), n - |c.pending|);
    }
    hide Discard;
  }

  /** One step of a drain. */
  lemma {:induction false} DiscardHead(c: Conn, n: nat)
    ensures |c.pending| >= n ==> Discard(c, n) == (true, Conn(c.pending[n..], c.script))
    ensures |c.pending| < n && c.script == [] ==> Discard(c, n) == (false, Conn([], []))
    ensures |c.pending| < n && c.script != [] ==>
      var next, rest := c.script[0], c.script[1..];
      Discard(c, n) == if next.Timeout? || next.bytes == [] then (false, Conn([], rest))
        else Discard(Conn(next.bytes, rest), n - |c.pending|)
  {
  }

  // ------------------------------------------------------------ staying aligned

  /** A read of a whole piece the stream is known to begin with. */
  lemma {:induction false} ReadOfPrefix(c: Conn, first: seq<byte>, rest: seq<byte>)
    requires Healthy(c) && Stream(c) == first + rest
    ensures var (r, c1) := ReadExact(c, |first|);
      && Healthy(c1) && !r.Gone?
      && (r.Got? ==> r.bytes == first && Stream(c1) == rest && Timeouts(c1.script) == Timeouts(c.script))
      && (r.TimedOut? ==> Stream(c1) == Stream(c) && Timeouts(c1.script) + 1 == Timeouts(c.script))
  {
    ReadConsumes(c, |first|);
    var (r, c1) := ReadExact(c, |first|);
    hide ReadExact;
    if r.Got? {
      assert (first + rest)[..|first|] == first && (r.bytes + Stream(c1))[..|first|] == r.bytes;
      assert (first + rest)[|first|..] == rest && (r.bytes + Stream(c1))[|first|..] == Stream(c1);
    }
  }

  lemma {:induction false} PayloadAligned(c: Conn, m: Message, rest: seq<byte>)
    requires Healthy(c) && Stream(c) == m.payload + rest
    ensures var (o, c1) := ReadPayload(c, HeaderOf(m));
      && Healthy(c1) && Timeouts(c1.script) <= Timeouts(c.script)
      && (o == Received(HeaderOf(m), m.payload) || ((o.Drained? || o.Lost?) && Timeouts(c.script) > 0))
      && (!o.Lost? ==> Stream(c1) == rest)
      && (o.Lost? ==> exists k :: 0 <= k < |m.payload| && Stream(c1) == m.payload[k..] + rest)
  {
    var n := |m.payload|;
    if n > 0 {
      ReadOfPrefix(c, m.payload, rest);
      var (r, c1) := ReadExact(c, n);
      hide ReadExact;
      if r.TimedOut? {
        DiscardConsumes(c1, n);
        var (ok, c2) := Discard(c1, n);
        hide Discard;
        if ok {
          assert (m.payload + rest)[n..] == rest;
        } else {
          var k :| |c1.pending| <= k < n && Stream(c2) == Stream(c1)[k..];
          assert (m.payload + rest)[k..] == m.payload[k..] + rest;
        }
      }
    } else {
      assert m.payload == [] && m.payload + rest == rest;
    }
  }

  /**
   One call on a stream that begins with the message `m`. A header timeout consumes nothing; otherwise
   exactly the message is consumed, delivered or not, unless the drain of a late payload failed too.
   */
  lemma {:induction false} RecvAligned(c: Conn, m: Message, rest: seq<byte>)
    requires Healthy(c) && Fits(m) && Stream(c) == Encode(m) + rest
    ensures var (o, c1) := Recv(c);
      && Healthy(c1)
      && (o == Received(HeaderOf(m), m.payload)
        || ((o.HeaderTimeout? || o.Drained? || o.Lost?) && Timeouts(c.script) > 0))
      && (o.HeaderTimeout? ==> Stream(c1) == Stream(c) && Timeouts(c1.script) < Timeouts(c.script))
      && (o.Received? || o.Drained? ==> Stream(c1) == rest && Timeouts(c1.script) <= Timeouts(c.script))
      && (o.Lost? ==> exists k :: 0 <= k < |m.payload| && Stream(c1) == m.payload[k..] + rest)
  {
    var h := EncodeHeader(HeaderOf(m));
    ConcatAssociative(h, m.payload, rest);
    ReadOfPrefix(c, h, m.payload + rest);
    HeaderRoundTrip(HeaderOf(m));
    ReadExactLength(c, 20);
    var (r, c1) := ReadExact(c, 20);
    hide ReadExact, EncodeHeader, DecodeHeader;
    if r.Got? {
      PayloadAligned(c1, m, rest);
      hide ReadPayload;
    }
  }

  /** The outcomes of `k` calls in a row. */
  function Calls(c: Conn, k: nat): seq<Outcome>
    decreases k
  {
    if k == 0 then [] else var (o, c1) := Recv(c); [o] + Calls(c1, k - 1)
  }

  /**
   Outcomes a stream of messages `ms` can give. Each call delivers or drops the next message, or none
   of it; after a lost payload nothing is claimed, and the connection closes only when all were read.
   */
  predicate Explains(ms: seq<Message>, os: seq<Outcome>)
    decreases |os|
  {
    if os == [] then true
    else match os[0]
      case HeaderTimeout => Explains(ms, os[1..])
      case Received(h, p) => ms != [] && h == HeaderOf(ms[0]) && p == ms[0].payload && Explains(ms[1..], os[1..])
      case Drained => ms != [] && Explains(ms[1..], os[1..])
      case Lost => ms != []
      case Closed => ms == [] && Explains(ms, os[1..])
      case BadFrame => false
  }

  lemma {:induction false} RecvAtEnd(c: Conn)
    requires Healthy(c) && Stream(c) == []
    ensures var (o, c1) := Recv(c);
      (o.HeaderTimeout? || o.Closed?) && Healthy(c1) && Stream(c1) == []
  {
    ReadConsumes(c, 20);
    EndRead(c);
    hide ReadExact;
  }

  lemma {:induction false} EndRead(c: Conn)
    requires Healthy(c) && Stream(c) == []
    ensures var (r, c1) := ReadExact(c, 20); !r.Got? && Stream(c1) == []
  {
    if c.script != [] {
      assert Arriving(c.script) == [];
      if c.script[0].Timeout? {
        assert [] + Arriving(c.script[1..]) == Arriving(c.script[1..]);
      }
    }
  }

  lemma {:induction false} CallsHead(c: Conn, k: nat)
    requires k > 0
    ensures var os, r := Calls(c, k), Recv(c);
      os != [] && os[0] == r.0 && os[1..] == Calls(r.1, k - 1)
  {
    hide Recv;
  }

  /** Any number of calls on a stream of messages, split in any way, with timeouts anywhere. */
  lemma {:induction false} RunsStayAligned(c: Conn, ms: seq<Message>, k: nat)
    requires Healthy(c) && Stream(c) == EncodeAll(ms) && forall m :: m in ms ==> Fits(m)
    ensures Explains(ms, Calls(c, k))
    decreases k
  {
    hide *;
    if k == 0 {
      NoCalls(c, ms);
      return;
    }
    var (o, c1) := Recv(c);
    CallsHead(c, k);
    if ms == [] {
      EncodeNil(ms);
      RecvAtEnd(c);
      RunsStayAligned(c1, ms, k - 1);
    } else {
      EncodeHead(ms);
      RecvAligned(c, ms[0], EncodeAll(ms[1..]));
      if o.HeaderTimeout? {
        RunsStayAligned(c1, ms, k - 1);
      } else if !o.Lost? {
        RunsStayAligned(c1, ms[1..], k - 1);
      }
    }
    ExplainsHead(ms, Calls(c, k));
  }

  lemma {:induction false} NoCalls(c: Conn, ms: seq<Message>)
    ensures Explains(ms, Calls(c, 0))
  {
  }

  lemma {:induction false} EncodeNil(ms: seq<Message>)
    requires ms == []
    ensures EncodeAll(ms) == []
  {
  }

  lemma {:induction false} EncodeHead(ms: seq<Message>)
    requires ms != []
    ensures EncodeAll(ms) == Encode(ms[0]) + EncodeAll(ms[1..])
  {
  }

  lemma {:induction false} ExplainsHead(ms: seq<Message>, os: seq<Outcome>)
    requires os != []
    ensures Explains(ms, os) ==
      match os[0]
      case HeaderTimeout => Explains(ms, os[1..])
      case Received(h, p) => ms != [] && h == HeaderOf(ms[0]) && p == ms[0].payload && Explains(ms[1..], os[1..])
      case Drained => ms != [] && Explains(ms[1..], os[1..])
      case Lost => ms != []
      case Closed => ms == [] && Explains(ms, os[1..])
      case BadFrame => false
  {
  }

  /** The messages delivered. */
  function Delivered(os: seq<Outcome>): seq<(Header, seq<byte>)> {
    if os == [] then []
    else (if os[0].Received? then [(os[0].header, os[0].payload)] else []) + Delivered(os[1..])
  }

  function Sent(ms: seq<Message>): seq<(Header, seq<byte>)> {
    if ms == [] then [] else [(HeaderOf(ms[0]), ms[0].payload)] + Sent(ms[1..])
  }

  /** The outcomes before the first lost payload. */
  function Trusted(os: seq<Outcome>): seq<Outcome> {
    if os == [] || os[0].Lost? then [] else [os[0]] + Trusted(os[1..])
  }

  lemma {:induction false} TrustedHead(os: seq<Outcome>)
    requires os != [] && !os[0].Lost?
    ensures Trusted(os) == [os[0]] + Trusted(os[1..])
    ensures Delivered(Trusted(os)) ==
      (if os[0].Received? then [(os[0].header, os[0].payload)] else []) + Delivered(Trusted(os[1..]))
    ensures Lost in os <==> Lost in os[1..]
  {
    assert ([os[0]] + Trusted(os[1..]))[1..] == Trusted(os[1..]);
    assert os == [os[0]] + os[1..];
  }

  lemma {:induction false} TrustedAll(os: seq<Outcome>)
    ensures Lost !in os <==> Trusted(os) == os
    decreases |os|
  {
    if os != [] {
      TrustedAll(os[1..]);
      assert os == [os[0]] + os[1..];
      if Lost !in os[1..] && !os[0].Lost? {
        assert Lost !in os;
      }
    }
  }

  lemma {:induction false} SentHead(ms: seq<Message>)
    requires ms != []
    ensures Sent(ms) == [(HeaderOf(ms[0]), ms[0].payload)] + Sent(ms[1..]) && Sent(ms)[1..] == Sent(ms[1..])
  {
  }

  lemma {:induction false} ExplainedInOrder(ms: seq<Message>, os: seq<Outcome>)
    requires Explains(ms, os)
    ensures Subsequence(Delivered(Trusted(os)), Sent(ms))
    decreases |os|
  {
    hide Delivered, Trusted, Sent;
    if os == [] || os[0].Lost? {
      NothingTrusted(os);
      return;
    }
    TrustedHead(os);
    if os[0].Received? || os[0].Drained? {
      SentHead(ms);
      ExplainedInOrder(ms[1..], os[1..]);
      var d := Delivered(Trusted(os[1..]));
      if os[0].Received? {
        assert ([(os[0].header, os[0].payload)] + d)[1..] == d;
      } else {
        assert [] + d == d;
        SubsequenceSkip(d, Sent(ms));
      }
    } else {
      ExplainedInOrder(ms, os[1..]);
      assert [] + Delivered(Trusted(os[1..])) == Delivered(Trusted(os[1..]));
    }
  }

  lemma {:induction false} NothingTrusted(os: seq<Outcome>)
    requires os == [] || os[0].Lost?
    ensures Trusted(os) == [] && Delivered(Trusted(os)) == []
  {
  }

  /**
   Whatever is delivered up to the first lost payload is a subsequence of what was sent, in order; and there
   is no lost payload when no two timeouts fall into the same one.
   */
  lemma {:induction false} DeliveredInOrder(c: Conn, ms: seq<Message>, k: nat)
    requires Healthy(c) && Stream(c) == EncodeAll(ms) && forall m :: m in ms ==> Fits(m)
    ensures Subsequence(Delivered(Trusted(Calls(c, k))), Sent(ms))
    ensures Calm(Stops(c), ms, 0) ==> Trusted(Calls(c, k)) == Calls(c, k)
  {
    hide *;
    RunsStayAligned(c, ms, k);
    ExplainedInOrder(ms, Calls(c, k));
    TrustedAll(Calls(c, k));
    if Calm(Stops(c), ms, 0) {
      RunExactly(c, ms, k);
    }
  }

  // ------------------------------------------------------------ where the timeouts fall

  /** How many bytes arrive before each timeout, counting on from `off`. */
  function StopsFrom(script: seq<Event>, off: nat): seq<nat> {
    if script == [] then []
    else if script[0].Data? then StopsFrom(script[1..], off + |script[0].bytes|)
    else [off] + StopsFrom(script[1..], off)
  }

  /** The places of the timeouts in the stream still to be consumed. */
  function Stops(c: Conn): seq<nat> {
    StopsFrom(c.script, |c.pending|)
  }

  function Back(s: seq<nat>, d: nat): (r: seq<nat>)
    requires forall i :: 0 <= i < |s| ==> s[i] >= d
    ensures |r| == |s|
  {
    seq(|s|, i requires 0 <= i < |s| => s[i] - d)
  }

  predicate Rises(s: seq<nat>, lo: nat) {
    (forall i :: 0 <= i < |s| ==> s[i] >= lo) && forall i, j :: 0 <= i < j < |s| ==> s[i] <= s[j]
  }

  lemma {:induction false} StopsRise(script: seq<Event>, off: nat)
    ensures Rises(StopsFrom(script, off), off) && |StopsFrom(script, off)| == Timeouts(script)
    decreases |script|
  {
    if script != [] {
      StopsRise(script[1..], if script[0].Data? then off + |script[0].bytes| else off);
    }
  }

  lemma {:induction false} StopsHead(script: seq<Event>, off: nat)
    requires script != []
    ensures script[0].Data? ==> StopsFrom(script, off) == StopsFrom(script[1..], off + |script[0].bytes|)
    ensures script[0].Timeout? ==> StopsFrom(script, off) == [off] + StopsFrom(script[1..], off)
  {
  }

  lemma {:induction false} BackHead(x: nat, s: seq<nat>, d: nat)
    requires x >= d && Rises(s, d)
    ensures (forall i :: 0 <= i < |[x] + s| ==> ([x] + s)[i] >= d) && Back([x] + s, d) == [x - d] + Back(s, d)
  {
  }

  lemma {:induction false} StopsBack(script: seq<Event>, off: nat, d: nat)
    requires d <= off
    ensures Rises(StopsFrom(script, off), d) && StopsFrom(script, off - d) == Back(StopsFrom(script, off), d)
    decreases |script|
  {
    StopsRise(script, off);
    if script != [] {
      StopsHead(script, off);
      StopsHead(script, off - d);
      var next := if script[0].Data? then off + |script[0].bytes| else off;
      StopsBack(script[1..], next, d);
      if script[0].Timeout? {
        BackHead(off, StopsFrom(script[1..], off), d);
      }
      hide StopsFrom, Back;
    }
  }

  /** A read ends by the first timeout: whole if that comes after its last byte. */
  lemma {:induction false} ReadStops(c: Conn, n: nat)
    requires Healthy(c) && |Stream(c)| >= n
    ensures var (r, c1) := ReadExact(c, n);
      if Stops(c) == [] || Stops(c)[0] >= n then r.Got? && Rises(Stops(c), n) && Stops(c1) == Back(Stops(c), n)
      else r.TimedOut? && Stops(c1) == Stops(c)[1..]
    decreases |c.script|
  {
    if |c.pending| >= n {
      StopsBack(c.script, |c.pending|, n);
      StopsRise(c.script, |c.pending|);
    } else if c.script != [] {
      var next, rest := c.script[0], c.script[1..];
      StopsRise(rest, |c.pending|);
      if next.Data? {
        assert |Stream(Conn(c.pending + next.bytes, rest))| == |Stream(c)|;
        ReadStops(Conn(c.pending + next.bytes, rest), n);
      }
    }
  }

  lemma {:induction false} DiscardStops(c: Conn, n: nat)
    requires Healthy(c) && |Stream(c)| >= n
    ensures var (ok, c1) := Discard(c, n);
      ok <==> Stops(c) == [] || Stops(c)[0] >= n
    ensures var (ok, c1) := Discard(c, n);
      ok ==> Rises(Stops(c), n) && Stops(c1) == Back(Stops(c), n)
    decreases |c.script|
  {
    DiscardHead(c, n);
    var p := |c.pending|;
    StopsRise(c.script, p);
    if p >= n {
      StopsBack(c.script, p, n);
      hide Discard, StopsFrom, Back;
    } else if c.script != [] {
      var next, rest := c.script[0], c.script[1..];
      StopsHead(c.script, p);
      var c2 := Conn(if next.Data? then next.bytes else [], rest);
      assert |Stream(c2)| == |Stream(c)| - p;
      hide Discard, Back, StopsFrom, Arriving;
      if next.Data? {
        DiscardStops(c2, n - p);
        StopsBack(rest, p + |next.bytes|, p);
        hide Stream;
        BackTwice(Stops(c), Stops(c2), p, n - p);
        hide Rises;
      }
    }
  }

  lemma {:induction false} BackTwice(s: seq<nat>, b: seq<nat>, d: nat, e: nat)
    requires Rises(s, d) && b == Back(s, d)
    ensures s == [] || s[0] >= d + e <==> b == [] || b[0] >= e
    ensures Rises(b, e) ==> Rises(s, d + e) && Back(b, e) == Back(s, d + e)
  {
    assert forall i :: 0 <= i < |s| ==> b[i] == s[i] - d;
  }

  /**
   Exactly how a call ends on a stream that begins with a message, from the places of the first two
   timeouts: before the end of its header; not before its end; in its payload, alone; or both in it.
   */
  lemma {:induction false} RecvExactly(c: Conn, m: Message, rest: seq<byte>)
    requires Healthy(c) && Fits(m) && Stream(c) == Encode(m) + rest
    ensures var (o, c1), s, end := Recv(c), Stops(c), 20 + |m.payload|;
      && (o.HeaderTimeout? <==> s != [] && s[0] < 20)
      && (o == Received(HeaderOf(m), m.payload) <==> s == [] || s[0] >= end)
      && (o.Drained? <==> s != [] && 20 <= s[0] < end && (|s| == 1 || s[1] >= end))
      && (o.Lost? <==> |s| >= 2 && 20 <= s[0] && s[1] < end)
      && (o.HeaderTimeout? ==> Stops(c1) == s[1..])
      && (o.Received? ==> Rises(s, end) && Stops(c1) == Back(s, end))
      && (o.Drained? ==> Rises(s[1..], end) && Stops(c1) == Back(s[1..], end))
  {
    var h := EncodeHeader(HeaderOf(m));
    var s, n := Stops(c), |m.payload|;
    ConcatAssociative(h, m.payload, rest);
    ReadStops(c, 20);
    ReadOfPrefix(c, h, m.payload + rest);
    StopsRise(c.script, |c.pending|);
    HeaderRoundTrip(HeaderOf(m));
    var (r, c1) := ReadExact(c, 20);
    RecvAligned(c, m, rest);
    RecvIs(c);
    hide ReadExact, EncodeHeader, DecodeHeader, Encode, StopsFrom, Stops, Recv, ReadPayload, Healthy, Stream;
    if r.Got? {
      PayloadStops(c1, m, rest);
      PlacesShift(s, Stops(c1), n);
    }
    hide Rises, Back;
  }

  lemma {:induction false} PlacesShift(s: seq<nat>, b: seq<nat>, n: nat)
    requires Rises(s, 20) && b == Back(s, 20)
    ensures |b| == |s| && (s != [] ==> b[0] == s[0] - 20) && (|s| >= 2 ==> b[1] == s[1] - 20)
    ensures Rises(b, n) ==> Rises(s, 20 + n) && Back(b, n) == Back(s, 20 + n)
    ensures s != [] && Rises(b[1..], n) ==> Rises(s[1..], 20 + n) && Back(b[1..], n) == Back(s[1..], 20 + n)
  {
    BackTwice(s, b, 20, n);
    if s != [] {
      assert Rises(s[1..], 20) && Back(s[1..], 20) == b[1..];
      BackTwice(s[1..], b[1..], 20, n);
    }
    hide Rises, Back;
  }

  lemma {:induction false} RecvIs(c: Conn)
    ensures var (r, c1) := ReadExact(c, 20);
      && (r.TimedOut? ==> Recv(c) == (HeaderTimeout, c1))
      && (r.Got? && |r.bytes| == 20 && r.bytes[0] == HEAD && DecodeHeader(r.bytes).dataLen <= MAX_PAYLOAD
          ==> Recv(c) == ReadPayload(c1, DecodeHeader(r.bytes)))
  {
    hide ReadExact, ReadPayload, DecodeHeader;
  }

  lemma {:induction false} PayloadStops(c: Conn, m: Message, rest: seq<byte>)
    requires Healthy(c) && Stream(c) == m.payload + rest
    ensures var (o, c1), s, n := ReadPayload(c, HeaderOf(m)), Stops(c), |m.payload|;
      && !o.HeaderTimeout? && !o.BadFrame?
      && (o.Received? <==> n == 0 || s == [] || s[0] >= n)
      && (o.Drained? <==> s != [] && s[0] < n && (|s| == 1 || s[1] >= n))
      && (o.Lost? <==> |s| >= 2 && s[1] < n)
      && (o.Received? ==> Rises(s, n) && Stops(c1) == Back(s, n))
      && (o.Drained? ==> Rises(s[1..], n) && Stops(c1) == Back(s[1..], n))
  {
    var s, n := Stops(c), |m.payload|;
    StopsRise(c.script, |c.pending|);
    if n == 0 {
      assert Back(s, 0) == s;
      return;
    }
    ReadStops(c, n);
    ReadOfPrefix(c, m.payload, rest);
    var (r, c1) := ReadExact(c, n);
    hide ReadExact, StopsFrom;
    if r.TimedOut? {
      DiscardStops(c1, n);
    }
    hide Discard, Healthy;
  }

  // ------------------------------------------------------------ whole runs, told on where the timeouts fall

  /** How many timeouts fall between two places. */
  function Hits(s: seq<nat>, lo: nat, hi: nat): nat {
    if s == [] then 0 else (if lo <= s[0] < hi then 1 else 0) + Hits(s[1..], lo, hi)
  }

  function PayloadHits(s: seq<nat>, m: Message, at: nat): nat {
    Hits(s, at + 20, at + 20 + |m.payload|)
  }

  /** No two timeouts fall into the payload of the same message, of those sent from place `at` on. */
  predicate Calm(s: seq<nat>, ms: seq<Message>, at: nat)
    decreases |ms|
  {
    ms == [] || (PayloadHits(s, ms[0], at) < 2 && Calm(s, ms[1..], at + 20 + |ms[0].payload|))
  }

  /** The messages without a timeout in their payload, up to the first with two. */
  function Undisturbed(s: seq<nat>, ms: seq<Message>, at: nat): (r: seq<Message>)
    ensures |r| <= |ms|
    decreases |ms|
  {
    if ms == [] || PayloadHits(s, ms[0], at) >= 2 then []
    else (if PayloadHits(s, ms[0], at) == 0 then [ms[0]] else []) + Undisturbed(s, ms[1..], at + 20 + |ms[0].payload|)
  }

  lemma {:induction false} HitsBack(s: seq<nat>, d: nat, lo: nat, hi: nat)
    requires Rises(s, d)
    ensures Hits(Back(s, d), lo, hi) == Hits(s, lo + d, hi + d)
    decreases |s|
  {
    if s != [] {
      assert Back(s, d)[1..] == Back(s[1..], d);
      HitsBack(s[1..], d, lo, hi);
    }
  }

  lemma {:induction false} HitsNone(s: seq<nat>, lo: nat, hi: nat)
    requires forall i :: 0 <= i < |s| ==> s[i] >= hi
    ensures Hits(s, lo, hi) == 0
    decreases |s|
  {
    if s != [] {
      HitsNone(s[1..], lo, hi);
    }
  }

  lemma {:induction false} BackHits(s: seq<nat>, d: nat)
    requires Rises(s, d)
    ensures forall lo: nat, hi: nat :: Hits(Back(s, d), lo, hi) == Hits(s, lo + d, hi + d)
  {
    forall lo: nat, hi: nat
      ensures Hits(Back(s, d), lo, hi) == Hits(s, lo + d, hi + d)
    {
      HitsBack(s, d, lo, hi);
    }
  }

  lemma {:induction false} SkipHits(s: seq<nat>, d: nat)
    requires s != [] && s[0] < d
    ensures forall lo: nat, hi: nat :: lo >= d ==> Hits(s[1..], lo, hi) == Hits(s, lo, hi)
  {
  }

  lemma {:induction false} OneHit(s: seq<nat>, lo: nat, hi: nat)
    requires s != [] && lo <= s[0] < hi
    ensures Hits(s, lo, hi) == 1 + Hits(s[1..], lo, hi)
  {
  }

  /** What is said of later messages from places `d` further back is said of them here. */
  lemma {:induction false} MovedOn(s: seq<nat>, b: seq<nat>, ms: seq<Message>, d: nat, at: nat)
    requires forall lo: nat, hi: nat :: 20 <= lo ==> Hits(b, lo, hi) == Hits(s, lo + d, hi + d)
    ensures Calm(b, ms, at) == Calm(s, ms, at + d) && Undisturbed(b, ms, at) == Undisturbed(s, ms, at + d)
    decreases |ms|
  {
    hide Hits;
    if ms != [] {
      var n := |ms[0].payload|;
      assert PayloadHits(b, ms[0], at) == Hits(s, at + 20 + d, at + 20 + n + d) == PayloadHits(s, ms[0], at + d);
      MovedOn(s, b, ms[1..], d, at + 20 + n);
      assert at + 20 + n + d == at + d + 20 + n;
    }
  }

  lemma {:induction false} CalmHead(s: seq<nat>, ms: seq<Message>, at: nat)
    requires ms != []
    ensures var h, next := PayloadHits(s, ms[0], at), at + 20 + |ms[0].payload|;
      Calm(s, ms, at) == (h < 2 && Calm(s, ms[1..], next))
      && Undisturbed(s, ms, at) == if h >= 2 then []
        else (if h == 0 then [ms[0]] else []) + Undisturbed(s, ms[1..], next)
  {
    hide Hits;
  }

  /** A timeout in the header of the next message says nothing of any payload. */
  lemma {:induction false} HeaderTells(s: seq<nat>, ms: seq<Message>)
    requires s != [] && s[0] < 20
    ensures Calm(s[1..], ms, 0) == Calm(s, ms, 0) && Undisturbed(s[1..], ms, 0) == Undisturbed(s, ms, 0)
  {
    SkipHits(s, 20);
    hide Hits, Calm, Undisturbed;
    MovedOn(s, s[1..], ms, 0, 0);
  }

  lemma {:induction false} ReceivedTells(s: seq<nat>, ms: seq<Message>)
    requires ms != [] && Rises(s, 20 + |ms[0].payload|)
    ensures var b := Back(s, 20 + |ms[0].payload|);
      Calm(b, ms[1..], 0) == Calm(s, ms, 0) && Undisturbed(s, ms, 0) == [ms[0]] + Undisturbed(b, ms[1..], 0)
      && PayloadHits(s, ms[0], 0) == 0
  {
    var end := 20 + |ms[0].payload|;
    var b := Back(s, end);
    BackHits(s, end);
    HitsNone(s, 20, end);
    hide Hits, Calm, Undisturbed, Back, Rises;
    MovedOn(s, b, ms[1..], end, 0);
    CalmHead(s, ms, 0);
  }

  lemma {:induction false} DrainedTells(s: seq<nat>, ms: seq<Message>)
    requires ms != [] && s != [] && 20 <= s[0] < 20 + |ms[0].payload| && Rises(s[1..], 20 + |ms[0].payload|)
    ensures var b := Back(s[1..], 20 + |ms[0].payload|);
      Calm(b, ms[1..], 0) == Calm(s, ms, 0) && Undisturbed(s, ms, 0) == Undisturbed(b, ms[1..], 0)
      && PayloadHits(s, ms[0], 0) == 1
  {
    var end := 20 + |ms[0].payload|;
    BackHits(s[1..], end);
    SkipHits(s, end);
    OneHit(s, 20, end);
    HitsNone(s[1..], 20, end);
    hide Hits, Calm, Undisturbed, Back;
    MovedOn(s, Back(s[1..], end), ms[1..], end, 0);
    CalmHead(s, ms, 0);
    assert [] + Undisturbed(s, ms[1..], end) == Undisturbed(s, ms[1..], end);
  }

  lemma {:induction false} LostTells(s: seq<nat>, ms: seq<Message>)
    requires ms != [] && |s| >= 2 && Rises(s, 0) && 20 <= s[0] && s[1] < 20 + |ms[0].payload|
    ensures !Calm(s, ms, 0) && Undisturbed(s, ms, 0) == [] && PayloadHits(s, ms[0], 0) >= 2
  {
    var end := 20 + |ms[0].payload|;
    OneHit(s, 20, end);
    OneHit(s[1..], 20, end);
  }

  lemma {:induction false} ConnStops(c: Conn)
    ensures Rises(Stops(c), 0)
  {
    StopsRise(c.script, |c.pending|);
  }

  /** One call on the stream of messages `ms`: what the places of the timeouts say of the rest. */
  lemma {:induction false} CallTells(c: Conn, ms: seq<Message>)
    requires ms != [] && Healthy(c) && Fits(ms[0]) && Stream(c) == EncodeAll(ms)
    ensures var (o, c1), s := Recv(c), Stops(c);
      match o
      case HeaderTimeout => (|Stops(c1)| < |s| && Calm(Stops(c1), ms, 0) == Calm(s, ms, 0)
                             && Undisturbed(Stops(c1), ms, 0) == Undisturbed(s, ms, 0))
      case Received(h, p) => (h == HeaderOf(ms[0]) && p == ms[0].payload && |Stops(c1)| <= |s|
                              && Calm(Stops(c1), ms[1..], 0) == Calm(s, ms, 0)
                              && Undisturbed(s, ms, 0) == [ms[0]] + Undisturbed(Stops(c1), ms[1..], 0))
      case Drained => (|Stops(c1)| <= |s| && Calm(Stops(c1), ms[1..], 0) == Calm(s, ms, 0)
                       && Undisturbed(s, ms, 0) == Undisturbed(Stops(c1), ms[1..], 0))
      case Lost => !Calm(s, ms, 0) && Undisturbed(s, ms, 0) == []
      case _ => false
  {
    hide *;
    var s := Stops(c);
    EncodeHead(ms);
    RecvAligned(c, ms[0], EncodeAll(ms[1..]));
    RecvExactly(c, ms[0], EncodeAll(ms[1..]));
    ConnStops(c);
    var (o, c1) := Recv(c);
    if o.HeaderTimeout? {
      HeaderTells(s, ms);
    } else if o.Received? {
      ReceivedTells(s, ms);
    } else if o.Drained? {
      DrainedTells(s, ms);
    } else {
      LostTells(s, ms);
    }
  }

  /** On a stream that is over, calls deliver and lose nothing. */
  lemma {:induction false} EndedCalls(os: seq<Outcome>)
    requires Explains([], os)
    ensures Delivered(Trusted(os)) == [] && Lost !in os
    decreases |os|
  {
    hide Delivered, Trusted;
    if os == [] {
      NothingTrusted(os);
    } else {
      TrustedHead(os);
      EndedCalls(os[1..]);
    }
  }

  /**
   Whole runs, from the places of the timeouts alone. Without two timeouts in one payload no payload is ever
   lost. With enough calls, one for each message and each timeout, that is exactly when; and what is delivered
   before the first loss is exactly the messages with no timeout in their payload, up to the first with two.
   */
  lemma {:induction false} RunExactly(c: Conn, ms: seq<Message>, k: nat)
    requires Healthy(c) && Stream(c) == EncodeAll(ms) && forall m :: m in ms ==> Fits(m)
    ensures Calm(Stops(c), ms, 0) ==> Lost !in Calls(c, k)
    ensures k >= |ms| + |Stops(c)| ==>
      (Lost in Calls(c, k) <==> !Calm(Stops(c), ms, 0))
      && Delivered(Trusted(Calls(c, k))) == Sent(Undisturbed(Stops(c), ms, 0))
    decreases k
  {
    hide *;
    var os := Calls(c, k);
    if ms == [] {
      RunsStayAligned(c, ms, k);
      EndedCalls(os);
      NoMessages(Stops(c), ms);
      return;
    }
    if k == 0 {
      NothingCalled(c);
      return;
    }
    EncodeHead(ms);
    RecvAligned(c, ms[0], EncodeAll(ms[1..]));
    CallTells(c, ms);
    CallsHead(c, k);
    var (o, c1) := Recv(c);
    if o.Lost? {
      NothingTrusted(os);
      NoMessages(Stops(c), []);
    } else if o.HeaderTimeout? {
      RunExactly(c1, ms, k - 1);
      TrustedHead(os);
      assert [] + Delivered(Trusted(os[1..])) == Delivered(Trusted(os[1..]));
    } else {
      RunExactly(c1, ms[1..], k - 1);
      TrustedHead(os);
      assert [] + Delivered(Trusted(os[1..])) == Delivered(Trusted(os[1..]));
      var more := Undisturbed(Stops(c1), ms[1..], 0);
      SentHead([ms[0]] + more);
      assert ([ms[0]] + more)[1..] == more;
    }
  }

  lemma {:induction false} NoMessages(s: seq<nat>, ms: seq<Message>)
    requires ms == []
    ensures Calm(s, ms, 0) && Undisturbed(s, ms, 0) == [] && Sent([]) == []
  {
  }

  lemma {:induction false} NothingCalled(c: Conn)
    ensures Calls(c, 0) == []
  {
  }

  /** No timeout in any payload. */
  predicate Untouched(s: seq<nat>, ms: seq<Message>, at: nat)
    decreases |ms|
  {
    ms == [] || (PayloadHits(s, ms[0], at) == 0 && Untouched(s, ms[1..], at + 20 + |ms[0].payload|))
  }

  lemma {:induction false} UntouchedIsAll(s: seq<nat>, ms: seq<Message>, at: nat)
    ensures Untouched(s, ms, at) <==> |Undisturbed(s, ms, at)| == |ms|
    ensures Untouched(s, ms, at) ==> Undisturbed(s, ms, at) == ms && Calm(s, ms, at)
    decreases |ms|
  {
    hide Hits;
    if ms != [] {
      UntouchedIsAll(s, ms[1..], at + 20 + |ms[0].payload|);
      assert ms == [ms[0]] + ms[1..];
    }
  }

  lemma {:induction false} SentLength(ms: seq<Message>)
    ensures |Sent(ms)| == |ms|
    decreases |ms|
  {
    if ms != [] {
      SentLength(ms[1..]);
    }
  }

  /**
   Exactly when enough calls deliver every message before any loss: if and only if no timeout falls into a
   payload.
   */
  lemma {:induction false} AllDelivered(c: Conn, ms: seq<Message>, k: nat)
    requires Healthy(c) && Stream(c) == EncodeAll(ms) && forall m :: m in ms ==> Fits(m)
    requires k >= |ms| + |Stops(c)|
    ensures Delivered(Trusted(Calls(c, k))) == Sent(ms) <==> Untouched(Stops(c), ms, 0)
    ensures Untouched(Stops(c), ms, 0) ==> Delivered(Calls(c, k)) == Sent(ms)
  {
    hide *;
    RunExactly(c, ms, k);
    UntouchedIsAll(Stops(c), ms, 0);
    SentLength(ms);
    SentLength(Undisturbed(Stops(c), ms, 0));
    TrustedAll(Calls(c, k));
  }

  /** After a lost payload the claim stops for a reason: the rest of one message can pass for another, never sent. */
  lemma {:induction false} MisreadAfterLoss(first: byte, forged: Message, idle: Conn)
    requires Fits(forged) && |Encode(forged)| < MAX_PAYLOAD
    requires idle == Conn([], [Data(EncodeHeader(HeaderOf(Carrier(first, forged))) + [first]), Timeout, Timeout,
      Data(Encode(forged))])
    ensures Stream(idle) == EncodeAll([Carrier(first, forged)])
    ensures Calls(idle, 2) == [Lost, Received(HeaderOf(forged), forged.payload)]
  {
    var m, wire := Carrier(first, forged), Encode(forged);
    var h := EncodeHeader(HeaderOf(m));
    var d, tail := h + [first], [Data(wire)];
    var c1, c2 := Conn([first], [Timeout, Timeout] + tail), Conn([], tail);
    assert Arriving(tail) == wire by {
      assert tail[1..] == [] && wire + [] == wire;
    }
    LostCall(idle, c1, c2, m, d, h);
    ForgedStream(idle, first, wire, h, tail);
    assert Recv(c2).0 == Received(HeaderOf(forged), forged.payload) by {
      assert wire + [] == wire && [] + wire == wire;
      RecvAligned(c2, forged, []);
    }
    hide Recv;
    CallsHead(idle, 2);
    CallsHead(c2, 1);
    assert Calls(idle, 2)[1..][1..] == [];
  }

  lemma {:induction false} ForgedStream(idle: Conn, first: byte, wire: seq<byte>, h: seq<byte>, tail: seq<Event>)
    requires idle == Conn([], [Data(h + [first]), Timeout, Timeout] + tail) && Arriving(tail) == wire
    ensures Stream(idle) == h + ([first] + wire)
  {
    var s1, s2 := [Timeout] + tail, [Timeout, Timeout] + tail;
    assert s1[1..] == tail && s2[1..] == s1 && idle.script[1..] == s2;
    assert Arriving(s1) == wire && Arriving(s2) == wire;
  }

  lemma {:induction false} LostPayload(c1: Conn, c2: Conn, h: Header)
    requires h.dataLen > |c1.pending| && c1.script == [Timeout, Timeout] + c2.script && c2.pending == []
    ensures ReadPayload(c1, h) == (Lost, c2)
  {
    var s := [Timeout] + c2.script;
    assert c1.script[1..] == s && s[1..] == c2.script;
    assert ReadExact(c1, h.dataLen) == (TimedOut, Conn(c1.pending, s));
    assert Discard(Conn(c1.pending, s), h.dataLen) == (false, c2);
  }

  lemma {:induction false} LostCall(idle: Conn, c1: Conn, c2: Conn, m: Message, d: seq<byte>, h: seq<byte>)
    requires Fits(m) && h == EncodeHeader(HeaderOf(m)) && |m.payload| > 1
    requires |d| == 21 && d[..20] == h
    requires c1 == Conn(d[20..], [Timeout, Timeout] + c2.script) && c2.pending == []
    requires idle == Conn([], [Data(d)] + c1.script)
    ensures Recv(idle) == (Lost, c2)
  {
    hide *;
    WithinLimit(m);
    HeaderRoundTrip(HeaderOf(m));
    LostPayload(c1, c2, HeaderOf(m));
    FirstRead(idle, c1, d);
    RecvIs(idle);
  }

  lemma {:induction false} FirstRead(idle: Conn, c1: Conn, d: seq<byte>)
    requires |d| == 21 && c1.pending == d[20..] && idle == Conn([], [Data(d)] + c1.script)
    ensures ReadExact(idle, 20) == (Got(d[..20]), c1)
  {
    assert [] + d == d && idle.script[1..] == c1.script;
    assert ReadExact(Conn(d, c1.script), 20) == (Got(d[..20]), c1);
  }

  lemma {:induction false} WithinLimit(m: Message)
    requires Fits(m)
    ensures HeaderOf(m).dataLen == |m.payload| <= MAX_PAYLOAD && HeaderOf(m).session < 0x1_0000_0000
    ensures HeaderOf(m).sequence < 0x1_0000_0000 && HeaderOf(m).msgId < 0x1_0000 && HeaderOf(m).dataLen < 0x1_0000_0000
  {
  }

  function Carrier(first: byte, inner: Message): Message {
    Message(1, 1, 1412, [first] + Encode(inner))
  }

  // ------------------------------------------------------------ resynchronising

  /** Message ids the protocol uses; any other is suspect in a header of another session. */
  predicate Known(msgId: nat) {
    msgId in {1000, 1001, 1006, 1007, 1020, 1021, 1042, 1043, 1413, 1414, 1411, 1400, 1401,
              1434, 1435, 1431, 1504, 1412, 1432}
  }

  predicate Accepted(h: seq<byte>, session: nat) {
    |h| == 20 && h[0] == HEAD && h[2] == 0
    && var d := DecodeHeader(h);
    (session == 0 || d.session == session || d.session == 0 || Known(d.msgId)) && d.dataLen <= MAX_PAYLOAD
  }

  /** Slides the 20-byte window until a header is accepted; None: gave up, timed out or closed. */
  function Scan(c: Conn, win: seq<byte>, skipped: nat, session: nat): (Option<(seq<byte>, nat)>, Conn)
    requires |win| == 20
    decreases MAX_RESYNC_SCAN - skipped
  {
    if Accepted(win, session) then (Some((win, skipped)), c)
    else if skipped >= MAX_RESYNC_SCAN then (None, c)
    else
      var (r, c1) := ReadExact(c, 1);
      ReadExactLength(c, 1);
      if r.Got? then Scan(c1, win[1..] + r.bytes, skipped + 1, session) else (None, c1)
  }

  /** The message after the first accepted header, and how many bytes were skipped to reach it. */
  function RecvResync(c: Conn, session: nat): (Option<(Outcome, nat)>, Conn) {
    var (r, c1) := ReadExact(c, 20);
    ReadExactLength(c, 20);
    if !r.Got? then (None, c1)
    else
      var (found, c2) := Scan(c1, r.bytes, 0, session);
      if found.None? then (None, c2)
      else
        var (win, skipped) := found.value;
        AcceptedLength(session, c1, r.bytes, 0);
        var (o, c3) := ReadPayload(c2, DecodeHeader(win));
        (Some((o, skipped)), c3)
  }

  lemma {:induction false} AcceptedLength(session: nat, c: Conn, w: seq<byte>, skipped: nat)
    requires |w| == 20
    ensures var (found, _) := Scan(c, w, skipped, session);
      found.Some? ==> Accepted(found.value.0, session)
    decreases MAX_RESYNC_SCAN - skipped
  {
    hide Accepted;
    if !Accepted(w, session) && skipped < MAX_RESYNC_SCAN {
      var (r, c1) := ReadExact(c, 1);
      ReadExactLength(c, 1);
      if r.Got? {
        AcceptedLength(session, c1, w[1..] + r.bytes, skipped + 1);
      }
    }
  }

  predicate AcceptedAt(s: seq<byte>, j: nat, session: nat) {
    j + 20 <= |s| && Accepted(s[j..j + 20], session)
  }

  /** No header is accepted in `s` at an offset below `n`. */
  ghost predicate NoneBefore(s: seq<byte>, n: nat, session: nat) {
    forall j: nat :: j < n ==> !AcceptedAt(s, j, session)
  }

  /** The scan of the stream `s` from offset `skipped`, of which `win` is already read. */
  lemma {:induction false} ScanFindsFirst(s: seq<byte>, c: Conn, win: seq<byte>, skipped: nat, session: nat)
    requires Healthy(c) && Timeouts(c.script) == 0 && |win| == 20 && skipped <= MAX_RESYNC_SCAN
    requires skipped + 20 <= |s| && s[skipped..skipped + 20] == win && s[skipped + 20..] == Stream(c)
    requires NoneBefore(s, skipped, session)
    ensures var (found, c1) := Scan(c, win, skipped, session);
      match found
      case Some((w, n)) =>
        (n <= MAX_RESYNC_SCAN && n + 20 <= |s| && w == s[n..n + 20] && AcceptedAt(s, n, session)
         && NoneBefore(s, n, session) && Stream(c1) == s[n + 20..] && Healthy(c1) && Timeouts(c1.script) == 0)
      case None => NoneBefore(s, MAX_RESYNC_SCAN + 1, session)
    decreases MAX_RESYNC_SCAN - skipped
  {
    assert Accepted(win, session) <==> AcceptedAt(s, skipped, session);
    assert !Accepted(win, session) ==> NoneBefore(s, skipped + 1, session);
    hide Accepted, AcceptedAt, NoneBefore;
    if !Accepted(win, session) && skipped < MAX_RESYNC_SCAN {
      ReadConsumes(c, 1);
      var (r, c1) := ReadExact(c, 1);
      hide ReadExact;
      if r.Got? {
        WindowSlides(s, skipped, r.bytes, Stream(c1));
        ScanFindsFirst(s, c1, win[1..] + r.bytes, skipped + 1, session);
      } else {
        assert |s| == skipped + 20;
        NoneBeyond(s, skipped + 1, session);
      }
    }
  }

  lemma {:induction false} NoneBeyond(s: seq<byte>, n: nat, session: nat)
    requires NoneBefore(s, n, session) && |s| < n + 20
    ensures NoneBefore(s, MAX_RESYNC_SCAN + 1, session)
  {
  }

  lemma {:induction false} WindowSlides(s: seq<byte>, at: nat, b: seq<byte>, rest: seq<byte>)
    requires at + 20 <= |s| && |b| == 1 && s[at + 20..] == b + rest
    ensures at + 21 <= |s| && s[at + 1..at + 21] == s[at..at + 20][1..] + b
    ensures s[at + 21..] == rest
  {
    assert s[at + 20] == s[at + 20..][0] == b[0];
    assert s[at + 21..] == s[at + 20..][1..];
  }

  /**
   Without timeouts the scan stops at the first accepted header, so the fewest bytes are skipped; the
   payload is then read from right after it (`after`). It fails only where no header is accepted.
   */
  lemma {:induction false} ResyncSkipsLeast(c: Conn, session: nat) returns (after: Conn)
    requires Healthy(c) && Timeouts(c.script) == 0
    ensures var s := Stream(c);
      match RecvResync(c, session).0
      case Some((o, n)) =>
        (n <= MAX_RESYNC_SCAN && AcceptedAt(s, n, session) && NoneBefore(s, n, session)
         && Healthy(after) && Timeouts(after.script) == 0 && Stream(after) == s[n + 20..]
         && ReadPayload(after, DecodeHeader(s[n..n + 20])) == (o, RecvResync(c, session).1))
      case None => NoneBefore(s, MAX_RESYNC_SCAN + 1, session)
  {
    after := c;
    var s := Stream(c);
    ReadConsumes(c, 20);
    var (r, c1) := ReadExact(c, 20);
    hide ReadExact, ReadPayload, Scan, Accepted, AcceptedAt, NoneBefore, DecodeHeader;
    if r.Got? {
      assert s[0..20] == r.bytes && s[20..] == Stream(c1);
      ZeroSkipped(s, session);
      ScanFindsFirst(s, c1, r.bytes, 0, session);
      after := Scan(c1, r.bytes, 0, session).1;
    } else {
      ZeroSkipped(s, session);
      NoneBeyond(s, 0, session);
    }
  }

  lemma {:induction false} ZeroSkipped(s: seq<byte>, session: nat)
    ensures NoneBefore(s, 0, session)
  {
  }

  /** The length a header declares: its last four bytes, the low one first. */
  function Declared(h: seq<byte>): nat
    requires |h| >= 20
  {
    h[16] as int + 0x100 * h[17] as int + 0x1_0000 * h[18] as int + 0x100_0000 * h[19] as int
  }

  /**
   Without timeouts `recv` refuses a frame exactly if its first byte is not 0xFF or the length it declares is over the
   limit; of a frame refused it has read just the header. With fewer bytes left than a header it reports the end.
   */
  lemma {:induction false} RefusedExactly(c: Conn, session: nat)
    requires Healthy(c) && Timeouts(c.script) == 0
    ensures var (o, c1) := Recv(c);
      var s := Stream(c);
      && (|s| < 20 ==> o == Closed)
      && (|s| >= 20 ==> (o == BadFrame <==> s[0] != 0xFF || Declared(s) > MAX_PAYLOAD))
      && (o == BadFrame ==> |s| >= 20 && Stream(c1) == s[20..])
    ensures var s := Stream(c);
      |s| >= 20 && Declared(s) > MAX_PAYLOAD ==> !AcceptedAt(s, 0, session)
  {
    ReadConsumes(c, 20);
    var s := Stream(c);
    var (r, c1) := ReadExact(c, 20);
    hide ReadExact, ReadPayload;
    if |s| >= 20 {
      assert s[0..20][0] == s[0] && Declared(s[0..20]) == Declared(s);
    }
    if r.Got? {
      assert r.bytes == s[0..20] && s[20..] == Stream(c1);
      PayloadNotBad(c1, DecodeHeader(r.bytes));
    }
  }

  lemma {:induction false} PayloadNotBad(c: Conn, h: Header)
    ensures ReadPayload(c, h).0 != BadFrame
  {
    hide ReadExact, Discard;
  }

  /** A message this session takes: its own, one without a session, or one whose id the protocol uses. */
  predicate Takes(session: nat, m: Message) {
    session == 0 || m.session == session || m.session == 0 || Known(m.msgId)
  }

  lemma {:induction false} EncodedAccepted(s: seq<byte>, at: nat, m: Message, rest: seq<byte>, session: nat)
    requires Fits(m) && at <= |s| && s[at..] == Encode(m) + rest
    ensures at + 20 <= |s| && s[at..at + 20] == EncodeHeader(HeaderOf(m)) && s[at + 20..] == m.payload + rest
    ensures AcceptedAt(s, at, session) <==> Takes(session, m)
  {
    HeaderRoundTrip(HeaderOf(m));
    HeaderZero(HeaderOf(m));
    hide EncodeHeader, DecodeHeader;
    assert s[at..][..20] == s[at..at + 20] && s[at..][20..] == s[at + 20..];
  }

  lemma {:induction false} HeaderZero(h: Header)
    ensures EncodeHeader(h)[2] == 0
  {
  }

  /** No header begins in the junk: its first byte is 0xFF and its third is zero. */
  ghost predicate NoHeads(junk: seq<byte>, s: seq<byte>) {
    forall i :: 0 <= i < |junk| && i + 2 < |s| ==> junk[i] != HEAD || s[i + 2] != 0
  }

  /**
   Bytes that begin no header, and then a message: without timeouts, resynchronising passes over exactly those
   bytes and returns the message, if and only if the session takes it.
   */
  lemma {:induction false} ResyncReturns(c: Conn, session: nat, junk: seq<byte>, m: Message, rest: seq<byte>)
    requires Healthy(c) && Timeouts(c.script) == 0 && Stream(c) == junk + (Encode(m) + rest) && Fits(m)
    requires |junk| <= MAX_RESYNC_SCAN && NoHeads(junk, Stream(c))
    ensures RecvResync(c, session).0 == Some((Received(HeaderOf(m), m.payload), |junk|)) <==> Takes(session, m)
  {
    var s, n := Stream(c), |junk|;
    assert s[n..] == Encode(m) + rest;
    EncodedAccepted(s, n, m, rest, session);
    JunkRefused(s, junk, session);
    var after := ResyncSkipsLeast(c, session);
    hide RecvResync, AcceptedAt, EncodeHeader, DecodeHeader, ReadPayload;
    if Takes(session, m) {
      HeaderRoundTrip(HeaderOf(m));
      PayloadAligned(after, m, rest);
    }
  }

  lemma {:induction false} JunkRefused(s: seq<byte>, junk: seq<byte>, session: nat)
    requires junk <= s && NoHeads(junk, s)
    ensures NoneBefore(s, |junk|, session)
  {
    hide DecodeHeader;
  }

  // ------------------------------------------------------------ the reader object

  /** Consumed bytes stay at the front of the buffer until it is compacted. */
  const COMPACT: nat := 256 * 1024

  class Reader {
    var buf: seq<byte>
    var pos: nat
    var net: seq<Event>

    ghost predicate Valid()
      reads this
    {
      pos <= |buf|
    }

    ghost function Abs(): Conn
      reads this
      requires Valid()
    {
      Conn(buf[pos..], net)
    }

    constructor (net: seq<Event>)
      ensures Valid() && Abs() == Conn([], net)
    {
      buf, pos := [], 0;
      this.net := net;
    }

    /** One socket read appended to the buffer, compacting it first when it pays. */
    method Fill() returns (r: Read)
      requires Valid()
      modifies this
      ensures Valid() && r != Got([])
      ensures match r
        case Got(b) => old(net) != [] && old(net)[0] == Data(b) && Abs() == Conn(old(Abs()).pending + b, old(net)[1..])
        case TimedOut => old(net) != [] && old(net)[0].Timeout? && Abs() == Conn(old(Abs()).pending, old(net)[1..])
        case Gone => ((old(net) == [] && Abs() == old(Abs()))
              || (old(net) != [] && old(net)[0] == Data([]) && Abs() == Conn(old(Abs()).pending, old(net)[1..])))
    {
      if pos > 0 && pos == |buf| {
        buf, pos := [], 0;
      } else if pos > COMPACT {
        buf, pos := buf[pos..], 0;
      }
      if net == [] {
        return Gone;
      }
      var next := net[0];
      net := net[1..];
      if next.Timeout? {
        return TimedOut;
      }
      if next.bytes == [] {
        return Gone;
      }
      buf := buf + next.bytes;
      r := Got(next.bytes);
    }

    method ReadExactly(n: nat) returns (r: Read)
      requires Valid()
      modifies this
      ensures Valid() && (r, Abs()) == ReadExact(old(Abs()), n)
    {
      while |buf| - pos < n
        invariant Valid() && ReadExact(Abs(), n) == ReadExact(old(Abs()), n)
        decreases |net|
      {
        var got := Fill();
        if !got.Got? {
          return got;
        }
      }
      r := Got(buf[pos..pos + n]);
      assert buf[pos..][..n] == buf[pos..pos + n] && buf[pos..][n..] == buf[pos + n..];
      pos := pos + n;
    }

    method TakeUpTo(n: nat) returns (k: nat)
      requires Valid()
      modifies this
      ensures Valid() && k <= n && k <= |old(Abs()).pending| && (k == n || k == |old(Abs()).pending|)
      ensures Abs() == Conn(old(Abs()).pending[k..], old(net))
    {
      k := if n < |buf| - pos then n else |buf| - pos;
      assert buf[pos..][k..] == buf[pos + k..];
      pos := pos + k;
    }

    method DiscardBytes(n: nat) returns (ok: bool)
      requires Valid()
      modifies this
      ensures Valid() && (ok, Abs()) == Discard(old(Abs()), n)
    {
      DiscardTaken(Abs(), n);
      var k := TakeUpTo(n);
      var left := n - k;
      while left > 0
        invariant Valid()
        invariant left > 0 ==> Abs().pending == []
        invariant if left > 0 then Discard(Abs(), left) == Discard(old(Abs()), n)
          else (true, Abs()) == Discard(old(Abs()), n)
        decreases |net|
      {
        DiscardHead(Abs(), left);
        hide Discard;
        var got := Fill();
        if !got.Got? {
          return false;
        }
        assert [] + got.bytes == got.bytes;
        DiscardTaken(Abs(), left);
        k := TakeUpTo(left);
        left := left - k;
      }
      ok := true;
    }

    method ReadBody(h: Header) returns (o: Outcome)
      requires Valid()
      modifies this
      ensures Valid() && (o, Abs()) == ReadPayload(old(Abs()), h)
    {
      if h.dataLen == 0 {
        return Received(h, []);
      }
      var r := ReadExactly(h.dataLen);
      match r
      case Got(p) => o := Received(h, p);
      case Gone => o := Closed;
      case TimedOut =>
        var ok := DiscardBytes(h.dataLen);
        o := if ok then Drained else Lost;
    }

    /** One whole message. */
    method Receive() returns (o: Outcome)
      requires Valid()
      modifies this
      ensures Valid() && (o, Abs()) == Recv(old(Abs()))
    {
      hide ReadPayload;
      ReadExactLength(Abs(), 20);
      var r := ReadExactly(20);
      match r
      case TimedOut => o := HeaderTimeout;
      case Gone => o := Closed;
      case Got(h) =>
        if h[0] != HEAD || DecodeHeader(h).dataLen > MAX_PAYLOAD {
          return BadFrame;
        }
        o := ReadBody(DecodeHeader(h));
    }

    /** The next message after the first plausible header, sliding byte by byte. */
    method ReceiveResync(session: nat) returns (found: Option<(Outcome, nat)>)
      requires Valid()
      modifies this
      ensures Valid() && (found, Abs()) == RecvResync(old(Abs()), session)
    {
      hide Accepted, ReadPayload, DecodeHeader;
      ReadExactLength(Abs(), 20);
      var r := ReadExactly(20);
      if !r.Got? {
        return None;
      }
      var win, skipped := r.bytes, 0;
      ghost var start, first := Abs(), r.bytes;
      AcceptedLength(session, start, first, 0);
      while !Accepted(win, session)
        invariant Valid() && |win| == 20 && skipped <= MAX_RESYNC_SCAN
        invariant Scan(Abs(), win, skipped, session) == Scan(start, first, 0, session)
        decreases MAX_RESYNC_SCAN - skipped
      {
        if skipped >= MAX_RESYNC_SCAN {
          return None;
        }
        ReadExactLength(Abs(), 1);
        var b := ReadExactly(1);
        if !b.Got? {
          return None;
        }
        win := win[1..] + b.bytes;
        skipped := skipped + 1;
      }
      var o := ReadBody(DecodeHeader(win));
      found := Some((o, skipped));
    }
  }
}
