/** The incremental check that no packet of the audio stream declares more payload than its budget. */
module WireBounder {
  import opened Basics

  const HEADER_SIZE: nat := 62
  const MAX_CONTROL: nat := 65536

  /** Bytes per sample frame and the largest PCM payload. */
  datatype Limits = Limits(frame: nat, budget: nat)

  function TypeOf(header: seq<u8>): nat
    requires |header| >= HEADER_SIZE
  {
    var high: nat := header[4];
    0x100 * high + header[5]
  }

  function LengthOf(header: seq<u8>): nat
    requires |header| >= HEADER_SIZE
  {
    var a: nat, b: nat, c: nat := header[6], header[7], header[8];
    0x100_0000 * a + 0x1_0000 * b + 0x100 * c + header[9]
  }

  /** Version 1.0; PCM whole, nonempty and within budget; anything else known and small. */
  predicate HeaderOk(l: Limits, header: seq<u8>)
    requires |header| >= HEADER_SIZE
  {
    && header[0] == 1 && header[1] == 0
    && (var length := LengthOf(header);
        if TypeOf(header) == 1 then length != 0 && Whole(length, l.frame) && length <= l.budget
        else length <= MAX_CONTROL && TypeOf(header) >= 2)
  }

  predicate Whole(length: nat, frame: nat) {
    frame > 0 && length % frame == 0
  }

  /** A header in progress, or a payload being skipped. */
  datatype Parser = Parser(header: seq<u8>, remaining: nat)

  const START := Parser([], 0)

  predicate WellFormed(l: Limits, p: Parser) {
    && |p.header| < HEADER_SIZE && (p.remaining > 0 ==> p.header == [])
    && p.remaining <= if l.budget > MAX_CONTROL then l.budget else MAX_CONTROL
  }

  /** What one byte does; None is rejection, for good. */
  function Step(l: Limits, p: Parser, b: u8): Option<Parser> {
    if p.remaining > 0 then Some(p.(remaining := p.remaining - 1))
    else
      var header := p.header + [b];
      if |header| < HEADER_SIZE then Some(p.(header := header))
      else if HeaderOk(l, header) then Some(Parser([], LengthOf(header)))
      else None
  }

  function Feed(l: Limits, p: Option<Parser>, data: seq<u8>): Option<Parser>
    decreases |data|
  {
    if data == [] || p == None then p else Feed(l, Step(l, p.value, data[0]), data[1..])
  }

  lemma StepStaysWellFormed(l: Limits, p: Parser, b: u8)
    requires WellFormed(l, p)
    ensures Step(l, p, b).Some? ==> WellFormed(l, Step(l, p, b).value)
  {
  }

  /** Over any stream: fewer than 62 header bytes are ever kept and the declared payload stays within its bound. */
  lemma {:induction false} FeedStaysBounded(l: Limits, p: Parser, data: seq<u8>)
    requires WellFormed(l, p)
    ensures var q := Feed(l, Some(p), data); q.Some? ==> WellFormed(l, q.value)
    decreases |data|
  {
    hide WellFormed, Step;
    if data != [] {
      StepStaysWellFormed(l, p, data[0]);
      var q := Step(l, p, data[0]);
      if q.Some? {
        FeedStaysBounded(l, q.value, data[1..]);
      }
    }
  }

  // ---- chunking -------------------------------------------------------------------------------------

  lemma {:induction false} FeedConcat(l: Limits, p: Option<Parser>, a: seq<u8>, b: seq<u8>)
    ensures Feed(l, p, a + b) == Feed(l, Feed(l, p, a), b)
    decreases |a|
  {
    hide Step;
    if a == [] {
      assert a + b == b;
    } else if p.Some? {
      FeedConcat(l, Step(l, p.value, a[0]), a[1..], b);
      assert (a + b)[1..] == a[1..] + b;
    }
  }

  function Joined(chunks: seq<seq<u8>>): seq<u8> {
    if chunks == [] then [] else chunks[0] + Joined(chunks[1..])
  }

  function FeedAll(l: Limits, p: Option<Parser>, chunks: seq<seq<u8>>): Option<Parser>
    decreases |chunks|
  {
    if chunks == [] then p else FeedAll(l, Feed(l, p, chunks[0]), chunks[1..])
  }

  /** Chunk invariance: however a stream is cut, the verdict and the parser are those of the whole stream. */
  lemma {:induction false} AnyChunking(l: Limits, p: Option<Parser>, chunks: seq<seq<u8>>)
    ensures FeedAll(l, p, chunks) == Feed(l, p, Joined(chunks))
    decreases |chunks|
  {
    hide Step, Feed;
    if chunks == [] {
      FeedNothing(l, p);
    } else {
      FeedConcat(l, p, chunks[0], Joined(chunks[1..]));
      AnyChunking(l, Feed(l, p, chunks[0]), chunks[1..]);
    }
  }

  lemma FeedNothing(l: Limits, p: Option<Parser>)
    ensures Feed(l, p, []) == p
  {
  }

  lemma TwoSplits(l: Limits, p: Option<Parser>, a: seq<seq<u8>>, b: seq<seq<u8>>)
    requires Joined(a) == Joined(b)
    ensures FeedAll(l, p, a) == FeedAll(l, p, b)
  {
    hide Feed, FeedAll;
    AnyChunking(l, p, a);
    AnyChunking(l, p, b);
  }

  // ---- what is accepted -----------------------------------------------------------------------------

  /** A stream of packets, each a good header and its payload, possibly cut short. */
  predicate Framed(l: Limits, data: seq<u8>)
    decreases |data|
  {
    |data| < HEADER_SIZE ||
    (HeaderOk(l, data[..HEADER_SIZE]) &&
     (var next := HEADER_SIZE + LengthOf(data[..HEADER_SIZE]);
      |data| <= next || Framed(l, data[next..])))
  }

  /** Filling the header from a chunk. */
  lemma {:induction false} FillHeader(l: Limits, p: Parser, data: seq<u8>)
    requires p.remaining == 0 && |p.header| + |data| < HEADER_SIZE
    ensures Feed(l, Some(p), data) == Some(p.(header := p.header + data))
    decreases |data|
  {
    if data == [] {
      assert p.header + data == p.header;
    } else {
      var q := p.(header := p.header + [data[0]]);
      FillHeader(l, q, data[1..]);
      assert q.header + data[1..] == p.header + data;
    }
  }

  lemma CompleteHeader(l: Limits, p: Parser, data: seq<u8>)
    requires p.remaining == 0 && |p.header| < HEADER_SIZE && |p.header| + |data| == HEADER_SIZE
    ensures var header := p.header + data;
      Feed(l, Some(p), data) == if HeaderOk(l, header) then Some(Parser([], LengthOf(header))) else None
  {
    hide HeaderOk, LengthOf;
    var n := |data| - 1;
    var front, last := data[..n], data[n];
    assert data == front + [last];
    FillHeader(l, p, front);
    FeedConcat(l, Some(p), front, [last]);
    var q := p.(header := p.header + front);
    assert q.header + [last] == p.header + data;
    FeedOne(l, q, last);
  }

  lemma FeedOne(l: Limits, p: Parser, b: u8)
    ensures Feed(l, Some(p), [b]) == Step(l, p, b)
  {
    hide Step;
    assert [b][1..] == [];
    FeedNothing(l, Step(l, p, b));
  }

  lemma {:induction false} SkipPayload(l: Limits, p: Parser, data: seq<u8>)
    requires |data| <= p.remaining
    ensures Feed(l, Some(p), data) == Some(p.(remaining := p.remaining - |data|))
    decreases |data|
  {
    if data != [] {
      SkipPayload(l, p.(remaining := p.remaining - 1), data[1..]);
    }
  }

  /** Byte by byte, the bounder accepts exactly the well-framed streams. */
  lemma {:induction false} AcceptsFramed(l: Limits, data: seq<u8>)
    ensures Feed(l, Some(START), data).Some? <==> Framed(l, data)
    decreases |data|
  {
    hide HeaderOk, LengthOf, Feed;
    if |data| < HEADER_SIZE {
      FillHeader(l, START, data);
    } else {
      var header := data[..HEADER_SIZE];
      var rest := data[HEADER_SIZE..];
      assert data == header + rest && START.header + header == header;
      CompleteHeader(l, START, header);
      FeedConcat(l, Some(START), header, rest);
      if HeaderOk(l, header) {
        AcceptsPayload(l, LengthOf(header), rest);
        if LengthOf(header) < |rest| {
          AcceptsFramed(l, rest[LengthOf(header)..]);
          assert rest[LengthOf(header)..] == data[HEADER_SIZE + LengthOf(header)..];
        }
      } else {
        FeedRejected(l, rest);
      }
    }
  }

  lemma FeedRejected(l: Limits, data: seq<u8>)
    ensures Feed(l, None, data) == None
  {
  }

  lemma AcceptsPayload(l: Limits, length: nat, rest: seq<u8>)
    ensures |rest| <= length ==> Feed(l, Some(Parser([], length)), rest).Some?
    ensures length < |rest| ==> Feed(l, Some(Parser([], length)), rest) == Feed(l, Some(START), rest[length..])
  {
    hide Feed;
    if |rest| <= length {
      SkipPayload(l, Parser([], length), rest);
    } else {
      SkipPayload(l, Parser([], length), rest[..length]);
      FeedConcat(l, Some(Parser([], length)), rest[..length], rest[length..]);
      assert rest == rest[..length] + rest[length..];
    }
  }

  // ---- packets as they are written ------------------------------------------------------------------

  /** A packet: its type, its payload, and the header bytes the bounder does not look at. */
  datatype Packet = Packet(kind: nat, payload: seq<u8>, flags: seq<u8>, rest: seq<u8>)

  /** The most significant byte first. */
  function Big(n: nat, width: nat): (bytes: seq<u8>)
    ensures |bytes| == width
  {
    if width == 0 then [] else Big(n / 0x100, width - 1) + [(n % 0x100) as u8]
  }

  predicate Writable(k: Packet) {
    k.kind < 0x1_0000 && |k.payload| < 0x1_0000_0000 && |k.flags| == 2 && |k.rest| == 52
  }

  /** Version 1.0, flags, a 16-bit type, the 32-bit payload length, and 52 more bytes. */
  function HeaderOf(k: Packet): seq<u8> {
    [1, 0] + k.flags + Big(k.kind, 2) + Big(|k.payload|, 4) + k.rest
  }

  /** PCM is of type 1; nothing else may be larger than 64 KiB. */
  predicate Acceptable(l: Limits, k: Packet) {
    if k.kind == 1 then 0 < |k.payload| <= l.budget && Whole(|k.payload|, l.frame)
    else k.kind >= 2 && |k.payload| <= 65536
  }

  function Wire(packets: seq<Packet>): seq<u8> {
    if packets == [] then [] else HeaderOf(packets[0]) + packets[0].payload + Wire(packets[1..])
  }

  lemma BigTwo(n: nat)
    requires n < 0x1_0000
    ensures var b := Big(n, 2); 0x100 * (b[0] as nat) + b[1] as nat == n
  {
    assert Big(n / 0x100, 1) == Big(n / 0x100 / 0x100, 0) + [(n / 0x100 % 0x100) as u8];
  }

  lemma BigFour(n: nat)
    requires n < 0x1_0000_0000
    ensures var b := Big(n, 4);
      0x100_0000 * (b[0] as nat) + 0x1_0000 * (b[1] as nat) + 0x100 * (b[2] as nat) + b[3] as nat == n
  {
    var high := n / 0x100 / 0x100;
    BigTwo(high);
    assert Big(n, 4) == Big(n / 0x100, 3) + [(n % 0x100) as u8];
    assert Big(n / 0x100, 3) == Big(high, 2) + [(n / 0x100 % 0x100) as u8];
  }

  /** The bounder reads the very type and length that were written. */
  lemma HeaderRead(l: Limits, k: Packet)
    requires Writable(k)
    ensures var header := HeaderOf(k);
      && |header| == HEADER_SIZE && TypeOf(header) == k.kind && LengthOf(header) == |k.payload|
      && (HeaderOk(l, header) <==> Acceptable(l, k))
  {
    hide Big;
    var header, kind, length := HeaderOf(k), Big(k.kind, 2), Big(|k.payload|, 4);
    BigTwo(k.kind);
    BigFour(|k.payload|);
    assert header[0] == 1 && header[1] == 0 && header[4..6] == kind && header[6..10] == length;
    assert header[4] == kind[0] && header[5] == kind[1];
    assert header[6] == length[0] && header[7] == length[1] && header[8] == length[2] && header[9] == length[3];
  }

  /** A stream of packets passes, however it is cut, exactly when each of them is acceptable. */
  lemma {:induction false} PacketsPass(l: Limits, packets: seq<Packet>)
    requires forall k :: k in packets ==> Writable(k)
    ensures Feed(l, Some(START), Wire(packets)) ==
      if forall k :: k in packets ==> Acceptable(l, k) then Some(START) else None
    decreases |packets|
  {
    hide Feed, HeaderOf, HeaderOk, LengthOf, TypeOf, Acceptable;
    if packets == [] {
      FeedNothing(l, Some(START));
    } else {
      var k, rest := packets[0], Wire(packets[1..]);
      var header := HeaderOf(k);
      assert packets == [k] + packets[1..];
      PacketsPass(l, packets[1..]);
      HeaderRead(l, k);
      assert START.header + header == header;
      CompleteHeader(l, START, header);
      FeedConcat(l, Some(START), header + k.payload, rest);
      FeedConcat(l, Some(START), header, k.payload);
      if Acceptable(l, k) {
        SkipPayload(l, Parser([], |k.payload|), k.payload);
      } else {
        FeedRejected(l, k.payload);
        FeedRejected(l, rest);
      }
    }
  }

  // ---- the chunked loop -----------------------------------------------------------------------------

  class AudioReader {
    const header: array<u8>
    var headerUsed: nat
    var payloadRemaining: nat

    /** A rejected header stays in place and is rejected again. */
    ghost predicate Valid(l: Limits)
      reads this, header
    {
      && header.Length == HEADER_SIZE && headerUsed <= HEADER_SIZE
      && (payloadRemaining > 0 ==> headerUsed == 0)
      && (headerUsed == HEADER_SIZE ==> !HeaderOk(l, header[..]))
      && payloadRemaining <= if l.budget > MAX_CONTROL then l.budget else MAX_CONTROL
    }

    ghost function State(): Option<Parser>
      reads this, header
      requires header.Length == HEADER_SIZE && headerUsed <= HEADER_SIZE
    {
      if headerUsed == HEADER_SIZE then None else Some(Parser(header[..headerUsed], payloadRemaining))
    }

    constructor ()
      ensures forall l :: Valid(l)
      ensures fresh(header) && header.Length == HEADER_SIZE && headerUsed == 0 && State() == Some(START)
    {
      header := new u8[HEADER_SIZE](_ => 0);
      headerUsed, payloadRemaining := 0, 0;
    }

    /** Consumes a chunk in pieces as large as the parser allows; the result is that of feeding every byte. */
    method Bound(l: Limits, data: seq<u8>) returns (ok: bool)
      requires Valid(l)
      modifies this, header
      ensures Valid(l) && State() == Feed(l, old(State()), data)
      ensures ok == (data == [] || State().Some?)
    {
      hide HeaderOk, LengthOf, Feed;
      var at := 0;
      FeedNothing(l, State());
      assert data[..0] == [];
      while at < |data|
        invariant at <= |data| && Valid(l) && State() == Feed(l, old(State()), data[..at])
        invariant at > 0 ==> State().Some?
      {
        var n, live := Advance(l, data[at..]);
        assert data[..at] + data[at..at + n] == data[..at + n] && data[at..][..n] == data[at..at + n];
        FeedConcat(l, old(State()), data[..at], data[at..at + n]);
        at := at + n;
        if !live {
          assert data == data[..at] + data[at..];
          FeedConcat(l, old(State()), data[..at], data[at..]);
          FeedRejected(l, data[at..]);
          return false;
        }
      }
      assert data[..at] == data;
      ok := true;
    }

    /** One turn of the loop: skip payload, or fill the header and judge it when complete. */
    method Advance(l: Limits, data: seq<u8>) returns (n: nat, live: bool)
      requires Valid(l) && data != []
      modifies this, header
      ensures n <= |data| && Valid(l) && State() == Feed(l, old(State()), data[..n])
      ensures live == State().Some? && (live ==> n > 0)
    {
      hide Feed;
      FeedRejected(l, []);
      if payloadRemaining > 0 {
        n := if |data| < payloadRemaining then |data| else payloadRemaining;
        SkipPayload(l, Parser(header[..headerUsed], payloadRemaining), data[..n]);
        payloadRemaining := payloadRemaining - n;
        return n, true;
      }
      n, live := Fill(l, data);
    }

    method Fill(l: Limits, data: seq<u8>) returns (n: nat, live: bool)
      requires Valid(l) && data != [] && payloadRemaining == 0
      modifies this, header
      ensures n <= |data| && Valid(l) && State() == Feed(l, old(State()), data[..n])
      ensures live == State().Some? && (live ==> n > 0)
    {
      hide Feed;
      var room := HEADER_SIZE - headerUsed;
      n := if |data| < room then |data| else room;
      ghost var p := Parser(header[..headerUsed], 0);
      forall i | 0 <= i < n {
        header[headerUsed + i] := data[i];
      }
      assert header[..headerUsed + n] == p.header + data[..n];
      if n == 0 {
        FeedRejected(l, data[..n]);
        assert header[..] == old(header[..]);
      } else if headerUsed + n < HEADER_SIZE {
        FillHeader(l, p, data[..n]);
      } else {
        CompleteHeader(l, p, data[..n]);
      }
      headerUsed := headerUsed + n;
      if headerUsed == HEADER_SIZE {
        assert header[..headerUsed] == header[..];
        if !HeaderOk(l, header[..]) {
          return n, false;
        }
        headerUsed, payloadRemaining := 0, LengthOf(header[..]);
      }
      live := true;
    }
  }
}
