/** The 268-byte capability offer and the message order of the session handshake. */
module Handshake {
  import opened Basics
  import opened ByteFields
  import opened Sessions
  import K = Coordinators
  import S = SessionCodec

  const OFFER_WORDS: nat := 67
  const OFFER_SIZE: nat := 268

  // ---- words ----------------------------------------------------------------------------------------

  function WordsBytes(ws: seq<u32>): (bytes: seq<u8>)
    ensures |bytes| == 4 * |ws|
  {
    if ws == [] then [] else Le(ws[0], 4) + WordsBytes(ws[1..])
  }

  function ReadWord(bytes: seq<u8>, i: nat): u32
    requires 4 * i + 4 <= |bytes|
  {
    S.Word(bytes[4 * i..4 * i + 4])
  }

  lemma {:induction false} WordAt(ws: seq<u32>, i: nat)
    requires i < |ws|
    ensures WordsBytes(ws)[4 * i..4 * i + 4] == Le(ws[i], 4)
  {
    hide Le;
    if i > 0 {
      WordAt(ws[1..], i - 1);
      assert WordsBytes(ws)[4 * i..4 * i + 4] == WordsBytes(ws[1..])[4 * (i - 1)..4 * (i - 1) + 4];
    }
  }

  lemma ReadBack(ws: seq<u32>, i: nat)
    requires i < |ws|
    ensures ReadWord(WordsBytes(ws), i) == ws[i]
  {
    hide Le, S.Word, WordsBytes;
    WordAt(ws, i);
    S.WordOfLe(ws[i]);
  }

  lemma {:induction false} WordsUpdate(ws: seq<u32>, i: nat, v: u32)
    requires i < |ws|
    ensures WordsBytes(ws[i := v]) == WordsBytes(ws)[..4 * i] + Le(v, 4) + WordsBytes(ws)[4 * i + 4..]
  {
    hide Le;
    if i == 0 {
      assert ws[i := v][1..] == ws[1..];
    } else {
      WordsUpdate(ws[1..], i - 1, v);
      assert ws[i := v][1..] == ws[1..][i - 1 := v];
      assert WordsBytes(ws)[..4 * i] == Le(ws[0], 4) + WordsBytes(ws[1..])[..4 * (i - 1)];
      assert WordsBytes(ws)[4 * i + 4..] == WordsBytes(ws[1..])[4 * (i - 1) + 4..];
    }
  }

  // ---- offers ---------------------------------------------------------------------------------------

  function VideoWord(v: VideoFormat, f: nat): u32 {
    if f == 0 then v.format else if f == 1 then v.width else if f == 2 then v.height else if f == 3 then v.fpsNum
      else v.fpsDen
  }

  function AudioWord(a: AudioFormat, f: nat): u32 {
    if f == 0 then a.pcm else if f == 1 then a.rate else a.layout
  }

  predicate Bounded(c: Capabilities) {
    |c.video| <= MAX_FORMATS && |c.audio| <= MAX_FORMATS
  }

  /** Version, two counts, eight video slots of five words, eight audio slots of three; unused slots are zero. */
  function OfferWord(c: Capabilities, i: nat): u32
    requires Bounded(c)
  {
    if i == 0 then c.version
    else if i == 1 then |c.video|
    else if i == 2 then |c.audio|
    else if i < 43 then (if (i - 3) / 5 < |c.video| then VideoWord(c.video[(i - 3) / 5], (i - 3) % 5) else 0)
    else if (i - 43) / 3 < |c.audio| then AudioWord(c.audio[(i - 43) / 3], (i - 43) % 3) else 0
  }

  function OfferWords(c: Capabilities): (ws: seq<u32>)
    requires Bounded(c)
    ensures |ws| == OFFER_WORDS
    ensures forall i :: 0 <= i < OFFER_WORDS ==> ws[i] == OfferWord(c, i)
  {
    seq(OFFER_WORDS, i requires 0 <= i < OFFER_WORDS => OfferWord(c, i))
  }

  /** Only optional-track capabilities that agree with themselves are offered. */
  predicate Encodable(c: Capabilities) {
    c.version == VERSION_2 && CapsResult(c) == Ok
  }

  lemma EncodableMeaning(c: Capabilities)
    ensures Encodable(c) <==> c.version == VERSION_2 && NegotiationResult(c, c) == Ok
    ensures Encodable(c) ==> Bounded(c)
  {
    if CapsResult(c) == Ok {
      SelfNegotiates(c);
    }
  }

  function OfferBytes(c: Capabilities): seq<u8>
    requires Bounded(c)
  {
    WordsBytes(OfferWords(c))
  }

  function ReadVideo(b: seq<u8>, k: nat): VideoFormat
    requires |b| == OFFER_SIZE && k < MAX_FORMATS
  {
    VideoFormat(ReadWord(b, 3 + 5 * k), ReadWord(b, 4 + 5 * k), ReadWord(b, 5 + 5 * k), ReadWord(b, 6 + 5 * k),
      ReadWord(b, 7 + 5 * k))
  }

  function ReadAudio(b: seq<u8>, k: nat): AudioFormat
    requires |b| == OFFER_SIZE && k < MAX_FORMATS
  {
    AudioFormat(ReadWord(b, 43 + 3 * k), ReadWord(b, 44 + 3 * k), ReadWord(b, 45 + 3 * k))
  }

  predicate CountsFit(b: seq<u8>)
    requires |b| == OFFER_SIZE
  {
    ReadWord(b, 1) <= MAX_FORMATS && ReadWord(b, 2) <= MAX_FORMATS
  }

  function ReadOffer(b: seq<u8>): (c: Capabilities)
    requires |b| == OFFER_SIZE && CountsFit(b)
    ensures Bounded(c)
  {
    hide S.Word;
    Capabilities(ReadWord(b, 0), seq(ReadWord(b, 1), k requires 0 <= k < ReadWord(b, 1) => ReadVideo(b, k)),
                 seq(ReadWord(b, 2), k requires 0 <= k < ReadWord(b, 2) => ReadAudio(b, k)))
  }

  /** Accepted only in canonical form: re-encoding must give the same bytes. */
  function DecodeOffer(b: seq<u8>): Option<Capabilities> {
    if |b| != OFFER_SIZE || !CountsFit(b) then None
    else if Encodable(ReadOffer(b)) && OfferBytes(ReadOffer(b)) == b then Some(ReadOffer(b))
    else None
  }

  lemma OfferWordRead(c: Capabilities, i: nat)
    requires Bounded(c) && i < OFFER_WORDS
    ensures ReadWord(OfferBytes(c), i) == OfferWord(c, i)
  {
    hide WordsBytes, ReadWord, OfferWord;
    ReadBack(OfferWords(c), i);
  }

  lemma VideoRead(c: Capabilities, k: nat)
    requires Bounded(c) && k < |c.video|
    ensures ReadVideo(OfferBytes(c), k) == c.video[k]
  {
    hide ReadWord, WordsBytes, OfferWord;
    VideoSlot(c, k, 0);
    VideoSlot(c, k, 1);
    VideoSlot(c, k, 2);
    VideoSlot(c, k, 3);
    VideoSlot(c, k, 4);
  }

  lemma VideoSlot(c: Capabilities, k: nat, f: nat)
    requires Bounded(c) && k < |c.video| && f < 5
    ensures ReadWord(OfferBytes(c), 3 + 5 * k + f) == VideoWord(c.video[k], f)
  {
    hide VideoWord, AudioWord, ReadWord, WordsBytes;
    OfferWordRead(c, 3 + 5 * k + f);
    assert (5 * k + f) / 5 == k && (5 * k + f) % 5 == f;
  }

  lemma AudioRead(c: Capabilities, k: nat)
    requires Bounded(c) && k < |c.audio|
    ensures ReadAudio(OfferBytes(c), k) == c.audio[k]
  {
    hide ReadWord, OfferBytes;
    OfferWordRead(c, 43 + 3 * k);
    OfferWordRead(c, 44 + 3 * k);
    OfferWordRead(c, 45 + 3 * k);
  }

  /** Every offer survives the wire. */
  lemma DecodeOfferBytes(c: Capabilities)
    requires Encodable(c)
    ensures Bounded(c) && DecodeOffer(OfferBytes(c)) == Some(c)
  {
    hide ReadWord, CapsResult, WordsBytes, ReadVideo, ReadAudio;
    EncodableMeaning(c);
    var b := OfferBytes(c);
    OfferWordRead(c, 0);
    OfferWordRead(c, 1);
    OfferWordRead(c, 2);
    forall k | 0 <= k < |c.video| ensures ReadVideo(b, k) == c.video[k] {
      VideoRead(c, k);
    }
    forall k | 0 <= k < |c.audio| ensures ReadAudio(b, k) == c.audio[k] {
      AudioRead(c, k);
    }
    assert ReadOffer(b).video == c.video && ReadOffer(b).audio == c.audio;
  }

  /** Two different offers never share a wire, and every accepted wire is some offer's. */
  lemma OffersAreDistinct(b: seq<u8>, c: Capabilities)
    ensures DecodeOffer(b) == Some(c) <==> Encodable(c) && Bounded(c) && OfferBytes(c) == b
  {
    hide ReadWord, CapsResult, WordsBytes, ReadVideo, ReadAudio;
    if Encodable(c) {
      DecodeOfferBytes(c);
    }
  }

  // ---- the offer buffer -----------------------------------------------------------------------------

  method WriteWord(data: array<u8>, i: nat, v: u32, ghost ws: seq<u32>)
    requires i < |ws| && data[..] == WordsBytes(ws)
    modifies data
    ensures data[..] == WordsBytes(ws[i := v])
  {
    hide WordsBytes, Le;
    WordsUpdate(ws, i, v);
    S.WriteField(data, 4 * i, Le(v, 4));
  }

  method WriteVideo(data: array<u8>, k: nat, v: VideoFormat, ghost ws: seq<u32>) returns (ghost after: seq<u32>)
    requires |ws| == OFFER_WORDS && k < MAX_FORMATS && data[..] == WordsBytes(ws)
    modifies data
    ensures data[..] == WordsBytes(after) && |after| == |ws|
    ensures forall i :: 0 <= i < |ws| ==>
      after[i] == if 3 + 5 * k <= i < 8 + 5 * k then VideoWord(v, i - 3 - 5 * k) else ws[i]
  {
    hide WordsBytes, Le;
    after := ws;
    var f := 0;
    while f < 5
      invariant f <= 5 && data[..] == WordsBytes(after) && |after| == |ws|
      invariant forall i :: 0 <= i < |ws| ==>
        after[i] == if 3 + 5 * k <= i < 3 + 5 * k + f then VideoWord(v, i - 3 - 5 * k) else ws[i]
    {
      WriteWord(data, 3 + 5 * k + f, VideoWord(v, f), after);
      after := after[3 + 5 * k + f := VideoWord(v, f)];
      f := f + 1;
    }
  }

  method WriteAudio(data: array<u8>, k: nat, a: AudioFormat, ghost ws: seq<u32>) returns (ghost after: seq<u32>)
    requires |ws| == OFFER_WORDS && k < MAX_FORMATS && data[..] == WordsBytes(ws)
    modifies data
    ensures data[..] == WordsBytes(after) && |after| == |ws|
    ensures forall i :: 0 <= i < |ws| ==>
      after[i] == if 43 + 3 * k <= i < 46 + 3 * k then AudioWord(a, i - 43 - 3 * k) else ws[i]
  {
    hide WordsBytes, Le;
    after := ws;
    var f := 0;
    while f < 3
      invariant f <= 3 && data[..] == WordsBytes(after) && |after| == |ws|
      invariant forall i :: 0 <= i < |ws| ==>
        after[i] == if 43 + 3 * k <= i < 43 + 3 * k + f then AudioWord(a, i - 43 - 3 * k) else ws[i]
    {
      WriteWord(data, 43 + 3 * k + f, AudioWord(a, f), after);
      after := after[43 + 3 * k + f := AudioWord(a, f)];
      f := f + 1;
    }
  }

  /** `c` with only its first `m` video and `n` audio formats present. */
  function Truncated(c: Capabilities, m: nat, n: nat, i: nat): u32
    requires Bounded(c) && m <= |c.video| && n <= |c.audio|
  {
    if i < 3 then OfferWord(c, i)
    else if i < 43 then (if (i - 3) / 5 < m then OfferWord(c, i) else 0)
    else if (i - 43) / 3 < n then OfferWord(c, i) else 0
  }

  method EncodeOffer(c: Capabilities, data: array<u8>) returns (ok: bool)
    requires data.Length == OFFER_SIZE
    modifies data
    ensures ok == Encodable(c)
    ensures ok ==> Bounded(c) && data[..] == OfferBytes(c)
    ensures !ok ==> data[..] == old(data[..])
  {
    hide WordsBytes, CapsResult, OfferWord, Truncated;
    EncodableMeaning(c);
    if c.version != VERSION_2 {
      return false;
    }
    var agreed, _, _ := Negotiate(c, c);
    if agreed != SessionResult.Ok {
      return false;
    }
    ghost var ws := StartOffer(c, data);
    ws := WriteVideos(c, data, ws);
    ws := WriteAudios(c, data, ws);
    CompleteOffer(c);
    assert ws == OfferWords(c);
    ok := true;
  }

  method WriteVideos(c: Capabilities, data: array<u8>, ghost start: seq<u32>) returns (ghost ws: seq<u32>)
    requires Bounded(c) && |start| == OFFER_WORDS && data[..] == WordsBytes(start)
    requires forall i :: 0 <= i < OFFER_WORDS ==> start[i] == Truncated(c, 0, 0, i)
    modifies data
    ensures |ws| == OFFER_WORDS && data[..] == WordsBytes(ws)
    ensures forall i :: 0 <= i < OFFER_WORDS ==> ws[i] == Truncated(c, |c.video|, 0, i)
  {
    hide WordsBytes, VideoWord, Truncated;
    ws := start;
    var k := 0;
    while k < |c.video|
      invariant k <= |c.video| && |ws| == OFFER_WORDS && data[..] == WordsBytes(ws)
      invariant forall i :: 0 <= i < OFFER_WORDS ==> ws[i] == Truncated(c, k, 0, i)
    {
      ghost var before := ws;
      ws := WriteVideo(data, k, c.video[k], ws);
      forall i | 0 <= i < OFFER_WORDS ensures ws[i] == Truncated(c, k + 1, 0, i) {
        OneMoreVideo(c, k, i);
        assert before[i] == Truncated(c, k, 0, i);
      }
      k := k + 1;
    }
  }

  method WriteAudios(c: Capabilities, data: array<u8>, ghost start: seq<u32>) returns (ghost ws: seq<u32>)
    requires Bounded(c) && |start| == OFFER_WORDS && data[..] == WordsBytes(start)
    requires forall i :: 0 <= i < OFFER_WORDS ==> start[i] == Truncated(c, |c.video|, 0, i)
    modifies data
    ensures |ws| == OFFER_WORDS && data[..] == WordsBytes(ws)
    ensures forall i :: 0 <= i < OFFER_WORDS ==> ws[i] == Truncated(c, |c.video|, |c.audio|, i)
  {
    hide WordsBytes, AudioWord, Truncated;
    ws := start;
    var k := 0;
    while k < |c.audio|
      invariant k <= |c.audio| && |ws| == OFFER_WORDS && data[..] == WordsBytes(ws)
      invariant forall i :: 0 <= i < OFFER_WORDS ==> ws[i] == Truncated(c, |c.video|, k, i)
    {
      ghost var before := ws;
      ws := WriteAudio(data, k, c.audio[k], ws);
      forall i | 0 <= i < OFFER_WORDS ensures ws[i] == Truncated(c, |c.video|, k + 1, i) {
        OneMoreAudio(c, k, i);
        assert before[i] == Truncated(c, |c.video|, k, i);
      }
      k := k + 1;
    }
  }

  lemma OneMoreVideo(c: Capabilities, k: nat, i: nat)
    requires Bounded(c) && k < |c.video| && i < OFFER_WORDS
    ensures Truncated(c, k + 1, 0, i) == if 3 + 5 * k <= i < 8 + 5 * k then VideoWord(c.video[k], i - 3 - 5 * k)
      else Truncated(c, k, 0, i)
  {
    hide VideoWord, AudioWord;
    if 3 + 5 * k <= i < 8 + 5 * k {
      assert (i - 3) / 5 == k && (i - 3) % 5 == i - 3 - 5 * k;
    }
  }

  lemma OneMoreAudio(c: Capabilities, k: nat, i: nat)
    requires Bounded(c) && k < |c.audio| && i < OFFER_WORDS
    ensures Truncated(c, |c.video|, k + 1, i) ==
      if 43 + 3 * k <= i < 46 + 3 * k then AudioWord(c.audio[k], i - 43 - 3 * k) else Truncated(c, |c.video|, k, i)
  {
    hide VideoWord, AudioWord;
    if 43 + 3 * k <= i < 46 + 3 * k {
      assert (i - 43) / 3 == k && (i - 43) % 3 == i - 43 - 3 * k;
    }
  }

  lemma CompleteOffer(c: Capabilities)
    requires Bounded(c)
    ensures forall i :: 0 <= i < OFFER_WORDS ==> Truncated(c, |c.video|, |c.audio|, i) == OfferWord(c, i)
  {
    hide VideoWord, AudioWord;
  }

  /** Clears the buffer and writes the three leading words. */
  method StartOffer(c: Capabilities, data: array<u8>) returns (ghost ws: seq<u32>)
    requires Bounded(c) && data.Length == OFFER_SIZE
    modifies data
    ensures |ws| == OFFER_WORDS && data[..] == WordsBytes(ws)
    ensures forall i :: 0 <= i < OFFER_WORDS ==> ws[i] == Truncated(c, 0, 0, i)
  {
    hide WordsBytes, VideoWord, AudioWord;
    forall i | 0 <= i < data.Length {
      data[i] := 0;
    }
    ws := seq(OFFER_WORDS, _ => 0);
    ZeroWords(ws);
    assert data[..] == WordsBytes(ws);
    WriteWord(data, 0, c.version, ws);
    ws := ws[0 := c.version];
    WriteWord(data, 1, |c.video|, ws);
    ws := ws[1 := |c.video|];
    WriteWord(data, 2, |c.audio|, ws);
    ws := ws[2 := |c.audio|];
  }

  lemma {:induction false} ZeroWords(zeros: seq<u32>)
    requires forall i :: 0 <= i < |zeros| ==> zeros[i] == 0
    ensures forall i :: 0 <= i < 4 * |zeros| ==> WordsBytes(zeros)[i] == 0
  {
    if zeros != [] {
      ZeroWords(zeros[1..]);
      ZeroLe(4);
    }
  }

  lemma {:induction false} ZeroLe(n: nat)
    ensures forall i :: 0 <= i < n ==> Le(0, n)[i] == 0
  {
    if n > 0 {
      ZeroLe(n - 1);
    }
  }

  // ---- the exchange ---------------------------------------------------------------------------------

  /** A proof under the shared key stands for the transcript it covers. */
  datatype Transcript = Transcript(
    direction: char, client: seq<u8>, server: seq<u8>, clientNonce: seq<u8>, serverNonce: seq<u8>, wire: seq<u8>)

  /** Consumer to producer, then producer to consumer. */
  datatype Hello = Hello(nonce: seq<u8>, offer: seq<u8>)
  datatype Reply = Reply(nonce: seq<u8>, offer: seq<u8>, wire: seq<u8>, proof: Transcript)

  /** What a side hands to its coordinator: the selection, the producer's offer, the consumer's offer. */
  datatype Setup = Setup(config: Config, producer: Capabilities, consumer: Capabilities)

  ghost predicate Selects(local: Capabilities, proposal: Config, offer: seq<u8>, setup: Setup) {
    && setup.producer == local && DecodeOffer(offer) == Some(setup.consumer)
    && proposal.version == VERSION_2 && NegotiationResult(local, setup.consumer) == Ok
    && setup.config == proposal.(video := setup.config.video, audio := setup.config.audio)
    && BestVideo(local, setup.consumer, setup.config.video) && BestAudio(local, setup.consumer, setup.config.audio)
    && SelectionResult(setup.config, local, setup.consumer) == Ok
  }

  lemma BestIsUnique(p: Capabilities, c: Capabilities, v: VideoFormat, w: VideoFormat, a: AudioFormat, b: AudioFormat)
    requires BestVideo(p, c, v) && BestVideo(p, c, w) && BestAudio(p, c, a) && BestAudio(p, c, b)
    ensures v == w && a == b
  {
    hide Offers, OffersAudio;
    if p.video != [] {
      var i :| 0 <= i < |p.video| && FirstVideo(p, c, i) && v == p.video[i];
      var j :| 0 <= j < |p.video| && FirstVideo(p, c, j) && w == p.video[j];
      assert i == j;
    }
    if p.audio != [] {
      var i :| 0 <= i < |p.audio| && FirstAudio(p, c, i) && a == p.audio[i];
      var j :| 0 <= j < |p.audio| && FirstAudio(p, c, j) && b == p.audio[j];
      FirstAudioUnique(p, c, i, j);
      FirstAudioUnique(p, c, j, i);
    }
  }

  lemma FirstAudioUnique(p: Capabilities, c: Capabilities, i: nat, j: nat)
    requires FirstAudio(p, c, i) && FirstAudio(p, c, j)
    ensures i <= j
  {
    hide OffersAudio;
    if exists k :: 0 <= k < |p.audio| && Preferred(p, c, k) {
      assert Preferred(p, c, j);
    }
  }

  /** The producer's choice; it refuses exactly when nothing can be selected. */
  method Select(local: Capabilities, proposal: Config, offer: seq<u8>) returns (out: Option<Setup>)
    ensures out.Some? ==> Selects(local, proposal, offer, out.value)
    ensures out == None ==> forall setup :: !Selects(local, proposal, offer, setup)
  {
    hide CapsResult, BestVideo, BestAudio, SelectionResult, NegotiationResult, DecodeOffer;
    var peer := DecodeOffer(offer);
    if peer == None || proposal.version != VERSION_2 {
      return None;
    }
    var agreed, v, a := Negotiate(local, peer.value);
    if agreed != SessionResult.Ok {
      return None;
    }
    var setup := Setup(proposal.(video := v, audio := a), local, peer.value);
    forall other | Selects(local, proposal, offer, other) ensures other == setup {
      BestIsUnique(local, peer.value, v, other.config.video, a, other.config.audio);
    }
    if SelectionResult(setup.config, local, peer.value) != SessionResult.Ok {
      return None;
    }
    out := Some(setup);
  }

  /** What the consumer makes of a reply. */
  function Accepts(local: Capabilities, hello: Hello, reply: Reply): Option<Setup> {
    var peer := DecodeOffer(reply.offer);
    if peer == None then None
    else if reply.proof != Transcript('P', hello.offer, reply.offer, hello.nonce, reply.nonce, reply.wire) then None
    else if S.DecodeResult(reply.wire) != Ok then None
    else
      var chosen := S.Decoded(reply.wire);
      if chosen.version != VERSION_2 || SelectionResult(chosen, peer.value, local) != Ok then None
      else Some(Setup(chosen, peer.value, local))
  }

  /** What a confirmation covers. */
  function Confirmation(hello: Hello, reply: Reply): Transcript {
    Transcript('C', hello.offer, reply.offer, hello.nonce, reply.nonce, reply.wire)
  }

  /** Both ends finish by configuring their coordinator; a refusal at any point cancels the session. */
  function Finish(k: K.Coordinator, setup: Setup): K.Coordinator {
    if K.ConfigureAnswer(k, setup.config, setup.producer, setup.consumer) == K.Ready
    then K.Configure(k, setup.config, setup.producer, setup.consumer)
    else K.Cancel(k)
  }

  /** An accepted reply is confirmed before the consumer configures. */
  function ConsumerEnd(local: Capabilities, hello: Hello, reply: Reply, k: K.Coordinator): (Option<Transcript>,
      K.Coordinator) {
    var setup := Accepts(local, hello, reply);
    if setup == None then (None, K.Cancel(k)) else (Some(Confirmation(hello, reply)), Finish(k, setup.value))
  }

  /** The producer configures only on the confirmation of exactly what it sent. */
  function ProducerEnd(setup: Setup, hello: Hello, reply: Reply, received: Transcript,
      k: K.Coordinator): K.Coordinator {
    if received != Confirmation(hello, reply) then K.Cancel(k) else Finish(k, setup)
  }

  /** A coordinator for these tracks, fresh or at an older generation of the same session. */
  predicate Admits(k: K.Coordinator, c: Config) {
    k.required == K.Tracks(c) && (k.configured ==> ReplacementResult(k.config, c) == Ok)
  }

  /** The coordinator holds the configuration and is open for its tracks. */
  predicate Holds(k: K.Coordinator, c: Config) {
    k.configured && !k.cancelled && k.config == c
  }

  lemma FinishHolds(k: K.Coordinator, setup: Setup)
    requires SelectionResult(setup.config, setup.producer, setup.consumer) == Ok
    ensures if Admits(k, setup.config) then Holds(Finish(k, setup), setup.config) else Finish(k, setup) == K.Cancel(k)
  {
    hide SelectionResult, ReplacementResult;
  }

  /** The producer's answer to a consumer's offer. */
  function ReplyOf(producer: Capabilities, nonce: seq<u8>, hello: Hello, config: Config): Reply
    requires Bounded(producer) && config.epochNs >= 0
  {
    var offer, wire := OfferBytes(producer), S.Encoded(config);
    Reply(nonce, offer, wire, Transcript('P', hello.offer, offer, hello.nonce, nonce, wire))
  }

  /** The consumer decodes the very configuration the producer selected, and validates it against both offers. */
  lemma HonestReply(
      producer: Capabilities, consumer: Capabilities, proposal: Config, pNonce: seq<u8>, cNonce: seq<u8>, setup: Setup)
    requires Encodable(producer) && Encodable(consumer) && Bounded(producer) && Bounded(consumer)
    requires Selects(producer, proposal, OfferBytes(consumer), setup)
    ensures setup.producer == producer && setup.consumer == consumer && setup.config.epochNs >= 0
    ensures SelectionResult(setup.config, setup.producer, setup.consumer) == Ok
    ensures var hello := Hello(cNonce, OfferBytes(consumer));
      Accepts(consumer, hello, ReplyOf(producer, pNonce, hello, setup.config)) == Some(setup)
  {
    hide CapsResult, BestVideo, BestAudio, NegotiationResult, DecodeOffer, OfferBytes, S.Encoded, S.DecodeResult,
      S.Decoded, SelectionResult, Validate, Accepts, S.Fields, S.FieldsResult, S.FromFields;
    DecodeOfferBytes(producer);
    DecodeOfferBytes(consumer);
    SelectionIsValid(setup.config, producer, consumer);
    S.DecodeEncoded(setup.config);
    var hello := Hello(cNonce, OfferBytes(consumer));
    AcceptsGenuine(consumer, hello, ReplyOf(producer, pNonce, hello, setup.config), setup);
  }

  /**
   * Honest handshake agreement. When the producer selects, the consumer decodes that very configuration, validates
   * it against both offers and confirms it; the producer takes the confirmation, and each coordinator that admits the
   * configuration holds it, while one that does not ends its session.
   */
  lemma HonestAgreement(
      producer: Capabilities, consumer: Capabilities, proposal: Config, pNonce: seq<u8>, cNonce: seq<u8>, setup: Setup,
      atProducer: K.Coordinator, atConsumer: K.Coordinator)
    requires Encodable(producer) && Encodable(consumer) && Bounded(producer) && Bounded(consumer)
    requires Selects(producer, proposal, OfferBytes(consumer), setup)
    ensures setup.producer == producer && setup.consumer == consumer && setup.config.epochNs >= 0
    ensures var hello := Hello(cNonce, OfferBytes(consumer));
      var reply := ReplyOf(producer, pNonce, hello, setup.config);
      var (confirmation, c) := ConsumerEnd(consumer, hello, reply, atConsumer);
      && Accepts(consumer, hello, reply) == Some(setup) && confirmation.Some?
      && var p := ProducerEnd(setup, hello, reply, confirmation.value, atProducer);
         && (if Admits(atProducer, setup.config) then Holds(p, setup.config) else p == K.Cancel(atProducer))
         && (if Admits(atConsumer, setup.config) then Holds(c, setup.config) else c == K.Cancel(atConsumer))
  {
    hide Selects, Accepts, ReplyOf, SelectionResult, Admits, Holds, Finish, OfferBytes, Encodable;
    HonestReply(producer, consumer, proposal, pNonce, cNonce, setup);
    FinishHolds(atProducer, setup);
    FinishHolds(atConsumer, setup);
  }

  /** Two new coordinators for the selected tracks end up with one configuration. */
  lemma NewCoordinatorsAgree(
      producer: Capabilities, consumer: Capabilities, proposal: Config, pNonce: seq<u8>, cNonce: seq<u8>, setup: Setup,
      atProducer: K.Coordinator, atConsumer: K.Coordinator)
    requires Encodable(producer) && Encodable(consumer) && Bounded(producer) && Bounded(consumer)
    requires Selects(producer, proposal, OfferBytes(consumer), setup)
    requires K.Created(atProducer) && K.Created(atConsumer)
    requires atProducer.required == atConsumer.required == K.Tracks(setup.config)
    ensures setup.config.epochNs >= 0
    ensures var hello := Hello(cNonce, OfferBytes(consumer));
      var reply := ReplyOf(producer, pNonce, hello, setup.config);
      var (confirmation, c) := ConsumerEnd(consumer, hello, reply, atConsumer);
      && confirmation.Some? && Holds(c, setup.config)
      && Holds(ProducerEnd(setup, hello, reply, confirmation.value, atProducer), setup.config)
  {
    hide Selects, ConsumerEnd, ProducerEnd, OfferBytes, Encodable, Accepts, ReplyOf;
    HonestAgreement(producer, consumer, proposal, pNonce, cNonce, setup, atProducer, atConsumer);
  }

  lemma AcceptsGenuine(local: Capabilities, hello: Hello, reply: Reply, setup: Setup)
    requires reply.proof == Transcript('P', hello.offer, reply.offer, hello.nonce, reply.nonce, reply.wire)
    requires DecodeOffer(reply.offer) == Some(setup.producer) && setup.consumer == local
    requires S.DecodeResult(reply.wire) == Ok && S.Decoded(reply.wire) == setup.config
    requires setup.config.version == VERSION_2 && SelectionResult(setup.config, setup.producer, local) == Ok
    ensures Accepts(local, hello, reply) == Some(setup)
  {
    hide DecodeOffer, S.DecodeResult, S.Decoded, SelectionResult;
  }

  /** The producer succeeds for every pair of compatible offers and every proposal that fits them. */
  lemma CompatibleOffersSelect(producer: Capabilities, consumer: Capabilities, proposal: Config, v: VideoFormat,
      a: AudioFormat)
    requires Encodable(producer) && Encodable(consumer) && Bounded(consumer)
      && NegotiationResult(producer, consumer) == Ok
    requires BestVideo(producer, consumer, v) && BestAudio(producer, consumer, a)
    requires proposal.version == VERSION_2 && Validate(proposal.(video := v, audio := a)) == Ok
    requires (proposal.videoTrack != 0) == (producer.video != [])
      && (proposal.audioTrack != 0) == (producer.audio != [])
    ensures Selects(producer, proposal, OfferBytes(consumer), Setup(proposal.(video := v, audio := a), producer,
      consumer))
  {
    hide CapsResult, BestVideo, BestAudio, NegotiationResult, DecodeOffer, OfferBytes, SelectionResult, Validate;
    DecodeOfferBytes(consumer);
    NegotiationIsSound(producer, consumer, proposal.(video := v, audio := a));
  }
}
