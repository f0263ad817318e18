/** Where every field of the wire messages lies, byte by byte. */
module WireLayouts {
  import opened Basics
  import opened ByteFields
  import opened Sessions
  import S = SessionCodec
  import H = Handshake
  import M = MemoryCodec
  import P = MemoryPolicy
  import W = Words

  /** A 32-bit value, least significant byte first. */
  predicate HasWord(b: seq<u8>, at: nat, v: nat) {
    && at + 4 <= |b| && b[at] == v % 0x100 && b[at + 1] == v / 0x100 % 0x100
    && b[at + 2] == v / 0x1_0000 % 0x100 && b[at + 3] == v / 0x100_0000 % 0x100
  }

  /** A 64-bit value is its low and then its high word. */
  predicate HasLong(b: seq<u8>, at: nat, v: nat) {
    HasWord(b, at, v) && HasWord(b, at + 4, v / 0x1_0000_0000)
  }

  lemma WordBytes(v: nat)
    ensures Le(v, 4) == [v % 0x100, v / 0x100 % 0x100, v / 0x1_0000 % 0x100, v / 0x100_0000 % 0x100]
  {
    assert Le(v / 0x100_0000, 1) == [v / 0x100_0000 % 0x100] + Le(v / 0x100_0000 / 0x100, 0);
    assert v / 0x1_0000 / 0x100 == v / 0x100_0000 && v / 0x100 / 0x100 == v / 0x1_0000;
    assert Le(v / 0x1_0000, 2) == [v / 0x1_0000 % 0x100] + Le(v / 0x100_0000, 1);
    assert Le(v / 0x100, 3) == [v / 0x100 % 0x100] + Le(v / 0x1_0000, 2);
  }

  lemma LongBytes(v: nat)
    ensures Le(v, 8) == Le(v, 4) + Le(v / 0x1_0000_0000, 4)
  {
    var high := v / 0x1_0000_0000;
    assert v / 0x1_0000 / 0x100 == v / 0x100_0000 && v / 0x100 / 0x100 == v / 0x1_0000
      && v / 0x100_0000 / 0x100 == high;
    WordBytes(v);
    assert Le(v / 0x100_0000, 5) == [v / 0x100_0000 % 0x100] + Le(high, 4);
    assert Le(v / 0x1_0000, 6) == [v / 0x1_0000 % 0x100] + Le(v / 0x100_0000, 5);
    assert Le(v / 0x100, 7) == [v / 0x100 % 0x100] + Le(v / 0x1_0000, 6);
  }

  // ---- fields in a row --------------------------------------------------------------------------------

  /** Where a field starts. */
  function Offset(fields: seq<seq<u8>>, i: nat): nat
    requires i <= |fields|
  {
    if i == 0 then 0 else Offset(fields, i - 1) + |fields[i - 1]|
  }

  lemma {:induction false} FieldAt(fields: seq<seq<u8>>, i: nat)
    requires i < |fields|
    ensures var b, at := Flatten(fields), Offset(fields, i);
      at + |fields[i]| <= |b| && b[at..at + |fields[i]|] == fields[i]
  {
    PrefixLength(fields, i);
    FlattenSplits(fields[..i], fields[i..]);
    assert fields == fields[..i] + fields[i..];
    assert Flatten(fields[i..]) == fields[i] + Flatten(fields[i..][1..]);
  }

  lemma {:induction false} FlattenSplits(a: seq<seq<u8>>, b: seq<seq<u8>>)
    ensures Flatten(a + b) == Flatten(a) + Flatten(b)
  {
    if a == [] {
      assert a + b == b;
    } else {
      FlattenSplits(a[1..], b);
      assert (a + b)[1..] == a[1..] + b;
      assert Flatten(a + b) == a[0] + (Flatten(a[1..]) + Flatten(b));
    }
  }

  lemma {:induction false} PrefixLength(fields: seq<seq<u8>>, i: nat)
    requires i <= |fields|
    ensures |Flatten(fields[..i])| == Offset(fields, i)
  {
    if i == 0 {
    } else {
      PrefixLength(fields, i - 1);
      FlattenSnoc(fields[..i - 1], fields[i - 1]);
      assert fields[..i] == fields[..i - 1] + [fields[i - 1]];
    }
  }

  // ---- the configuration message ----------------------------------------------------------------------

  /** The field that starts at a byte. */
  predicate Lies(fields: seq<seq<u8>>, i: nat, at: nat, field: seq<u8>) {
    i < |fields| && at == Offset(fields, i) && fields[i] == field
  }

  lemma WordAt(b: seq<u8>, at: nat, v: nat)
    requires at + 4 <= |b| && b[at..at + 4] == Le(v, 4)
    ensures HasWord(b, at, v)
  {
    hide Le;
    WordBytes(v);
    var w := b[at..at + 4];
    assert w[0] == b[at] && w[1] == b[at + 1] && w[2] == b[at + 2] && w[3] == b[at + 3];
  }

  lemma BytesField(fields: seq<seq<u8>>, i: nat, at: nat, field: seq<u8>)
    requires Lies(fields, i, at, field)
    ensures at + |field| <= |Flatten(fields)| && Flatten(fields)[at..at + |field|] == field
  {
    hide Offset, Flatten;
    FieldAt(fields, i);
  }

  lemma WordField(fields: seq<seq<u8>>, i: nat, at: nat, v: nat)
    requires Lies(fields, i, at, Le(v, 4))
    ensures HasWord(Flatten(fields), at, v)
  {
    hide Le, Lies, Flatten, HasWord;
    BytesField(fields, i, at, Le(v, 4));
    WordAt(Flatten(fields), at, v);
  }

  lemma LongField(fields: seq<seq<u8>>, i: nat, at: nat, v: nat)
    requires Lies(fields, i, at, Le(v, 8))
    ensures HasLong(Flatten(fields), at, v)
  {
    hide Le, Lies, Flatten, HasWord;
    var b, high := Flatten(fields), v / 0x1_0000_0000;
    BytesField(fields, i, at, Le(v, 8));
    LongBytes(v);
    Halves(b, at, Le(v, 4), Le(high, 4));
    WordAt(b, at, v);
    WordAt(b, at + 4, high);
  }

  lemma Halves(b: seq<u8>, at: nat, low: seq<u8>, high: seq<u8>)
    requires |low| == |high| == 4 && at + 8 <= |b| && b[at..at + 8] == low + high
    ensures b[at..at + 4] == low && b[at + 4..at + 8] == high
  {
    assert b[at..at + 4] == b[at..at + 8][..4] && b[at + 4..at + 8] == b[at..at + 8][4..];
  }

  lemma Next(fields: seq<seq<u8>>, i: nat, at: nat, field: seq<u8>)
    requires Lies(fields, i, at, field) && i + 1 < |fields|
    ensures Lies(fields, i + 1, at + |field|, fields[i + 1])
  {
  }

  lemma NameFields(c: Config)
    requires c.epochNs >= 0
    ensures var f := S.Fields(c);
      && Lies(f, 0, 0, Le(S.Magic(c.version), 4)) && Lies(f, 1, 4, Le(c.version, 4)) && Lies(f, 2, 8, c.sessionId)
      && Lies(f, 3, 24, c.clockId)
  {
    hide Le, Lies, S.Magic;
    var f := S.Fields(c);
    FirstField(f);
    Next(f, 0, 0, f[0]);
    Next(f, 1, 4, f[1]);
    Next(f, 2, 8, f[2]);
  }

  lemma HeaderFields(c: Config)
    requires c.epochNs >= 0
    ensures var f := S.Fields(c);
      && Lies(f, 4, 40, Le(c.generation, 8)) && Lies(f, 5, 48, Le(c.videoTrack, 4))
      && Lies(f, 6, 52, Le(c.audioTrack, 4)) && Lies(f, 7, 56, Le(c.video.format, 4))
  {
    hide Le, Lies, S.Magic;
    var f := S.Fields(c);
    NameFields(c);
    Next(f, 3, 24, f[3]);
    Next(f, 4, 40, f[4]);
    Next(f, 5, 48, f[5]);
    Next(f, 6, 52, f[6]);
  }

  lemma FirstField(fields: seq<seq<u8>>)
    requires fields != []
    ensures Lies(fields, 0, 0, fields[0])
  {
  }

  lemma VideoFields(c: Config)
    requires c.epochNs >= 0
    ensures var f := S.Fields(c);
      && Lies(f, 8, 60, Le(c.video.width, 4)) && Lies(f, 9, 64, Le(c.video.height, 4))
      && Lies(f, 10, 68, Le(c.video.fpsNum, 4)) && Lies(f, 11, 72, Le(c.video.fpsDen, 4))
  {
    hide Le, Lies, S.Magic;
    var f := S.Fields(c);
    HeaderFields(c);
    Next(f, 7, 56, f[7]);
    Next(f, 8, 60, f[8]);
    Next(f, 9, 64, f[9]);
    Next(f, 10, 68, f[10]);
  }

  lemma AudioFields(c: Config)
    requires c.epochNs >= 0
    ensures var f := S.Fields(c);
      && Lies(f, 12, 76, Le(c.audio.pcm, 4)) && Lies(f, 13, 80, Le(c.audio.rate, 4))
      && Lies(f, 14, 84, Le(c.audio.layout, 4)) && Lies(f, 15, 88, Le(c.epochNs, 8))
  {
    hide Le, Lies, S.Magic;
    var f := S.Fields(c);
    VideoFields(c);
    Next(f, 11, 72, f[11]);
    Next(f, 12, 76, f[12]);
    Next(f, 13, 80, f[13]);
    Next(f, 14, 84, f[14]);
  }

  lemma LimitFields(c: Config)
    requires c.epochNs >= 0
    ensures var f := S.Fields(c);
      && Lies(f, 16, 96, Le(c.videoQueueFrames, 4))
      && Lies(f, 17, 100, Le(c.audioQueueMs, 4)) && Lies(f, 18, 104, Le(c.connectTimeoutMs, 4))
      && Lies(f, 19, 108, Le(c.idleTimeoutMs, 4)) && Lies(f, 20, 112, S.Zeros(48))
  {
    hide Le, Lies, S.Magic;
    var f := S.Fields(c);
    AudioFields(c);
    Next(f, 15, 88, f[15]);
    Next(f, 16, 96, f[16]);
    Next(f, 17, 100, f[17]);
    Next(f, 18, 104, f[18]);
    Next(f, 19, 108, f[19]);
  }

  predicate VideoAt(b: seq<u8>, at: nat, v: VideoFormat) {
    && HasWord(b, at, v.format) && HasWord(b, at + 4, v.width) && HasWord(b, at + 8, v.height)
    && HasWord(b, at + 12, v.fpsNum) && HasWord(b, at + 16, v.fpsDen)
  }

  predicate AudioAt(b: seq<u8>, at: nat, a: AudioFormat) {
    HasWord(b, at, a.pcm) && HasWord(b, at + 4, a.rate) && HasWord(b, at + 8, a.layout)
  }

  predicate HeaderAt(b: seq<u8>, c: Config) {
    && HasWord(b, 0, if c.version == 1 then 0x31535646 else 0x32535646) && HasWord(b, 4, c.version)
    && |b| >= 40 && b[8..24] == c.sessionId && b[24..40] == c.clockId && HasLong(b, 40, c.generation)
    && HasWord(b, 48, c.videoTrack) && HasWord(b, 52, c.audioTrack)
  }

  predicate LimitsAt(b: seq<u8>, c: Config) {
    && c.epochNs >= 0 && HasLong(b, 88, c.epochNs)
    && HasWord(b, 96, c.videoQueueFrames) && HasWord(b, 100, c.audioQueueMs)
    && HasWord(b, 104, c.connectTimeoutMs) && HasWord(b, 108, c.idleTimeoutMs)
  }

  lemma HeaderLies(c: Config)
    requires c.epochNs >= 0
    ensures |S.Encoded(c)| == 160 && HeaderAt(S.Encoded(c), c)
  {
    hide Le, Offset, Flatten, S.Fields, Lies, HasWord, HasLong;
    var f := S.Fields(c);
    NameFields(c);
    HeaderFields(c);
    S.WidthsTotal();
    FlattenLength(f, S.Widths());
    WordField(f, 0, 0, S.Magic(c.version));
    WordField(f, 1, 4, c.version);
    BytesField(f, 2, 8, c.sessionId);
    BytesField(f, 3, 24, c.clockId);
    LongField(f, 4, 40, c.generation);
    WordField(f, 5, 48, c.videoTrack);
    WordField(f, 6, 52, c.audioTrack);
  }

  lemma FormatsLie(c: Config)
    requires c.epochNs >= 0
    ensures VideoAt(S.Encoded(c), 56, c.video) && AudioAt(S.Encoded(c), 76, c.audio)
  {
    hide Le, Offset, Flatten, S.Fields, Lies, HasWord;
    var f := S.Fields(c);
    HeaderFields(c);
    VideoFields(c);
    AudioFields(c);
    WordField(f, 7, 56, c.video.format);
    WordField(f, 8, 60, c.video.width);
    WordField(f, 9, 64, c.video.height);
    WordField(f, 10, 68, c.video.fpsNum);
    WordField(f, 11, 72, c.video.fpsDen);
    WordField(f, 12, 76, c.audio.pcm);
    WordField(f, 13, 80, c.audio.rate);
    WordField(f, 14, 84, c.audio.layout);
  }

  lemma LimitsLie(c: Config)
    requires c.epochNs >= 0
    ensures LimitsAt(S.Encoded(c), c) && |S.Encoded(c)| >= 160 && forall k :: 112 <= k < 160 ==> S.Encoded(c)[k] == 0
  {
    hide Le, Offset, Flatten, S.Fields, Lies, HasWord, HasLong;
    var f := S.Fields(c);
    AudioFields(c);
    LimitFields(c);
    LongField(f, 15, 88, c.epochNs);
    WordField(f, 16, 96, c.videoQueueFrames);
    WordField(f, 17, 100, c.audioQueueMs);
    WordField(f, 18, 104, c.connectTimeoutMs);
    WordField(f, 19, 108, c.idleTimeoutMs);
    BytesField(f, 20, 112, S.Zeros(48));
    ZerosAt(Flatten(f), 112, 48);
  }

  /** The 160 bytes of a configuration: header, formats, epoch, limits and zero padding. */
  lemma SessionLayout(c: Config)
    requires c.epochNs >= 0
    ensures var b := S.Encoded(c);
      && |b| == 160 && HeaderAt(b, c) && VideoAt(b, 56, c.video) && AudioAt(b, 76, c.audio) && LimitsAt(b, c)
      && forall k :: 112 <= k < 160 ==> b[k] == 0
  {
    hide HeaderAt, VideoAt, AudioAt, LimitsAt, S.Encoded;
    HeaderLies(c);
    FormatsLie(c);
    LimitsLie(c);
  }

  lemma ZerosAt(b: seq<u8>, at: nat, n: nat)
    requires at + n <= |b| && b[at..at + n] == S.Zeros(n)
    ensures forall k :: at <= k < at + n ==> b[k] == 0
  {
    forall k | at <= k < at + n ensures b[k] == 0 {
      assert b[at..at + n][k - at] == 0;
    }
  }

  /** A message is accepted exactly when some valid configuration is laid out like this, and is read as that one. */
  lemma SessionAccepts(b: seq<u8>, c: Config)
    ensures S.DecodeResult(b) == Ok && S.Decoded(b) == c <==> Validate(c) == Ok && S.Encoded(c) == b
  {
    hide Validate, S.Encoded, S.DecodeResult, S.Decoded;
    if S.DecodeResult(b) == Ok {
      S.EncodeDecoded(b);
    }
    if Validate(c) == Ok {
      S.DecodeEncoded(c);
    }
  }

  // ---- the capability offer ---------------------------------------------------------------------------

  lemma OfferWordAt(c: Capabilities, i: nat)
    requires H.Bounded(c) && i < 67
    ensures |H.OfferBytes(c)| == 268 && HasWord(H.OfferBytes(c), 4 * i, H.OfferWord(c, i))
  {
    hide Le, H.WordsBytes, H.OfferWord;
    var ws := H.OfferWords(c);
    H.WordAt(ws, i);
    WordBytes(ws[i]);
    var all := H.OfferBytes(c);
    var b := all[4 * i..4 * i + 4];
    assert b[0] == all[4 * i] && b[1] == all[4 * i + 1] && b[2] == all[4 * i + 2] && b[3] == all[4 * i + 3];
  }

  const NO_VIDEO := VideoFormat(0, 0, 0, 0, 0)
  const NO_AUDIO := AudioFormat(0, 0, 0)

  /** Word `f` of an entry is at a fixed place. */
  lemma VideoWordLies(c: Capabilities, k: nat, f: nat)
    requires H.Bounded(c) && k < 8 && f < 5
    ensures HasWord(H.OfferBytes(c), 12 + 20 * k + 4 * f,
      H.VideoWord(if k < |c.video| then c.video[k] else NO_VIDEO, f))
  {
    hide H.OfferBytes, HasWord;
    OfferWordAt(c, 3 + 5 * k + f);
    assert (5 * k + f) / 5 == k && (5 * k + f) % 5 == f;
  }

  lemma VideoLies(c: Capabilities, k: nat)
    requires H.Bounded(c) && k < 8
    ensures VideoAt(H.OfferBytes(c), 12 + 20 * k, if k < |c.video| then c.video[k] else NO_VIDEO)
  {
    hide H.OfferBytes, HasWord;
    VideoWordLies(c, k, 0);
    VideoWordLies(c, k, 1);
    VideoWordLies(c, k, 2);
    VideoWordLies(c, k, 3);
    VideoWordLies(c, k, 4);
  }

  lemma AudioWordLies(c: Capabilities, k: nat, f: nat)
    requires H.Bounded(c) && k < 8 && f < 3
    ensures HasWord(H.OfferBytes(c), 172 + 12 * k + 4 * f,
      H.AudioWord(if k < |c.audio| then c.audio[k] else NO_AUDIO, f))
  {
    hide H.OfferBytes, HasWord;
    OfferWordAt(c, 43 + 3 * k + f);
    assert (3 * k + f) / 3 == k && (3 * k + f) % 3 == f;
  }

  lemma AudioLies(c: Capabilities, k: nat)
    requires H.Bounded(c) && k < 8
    ensures AudioAt(H.OfferBytes(c), 172 + 12 * k, if k < |c.audio| then c.audio[k] else NO_AUDIO)
  {
    hide H.OfferBytes, HasWord;
    AudioWordLies(c, k, 0);
    AudioWordLies(c, k, 1);
    AudioWordLies(c, k, 2);
  }

  /** The 268 bytes of an offer: version, counts, eight video and eight audio entries, unused ones zero. */
  lemma OfferLayout(c: Capabilities)
    requires H.Bounded(c)
    ensures var b := H.OfferBytes(c);
      && |b| == 268 && HasWord(b, 0, c.version) && HasWord(b, 4, |c.video|) && HasWord(b, 8, |c.audio|)
      && (forall k :: 0 <= k < 8 ==> VideoAt(b, 12 + 20 * k, if k < |c.video| then c.video[k] else NO_VIDEO))
      && (forall k :: 0 <= k < 8 ==> AudioAt(b, 172 + 12 * k, if k < |c.audio| then c.audio[k] else NO_AUDIO))
  {
    hide H.OfferBytes, HasWord, VideoAt, AudioAt;
    OfferWordAt(c, 0);
    OfferWordAt(c, 1);
    OfferWordAt(c, 2);
    forall k | 0 <= k < 8
      ensures VideoAt(H.OfferBytes(c), 12 + 20 * k, if k < |c.video| then c.video[k] else NO_VIDEO) {
      VideoLies(c, k);
    }
    forall k | 0 <= k < 8
      ensures AudioAt(H.OfferBytes(c), 172 + 12 * k, if k < |c.audio| then c.audio[k] else NO_AUDIO) {
      AudioLies(c, k);
    }
  }

  // ---- memory requirements and offers -----------------------------------------------------------------

  predicate HasMask(b: seq<bv8>, at: nat, v: bv32) {
    && at + 4 <= |b| && b[at] as bv32 == v & 0xFF && b[at + 1] as bv32 == (v >> 8) & 0xFF
    && b[at + 2] as bv32 == (v >> 16) & 0xFF && b[at + 3] as bv32 == (v >> 24) & 0xFF
  }

  lemma MaskBytes(v: bv32)
    ensures HasMask(W.Put(v), 0, v)
  {
  }

  lemma {:induction false} MaskAt(vs: seq<bv32>, rest: seq<bv8>, i: nat)
    requires i < |vs|
    ensures HasMask(W.PutAll(vs) + rest, 4 * i, vs[i])
  {
    hide W.Put;
    MaskBytes(vs[0]);
    if i > 0 {
      MaskAt(vs[1..], rest, i - 1);
      assert W.PutAll(vs) + rest == W.Put(vs[0]) + (W.PutAll(vs[1..]) + rest);
    } else {
      assert W.PutAll(vs) + rest == W.Put(vs[0]) + (W.PutAll(vs[1..]) + rest);
    }
  }

  /** The 64 bytes of memory requirements. */
  lemma RequirementsLayout(r: P.Requirements)
    ensures var b := M.Encoded(r);
      && |b| == 64 && HasMask(b, 0, 0x31524D46) && HasMask(b, 4, r.version) && HasMask(b, 8, r.required)
      && HasMask(b, 12, r.preferred) && HasMask(b, 16, r.resources) && HasMask(b, 20, r.operations)
      && forall k :: 24 <= k < 64 ==> b[k] == 0
  {
    hide W.PutAll, HasMask;
    var h, z := M.Header(r), M.Zeros(40);
    MaskAt(h, z, 0);
    MaskAt(h, z, 1);
    MaskAt(h, z, 2);
    MaskAt(h, z, 3);
    MaskAt(h, z, 4);
    MaskAt(h, z, 5);
  }

  /** The 160 bytes of a memory offer. */
  lemma MemoryOfferLayout(o: M.Offer, producer: bool, nonce: seq<bv8>)
    requires |nonce| == 32 && |o.binding| == 32
    ensures var b := M.OfferWire(o, producer, nonce);
      && |b| == 160 && b[..8] == [0x46, 0x4C, 0x4D, 0x45, 0x4D, 0x4F, 0x46, 1]
      && b[8] == (if producer then 0x50 else 0x43) && (forall k :: 9 <= k < 16 ==> b[k] == 0)
      && b[16..48] == nonce && b[48..112] == M.Encoded(o.requirements)
      && HasMask(b, 112, o.path.version) && HasMask(b, 116, o.path.resource)
      && HasMask(b, 120, o.path.supported) && HasMask(b, 124, o.path.operations) && b[128..] == o.binding
  {
    hide W.PutAll, HasMask, M.Encoded;
    RequirementsLayout(o.requirements);
    var front := M.OFFER_MAGIC + M.Role(producer) + nonce + M.Encoded(o.requirements);
    var b, words := M.OfferWire(o, producer, nonce), M.PathWords(o.path);
    assert b == front + (W.PutAll(words) + o.binding);
    MaskBehind(front, words, o.binding, 0);
    MaskBehind(front, words, o.binding, 1);
    MaskBehind(front, words, o.binding, 2);
    MaskBehind(front, words, o.binding, 3);
  }

  lemma MaskBehind(front: seq<bv8>, vs: seq<bv32>, rest: seq<bv8>, i: nat)
    requires i < |vs|
    ensures HasMask(front + (W.PutAll(vs) + rest), |front| + 4 * i, vs[i])
  {
    hide W.PutAll;
    MaskAt(vs, rest, i);
  }
}
