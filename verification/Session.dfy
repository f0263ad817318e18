/** Coordinated audio/video sessions: formats, capabilities, negotiation, validation and clock mapping. */
module Sessions {
  import opened Basics

  const VERSION_1: u32 := 1
  const VERSION_2: u32 := 2
  const MAX_FORMATS: nat := 8
  const PREFERRED_RATE: u32 := 48000

  datatype SessionResult = Ok | Invalid | VersionError | Incompatible | Stale | TimeRange

  datatype AudioFormat = AudioFormat(pcm: u32, rate: u32, layout: u32)
  datatype VideoFormat = VideoFormat(format: u32, width: u32, height: u32, fpsNum: u32, fpsDen: u32)

  /** The offered formats in order of preference; the counts of the source are the lengths. */
  datatype Capabilities = Capabilities(version: u32, video: seq<VideoFormat>, audio: seq<AudioFormat>)

  /** A session or clock identity of 16 bytes. */
  type Id = bytes: seq<u8> | |bytes| == 16 witness seq(16, _ => 0)

  datatype Config = Config(
    version: u32, sessionId: Id, clockId: Id, generation: u64, videoTrack: u32, audioTrack: u32,
    video: VideoFormat, audio: AudioFormat, epochNs: i64,
    videoQueueFrames: u32, audioQueueMs: u32, connectTimeoutMs: u32, idleTimeoutMs: u32)

  const NO_VIDEO := VideoFormat(0, 0, 0, 0, 0)
  const NO_AUDIO := AudioFormat(0, 0, 0)

  predicate VersionKnown(v: u32) {
    v == VERSION_1 || v == VERSION_2
  }

  predicate IdSet(id: Id) {
    exists i :: 0 <= i < |id| && id[i] != 0
  }

  predicate AudioValid(a: AudioFormat) {
    (a.pcm == 1 || a.pcm == 2) && 8000 <= a.rate <= 192000 && (a.layout == 1 || a.layout == 2)
  }

  predicate VideoValid(v: VideoFormat) {
    && 1 <= v.format <= 4 && 0 < v.width <= 16384 && 0 < v.height <= 16384
    && 0 < v.fpsNum <= 1000000 && 0 < v.fpsDen <= 1000000
    && (v.format == 2 ==> v.width % 2 == 0 && v.height % 2 == 0)
  }

  /** Equal up to the exact value of the rate; the products fit in 64 bits. */
  predicate SameVideo(a: VideoFormat, b: VideoFormat) {
    a.format == b.format && a.width == b.width && a.height == b.height && a.fpsNum * b.fpsDen == b.fpsNum * a.fpsDen
  }

  /** The frame rate as the rational number it denotes. */
  ghost function Rate(v: VideoFormat): real
    requires v.fpsDen != 0
  {
    v.fpsNum as real / v.fpsDen as real
  }

  /** The cross product compares the rates themselves: 50/2 is 25/1, and no rounding makes two rates equal. */
  lemma SameVideoIsSameRate(a: VideoFormat, b: VideoFormat)
    requires VideoValid(a) && VideoValid(b)
    ensures SameVideo(a, b) <==>
      a.format == b.format && a.width == b.width && a.height == b.height && Rate(a) == Rate(b)
  {
    CrossProduct(a.fpsNum as real, a.fpsDen as real, b.fpsNum as real, b.fpsDen as real);
    assert (a.fpsNum * b.fpsDen) as real == a.fpsNum as real * b.fpsDen as real;
    assert (b.fpsNum * a.fpsDen) as real == b.fpsNum as real * a.fpsDen as real;
  }

  lemma CrossProduct(n: real, d: real, m: real, e: real)
    requires d > 0.0 && e > 0.0
    ensures n / d == m / e <==> n * e == m * d
  {
    var x, y := n / d, m / e;
    assert n == x * d && m == y * e;
    Scale(x, d, e);
    Scale(y, e, d);
    assert n * e == x * (d * e) && m * d == y * (d * e);
    if x != y {
      Differ(x, y, d * e);
    }
  }

  lemma Scale(x: real, d: real, e: real)
    ensures (x * d) * e == x * (d * e)
  {
  }

  lemma Differ(x: real, y: real, k: real)
    requires x != y && k > 0.0
    ensures x * k != y * k
  {
    assert (x - y) * k != 0.0;
  }

  function CapsResult(c: Capabilities): SessionResult {
    if !VersionKnown(c.version) then VersionError
    else if |c.video| > MAX_FORMATS || |c.audio| > MAX_FORMATS || (c.video == [] && c.audio == []) then Invalid
    else if c.version == VERSION_1 && (c.video == [] || c.audio == []) then Invalid
    else if exists i :: 0 <= i < |c.video| && !VideoValid(c.video[i]) then Invalid
    else if exists i :: 0 <= i < |c.audio| && !AudioValid(c.audio[i]) then Invalid
    else Ok
  }

  /** Offers that pass, without an order of checks: one to eight valid formats of each kind that is offered. */
  lemma CapsMeaning(c: Capabilities)
    ensures CapsResult(c) == Ok <==>
      && (c.version == 1 || c.version == 2) && |c.video| <= 8 && |c.audio| <= 8
      && (c.video != [] || c.audio != []) && (c.version == 1 ==> c.video != [] && c.audio != [])
      && (forall i :: 0 <= i < |c.video| ==> VideoValid(c.video[i]))
      && (forall i :: 0 <= i < |c.audio| ==> AudioValid(c.audio[i]))
    ensures CapsResult(c) == VersionError <==> c.version != 1 && c.version != 2
  {
  }

  // ---- negotiation ----------------------------------------------------------------------------------

  predicate Offers(c: Capabilities, v: VideoFormat) {
    exists j :: 0 <= j < |c.video| && SameVideo(v, c.video[j])
  }

  predicate OffersAudio(c: Capabilities, a: AudioFormat) {
    exists j :: 0 <= j < |c.audio| && a == c.audio[j]
  }

  ghost predicate CommonVideo(p: Capabilities, c: Capabilities) {
    exists i :: 0 <= i < |p.video| && Offers(c, p.video[i])
  }

  ghost predicate CommonAudio(p: Capabilities, c: Capabilities) {
    exists i :: 0 <= i < |p.audio| && OffersAudio(c, p.audio[i])
  }

  ghost function NegotiationResult(p: Capabilities, c: Capabilities): SessionResult {
    if CapsResult(p) != Ok then CapsResult(p)
    else if CapsResult(c) != Ok then CapsResult(c)
    else if p.version != c.version then VersionError
    else if (p.video == []) != (c.video == []) || (p.audio == []) != (c.audio == []) then Incompatible
    else if (p.video != [] && !CommonVideo(p, c)) || (p.audio != [] && !CommonAudio(p, c)) then Incompatible
    else Ok
  }

  /** The first of the producer's formats that the consumer also offers. */
  ghost predicate BestVideo(p: Capabilities, c: Capabilities, v: VideoFormat) {
    if p.video == [] then v == NO_VIDEO
    else exists i :: 0 <= i < |p.video| && FirstVideo(p, c, i) && v == p.video[i]
  }

  ghost predicate FirstVideo(p: Capabilities, c: Capabilities, i: nat) {
    i < |p.video| && Offers(c, p.video[i]) && forall k :: 0 <= k < i ==> !Offers(c, p.video[k])
  }

  ghost predicate Preferred(p: Capabilities, c: Capabilities, i: nat) {
    i < |p.audio| && p.audio[i].rate == PREFERRED_RATE && OffersAudio(c, p.audio[i])
  }

  /** The first common 48 kHz format if there is one, otherwise the first common one. */
  ghost predicate BestAudio(p: Capabilities, c: Capabilities, a: AudioFormat) {
    if p.audio == [] then a == NO_AUDIO
    else exists i :: 0 <= i < |p.audio| && FirstAudio(p, c, i) && a == p.audio[i]
  }

  ghost predicate FirstAudio(p: Capabilities, c: Capabilities, i: nat) {
    && i < |p.audio| && OffersAudio(c, p.audio[i])
    && if exists k :: 0 <= k < |p.audio| && Preferred(p, c, k)
       then p.audio[i].rate == PREFERRED_RATE && forall k :: 0 <= k < i ==> !Preferred(p, c, k)
       else forall k :: 0 <= k < i ==> !OffersAudio(c, p.audio[k])
  }

  method PickVideo(p: Capabilities, c: Capabilities) returns (chosen: VideoFormat)
    requires CapsResult(p) == Ok && CapsResult(c) == Ok
    ensures chosen.width == 0 <==> !CommonVideo(p, c)
    ensures chosen.width == 0 ==> chosen == NO_VIDEO
    ensures chosen.width != 0 ==> BestVideo(p, c, chosen)
  {
    chosen := NO_VIDEO;
    var i := 0;
    while i < |p.video| && chosen.width == 0
      invariant i <= |p.video| && (chosen.width == 0 ==> chosen == NO_VIDEO)
      invariant chosen.width == 0 ==> forall k :: 0 <= k < i ==> !Offers(c, p.video[k])
      invariant chosen.width != 0 ==> i > 0 && FirstVideo(p, c, i - 1) && chosen == p.video[i - 1]
    {
      assert VideoValid(p.video[i]);
      var j := 0;
      while j < |c.video|
        invariant j <= |c.video| && chosen == NO_VIDEO
        invariant forall k :: 0 <= k < j ==> !SameVideo(p.video[i], c.video[k])
      {
        if SameVideo(p.video[i], c.video[j]) {
          chosen := p.video[i];
          break;
        }
        j := j + 1;
      }
      i := i + 1;
    }
  }

  /** One pass over the producer's audio formats; the first pass looks at 48 kHz only. */
  method PickAudioPass(p: Capabilities, c: Capabilities, preferred: bool) returns (chosen: AudioFormat)
    requires CapsResult(p) == Ok && CapsResult(c) == Ok
    ensures chosen.rate == 0 ==> chosen == NO_AUDIO && forall k :: 0 <= k < |p.audio| ==> !Candidate(p, c, preferred, k)
    ensures chosen.rate != 0 ==>
      exists i :: 0 <= i < |p.audio| && FirstCandidate(p, c, preferred, i) && chosen == p.audio[i]
  {
    chosen := NO_AUDIO;
    var i := 0;
    while i < |p.audio| && chosen.rate == 0
      invariant i <= |p.audio| && (chosen.rate == 0 ==> chosen == NO_AUDIO)
      invariant chosen.rate == 0 ==> forall k :: 0 <= k < i ==> !Candidate(p, c, preferred, k)
      invariant chosen.rate != 0 ==> i > 0 && FirstCandidate(p, c, preferred, i - 1) && chosen == p.audio[i - 1]
    {
      assert AudioValid(p.audio[i]);
      if preferred && p.audio[i].rate != PREFERRED_RATE {
        i := i + 1;
        continue;
      }
      var j := 0;
      while j < |c.audio|
        invariant j <= |c.audio| && chosen == NO_AUDIO
        invariant forall k :: 0 <= k < j ==> p.audio[i] != c.audio[k]
      {
        if p.audio[i] == c.audio[j] {
          chosen := p.audio[i];
          break;
        }
        j := j + 1;
      }
      i := i + 1;
    }
  }

  ghost predicate Candidate(p: Capabilities, c: Capabilities, preferred: bool, i: nat)
    requires i < |p.audio|
  {
    (preferred ==> p.audio[i].rate == PREFERRED_RATE) && OffersAudio(c, p.audio[i])
  }

  ghost predicate FirstCandidate(p: Capabilities, c: Capabilities, preferred: bool, i: nat) {
    i < |p.audio| && Candidate(p, c, preferred, i) && forall k :: 0 <= k < i ==> !Candidate(p, c, preferred, k)
  }

  method PickAudio(p: Capabilities, c: Capabilities) returns (chosen: AudioFormat)
    requires CapsResult(p) == Ok && CapsResult(c) == Ok
    ensures chosen.rate == 0 <==> !CommonAudio(p, c)
    ensures chosen.rate == 0 ==> chosen == NO_AUDIO
    ensures chosen.rate != 0 ==> BestAudio(p, c, chosen)
  {
    hide CapsResult, OffersAudio;
    chosen := PickAudioPass(p, c, true);
    if chosen.rate == 0 {
      assert forall k :: 0 <= k < |p.audio| && Preferred(p, c, k) ==> Candidate(p, c, true, k);
      chosen := PickAudioPass(p, c, false);
      assert forall k :: 0 <= k < |p.audio| ==> (OffersAudio(c, p.audio[k]) <==> Candidate(p, c, false, k));
    } else {
      ghost var i: nat :| i < |p.audio| && FirstCandidate(p, c, true, i) && chosen == p.audio[i];
      assert Preferred(p, c, i);
      assert forall k :: 0 <= k < i && Preferred(p, c, k) ==> Candidate(p, c, true, k);
      assert FirstAudio(p, c, i);
    }
  }

  /** On success the specified optimum; on failure exactly the reason. */
  method Negotiate(p: Capabilities, c: Capabilities) returns (result: SessionResult, v: VideoFormat, a: AudioFormat)
    ensures result == NegotiationResult(p, c)
    ensures result == Ok ==> BestVideo(p, c, v) && BestAudio(p, c, a)
  {
    hide BestVideo, BestAudio;
    v, a := NO_VIDEO, NO_AUDIO;
    result := CapsResult(p);
    if result != Ok {
      return;
    }
    result := CapsResult(c);
    if result != Ok {
      return;
    }
    if p.version != c.version {
      return VersionError, v, a;
    }
    if (p.video == []) != (c.video == []) || (p.audio == []) != (c.audio == []) {
      return Incompatible, v, a;
    }
    var chosenV := PickVideo(p, c);
    var chosenA := PickAudio(p, c);
    if (p.video != [] && chosenV.width == 0) || (p.audio != [] && chosenA.rate == 0) {
      return Incompatible, v, a;
    }
    NothingOffered(p, c);
    result, v, a := Ok, chosenV, chosenA;
  }

  lemma NothingOffered(p: Capabilities, c: Capabilities)
    ensures p.video == [] ==> !CommonVideo(p, c) && BestVideo(p, c, NO_VIDEO)
    ensures p.audio == [] ==> !CommonAudio(p, c) && BestAudio(p, c, NO_AUDIO)
  {
  }

  /** Whether a session exists does not depend on which peer produces. */
  lemma SuccessIsSymmetric(p: Capabilities, c: Capabilities)
    ensures NegotiationResult(p, c) == Ok <==> NegotiationResult(c, p) == Ok
  {
    hide CapsResult;
    CommonIsSymmetric(p, c);
    CommonIsSymmetric(c, p);
  }

  lemma CommonIsSymmetric(p: Capabilities, c: Capabilities)
    ensures CommonVideo(p, c) ==> CommonVideo(c, p)
    ensures CommonAudio(p, c) ==> CommonAudio(c, p)
  {
    if CommonVideo(p, c) {
      var i :| 0 <= i < |p.video| && Offers(c, p.video[i]);
      var j :| 0 <= j < |c.video| && SameVideo(p.video[i], c.video[j]);
      assert SameVideo(c.video[j], p.video[i]);
      assert Offers(p, c.video[j]);
    }
    if CommonAudio(p, c) {
      var i :| 0 <= i < |p.audio| && OffersAudio(c, p.audio[i]);
      var j :| 0 <= j < |c.audio| && p.audio[i] == c.audio[j];
      assert OffersAudio(p, c.audio[j]);
    }
  }

  /** Valid capabilities always agree with themselves. */
  lemma SelfNegotiates(c: Capabilities)
    requires CapsResult(c) == Ok
    ensures NegotiationResult(c, c) == Ok
  {
    hide CapsResult;
    if c.video != [] {
      assert SameVideo(c.video[0], c.video[0]);
      assert Offers(c, c.video[0]);
    }
    if c.audio != [] {
      assert OffersAudio(c, c.audio[0]);
    }
  }

  // ---- configurations -------------------------------------------------------------------------------

  predicate VideoTrackOk(c: Config) {
    if c.videoTrack != 0 then VideoValid(c.video) && 0 < c.videoQueueFrames <= 16
    else c.video == NO_VIDEO && c.videoQueueFrames == 0
  }

  predicate AudioTrackOk(c: Config) {
    if c.audioTrack != 0 then AudioValid(c.audio) && 0 < c.audioQueueMs <= 2000
    else c.audio == NO_AUDIO && c.audioQueueMs == 0
  }

  function Validate(c: Config): SessionResult {
    if !VersionKnown(c.version) then VersionError
    else if !IdSet(c.sessionId) || !IdSet(c.clockId) || c.generation == 0 || c.epochNs < 0
      || c.connectTimeoutMs == 0 || c.connectTimeoutMs > 60000 || c.idleTimeoutMs == 0 || c.idleTimeoutMs > 60000
        then Invalid
    else if c.videoTrack == 0 && c.audioTrack == 0 then Invalid
    else if c.version == VERSION_1 && (c.videoTrack == 0 || c.audioTrack == 0) then Invalid
    else if c.videoTrack != 0 && c.videoTrack == c.audioTrack then Invalid
    else if !VideoTrackOk(c) || !AudioTrackOk(c) then Invalid
    else Ok
  }

  /** The configurations that pass, field by field and without an order of checks. */
  lemma ValidMeaning(c: Config)
    ensures Validate(c) == Ok <==>
      && (c.version == 1 || c.version == 2) && IdSet(c.sessionId) && IdSet(c.clockId)
      && c.generation >= 1 && c.epochNs >= 0
      && 1 <= c.connectTimeoutMs <= 60000 && 1 <= c.idleTimeoutMs <= 60000
      && (c.videoTrack != 0 || c.audioTrack != 0) && (c.version == 1 ==> c.videoTrack != 0 && c.audioTrack != 0)
      && (c.videoTrack == c.audioTrack ==> c.videoTrack == 0)
      && (c.videoTrack != 0 ==> VideoValid(c.video) && 1 <= c.videoQueueFrames <= 16)
      && (c.videoTrack == 0 ==> c.video == VideoFormat(0, 0, 0, 0, 0) && c.videoQueueFrames == 0)
      && (c.audioTrack != 0 ==> AudioValid(c.audio) && 1 <= c.audioQueueMs <= 2000)
      && (c.audioTrack == 0 ==> c.audio == AudioFormat(0, 0, 0) && c.audioQueueMs == 0)
    ensures Validate(c) == VersionError <==> c.version != 1 && c.version != 2
    ensures Validate(c) == Ok || Validate(c) == VersionError || Validate(c) == Invalid
  {
    hide IdSet, VideoValid, AudioValid;
  }

  /** One offer against a selection: same version, same tracks, the selected formats offered. */
  function OfferResult(c: Config, offer: Capabilities): SessionResult {
    if offer.version != c.version then VersionError
    else if (offer.video != []) != (c.videoTrack != 0) || (offer.audio != []) != (c.audioTrack != 0) then Incompatible
    else if (c.videoTrack != 0 && !Offers(offer, c.video)) || (c.audioTrack != 0 && !OffersAudio(offer, c.audio))
      then Incompatible
    else Ok
  }

  function SelectionResult(c: Config, p: Capabilities, q: Capabilities): SessionResult {
    if Validate(c) != Ok then Validate(c)
    else if CapsResult(p) != Ok then CapsResult(p)
    else if CapsResult(q) != Ok then CapsResult(q)
    else if OfferResult(c, p) != Ok then OfferResult(c, p)
    else OfferResult(c, q)
  }

  /** The offer has a video format of this kind, size and exact rate. */
  ghost predicate HasVideo(offer: Capabilities, v: VideoFormat) {
    exists i :: 0 <= i < |offer.video| && SameKindAndRate(offer.video[i], v)
  }

  ghost predicate SameKindAndRate(a: VideoFormat, b: VideoFormat) {
    && a.format == b.format && a.width == b.width && a.height == b.height
    && a.fpsDen != 0 && b.fpsDen != 0 && Rate(a) == Rate(b)
  }

  /** The offer is of the selection's version, has the same kinds of track and the very formats selected. */
  ghost predicate InOffer(c: Config, offer: Capabilities) {
    && offer.version == c.version
    && (c.videoTrack != 0 <==> |offer.video| > 0) && (c.audioTrack != 0 <==> |offer.audio| > 0)
    && (c.videoTrack != 0 ==> HasVideo(offer, c.video))
    && (c.audioTrack != 0 ==> exists i :: 0 <= i < |offer.audio| && offer.audio[i] == c.audio)
  }

  lemma OffersMeaning(offer: Capabilities, v: VideoFormat)
    requires CapsResult(offer) == Ok && VideoValid(v)
    ensures Offers(offer, v) <==> HasVideo(offer, v)
  {
    hide VideoValid, AudioValid, SameVideo, Rate;
    forall i | 0 <= i < |offer.video| ensures SameVideo(v, offer.video[i]) <==> SameKindAndRate(offer.video[i], v) {
      DenominatorSet(v);
      DenominatorSet(offer.video[i]);
      SameVideoIsSameRate(v, offer.video[i]);
    }
  }

  lemma DenominatorSet(v: VideoFormat)
    requires VideoValid(v)
    ensures v.fpsDen != 0
  {
  }

  lemma OfferMeaning(c: Config, offer: Capabilities)
    requires Validate(c) == Ok && CapsResult(offer) == Ok
    ensures OfferResult(c, offer) == Ok <==> InOffer(c, offer)
    ensures OfferResult(c, offer) == VersionError <==> offer.version != c.version
  {
    hide CapsResult, IdSet, VideoValid, AudioValid, Offers, HasVideo;
    if c.videoTrack != 0 {
      OffersMeaning(offer, c.video);
    }
  }

  /**
   * A selection passes if and only if all three inputs are valid and both offers, of its version, offer exactly the
   * kinds of track it selects and the very formats it selects: equal audio, and video equal up to the exact rate.
   */
  lemma SelectionMeaning(c: Config, p: Capabilities, q: Capabilities)
    ensures SelectionResult(c, p, q) == Ok <==>
      && Validate(c) == Ok && CapsResult(p) == Ok && CapsResult(q) == Ok && InOffer(c, p) && InOffer(c, q)
  {
    hide CapsResult, Validate, OfferResult, InOffer;
    if Validate(c) == Ok && CapsResult(p) == Ok && CapsResult(q) == Ok {
      OfferMeaning(c, p);
      OfferMeaning(c, q);
    }
  }

  /** One offer, in the loops that accumulate whether a format was seen. */
  method CheckOffer(c: Config, offer: Capabilities) returns (result: SessionResult)
    ensures result == OfferResult(c, offer)
  {
    if offer.version != c.version {
      return VersionError;
    }
    if (offer.video != []) != (c.videoTrack != 0) || (offer.audio != []) != (c.audioTrack != 0) {
      return Incompatible;
    }
    var video, audio := c.videoTrack == 0, c.audioTrack == 0;
    for i := 0 to |offer.video|
      invariant video <==> c.videoTrack == 0 || exists k :: 0 <= k < i && SameVideo(c.video, offer.video[k])
    {
      video := video || SameVideo(c.video, offer.video[i]);
    }
    for i := 0 to |offer.audio|
      invariant audio <==> c.audioTrack == 0 || exists k :: 0 <= k < i && c.audio == offer.audio[k]
    {
      audio := audio || c.audio == offer.audio[i];
    }
    result := if video && audio then Ok else Incompatible;
  }

  /** The first refusal in order; passing means being in both offers. */
  method ValidateSelection(c: Config, p: Capabilities, q: Capabilities) returns (result: SessionResult)
    ensures result == SelectionResult(c, p, q)
    ensures result == Ok <==>
      && Validate(c) == Ok && CapsResult(p) == Ok && CapsResult(q) == Ok && InOffer(c, p) && InOffer(c, q)
  {
    hide Validate, CapsResult, OfferResult, InOffer;
    SelectionMeaning(c, p, q);
    result := Validate(c);
    if result != Ok {
      return;
    }
    result := CapsResult(p);
    if result != Ok {
      return;
    }
    result := CapsResult(q);
    if result != Ok {
      return;
    }
    result := CheckOffer(c, p);
    if result != Ok {
      return;
    }
    result := CheckOffer(c, q);
  }

  lemma SelectionIsValid(c: Config, p: Capabilities, q: Capabilities)
    requires SelectionResult(c, p, q) == Ok
    ensures Validate(c) == Ok
  {
    hide Validate, CapsResult, OfferResult;
  }

  /** A negotiated selection passes validation against both offers, whatever else the valid proposal contains. */
  lemma NegotiationIsSound(p: Capabilities, c: Capabilities, config: Config)
    requires NegotiationResult(p, c) == Ok && BestVideo(p, c, config.video) && BestAudio(p, c, config.audio)
    requires Validate(config) == Ok && config.version == p.version
    requires (config.videoTrack != 0) == (p.video != []) && (config.audioTrack != 0) == (p.audio != [])
    ensures SelectionResult(config, p, c) == Ok
  {
    hide CapsResult, Validate;
    if p.video != [] {
      var i :| 0 <= i < |p.video| && FirstVideo(p, c, i) && config.video == p.video[i];
      assert SameVideo(p.video[i], p.video[i]);
      assert Offers(p, config.video);
    }
    if p.audio != [] {
      var i :| 0 <= i < |p.audio| && FirstAudio(p, c, i) && config.audio == p.audio[i];
      assert OffersAudio(p, config.audio);
    }
  }

  function ReplacementResult(c: Config, n: Config): SessionResult {
    if Validate(c) != Ok then Validate(c)
    else if Validate(n) != Ok then Validate(n)
    else if c.version != n.version then VersionError
    else if c.sessionId != n.sessionId || c.videoTrack != n.videoTrack || c.audioTrack != n.audioTrack then Invalid
    else if n.generation > c.generation then Ok
    else Stale
  }

  /** Accepted replacements form a strict order within one identity: they compose and never cycle. */
  lemma ReplacementsCompose(a: Config, b: Config, c: Config)
    requires ReplacementResult(a, b) == Ok && ReplacementResult(b, c) == Ok
    ensures ReplacementResult(a, c) == Ok && ReplacementResult(c, a) == Stale && ReplacementResult(a, a) == Stale
  {
    hide Validate;
  }

  /** Exactly which configurations may follow: valid ones of the same session and tracks with a later generation. */
  lemma ReplacementMeaning(c: Config, n: Config)
    ensures ReplacementResult(c, n) == Ok <==>
      && Validate(c) == Ok && Validate(n) == Ok && SameSession(c, n) && n.generation > c.generation
  {
    hide Validate;
  }

  predicate SameSession(c: Config, n: Config) {
    n.version == c.version && n.sessionId == c.sessionId && n.videoTrack == c.videoTrack && n.audioTrack == c.audioTrack
  }

  // ---- clock mapping --------------------------------------------------------------------------------

  datatype Mapping = Mapping(source: Id, target: Id, sourceAnchorNs: i64, targetAnchorNs: i64, uncertaintyNs: u64)

  /** Signed 64-bit addition; None on overflow. */
  function Add(a: i64, b: i64): Option<i64> {
    if (b > 0 && a > I64_MAX - b) || (b < 0 && a < I64_MIN - b) then None else Some(a + b)
  }

  predicate MappingUsable(c: Config, m: Mapping) {
    && c.clockId == m.source && IdSet(m.target) && m.sourceAnchorNs >= 0 && m.targetAnchorNs >= 0
  }

  function MapPts(c: Config, m: Mapping, maxError: u64, pts: i64): (SessionResult, i64) {
    if Validate(c) != Ok then (Validate(c), 0)
    else if pts < 0 || !MappingUsable(c, m) then (Invalid, 0)
    else if m.uncertaintyNs > maxError then (Incompatible, 0)
    else if m.source == m.target && (m.sourceAnchorNs != m.targetAnchorNs || m.uncertaintyNs != 0) then (Invalid, 0)
    else
      var absolute := Add(c.epochNs, pts);
      if absolute == None then (TimeRange, 0)
      else
        var relative := Add(absolute.value, -m.sourceAnchorNs);
        if relative == None then (TimeRange, 0)
        else
          var result := Add(relative.value, m.targetAnchorNs);
          if result == None || result.value < 0 then (TimeRange, 0) else (Ok, result.value)
  }

  /** Exactly when a time is mapped: every refusal, whatever its code, is one of these. */
  lemma MapPtsExactly(c: Config, m: Mapping, maxError: u64, pts: i64)
    ensures MapPts(c, m, maxError, pts).0 == Ok <==>
      && Validate(c) == Ok && pts >= 0 && c.clockId == m.source && IdSet(m.target)
      && m.sourceAnchorNs >= 0 && m.targetAnchorNs >= 0 && m.uncertaintyNs <= maxError
      && (m.source == m.target ==> m.sourceAnchorNs == m.targetAnchorNs && m.uncertaintyNs == 0)
      && c.epochNs + pts <= I64_MAX && 0 <= c.epochNs + pts - m.sourceAnchorNs + m.targetAnchorNs <= I64_MAX
    ensures MapPts(c, m, maxError, pts).0 == Ok ==>
      MapPts(c, m, maxError, pts).1 == c.epochNs + pts - m.sourceAnchorNs + m.targetAnchorNs
  {
    hide Validate, IdSet;
    if Validate(c) == Ok {
      EpochKnown(c);
    }
  }

  lemma EpochKnown(c: Config)
    requires Validate(c) == Ok
    ensures c.epochNs >= 0
  {
  }

  /**
   * A mapped time is the exact shift of the source time. A time is refused exactly when it does not fit, or when
   * the epoch and the offset already overflow before the anchors cancel out.
   */
  lemma MapPtsMeaning(c: Config, m: Mapping, maxError: u64, pts: i64)
    requires Validate(c) == Ok && MappingUsable(c, m) && pts >= 0 && m.uncertaintyNs <= maxError
    requires m.source == m.target ==> m.sourceAnchorNs == m.targetAnchorNs && m.uncertaintyNs == 0
    ensures var (r, out) := MapPts(c, m, maxError, pts);
      var exact := c.epochNs + pts - m.sourceAnchorNs + m.targetAnchorNs;
      && (r == Ok <==> c.epochNs + pts <= I64_MAX && 0 <= exact <= I64_MAX)
      && (r == Ok ==> out == exact)
      && (r == Ok || r == TimeRange)
  {
    hide IdSet, VideoTrackOk, AudioTrackOk;
  }

  /** Any two mapped times keep their distance. */
  lemma MapPtsKeepsDifferences(c: Config, m: Mapping, maxError: u64, a: i64, b: i64)
    requires MapPts(c, m, maxError, a).0 == Ok && MapPts(c, m, maxError, b).0 == Ok
    ensures MapPts(c, m, maxError, b).1 - MapPts(c, m, maxError, a).1 == b - a
  {
    hide Validate, IdSet;
  }
}
