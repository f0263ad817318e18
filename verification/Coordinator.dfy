/**
 * The coordinator of one session: configured, registered and reported ready by its tracks, cancelled, mapped to the
 * receiver's clock and drained. Every call runs under one lock; here each is a function from state to state.
 */
module Coordinators {
  import opened Basics
  import opened Sessions
  import S = SessionCodec

  datatype Track = Video | Audio

  datatype Answer = Ready | Cancelled | StaleGeneration | Rejected | TimedOut

  /** The authenticated audio stream and the end that published it. */
  datatype Stream = Stream(id: nat, producer: bool)

  datatype Coordinator = Coordinator(
    required: set<Track>, registered: set<Track>, ready: set<Track>,
    configured: bool, cancelled: bool, config: Config,
    mapped: bool, mapping: Mapping, maxUncertainty: u64,
    videoEnded: bool, videoFrames: nat, videoLastPts: int,
    audio: Option<Stream>, audioClaimed: bool)

  function Tracks(c: Config): set<Track> {
    (if c.videoTrack != 0 then {Video} else {}) + (if c.audioTrack != 0 then {Audio} else {})
  }

  // ---- calls ----------------------------------------------------------------------------------------

  function ConfigureAnswer(s: Coordinator, c: Config, p: Capabilities, q: Capabilities): Answer {
    if SelectionResult(c, p, q) != Ok then Rejected
    else if Tracks(c) != s.required then Rejected
    else if !s.configured then Ready
    else
      var r := ReplacementResult(s.config, c);
      if r == Ok then Ready else if r == SessionResult.Stale then StaleGeneration else Rejected
  }

  /** A new generation starts from nothing but the registrations, and lifts an earlier cancellation. */
  function Configure(s: Coordinator, c: Config, p: Capabilities, q: Capabilities): Coordinator {
    if ConfigureAnswer(s, c, p, q) != Ready then s
    else
      s.(config := c, configured := true, cancelled := false, ready := {}, mapped := false,
         videoEnded := false, videoFrames := 0, videoLastPts := -1, audio := None, audioClaimed := false)
  }

  function RegisterAnswer(s: Coordinator, t: Track): Answer {
    if t !in s.required || t in s.registered then Rejected else Ready
  }

  function Register(s: Coordinator, t: Track): Coordinator {
    if RegisterAnswer(s, t) == Ready then s.(registered := s.registered + {t}) else s
  }

  /** The checks every call about one generation begins with. */
  function Current(s: Coordinator, generation: nat): Answer {
    if s.cancelled then Cancelled else if !s.configured || s.config.generation != generation then StaleGeneration
      else Ready
  }

  function ReadyAnswer(s: Coordinator, t: Track, generation: nat): Answer {
    if Current(s, generation) != Ready then Current(s, generation)
    else if t !in s.registered then Rejected
    else Ready
  }

  function TrackReady(s: Coordinator, t: Track, generation: nat): Coordinator {
    if ReadyAnswer(s, t, generation) == Ready then s.(ready := s.ready + {t}) else s
  }

  /** One look at the state under the lock; TimedOut keeps waiting until the deadline. */
  function WaitAnswer(s: Coordinator, generation: nat): Answer {
    if s.cancelled then Cancelled
    else if s.configured && s.config.generation != generation then StaleGeneration
    else if s.configured && s.ready == s.required then Ready
    else TimedOut
  }

  /** Cancelling, or an event stream found broken. */
  function Cancel(s: Coordinator): Coordinator {
    s.(cancelled := true, ready := {})
  }

  function MappingAnswer(s: Coordinator, generation: nat, m: Mapping, maxError: u64): Answer {
    if Current(s, generation) != Ready then Current(s, generation)
    else if MapPts(s.config, m, maxError, 0).0 != Ok then Rejected
    else if s.mapped && (m != s.mapping || maxError != s.maxUncertainty) then Rejected
    else Ready
  }

  function SetMapping(s: Coordinator, generation: nat, m: Mapping, maxError: u64): Coordinator {
    if MappingAnswer(s, generation, m, maxError) == Ready
      then s.(mapped := true, mapping := m, maxUncertainty := maxError) else s
  }

  function MapAnswer(s: Coordinator, generation: nat, pts: i64): (Answer, int) {
    if Current(s, generation) != Ready then (Current(s, generation), 0)
    else if !s.mapped then (Rejected, 0)
    else
      var (r, out) := MapPts(s.config, s.mapping, s.maxUncertainty, pts);
      if r == Ok then (Ready, out) else (Rejected, 0)
  }

  /** Audio alone may run unmapped. */
  function MapRunningAnswer(s: Coordinator, generation: nat, pts: i64, mustMap: bool): (Answer, int) {
    if pts < 0 then (Rejected, 0)
    else if Current(s, generation) != Ready then (Current(s, generation), 0)
    else if !s.mapped then (if mustMap then (Rejected, 0) else (Ready, pts))
    else MapAnswer(s, generation, pts)
  }

  predicate PublishAnswer(s: Coordinator, c: Config) {
    !s.cancelled && s.configured && s.audio == None && Validate(c) == Ok && c == s.config
  }

  function PublishAudio(s: Coordinator, c: Config, stream: Stream): Coordinator {
    if PublishAnswer(s, c) then s.(audio := Some(stream), audioClaimed := false) else s
  }

  predicate ClaimAnswer(s: Coordinator, producer: bool, generation: nat) {
    Current(s, generation) == Ready && s.audio.Some? && s.audio.value.producer == producer && !s.audioClaimed
  }

  function ClaimAudio(s: Coordinator, producer: bool, generation: nat): Coordinator {
    if ClaimAnswer(s, producer, generation) then s.(audioClaimed := true) else s
  }

  function VideoEosAnswer(s: Coordinator, generation: nat, frames: nat, pts: int): Answer {
    if (if frames != 0 then pts < 0 else pts != -1) then Rejected
    else if Current(s, generation) != Ready then Current(s, generation)
    else if s.config.videoTrack == 0 then Rejected
    else if s.videoEnded && (s.videoFrames != frames || s.videoLastPts != pts) then Rejected
    else Ready
  }

  function VideoEos(s: Coordinator, generation: nat, frames: nat, pts: int): Coordinator {
    if VideoEosAnswer(s, generation, frames, pts) == Ready
      then s.(videoEnded := true, videoFrames := frames, videoLastPts := pts) else s
  }

  function WaitVideoEosAnswer(s: Coordinator, generation: nat): Answer {
    if Current(s, generation) != Ready then Current(s, generation)
    else if s.config.videoTrack == 0 then Rejected
    else if s.videoEnded then Ready
    else TimedOut
  }

  // ---- runs -----------------------------------------------------------------------------------------

  datatype Call =
    | CConfigure(config: Config, producer: Capabilities, consumer: Capabilities)
    | CRegister(track: Track)
    | CReady(track: Track, generation: nat)
    | CWait(generation: nat)
    | CCancel
    | CSetMapping(generation: nat, mapping: Mapping, maxError: u64)
    | CMap(generation: nat, pts: i64)
    | CPublish(published: Config, stream: Stream)
    | CClaim(asProducer: bool, generation: nat)
    | CVideoEos(generation: nat, frames: nat, lastPts: int)

  function Apply(s: Coordinator, call: Call): Coordinator {
    match call
    case CConfigure(c, p, q) => Configure(s, c, p, q)
    case CRegister(t) => Register(s, t)
    case CReady(t, g) => TrackReady(s, t, g)
    case CWait(_) => s
    case CCancel => Cancel(s)
    case CSetMapping(g, m, e) => SetMapping(s, g, m, e)
    case CMap(_, _) => s
    case CPublish(c, stream) => PublishAudio(s, c, stream)
    case CClaim(producer, g) => ClaimAudio(s, producer, g)
    case CVideoEos(g, frames, pts) => VideoEos(s, g, frames, pts)
  }

  /** The call is granted. */
  predicate Granted(s: Coordinator, call: Call) {
    match call
    case CConfigure(c, p, q) => ConfigureAnswer(s, c, p, q) == Ready
    case CRegister(t) => RegisterAnswer(s, t) == Ready
    case CReady(t, g) => ReadyAnswer(s, t, g) == Ready
    case CWait(g) => WaitAnswer(s, g) == Ready
    case CCancel => true
    case CSetMapping(g, m, e) => MappingAnswer(s, g, m, e) == Ready
    case CMap(g, pts) => MapAnswer(s, g, pts).0 == Ready
    case CPublish(c, _) => PublishAnswer(s, c)
    case CClaim(producer, g) => ClaimAnswer(s, producer, g)
    case CVideoEos(g, frames, pts) => VideoEosAnswer(s, g, frames, pts) == Ready
  }

  function Run(s: Coordinator, calls: seq<Call>): Coordinator
    decreases |calls|
  {
    if calls == [] then s else Apply(Run(s, calls[..|calls| - 1]), calls[|calls| - 1])
  }

  /** Call number `k` of the run is granted. */
  predicate GrantedAt(s: Coordinator, calls: seq<Call>, k: nat) {
    k < |calls| && Granted(Run(s, calls[..k]), calls[k])
  }

  predicate ConfiguresAt(s: Coordinator, calls: seq<Call>, k: nat) {
    k < |calls| && calls[k].CConfigure? && GrantedAt(s, calls, k)
  }

  /** A coordinator nobody has configured yet. */
  predicate Created(s: Coordinator) {
    s.required != {} && s.registered == {} && s.ready == {} && !s.configured && !s.cancelled && !s.mapped
      && !s.videoEnded
    && s.audio == None && !s.audioClaimed
  }

  /** What every call keeps. */
  predicate Inv(s: Coordinator) {
    && (s.configured ==> Validate(s.config) == Ok)
    && (s.ready != {} ==> s.configured && !s.cancelled)
    && s.ready <= s.registered <= s.required
    && (s.mapped ==> s.configured) && (s.videoEnded ==> s.configured)
    && (s.audioClaimed ==> s.audio.Some?)
  }

  lemma ReplacementIncreases(c: Config, n: Config)
    requires ReplacementResult(c, n) == Ok
    ensures n.generation > c.generation
  {
    hide Validate;
  }

  /** Publishing compares encoded configurations; that is the same as comparing the configurations. */
  lemma PublishComparesMessages(s: Coordinator, c: Config)
    requires Inv(s) && s.configured && Validate(c) == Ok
    ensures c.epochNs >= 0 && s.config.epochNs >= 0 && (S.Encoded(c) == S.Encoded(s.config) <==> c == s.config)
  {
    hide Validate, S.Encoded;
    S.EncodedIsInjective(c, s.config);
  }

  lemma CallKeepsInv(s: Coordinator, call: Call)
    requires Inv(s)
    ensures Inv(Apply(s, call))
  {
    hide Validate, SelectionResult, ReplacementResult, MapPts;
    if call.CConfigure? && Granted(s, call) {
      SelectionIsValid(call.config, call.producer, call.consumer);
    }
  }

  lemma {:induction false} RunKeepsInv(s: Coordinator, calls: seq<Call>)
    requires Inv(s)
    ensures Inv(Run(s, calls))
    decreases |calls|
  {
    hide Apply, Inv;
    if calls != [] {
      RunKeepsInv(s, calls[..|calls| - 1]);
      CallKeepsInv(Run(s, calls[..|calls| - 1]), calls[|calls| - 1]);
    }
  }

  /** One call, seen from what a generation fixes. */
  lemma CallKeepsGeneration(s: Coordinator, call: Call)
    requires Inv(s)
    ensures var t := Apply(s, call);
      && (s.configured ==> t.configured)
      && (call.CConfigure? && Granted(s, call) ==>
            t.config == call.config && !t.cancelled && (s.configured ==> t.config.generation > s.config.generation))
      && (!(call.CConfigure? && Granted(s, call)) ==>
            && t.configured == s.configured && t.config == s.config
            && (s.mapped ==> t.mapped && t.mapping == s.mapping && t.maxUncertainty == s.maxUncertainty)
            && (s.videoEnded ==> t.videoEnded && t.videoFrames == s.videoFrames && t.videoLastPts == s.videoLastPts)
            && (s.audioClaimed ==> t.audioClaimed)
            && (s.cancelled ==> t.cancelled))
  {
    hide Validate, SelectionResult, MapPts;
    if call.CConfigure? && Granted(s, call) && s.configured {
      ReplacementIncreases(s.config, call.config);
    }
  }

  // ---- what holds over whole runs -------------------------------------------------------------------

  /** The state before call `k`. */
  function At(s: Coordinator, calls: seq<Call>, k: nat): Coordinator
    requires k <= |calls|
  {
    Run(s, calls[..k])
  }

  lemma NextState(s: Coordinator, calls: seq<Call>, k: nat)
    requires k < |calls|
    ensures At(s, calls, k + 1) == Apply(At(s, calls, k), calls[k])
  {
    hide Apply;
    assert calls[..k + 1][..k] == calls[..k];
  }

  /** What a later state still has of an earlier one of the same generation. */
  predicate Fixed(a: Coordinator, b: Coordinator) {
    && b.config == a.config
    && (a.mapped ==> b.mapped && b.mapping == a.mapping && b.maxUncertainty == a.maxUncertainty)
    && (a.videoEnded ==> b.videoEnded && b.videoFrames == a.videoFrames && b.videoLastPts == a.videoLastPts)
    && (a.audioClaimed ==> b.audioClaimed)
  }

  /**
   * Generations never go back, and as long as the generation is the same the configuration, an installed clock
   * mapping, the terminal video accounting and a claim of the audio stream never change.
   */
  lemma {:induction false} FixedWithinGeneration(s: Coordinator, calls: seq<Call>, i: nat, j: nat)
    requires Inv(s) && i <= j <= |calls| && At(s, calls, i).configured
    ensures At(s, calls, j).configured && At(s, calls, i).config.generation <= At(s, calls, j).config.generation
    ensures At(s, calls, i).config.generation == At(s, calls, j).config.generation ==>
      Fixed(At(s, calls, i), At(s, calls, j))
    decreases j - i
  {
    hide Apply, Granted, Inv, At;
    if i < j {
      FixedWithinGeneration(s, calls, i, j - 1);
      NextState(s, calls, j - 1);
      StateInv(s, calls, j - 1);
      CallKeepsGeneration(At(s, calls, j - 1), calls[j - 1]);
    }
  }

  lemma StateInv(s: Coordinator, calls: seq<Call>, k: nat)
    requires Inv(s) && k <= |calls|
    ensures Inv(At(s, calls, k))
  {
    hide Inv, Run;
    RunKeepsInv(s, calls[..k]);
  }

  lemma ConfiguredState(s: Coordinator, calls: seq<Call>, k: nat)
    requires Inv(s) && ConfiguresAt(s, calls, k)
    ensures At(s, calls, k + 1).configured && At(s, calls, k + 1).config == calls[k].config
    ensures At(s, calls, k).configured ==> At(s, calls, k).config.generation < calls[k].config.generation
  {
    hide Inv, Run;
    NextState(s, calls, k);
    StateInv(s, calls, k);
    CallKeepsGeneration(At(s, calls, k), calls[k]);
    GrantedConfigures(At(s, calls, k), calls[k]);
  }

  lemma GrantedConfigures(s: Coordinator, call: Call)
    requires call.CConfigure? && Granted(s, call)
    ensures Apply(s, call).configured
  {
    hide SelectionResult, ReplacementResult;
  }

  /** Successful configurations carry strictly increasing generations. */
  lemma GenerationsIncrease(s: Coordinator, calls: seq<Call>, i: nat, j: nat)
    requires Inv(s) && i < j && ConfiguresAt(s, calls, i) && ConfiguresAt(s, calls, j)
    ensures calls[i].config.generation < calls[j].config.generation
  {
    hide Inv, Run, Granted, Apply, At;
    ConfiguredState(s, calls, i);
    FixedWithinGeneration(s, calls, i + 1, j);
    ConfiguredState(s, calls, j);
  }

  // ---- readiness ------------------------------------------------------------------------------------

  predicate RegistersAt(s: Coordinator, calls: seq<Call>, k: nat, t: Track) {
    k < |calls| && calls[k] == CRegister(t) && GrantedAt(s, calls, k)
  }

  predicate ReportsAt(s: Coordinator, calls: seq<Call>, k: nat, t: Track, generation: nat) {
    k < |calls| && calls[k] == CReady(t, generation) && GrantedAt(s, calls, k)
  }

  /** After configuration `i` nothing reconfigured or cancelled the session before `k`. */
  ghost predicate Undisturbed(s: Coordinator, calls: seq<Call>, i: nat, k: nat) {
    k <= |calls| && forall m :: i < m < k ==> !ConfiguresAt(s, calls, m) && calls[m] != CCancel
  }

  ghost predicate Reported(s: Coordinator, calls: seq<Call>, i: nat, k: nat, t: Track, generation: nat) {
    exists j :: i < j < k && ReportsAt(s, calls, j, t, generation)
  }

  ghost predicate AllReported(s: Coordinator, calls: seq<Call>, i: nat, k: nat)
    requires k <= |calls|
  {
    forall t :: t in At(s, calls, k).ready ==> Reported(s, calls, i, k, t, At(s, calls, k).config.generation)
  }

  ghost predicate WasRegistered(s: Coordinator, calls: seq<Call>, k: nat, t: Track) {
    exists r :: 0 <= r < k && RegistersAt(s, calls, r, t)
  }

  lemma {:induction false} RegisteredMeans(s: Coordinator, calls: seq<Call>, k: nat, t: Track)
    requires s.registered == {} && k <= |calls| && t in At(s, calls, k).registered
    ensures WasRegistered(s, calls, k, t)
  {
    hide Run, SelectionResult, ReplacementResult, MapPts;
    AtStart(s, calls);
    if k > 0 {
      NextState(s, calls, k - 1);
      if t in At(s, calls, k - 1).registered {
        RegisteredMeans(s, calls, k - 1, t);
        var r :| 0 <= r < k - 1 && RegistersAt(s, calls, r, t);
      } else {
        assert RegistersAt(s, calls, k - 1, t);
      }
    }
  }

  lemma AtStart(s: Coordinator, calls: seq<Call>)
    ensures At(s, calls, 0) == s
  {
    assert calls[..0] == [];
  }

  /** Which calls touch the readiness of the tracks. */
  lemma CallOnReady(s: Coordinator, call: Call)
    requires Inv(s)
    ensures var u := Apply(s, call);
      && (call.CConfigure? && Granted(s, call) ==>
        u.ready == {} && u.configured && u.config == call.config && !u.cancelled)
      && (!(call.CConfigure? && Granted(s, call)) ==>
            && u.configured == s.configured && u.config == s.config
              && (!u.cancelled ==> !s.cancelled && call != CCancel)
            && forall t :: t in u.ready && t !in s.ready ==> call == CReady(t, s.config.generation) && Granted(s, call))
      && u.required == s.required
  {
    hide SelectionResult, ReplacementResult, MapPts, Validate;
  }

  /** The last configuration before `k`, and what the readiness of a track at `k` testifies. */
  lemma {:induction false} SinceConfigured(s: Coordinator, calls: seq<Call>, k: nat) returns (i: nat)
    requires Created(s) && k <= |calls| && At(s, calls, k).configured
    ensures i < k && ConfiguresAt(s, calls, i) && calls[i].config == At(s, calls, k).config
    ensures !At(s, calls, k).cancelled ==> Undisturbed(s, calls, i, k)
    ensures AllReported(s, calls, i, k)
    ensures forall m :: i < m < k ==> !ConfiguresAt(s, calls, m)
    decreases k
  {
    hide Run, Apply, Granted;
    AtStart(s, calls);
    if k > 0 {
      NextState(s, calls, k - 1);
      StateInv(s, calls, k - 1);
      CallOnReady(At(s, calls, k - 1), calls[k - 1]);
      if ConfiguresAt(s, calls, k - 1) {
        i := k - 1;
      } else {
        i := SinceConfigured(s, calls, k - 1);
        StillReported(s, calls, i, k);
      }
    }
  }

  lemma StillReported(s: Coordinator, calls: seq<Call>, i: nat, k: nat)
    requires 0 < k <= |calls| && i < k - 1 && !ConfiguresAt(s, calls, k - 1) && Inv(At(s, calls, k - 1))
    requires At(s, calls, k) == Apply(At(s, calls, k - 1), calls[k - 1])
    requires AllReported(s, calls, i, k - 1)
    ensures AllReported(s, calls, i, k)
  {
    hide Run, Apply, Granted, Inv;
    var before, after := At(s, calls, k - 1), At(s, calls, k);
    CallOnReady(before, calls[k - 1]);
    forall t | t in after.ready ensures Reported(s, calls, i, k, t, after.config.generation) {
      if t in before.ready {
        var j :| i < j < k - 1 && ReportsAt(s, calls, j, t, before.config.generation);
      } else {
        assert ReportsAt(s, calls, k - 1, t, before.config.generation);
      }
    }
  }

  /**
   * Ready means ready. When a wait for generation g succeeds, g was configured, nothing reconfigured or cancelled the
   * session since, and every required track registered and then reported ready for g after that configuration.
   */
  lemma ReadyMeansReady(s: Coordinator, calls: seq<Call>, k: nat) returns (i: nat)
    requires Created(s) && k < |calls| && calls[k].CWait? && GrantedAt(s, calls, k)
    ensures i < k && ConfiguresAt(s, calls, i) && calls[i].config.generation == calls[k].generation
      && Undisturbed(s, calls, i, k)
    ensures forall t :: t in s.required ==>
      Reported(s, calls, i, k, t, calls[k].generation) && WasRegistered(s, calls, k, t)
  {
    hide Run, Apply;
    i := SinceConfigured(s, calls, k);
    var now := At(s, calls, k);
    RequiredStays(s, calls, k);
    StateInv(s, calls, k);
    forall t | t in s.required ensures WasRegistered(s, calls, k, t) {
      RegisteredMeans(s, calls, k, t);
    }
  }

  lemma {:induction false} RequiredStays(s: Coordinator, calls: seq<Call>, k: nat)
    requires Inv(s) && k <= |calls|
    ensures At(s, calls, k).required == s.required
  {
    hide Run, Apply, Granted, Inv;
    AtStart(s, calls);
    if k > 0 {
      RequiredStays(s, calls, k - 1);
      NextState(s, calls, k - 1);
      StateInv(s, calls, k - 1);
      CallOnReady(At(s, calls, k - 1), calls[k - 1]);
    }
  }

  // ---- audio and time -------------------------------------------------------------------------------

  lemma ClaimEffect(s: Coordinator, call: Call)
    requires call.CClaim? && Granted(s, call)
    ensures s.configured && s.config.generation == call.generation && !s.audioClaimed
    ensures Apply(s, call).audioClaimed && Apply(s, call).configured && Apply(s, call).config == s.config
  {
  }

  /** The audio stream is claimed at most once per generation. */
  lemma ClaimedOnce(s: Coordinator, calls: seq<Call>, i: nat, j: nat)
    requires Inv(s) && i < j && GrantedAt(s, calls, i) && GrantedAt(s, calls, j) && calls[i].CClaim? && calls[j].CClaim?
    ensures calls[i].generation != calls[j].generation
  {
    hide Run, Apply, Granted, Inv;
    ClaimEffect(At(s, calls, i), calls[i]);
    NextState(s, calls, i);
    FixedWithinGeneration(s, calls, i + 1, j);
    ClaimEffect(At(s, calls, j), calls[j]);
  }

  lemma MapEffect(s: Coordinator, call: Call)
    requires call.CMap? && Granted(s, call)
    ensures s.configured && s.mapped && s.config.generation == call.generation
    ensures var (r, out) := MapPts(s.config, s.mapping, s.maxUncertainty, call.pts);
      r == Ok && MapAnswer(s, call.generation, call.pts).1 == out
  {
    hide MapPts;
  }

  /** Two times mapped in one generation are as far apart as they were, however far apart the calls are. */
  lemma MappedTimesKeepDistance(s: Coordinator, calls: seq<Call>, i: nat, j: nat)
    requires Inv(s) && i <= j && GrantedAt(s, calls, i) && GrantedAt(s, calls, j) && calls[i].CMap? && calls[j].CMap?
    requires calls[i].generation == calls[j].generation
    ensures MapAnswer(At(s, calls, j), calls[j].generation, calls[j].pts).1 - MapAnswer(At(s, calls, i),
      calls[i].generation, calls[i].pts).1
      == calls[j].pts - calls[i].pts
  {
    hide Run, Apply, Granted, Inv, MapPts, MapAnswer;
    var a := At(s, calls, i);
    MapEffect(a, calls[i]);
    FixedWithinGeneration(s, calls, i, j);
    MapEffect(At(s, calls, j), calls[j]);
    MapPtsKeepsDifferences(a.config, a.mapping, a.maxUncertainty, calls[i].pts, calls[j].pts);
  }

  /** How far an installed mapping moves the session's times. */
  function Shift(s: Coordinator): int {
    s.config.epochNs - s.mapping.sourceAnchorNs + s.mapping.targetAnchorNs
  }

  /**
   * Without a mandatory mapping the distance survives exactly when no mapping with a nonzero shift was installed
   * between the two calls.
   */
  lemma RunningTimesKeepDistance(s: Coordinator, calls: seq<Call>, i: nat, j: nat, g: nat, a: i64, b: i64)
    requires Inv(s) && i <= j <= |calls|
    requires MapRunningAnswer(At(s, calls, i), g, a, false).0 == Ready
      && MapRunningAnswer(At(s, calls, j), g, b, false).0 == Ready
    ensures var before, after := At(s, calls, i), At(s, calls, j);
      MapRunningAnswer(after, g, b, false).1 - MapRunningAnswer(before, g, a, false).1 == b - a <==>
        before.mapped == after.mapped || Shift(after) == 0
  {
    hide Run, Inv, At;
    var x, y := At(s, calls, i), At(s, calls, j);
    MappedShift(x, g, a);
    MappedShift(y, g, b);
    FixedWithinGeneration(s, calls, i, j);
  }

  lemma MappedShift(s: Coordinator, g: nat, pts: i64)
    requires MapRunningAnswer(s, g, pts, false).0 == Ready
    ensures s.configured && s.config.generation == g
    ensures MapRunningAnswer(s, g, pts, false).1 == pts + if s.mapped then Shift(s) else 0
  {
    hide Validate, IdSet;
  }

  /** An audio-only session of generation 1, and a mapping that moves its times by 5. */
  const AUDIO_ONLY := Capabilities(VERSION_2, [], [AudioFormat(1, 48000, 2)])
  const SESSION_ID: Id := seq(16, _ => 1)
  const TARGET_ID: Id := seq(16, _ => 2)
  const AUDIO_SESSION :=
    Config(VERSION_2, SESSION_ID, SESSION_ID, 1, 0, 2, NO_VIDEO, AudioFormat(1, 48000, 2), 0, 0, 100, 1000, 1000)
  const FIVE_LATER := Mapping(SESSION_ID, TARGET_ID, 0, 5, 0)

  lemma AudioSessionSelected()
    ensures SelectionResult(AUDIO_SESSION, AUDIO_ONLY, AUDIO_ONLY) == Ok && Tracks(AUDIO_SESSION) == {Audio}
    ensures Validate(AUDIO_SESSION) == Ok && IdSet(SESSION_ID) && IdSet(TARGET_ID)
  {
    assert SESSION_ID[0] != 0 && TARGET_ID[0] != 0;
    assert AUDIO_ONLY.audio[0] == AUDIO_SESSION.audio;
  }

  /** Such a mapping exists: a new audio-only session passes time 0 as 0 until a mapping makes it 5. */
  lemma MappingMovesRunningTimes(s: Coordinator)
    requires Created(s) && s.required == {Audio}
    ensures var configured := [CConfigure(AUDIO_SESSION, AUDIO_ONLY, AUDIO_ONLY)];
      var mapped := configured + [CSetMapping(1, FIVE_LATER, 0)];
      && GrantedAt(s, mapped, 0) && GrantedAt(s, mapped, 1)
      && MapRunningAnswer(Run(s, configured), 1, 0, false) == (Ready, 0)
      && MapRunningAnswer(Run(s, mapped), 1, 0, false) == (Ready, 5)
  {
    hide SelectionResult, Validate, IdSet;
    AudioSessionSelected();
    var first, second := CConfigure(AUDIO_SESSION, AUDIO_ONLY, AUDIO_ONLY), CSetMapping(1, FIVE_LATER, 0);
    var mapped := [first] + [second];
    assert mapped[..0] == [] && mapped[..1] == [first] && [first][..0] == [];
    var c := Apply(s, first);
    assert Run(s, []) == s && Run(s, [first]) == c && Run(s, mapped) == Apply(c, second);
  }

  // ---- the object -----------------------------------------------------------------------------------

  class FlGstSession {
    const required: set<Track>
    var registered: set<Track>
    var ready: set<Track>
    var configured: bool
    var cancelled: bool
    var config: Config
    var mapped: bool
    var mapping: Mapping
    var maxUncertainty: u64
    var videoEnded: bool
    var videoFrames: nat
    var videoLastPts: int
    var audioConnection: Option<Stream>
    var audioClaimed: bool

    ghost function State(): Coordinator
      reads this
    {
      Coordinator(required, registered, ready, configured, cancelled, config, mapped, mapping, maxUncertainty,
                  videoEnded, videoFrames, videoLastPts, audioConnection, audioClaimed)
    }

    constructor (required: set<Track>)
      requires required != {}
      ensures State().required == required && Created(State()) && Inv(State())
    {
      this.required := required;
      registered, ready, configured, cancelled := {}, {}, false, false;
      mapped, videoEnded, videoFrames, videoLastPts := false, false, 0, 0;
      audioConnection, audioClaimed := None, false;
    }

    method DoConfigure(c: Config, p: Capabilities, q: Capabilities) returns (answer: Answer)
      modifies this
      ensures answer == ConfigureAnswer(old(State()), c, p, q) && State() == Configure(old(State()), c, p, q)
    {
      hide SelectionResult, ReplacementResult, Tracks;
      if SelectionResult(c, p, q) != SessionResult.Ok {
        return Rejected;
      }
      if Tracks(c) != required {
        return Rejected;
      }
      if configured {
        var r := ReplacementResult(config, c);
        if r != SessionResult.Ok {
          return if r == SessionResult.Stale then StaleGeneration else Rejected;
        }
      }
      StartGeneration(c);
      answer := Ready;
    }

    method StartGeneration(c: Config)
      modifies this
      ensures State() == old(State()).(
        config := c, configured := true, cancelled := false, ready := {}, mapped := false,
        videoEnded := false, videoFrames := 0, videoLastPts := -1, audio := None, audioClaimed := false)
    {
      audioConnection, audioClaimed := None, false;
      videoEnded, videoFrames, videoLastPts := false, 0, -1;
      config, mapped, configured, cancelled, ready := c, false, true, false, {};
    }

    method RegisterTrack(t: Track) returns (answer: Answer)
      modifies this`registered
      ensures answer == RegisterAnswer(old(State()), t) && State() == Register(old(State()), t)
    {
      if t !in required || t in registered {
        return Rejected;
      }
      registered := registered + {t};
      answer := Ready;
    }

    method ReportReady(t: Track, generation: nat) returns (answer: Answer)
      modifies this`ready
      ensures answer == ReadyAnswer(old(State()), t, generation) && State() == TrackReady(old(State()), t, generation)
    {
      if cancelled {
        return Cancelled;
      }
      if !configured || config.generation != generation {
        return StaleGeneration;
      }
      if t !in registered {
        return Rejected;
      }
      ready := ready + {t};
      answer := Ready;
    }

    /** One pass of the wait loop. */
    method PollReady(generation: nat) returns (answer: Answer, out: Option<Config>)
      ensures answer == WaitAnswer(State(), generation) && out == if answer == Ready then Some(config) else None
    {
      out := None;
      if cancelled {
        return Cancelled, out;
      }
      if configured && config.generation != generation {
        return StaleGeneration, out;
      }
      if configured && ready == required {
        return Ready, Some(config);
      }
      answer := TimedOut;
    }

    method DoCancel()
      modifies this`cancelled, this`ready
      ensures State() == Cancel(old(State()))
    {
      cancelled, ready := true, {};
    }

    method InstallMapping(generation: nat, m: Mapping, maxError: u64) returns (answer: Answer)
      modifies this`mapped, this`mapping, this`maxUncertainty
      ensures answer == MappingAnswer(old(State()), generation, m, maxError)
        && State() == SetMapping(old(State()), generation, m, maxError)
    {
      hide MapPts;
      if cancelled {
        return Cancelled;
      }
      if !configured || config.generation != generation {
        return StaleGeneration;
      }
      if MapPts(config, m, maxError, 0).0 != SessionResult.Ok {
        return Rejected;
      }
      if mapped && (m != mapping || maxError != maxUncertainty) {
        return Rejected;
      }
      mapping, maxUncertainty, mapped := m, maxError, true;
      answer := Ready;
    }

    method MapTime(generation: nat, pts: i64) returns (answer: Answer, out: int)
      ensures (answer, out) == MapAnswer(State(), generation, pts)
    {
      hide MapPts;
      out := 0;
      if cancelled {
        return Cancelled, out;
      }
      if !configured || config.generation != generation {
        return StaleGeneration, out;
      }
      if !mapped {
        return Rejected, out;
      }
      var (r, time) := MapPts(config, mapping, maxUncertainty, pts);
      if r != SessionResult.Ok {
        return Rejected, out;
      }
      answer, out := Ready, time;
    }

    /** As above, but an unmapped session passes times through unless a mapping is mandatory. */
    method MapRunningTime(generation: nat, pts: i64, mustMap: bool) returns (answer: Answer, out: int)
      ensures (answer, out) == MapRunningAnswer(State(), generation, pts, mustMap)
    {
      hide MapPts;
      out := 0;
      if pts < 0 {
        return Rejected, out;
      }
      if cancelled {
        return Cancelled, out;
      }
      if !configured || config.generation != generation {
        return StaleGeneration, out;
      }
      if !mapped {
        answer, out := if mustMap then Rejected else Ready, if mustMap then 0 else pts;
        return;
      }
      answer, out := MapTime(generation, pts);
    }

    method OfferAudio(c: Config, stream: Stream) returns (ok: bool)
      modifies this`audioConnection, this`audioClaimed
      ensures ok == PublishAnswer(old(State()), c) && State() == PublishAudio(old(State()), c, stream)
    {
      hide Validate;
      if cancelled || !configured || audioConnection.Some? || Validate(c) != SessionResult.Ok || c != config {
        return false;
      }
      audioConnection, audioClaimed := Some(stream), false;
      ok := true;
    }

    method TakeAudio(producer: bool, generation: nat) returns (out: Option<Stream>)
      modifies this`audioClaimed
      ensures out.Some? == ClaimAnswer(old(State()), producer, generation) && (out.Some? ==> out == audioConnection)
      ensures State() == ClaimAudio(old(State()), producer, generation)
    {
      if cancelled || !configured || config.generation != generation || audioConnection == None
        || audioConnection.value.producer != producer || audioClaimed
      {
        return None;
      }
      audioClaimed := true;
      out := audioConnection;
    }

    method EndVideo(generation: nat, frames: nat, pts: int) returns (answer: Answer)
      modifies this`videoEnded, this`videoFrames, this`videoLastPts
      ensures answer == VideoEosAnswer(old(State()), generation, frames, pts)
        && State() == VideoEos(old(State()), generation, frames, pts)
    {
      if (frames != 0 && pts < 0) || (frames == 0 && pts != -1) {
        return Rejected;
      }
      if cancelled {
        return Cancelled;
      }
      if !configured || config.generation != generation {
        return StaleGeneration;
      }
      if config.videoTrack == 0 {
        return Rejected;
      }
      if videoEnded && (videoFrames != frames || videoLastPts != pts) {
        return Rejected;
      }
      videoEnded, videoFrames, videoLastPts := true, frames, pts;
      answer := Ready;
    }

    method PollVideoEnd(generation: nat) returns (answer: Answer, frames: nat, pts: int)
      ensures answer == WaitVideoEosAnswer(State(), generation)
      ensures answer == Ready ==> frames == videoFrames && pts == videoLastPts
    {
      frames, pts := 0, -1;
      if cancelled {
        return Cancelled, frames, pts;
      }
      if !configured || config.generation != generation {
        return StaleGeneration, frames, pts;
      }
      if config.videoTrack == 0 {
        return Rejected, frames, pts;
      }
      if !videoEnded {
        return TimedOut, frames, pts;
      }
      answer, frames, pts := Ready, videoFrames, videoLastPts;
    }
  }
}
