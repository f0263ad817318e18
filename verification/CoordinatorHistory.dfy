/**
 * What every answer of the coordinator depends on, told from the calls alone: which were made and granted since the
 * last granted configuration. Each answer is given if and only if the history asks for it.
 */
module CoordinatorHistory {
  import opened Basics
  import opened Sessions
  import opened Coordinators

  // ---- the history of the current generation --------------------------------------------------------

  /** Call `i` is the last granted configuration before `k`. */
  ghost predicate LastConfigured(s: Coordinator, calls: seq<Call>, i: nat, k: nat) {
    i < k <= |calls| && ConfiguresAt(s, calls, i) && forall m :: i < m < k ==> !ConfiguresAt(s, calls, m)
  }

  ghost predicate NeverConfigured(s: Coordinator, calls: seq<Call>, k: nat) {
    k <= |calls| && forall m :: 0 <= m < k ==> !ConfiguresAt(s, calls, m)
  }

  ghost predicate CancelledSince(calls: seq<Call>, from: nat, k: nat) {
    exists m :: from <= m < k <= |calls| && calls[m] == CCancel
  }

  /** The session runs generation `g` since call `i`: configured there, neither reconfigured nor cancelled. */
  ghost predicate Runs(s: Coordinator, calls: seq<Call>, i: nat, k: nat, g: nat) {
    LastConfigured(s, calls, i, k) && calls[i].config.generation == g && !CancelledSince(calls, i + 1, k)
  }

  /** What happens at most once in a generation, but for repetitions that change nothing. */
  datatype Event = Maps | Publishes | Claims | Ends

  predicate Happens(e: Event, s: Coordinator, calls: seq<Call>, j: nat) {
    && j < |calls| && GrantedAt(s, calls, j)
    && match e
       case Maps => calls[j].CSetMapping?
       case Publishes => calls[j].CPublish?
       case Claims => calls[j].CClaim?
       case Ends => calls[j].CVideoEos?
  }

  ghost predicate Since(e: Event, s: Coordinator, calls: seq<Call>, i: nat, k: nat) {
    exists j :: i < j < k && Happens(e, s, calls, j)
  }

  lemma SinceLater(e: Event, s: Coordinator, calls: seq<Call>, i: nat, k: nat)
    requires i + 1 < k
    ensures Since(e, s, calls, i, k) <==> Since(e, s, calls, i, k - 1) || Happens(e, s, calls, k - 1)
  {
    hide Happens;
    if Since(e, s, calls, i, k) {
      var j :| i < j < k && Happens(e, s, calls, j);
      assert j == k - 1 || Since(e, s, calls, i, k - 1);
    }
  }

  // ---- one call -------------------------------------------------------------------------------------

  /** A granted configuration starts from nothing. */
  lemma ConfigureEffect(s: Coordinator, call: Call)
    requires call.CConfigure? && Granted(s, call)
    ensures var u := Apply(s, call);
      && u.configured && u.config == call.config && !u.cancelled && u.ready == {} && !u.mapped && !u.videoEnded
      && u.audio == None && !u.audioClaimed && u.registered == s.registered
  {
    hide SelectionResult, ReplacementResult, Tracks;
  }

  /** Any other call changes one thing, and only when granted. */
  lemma OtherEffect(s: Coordinator, call: Call)
    requires !(call.CConfigure? && Granted(s, call))
    ensures var u := Apply(s, call);
      && u.configured == s.configured && u.config == s.config && u.required == s.required
      && u.cancelled == (s.cancelled || call == CCancel)
      && u.registered == (if call.CRegister? && Granted(s, call) then s.registered + {call.track} else s.registered)
      && u.ready == (if call == CCancel then {}
                     else if call.CReady? && Granted(s, call) then s.ready + {call.track} else s.ready)
  {
    hide SelectionResult, ReplacementResult, MapPts, Validate;
  }

  lemma OtherEffectOnStreams(s: Coordinator, call: Call)
    requires !(call.CConfigure? && Granted(s, call))
    ensures var u := Apply(s, call);
      && (if call.CSetMapping? && Granted(s, call)
          then u.mapped && u.mapping == call.mapping && u.maxUncertainty == call.maxError
               && (s.mapped ==> s.mapping == call.mapping && s.maxUncertainty == call.maxError)
          else u.mapped == s.mapped && u.mapping == s.mapping && u.maxUncertainty == s.maxUncertainty)
      && u.audio == (if call.CPublish? && Granted(s, call) then Some(call.stream) else s.audio)
      && (call.CPublish? && Granted(s, call) ==> s.audio == None)
      && u.audioClaimed == (if call.CPublish? && Granted(s, call) then false
                            else s.audioClaimed || (call.CClaim? && Granted(s, call)))
      && (if call.CVideoEos? && Granted(s, call)
          then u.videoEnded && u.videoFrames == call.frames && u.videoLastPts == call.lastPts
               && (s.videoEnded ==> s.videoFrames == call.frames && s.videoLastPts == call.lastPts)
          else u.videoEnded == s.videoEnded && u.videoFrames == s.videoFrames && u.videoLastPts == s.videoLastPts)
  {
    hide SelectionResult, ReplacementResult, MapPts, Validate;
  }

  // ---- the state, read off the history ----------------------------------------------------------------

  /** Configured means that some configuration was granted, and the last one counts. */
  lemma {:induction false} ConfiguredMeans(s: Coordinator, calls: seq<Call>, k: nat) returns (i: nat)
    requires !s.configured && k <= |calls|
    ensures At(s, calls, k).configured <==> !NeverConfigured(s, calls, k)
    ensures At(s, calls, k).configured ==>
      LastConfigured(s, calls, i, k) && At(s, calls, k).config == calls[i].config
    decreases k
  {
    hide At, Apply, GrantedAt;
    AtStart(s, calls);
    i := 0;
    if k > 0 {
      NextCall(s, calls, k - 1);
      i := ConfiguredMeans(s, calls, k - 1);
      if ConfiguresAt(s, calls, k - 1) {
        i := k - 1;
      } else if At(s, calls, k).configured {
        var m :| 0 <= m < k - 1 && ConfiguresAt(s, calls, m);
      }
    }
  }

  /** What call `k` does, in terms of the states around it. */
  lemma NextCall(s: Coordinator, calls: seq<Call>, k: nat)
    requires k < |calls|
    ensures var a, b := At(s, calls, k), At(s, calls, k + 1);
      && b == Apply(a, calls[k])
      && (GrantedAt(s, calls, k) <==> Granted(a, calls[k]))
      && (ConfiguresAt(s, calls, k) ==> b.configured && b.config == calls[k].config)
      && (!ConfiguresAt(s, calls, k) ==> b.configured == a.configured && b.config == a.config)
  {
    hide Apply, Granted;
    NextState(s, calls, k);
    var a := At(s, calls, k);
    if ConfiguresAt(s, calls, k) {
      ConfigureEffect(a, calls[k]);
    } else {
      OtherEffect(a, calls[k]);
    }
  }

  lemma OneLast(s: Coordinator, calls: seq<Call>, i: nat, j: nat, k: nat)
    requires LastConfigured(s, calls, i, k) && LastConfigured(s, calls, j, k)
    ensures i == j
  {
    hide GrantedAt;
  }

  lemma EarlierToo(s: Coordinator, calls: seq<Call>, i: nat, k: nat)
    requires LastConfigured(s, calls, i, k) && i + 1 < k
    ensures LastConfigured(s, calls, i, k - 1) && !ConfiguresAt(s, calls, k - 1)
  {
    hide GrantedAt;
  }

  lemma {:induction false} CancelledMeans(s: Coordinator, calls: seq<Call>, i: nat, k: nat)
    requires LastConfigured(s, calls, i, k)
    ensures At(s, calls, k).cancelled <==> CancelledSince(calls, i + 1, k)
    decreases k
  {
    hide At, Apply, GrantedAt, Granted;
    NextCall(s, calls, k - 1);
    var a := At(s, calls, k - 1);
    if i + 1 == k {
      ConfigureEffect(a, calls[i]);
    } else {
      EarlierToo(s, calls, i, k);
      CancelledMeans(s, calls, i, k - 1);
      OtherEffect(a, calls[k - 1]);
      if CancelledSince(calls, i + 1, k) && calls[k - 1] != CCancel {
        var m :| i + 1 <= m < k <= |calls| && calls[m] == CCancel;
        assert m < k - 1;
      }
    }
  }

  lemma {:induction false} CancelledBefore(s: Coordinator, calls: seq<Call>, k: nat)
    requires NeverConfigured(s, calls, k) && !s.cancelled
    ensures At(s, calls, k).cancelled <==> CancelledSince(calls, 0, k)
    decreases k
  {
    hide At, Apply, GrantedAt, Granted;
    AtStart(s, calls);
    if k > 0 {
      NextCall(s, calls, k - 1);
      CancelledBefore(s, calls, k - 1);
      OtherEffect(At(s, calls, k - 1), calls[k - 1]);
      if CancelledSince(calls, 0, k) && calls[k - 1] != CCancel {
        var m :| 0 <= m < k <= |calls| && calls[m] == CCancel;
        assert m < k - 1;
      }
    }
  }

  /** A call about generation `g` is current exactly while the session runs it. */
  lemma CurrentMeans(s: Coordinator, calls: seq<Call>, k: nat, g: nat)
    requires !s.configured && k <= |calls|
    ensures Coordinators.Current(At(s, calls, k), g) == Ready <==> exists i: nat :: Runs(s, calls, i, k, g)
  {
    hide At, GrantedAt;
    var i := ConfiguredMeans(s, calls, k);
    if At(s, calls, k).configured {
      CancelledMeans(s, calls, i, k);
      forall j: nat | Runs(s, calls, j, k, g) ensures j == i {
        OneLast(s, calls, i, j, k);
      }
      assert Runs(s, calls, i, k, g) <==> Coordinators.Current(At(s, calls, k), g) == Ready;
    } else {
      forall j: nat ensures !Runs(s, calls, j, k, g) {
      }
    }
  }

  lemma {:induction false} RegisteredExactly(s: Coordinator, calls: seq<Call>, k: nat, t: Track)
    requires s.registered == {} && k <= |calls|
    ensures t in At(s, calls, k).registered <==> WasRegistered(s, calls, k, t)
    decreases k
  {
    hide At, Apply, GrantedAt, Granted;
    AtStart(s, calls);
    if k > 0 {
      NextCall(s, calls, k - 1);
      RegisteredExactly(s, calls, k - 1, t);
      var a := At(s, calls, k - 1);
      if ConfiguresAt(s, calls, k - 1) {
        ConfigureEffect(a, calls[k - 1]);
      } else {
        OtherEffect(a, calls[k - 1]);
      }
      assert RegistersAt(s, calls, k - 1, t) <==> calls[k - 1] == CRegister(t) && Granted(a, calls[k - 1]);
      if WasRegistered(s, calls, k, t) && !RegistersAt(s, calls, k - 1, t) {
        var r :| 0 <= r < k && RegistersAt(s, calls, r, t);
        assert r < k - 1;
      }
    }
  }

  /** A track is ready exactly when it reported since the configuration, as long as nobody cancelled. */
  lemma {:induction false} ReadyExactly(s: Coordinator, calls: seq<Call>, i: nat, k: nat, t: Track)
    requires LastConfigured(s, calls, i, k) && !CancelledSince(calls, i + 1, k) && !s.configured
    ensures t in At(s, calls, k).ready <==> Reported(s, calls, i, k, t, calls[i].config.generation)
    decreases k
  {
    hide At, Apply, GrantedAt, Granted;
    NextCall(s, calls, k - 1);
    var a := At(s, calls, k - 1);
    if i + 1 == k {
      ConfigureEffect(a, calls[i]);
    } else {
      EarlierToo(s, calls, i, k);
      assert !CancelledSince(calls, i + 1, k - 1) && calls[k - 1] != CCancel;
      ReadyExactly(s, calls, i, k - 1, t);
      OtherEffect(a, calls[k - 1]);
      ReportsItsOwn(s, calls, i, k, t);
      ReportedLater(s, calls, i, k, t, calls[i].config.generation);
    }
  }

  lemma ReportedLater(s: Coordinator, calls: seq<Call>, i: nat, k: nat, t: Track, g: nat)
    requires i + 1 < k
    ensures Reported(s, calls, i, k, t, g) <==> Reported(s, calls, i, k - 1, t, g) || ReportsAt(s, calls, k - 1, t, g)
  {
    hide GrantedAt;
    if Reported(s, calls, i, k, t, g) {
      var j :| i < j < k && ReportsAt(s, calls, j, t, g);
      assert j == k - 1 || Reported(s, calls, i, k - 1, t, g);
    }
  }

  /** A granted report names the running generation. */
  lemma ReportsItsOwn(s: Coordinator, calls: seq<Call>, i: nat, k: nat, t: Track)
    requires LastConfigured(s, calls, i, k) && i + 1 < k && !s.configured
    ensures ReportsAt(s, calls, k - 1, t, calls[i].config.generation) <==>
      calls[k - 1].CReady? && calls[k - 1].track == t && Granted(At(s, calls, k - 1), calls[k - 1])
  {
    hide At, Apply, Granted, GrantedAt;
    EarlierToo(s, calls, i, k);
    var j := ConfiguredMeans(s, calls, k - 1);
    NextCall(s, calls, k - 1);
    assert !NeverConfigured(s, calls, k - 1);
    OneLast(s, calls, i, j, k - 1);
    if calls[k - 1].CReady? && Granted(At(s, calls, k - 1), calls[k - 1]) {
      ReportIsCurrent(At(s, calls, k - 1), calls[k - 1]);
    }
  }

  lemma ReportIsCurrent(s: Coordinator, call: Call)
    requires call.CReady? && Granted(s, call)
    ensures s.configured && s.config.generation == call.generation
  {
  }

  lemma {:induction false} MappedExactly(s: Coordinator, calls: seq<Call>, i: nat, k: nat)
    requires LastConfigured(s, calls, i, k)
    ensures At(s, calls, k).mapped <==> Since(Maps, s, calls, i, k)
    ensures forall j :: i < j < k && Happens(Maps, s, calls, j) ==>
      At(s, calls, k).mapping == calls[j].mapping && At(s, calls, k).maxUncertainty == calls[j].maxError
    decreases k
  {
    hide At, Apply, GrantedAt, Granted;
    NextCall(s, calls, k - 1);
    var a := At(s, calls, k - 1);
    if i + 1 == k {
      ConfigureEffect(a, calls[i]);
    } else {
      EarlierToo(s, calls, i, k);
      MappedExactly(s, calls, i, k - 1);
      OtherEffectOnStreams(a, calls[k - 1]);
      SinceLater(Maps, s, calls, i, k);
    }
  }

  lemma {:induction false} AudioExactly(s: Coordinator, calls: seq<Call>, i: nat, k: nat)
    requires LastConfigured(s, calls, i, k)
    ensures At(s, calls, k).audio.Some? <==> Since(Publishes, s, calls, i, k)
    ensures forall j :: i < j < k && Happens(Publishes, s, calls, j) ==> At(s, calls, k).audio == Some(calls[j].stream)
    decreases k
  {
    hide At, Apply, GrantedAt, Granted;
    NextCall(s, calls, k - 1);
    var a := At(s, calls, k - 1);
    if i + 1 == k {
      ConfigureEffect(a, calls[i]);
    } else {
      EarlierToo(s, calls, i, k);
      AudioExactly(s, calls, i, k - 1);
      OtherEffectOnStreams(a, calls[k - 1]);
      SinceLater(Publishes, s, calls, i, k);
    }
  }

  /** A claim needs a published stream, and a stream is published once: so the claim stays. */
  lemma {:induction false} ClaimedExactly(s: Coordinator, calls: seq<Call>, i: nat, k: nat)
    requires LastConfigured(s, calls, i, k)
    ensures At(s, calls, k).audioClaimed <==> Since(Claims, s, calls, i, k)
    ensures At(s, calls, k).audioClaimed ==> At(s, calls, k).audio.Some?
    decreases k
  {
    hide At, Apply, GrantedAt;
    NextCall(s, calls, k - 1);
    var a := At(s, calls, k - 1);
    if i + 1 == k {
      ConfigureEffect(a, calls[i]);
    } else {
      EarlierToo(s, calls, i, k);
      ClaimedExactly(s, calls, i, k - 1);
      OtherEffectOnStreams(a, calls[k - 1]);
      SinceLater(Claims, s, calls, i, k);
    }
  }

  lemma {:induction false} EndedExactly(s: Coordinator, calls: seq<Call>, i: nat, k: nat)
    requires LastConfigured(s, calls, i, k)
    ensures At(s, calls, k).videoEnded <==> Since(Ends, s, calls, i, k)
    ensures forall j :: i < j < k && Happens(Ends, s, calls, j) ==>
      At(s, calls, k).videoFrames == calls[j].frames && At(s, calls, k).videoLastPts == calls[j].lastPts
    decreases k
  {
    hide At, Apply, GrantedAt, Granted;
    NextCall(s, calls, k - 1);
    var a := At(s, calls, k - 1);
    if i + 1 == k {
      ConfigureEffect(a, calls[i]);
    } else {
      EarlierToo(s, calls, i, k);
      EndedExactly(s, calls, i, k - 1);
      OtherEffectOnStreams(a, calls[k - 1]);
      SinceLater(Ends, s, calls, i, k);
    }
  }

  // ---- every answer, exactly ------------------------------------------------------------------------

  ghost predicate AllReady(s: Coordinator, calls: seq<Call>, i: nat, k: nat, g: nat) {
    forall t :: t in s.required ==> Reported(s, calls, i, k, t, g)
  }

  /** The state at `k` when the session runs `g` since call `i`. */
  lemma RunningState(s: Coordinator, calls: seq<Call>, i: nat, k: nat, g: nat)
    requires Created(s) && Runs(s, calls, i, k, g)
    ensures var a := At(s, calls, k);
      && Inv(a) && a.configured && !a.cancelled && a.config == calls[i].config && a.config.generation == g
      && a.required == s.required && Coordinators.Current(a, g) == Ready
    ensures forall j: nat :: Runs(s, calls, j, k, g) ==> j == i
  {
    hide At, GrantedAt, Inv;
    CreatedInv(s);
    StateInv(s, calls, k);
    RequiredStays(s, calls, k);
    CancelledMeans(s, calls, i, k);
    var last := ConfiguredMeans(s, calls, k);
    if At(s, calls, k).configured {
      OneLast(s, calls, i, last, k);
    }
    forall j: nat | Runs(s, calls, j, k, g) ensures j == i {
      OneLast(s, calls, i, j, k);
    }
  }

  lemma CreatedInv(s: Coordinator)
    requires Created(s)
    ensures Inv(s)
  {
  }

  /**
   * A wait is granted if and only if its generation was configured,
     nothing reconfigured or cancelled the session since, * and every required track reported ready for it since;
     it then answers that configuration.
   */
  lemma WaitExactly(s: Coordinator, calls: seq<Call>, k: nat)
    requires Created(s) && k < |calls| && calls[k].CWait?
    ensures var g := calls[k].generation;
      GrantedAt(s, calls, k) <==> exists i: nat :: Runs(s, calls, i, k, g) && AllReady(s, calls, i, k, g)
    ensures forall i: nat :: Runs(s, calls, i, k, calls[k].generation) ==> At(s, calls, k).config == calls[i].config
  {
    hide At, Apply, Runs, Inv;
    var a, g := At(s, calls, k), calls[k].generation;
    CurrentMeans(s, calls, k, g);
    if i: nat :| Runs(s, calls, i, k, g) {
      RunningState(s, calls, i, k, g);
      ReadySet(s, calls, i, k, g);
    }
    GrantedNow(s, calls, k);
  }

  lemma GrantedNow(s: Coordinator, calls: seq<Call>, k: nat)
    requires k < |calls|
    ensures GrantedAt(s, calls, k) <==> Granted(At(s, calls, k), calls[k])
  {
    hide Granted, Run;
  }

  lemma ReadySet(s: Coordinator, calls: seq<Call>, i: nat, k: nat, g: nat)
    requires Created(s) && Runs(s, calls, i, k, g)
    ensures At(s, calls, k).ready == s.required <==> AllReady(s, calls, i, k, g)
  {
    hide At, GrantedAt, Reported;
    RunningState(s, calls, i, k, g);
    forall t ensures t in At(s, calls, k).ready <==> Reported(s, calls, i, k, t, g) {
      ReadyExactly(s, calls, i, k, t);
    }
  }

  /** The other answers of a wait: cancelled since the last configuration, another generation configured, or not yet. */
  lemma WaitRefusals(s: Coordinator, calls: seq<Call>, k: nat, g: nat)
    requires Created(s) && k <= |calls|
    ensures WaitAnswer(At(s, calls, k), g) == Cancelled <==>
      if NeverConfigured(s, calls, k) then CancelledSince(calls, 0, k)
      else exists i: nat :: LastConfigured(s, calls, i, k) && CancelledSince(calls, i + 1, k)
    ensures WaitAnswer(At(s, calls, k), g) == StaleGeneration <==>
      exists i: nat ::
        LastConfigured(s, calls, i, k) && !CancelledSince(calls, i + 1, k) && calls[i].config.generation != g
  {
    hide At, GrantedAt;
    var last := ConfiguredMeans(s, calls, k);
    if At(s, calls, k).configured {
      CancelledMeans(s, calls, last, k);
      forall i: nat | LastConfigured(s, calls, i, k) ensures i == last {
        OneLast(s, calls, i, last, k);
      }
    } else {
      CancelledBefore(s, calls, k);
    }
  }

  /**
   * A configuration is granted if and only if it is a valid selection from both offers for exactly the required tracks
   * and, unless it is the first, continues the session of the last granted one under a later generation.
   */
  lemma ConfigureExactly(s: Coordinator, calls: seq<Call>, k: nat)
    requires Created(s) && k < |calls| && calls[k].CConfigure?
    ensures var c, p, q := calls[k].config, calls[k].producer, calls[k].consumer;
      ConfiguresAt(s, calls, k) <==>
        && Validate(c) == Ok && CapsResult(p) == Ok && CapsResult(q) == Ok && InOffer(c, p) && InOffer(c, q)
        && Tracks(c) == s.required
        && forall i: nat :: LastConfigured(s, calls, i, k) ==>
          SameSession(calls[i].config, c) && c.generation > calls[i].config.generation
  {
    hide At, Apply, Tracks, Validate, CapsResult, InOffer, SelectionResult, ReplacementResult, Inv;
    var a, c, p, q := At(s, calls, k), calls[k].config, calls[k].producer, calls[k].consumer;
    SelectionMeaning(c, p, q);
    GrantedNow(s, calls, k);
    CreatedInv(s);
    RequiredStays(s, calls, k);
    var last := ConfiguredMeans(s, calls, k);
    if a.configured {
      StateInv(s, calls, k);
      ConfiguredIsValid(a);
      ReplacementMeaning(a.config, c);
      forall i: nat | LastConfigured(s, calls, i, k) ensures i == last {
        OneLast(s, calls, i, last, k);
      }
    }
  }

  lemma ConfiguredIsValid(s: Coordinator)
    requires Inv(s) && s.configured
    ensures Validate(s.config) == Ok
  {
    hide Validate;
  }

  /** Whatever configuration a coordinator holds, it was selected from both offers it was configured with. */
  lemma HeldWasOffered(s: Coordinator, calls: seq<Call>, k: nat) returns (i: nat)
    requires Created(s) && k <= |calls| && At(s, calls, k).configured
    ensures LastConfigured(s, calls, i, k)
    ensures var c := At(s, calls, k).config;
      c == calls[i].config && InOffer(c, calls[i].producer) && InOffer(c, calls[i].consumer)
  {
    hide At, GrantedAt, InOffer;
    i := ConfiguredMeans(s, calls, k);
    ConfigureExactly(s, calls, i);
  }

  /** All configurations of one coordinator are of one session, in the order of their generations. */
  lemma {:induction false} OneSession(s: Coordinator, calls: seq<Call>, i: nat, k: nat)
    requires Created(s) && i < k && ConfiguresAt(s, calls, i) && ConfiguresAt(s, calls, k)
    ensures SameSession(calls[i].config, calls[k].config) && calls[k].config.generation > calls[i].config.generation
    decreases k
  {
    hide At, GrantedAt;
    var last := ConfiguredMeans(s, calls, k);
    assert !NeverConfigured(s, calls, k);
    ConfigureExactly(s, calls, k);
    if i < last {
      OneSession(s, calls, i, last);
    }
  }

  lemma RegisterExactly(s: Coordinator, calls: seq<Call>, k: nat)
    requires Created(s) && k < |calls| && calls[k].CRegister?
    ensures GrantedAt(s, calls, k) <==> calls[k].track in s.required && !WasRegistered(s, calls, k, calls[k].track)
  {
    hide At, Apply, Inv;
    CreatedInv(s);
    GrantedNow(s, calls, k);
    RequiredStays(s, calls, k);
    RegisteredExactly(s, calls, k, calls[k].track);
  }

  lemma ReportExactly(s: Coordinator, calls: seq<Call>, k: nat)
    requires Created(s) && k < |calls| && calls[k].CReady?
    ensures GrantedAt(s, calls, k) <==>
      && (exists i: nat :: Runs(s, calls, i, k, calls[k].generation))
      && WasRegistered(s, calls, k, calls[k].track)
  {
    hide At, Apply, Runs;
    GrantedNow(s, calls, k);
    CurrentMeans(s, calls, k, calls[k].generation);
    RegisteredExactly(s, calls, k, calls[k].track);
  }

  ghost predicate Installable(s: Coordinator, calls: seq<Call>, i: nat, k: nat, m: Mapping, e: u64)
    requires i < k <= |calls| && calls[i].CConfigure?
  {
    && MapPts(calls[i].config, m, e, 0).0 == Ok
    && forall j :: i < j < k && Happens(Maps, s, calls, j) ==> calls[j].mapping == m && calls[j].maxError == e
  }

  /** A mapping is installed if and only if it maps time zero and contradicts none installed in this generation. */
  lemma MappingExactly(s: Coordinator, calls: seq<Call>, k: nat)
    requires Created(s) && k < |calls| && calls[k].CSetMapping?
    ensures var m, e := calls[k].mapping, calls[k].maxError;
      Happens(Maps, s, calls, k) <==>
        exists i: nat :: Runs(s, calls, i, k, calls[k].generation) && Installable(s, calls, i, k, m, e)
  {
    hide At, Apply, Runs, MapPts, Inv;
    var g := calls[k].generation;
    GrantedNow(s, calls, k);
    CurrentMeans(s, calls, k, g);
    if i: nat :| Runs(s, calls, i, k, g) {
      RunningState(s, calls, i, k, g);
      LastOfRun(s, calls, i, k, g);
      MappedExactly(s, calls, i, k);
    }
  }

  lemma LastOfRun(s: Coordinator, calls: seq<Call>, i: nat, k: nat, g: nat)
    requires Runs(s, calls, i, k, g)
    ensures LastConfigured(s, calls, i, k)
  {
  }

  /** Call `j` installed a mapping since the configuration `i`, under which `pts` has an image. */
  ghost predicate MapsUnder(s: Coordinator, calls: seq<Call>, i: nat, j: nat, k: nat, pts: i64)
    requires i < k <= |calls| && calls[i].CConfigure?
  {
    i < j < k && Happens(Maps, s, calls, j) && MapPts(calls[i].config, calls[j].mapping, calls[j].maxError, pts).0 == Ok
  }

  /** A time is mapped if and only if a mapping was installed since the configuration and the time has an image. */
  lemma MapExactly(s: Coordinator, calls: seq<Call>, k: nat)
    requires Created(s) && k < |calls| && calls[k].CMap?
    ensures var g, pts := calls[k].generation, calls[k].pts;
      && (GrantedAt(s, calls, k) <==>
        exists i: nat, j: nat :: Runs(s, calls, i, k, g) && MapsUnder(s, calls, i, j, k, pts))
      && forall i: nat, j: nat :: Runs(s, calls, i, k, g) && MapsUnder(s, calls, i, j, k, pts) ==>
        MapAnswer(At(s, calls, k), g, pts) ==
          (Ready, MapPts(calls[i].config, calls[j].mapping, calls[j].maxError, pts).1)
  {
    hide At, Apply, Runs, MapPts, Inv;
    var g, pts := calls[k].generation, calls[k].pts;
    GrantedNow(s, calls, k);
    CurrentMeans(s, calls, k, g);
    if i: nat :| Runs(s, calls, i, k, g) {
      RunningState(s, calls, i, k, g);
      LastOfRun(s, calls, i, k, g);
      MappedExactly(s, calls, i, k);
      if GrantedAt(s, calls, k) {
        var j :| i < j < k && Happens(Maps, s, calls, j);
        assert MapsUnder(s, calls, i, j, k, pts);
      }
    }
  }

  /** Without a mandatory mapping a running time passes as it is exactly as long as none was installed. */
  lemma RunningTimeExactly(s: Coordinator, calls: seq<Call>, k: nat, g: nat, pts: i64)
    requires Created(s) && k <= |calls| && pts >= 0
    ensures (exists i: nat :: Runs(s, calls, i, k, g) && !Since(Maps, s, calls, i, k)) ==>
      MapRunningAnswer(At(s, calls, k), g, pts, false) == (Ready, pts)
    ensures (exists i: nat :: Runs(s, calls, i, k, g) && Since(Maps, s, calls, i, k)) ==>
      MapRunningAnswer(At(s, calls, k), g, pts, false) == MapAnswer(At(s, calls, k), g, pts)
    ensures MapRunningAnswer(At(s, calls, k), g, pts, false).0 == Ready ==> exists i: nat :: Runs(s, calls, i, k, g)
    ensures MapRunningAnswer(At(s, calls, k), g, pts, true).0 == Ready <==>
      MapAnswer(At(s, calls, k), g, pts).0 == Ready
  {
    hide At, Apply, Runs, MapPts, Inv, Since;
    CurrentMeans(s, calls, k, g);
    if i: nat :| Runs(s, calls, i, k, g) {
      RunningState(s, calls, i, k, g);
      LastOfRun(s, calls, i, k, g);
      MappedExactly(s, calls, i, k);
    }
  }

  /** The first publication of exactly the running configuration is granted, and no other. */
  lemma PublishExactly(s: Coordinator, calls: seq<Call>, k: nat)
    requires Created(s) && k < |calls| && calls[k].CPublish?
    ensures var c := calls[k].published;
      GrantedAt(s, calls, k) <==>
        exists i: nat :: Runs(s, calls, i, k, c.generation) && calls[i].config == c && !Since(Publishes, s, calls, i, k)
  {
    hide At, Apply, Runs, Validate, Inv, Since;
    var c := calls[k].published;
    GrantedNow(s, calls, k);
    CurrentMeans(s, calls, k, c.generation);
    if i: nat :| Runs(s, calls, i, k, c.generation) {
      RunningState(s, calls, i, k, c.generation);
      ConfiguredIsValid(At(s, calls, k));
      LastOfRun(s, calls, i, k, c.generation);
      AudioExactly(s, calls, i, k);
    }
  }

  /** The stream published since the configuration by the asked role. */
  ghost predicate PublishedBy(s: Coordinator, calls: seq<Call>, i: nat, k: nat, producer: bool) {
    exists j :: i < j < k && Happens(Publishes, s, calls, j) && calls[j].stream.producer == producer
  }

  lemma RoleExactly(s: Coordinator, calls: seq<Call>, i: nat, k: nat, producer: bool)
    requires LastConfigured(s, calls, i, k)
    ensures var audio := At(s, calls, k).audio;
      audio.Some? && audio.value.producer == producer <==> PublishedBy(s, calls, i, k, producer)
  {
    hide At;
    AudioExactly(s, calls, i, k);
    if j :| i < j < k && Happens(Publishes, s, calls, j) {
      assert At(s, calls, k).audio == Some(calls[j].stream);
    }
  }

  /** A claim is granted if and only if that role published a stream in this generation and nobody claimed it yet. */
  lemma ClaimExactly(s: Coordinator, calls: seq<Call>, k: nat)
    requires Created(s) && k < |calls| && calls[k].CClaim?
    ensures GrantedAt(s, calls, k) <==>
      exists i: nat :: Runs(s, calls, i, k, calls[k].generation)
                       && PublishedBy(s, calls, i, k, calls[k].asProducer) && !Since(Claims, s, calls, i, k)
  {
    hide At, Apply, Runs, Inv, PublishedBy, Since;
    var g := calls[k].generation;
    GrantedNow(s, calls, k);
    CurrentMeans(s, calls, k, g);
    if i: nat :| Runs(s, calls, i, k, g) {
      RunningState(s, calls, i, k, g);
      LastOfRun(s, calls, i, k, g);
      RoleExactly(s, calls, i, k, calls[k].asProducer);
      ClaimedExactly(s, calls, i, k);
    }
  }

  /** Nothing contradicting was recorded since the configuration. */
  ghost predicate SameEnd(s: Coordinator, calls: seq<Call>, i: nat, k: nat, frames: nat, pts: int) {
    forall j :: i < j < k && Happens(Ends, s, calls, j) ==> calls[j].frames == frames && calls[j].lastPts == pts
  }

  /** Consistent video accounting of a session with video is recorded unless it contradicts what was recorded. */
  lemma EndExactly(s: Coordinator, calls: seq<Call>, k: nat)
    requires Created(s) && k < |calls| && calls[k].CVideoEos?
    ensures var frames, pts := calls[k].frames, calls[k].lastPts;
      GrantedAt(s, calls, k) <==>
        && (if frames == 0 then pts == -1 else pts >= 0)
        && exists i: nat :: Runs(s, calls, i, k, calls[k].generation)
                            && calls[i].config.videoTrack != 0 && SameEnd(s, calls, i, k, frames, pts)
  {
    hide At, Apply, Runs, Inv;
    var g := calls[k].generation;
    GrantedNow(s, calls, k);
    CurrentMeans(s, calls, k, g);
    if i: nat :| Runs(s, calls, i, k, g) {
      RunningState(s, calls, i, k, g);
      LastOfRun(s, calls, i, k, g);
      EndedExactly(s, calls, i, k);
    }
  }

  /** The wait for the accounting is over exactly when it was recorded in this generation, and answers what was. */
  lemma EndWaitExactly(s: Coordinator, calls: seq<Call>, k: nat, g: nat)
    requires Created(s) && k <= |calls|
    ensures WaitVideoEosAnswer(At(s, calls, k), g) == Ready <==>
      exists i: nat :: Runs(s, calls, i, k, g) && calls[i].config.videoTrack != 0 && Since(Ends, s, calls, i, k)
    ensures forall i: nat, j: nat :: Runs(s, calls, i, k, g) && i < j < k && Happens(Ends, s, calls, j) ==>
      At(s, calls, k).videoFrames == calls[j].frames && At(s, calls, k).videoLastPts == calls[j].lastPts
  {
    hide At, Apply, Runs, Inv, Since;
    CurrentMeans(s, calls, k, g);
    if i: nat :| Runs(s, calls, i, k, g) {
      RunningState(s, calls, i, k, g);
      LastOfRun(s, calls, i, k, g);
      EndedExactly(s, calls, i, k);
    }
  }
}
