/**
 * What goes wrong when a channel mixes fenced releases with read leases, and exactly when it does not: a retired
 * lease raises the consumer's retired value past releases whose fences are still queued
 * (src/framelink_linux.cpp:792-811, 868-875; src/fl_read_api.inc:44-57).
 */
module MixedReleases {
  import opened Basics
  import opened Base
  import opened SyncFences
  import opened Rings
  import opened RingInvariant
  import opened RingRetirement
  import G = RingReclamation
  import ProducerChannels
  import RingSteps
  import T = RingTheorems
  import L = Leases

  /**
   * After some steps that mix nothing and let no fence signal, one more step renews the generation while the fence of
   * an announced release is still running.
   */
  ghost predicate Loses(r: Ring, steps: seq<Step>, last: Step) {
    var b := Run(r, steps);
    && Unmixed(r, steps) && (forall i :: 0 <= i < |steps| ==> !steps[i].SignalFence?)
    && Apply(b, last).c.generation != b.c.generation && !AllSignalled(b.sent, b.done)
  }

  /** The same, by a resize that replaces the storage. */
  ghost predicate LosesStorage(r: Ring, steps: seq<Step>, last: Step) {
    Loses(r, steps, last) && last.Deliver? && Apply(Run(r, steps), last).c.images != Run(r, steps).c.images
  }

  ghost predicate StorageCanBeLost(r: Ring) {
    exists steps, last :: LosesStorage(r, steps, last)
  }

  // ---- nothing is lost by leasing with all releases signalled ---------------------------------------

  lemma SignalledLosesNothing(r: Ring, frame: Frame, steps: seq<Step>, last: Step)
    requires Inv(r) && Retires(r) && AllSignalled(r.c.releases, r.done)
    ensures !Loses(Apply(r, Lease(frame)), steps, last)
  {
    hide Inv, Retires, Apply, Loses, AllSignalled;
    RingSteps.StepKeepsInv(r, Lease(frame));
    StepKeepsRetires(r, Lease(frame));
    RetiringLosesNothing(Apply(r, Lease(frame)), steps, last);
  }

  lemma RetiringLosesNothing(r: Ring, steps: seq<Step>, last: Step)
    requires Inv(r) && Retires(r)
    ensures !Loses(r, steps, last)
  {
    hide Inv, Retires, Apply, Run, AllSignalled;
    if Unmixed(r, steps) {
      RunKeepsRetires(r, steps);
      var b := Run(r, steps);
      if Apply(b, last).c.generation != b.c.generation {
        T.ReplacedOnlyWhenIdle(b, last);
        QuietMeansSignalled(b);
      }
    }
  }

  // ---- a lease completed and collected behind an unsignalled release --------------------------------

  /** Idle in all but the fences: quiescent, with an announced release still running. */
  ghost predicate Overdue(r: Ring) {
    && Inv(r) && r.c.ledger.frames == [] && !r.c.frameHeld && r.c.held.ready <= r.c.retired
    && !AllSignalled(r.sent, r.done)
  }

  lemma OverdueIsQuiescent(r: Ring)
    requires Overdue(r)
    ensures Quiescent(AdvanceConsumer(r.c, r.done))
  {
    hide Inv, ReadyPrefix, AllSignalled;
  }

  lemma NoReaders(r: Ring)
    requires Inv(r) && r.c.ledger.frames == []
    ensures r.c.ledger.readers == map[] && r.c.completions == map[]
  {
    hide FramesOk, SentOk, PhaseOk, SyncedOk, NewestOk, Live, L.ValidQueue, FreshPool;
    T.NoFramesNoReaders(r.c.ledger);
  }

  /** One frame leased under one token, behind a release whose fence is running. */
  ghost predicate Leased(r: Ring, frame: Frame, t: nat) {
    && Inv(r) && Synced(r) && r.c.ledger.frames == [frame]
      && r.c.ledger.readers == map[t := L.Reader(frame.ready, false)]
    && r.c.completions == map[] && !r.c.frameHeld && r.c.held.ready == frame.ready && frame.ready != 0
    && !AllSignalled(r.sent, r.done)
  }

  lemma LeasedBehind(r: Ring, frame: Frame)
    requires Inv(r) && Retires(r) && LeaseResult(r.c, frame) == Ok && !AllSignalled(r.c.releases, r.done)
    ensures var s := Apply(r, Lease(frame)); Leased(s, frame, r.c.nextToken) && s == r.(c := LeaseFrame(r.c, frame))
  {
    hide Inv, Truthful, AllSignalled, Apply, LeaseFrame, LeaseResult;
    RingSteps.StepKeepsInv(r, Lease(frame));
    NoReaders(r);
    LeaseStep(r, frame);
    QueuedIsAnnounced(r);
    LeasesHeld(r.c, frame);
    RingSteps.LiveMeansSynced(Apply(r, Lease(frame)));
  }

  lemma LeasesHeld(c: Consumer, frame: Frame)
    requires LeaseResult(c, frame) == Ok && c.ledger.frames == [] && c.ledger.readers == map[]
    ensures var c' := LeaseFrame(c, frame);
      && c'.ledger.frames == [frame] && c'.ledger.readers == map[c.nextToken := L.Reader(frame.ready, false)]
      && c'.completions == c.completions && !c'.frameHeld && c'.held == c.held && c.held.ready == frame.ready
      && frame.ready != 0
  {
  }

  /** The frame read and collected: the retired value overtakes the queue. */
  lemma LeasedThrough(r: Ring, frame: Frame, t: nat)
    requires Leased(r, frame, t)
    ensures var s := Run(r, [CompleteToken(t), Collect]);
      && Overdue(s) && s.p == r.p && s.open == r.open
      && s.c.externalPool == r.c.externalPool && s.c.pendingFence == r.c.pendingFence && s.done == r.done
  {
    hide Inv, AllSignalled, Run, Apply;
    var b := Apply(r, CompleteToken(t));
    var s := Apply(b, Collect);
    T.RunConcat(r, [CompleteToken(t)], [Collect]);
    assert [CompleteToken(t), Collect] == [CompleteToken(t)] + [Collect];
    T.RunOne(r, CompleteToken(t));
    T.RunOne(b, Collect);
    RingSteps.StepKeepsInv(r, CompleteToken(t));
    RingSteps.StepKeepsInv(b, Collect);
    Completes(r, frame, t);
    CollectOnly(b, frame);
    StillUnsignalled(r.sent, s.sent, r.done);
  }

  lemma StillUnsignalled(sent: seq<Release>, sent': seq<Release>, done: set<nat>)
    requires !AllSignalled(sent, done) && sent <= sent'
    ensures !AllSignalled(sent', done)
  {
    hide FenceReady;
    var k :| 0 <= k < |sent| && !FenceReady(sent[k].fence, done);
    assert sent'[k] == sent[k];
  }

  lemma QueuedIsAnnounced(r: Ring)
    requires Retires(r) && !AllSignalled(r.c.releases, r.done)
    ensures forall sent :: r.sent <= sent ==> !AllSignalled(sent, r.done)
  {
    hide FenceReady;
    var k :| 0 <= k < |r.c.releases| && !FenceReady(r.c.releases[k].fence, r.done);
    assert r.c.releases[k] in r.sent;
    var m :| 0 <= m < |r.sent| && r.sent[m] == r.c.releases[k];
    forall sent | r.sent <= sent ensures !AllSignalled(sent, r.done) {
      assert sent[m] == r.sent[m];
    }
  }

  lemma Completes(r: Ring, frame: Frame, t: nat)
    requires Leased(r, frame, t)
    ensures var c := r.c;
      Apply(r, CompleteToken(t)) == r.(c := c.(ledger := c.ledger.(readers := map[])))
  {
    hide Inv, AllSignalled;
    assert r.c.ledger.readers - {t} == map[];
    CompleteStep(r, t);
  }

  lemma LeaseStep(r: Ring, frame: Frame)
    ensures Apply(r, Lease(frame)) == r.(c := LeaseFrame(r.c, frame))
  {
    hide LeaseFrame;
  }

  lemma CompleteStep(r: Ring, t: nat)
    ensures Apply(r, CompleteToken(t)) == r.(c := CompleteLease(r.c, t))
  {
    hide CompleteLease;
  }

  lemma CollectOnly(r: Ring, frame: Frame)
    requires r.c.ledger.frames == [frame] && r.c.ledger.readers == map[] && r.c.completions == map[] && frame.ready != 0
    ensures var s := Apply(r, Collect);
      && s.c == r.c.(retired := frame.ready, ledger := r.c.ledger.(frames := []))
      && s == r.(c := s.c, toP := s.toP, sent := r.sent + [Release(frame.ready, None)])
  {
    var q := PollCompletions(r.c, r.done);
    assert q == r.c by {
      assert q.ledger.readers == map[] && q.completions == map[];
    }
    assert L.FreePrefix(r.c.ledger) == 1;
    assert L.Retirement(r.c.ledger) == frame.ready;
    assert L.Retired(r.c.ledger).frames == [];
  }

  // ---- towards a renewal ----------------------------------------------------------------------------

  /** Only the producer moved. */
  ghost predicate ConsumerStays(r: Ring, r': Ring) {
    r'.c == r.c && r'.sent == r.sent && r'.done == r.done && r'.open == r.open
  }

  lemma StaysOverdue(r: Ring, r': Ring)
    requires Overdue(r) && Inv(r') && ConsumerStays(r, r')
    ensures Overdue(r')
  {
  }

  /** An open submit transaction is ended. */
  lemma FinishSubmit(r: Ring) returns (steps: seq<Step>)
    requires Inv(r) && ProducerRuns(r)
    ensures Plain(steps)
    ensures var r' := Run(r, steps); Inv(r') && ConsumerStays(r, r') && ProducerRuns(r') && r'.p.submittingValue == 0
  {
    hide Inv, Apply;
    steps := if r.p.submittingValue == 0 then [] else [EndSubmit(r.p.submittingSlot, 0)];
    if r.p.submittingValue != 0 {
      T.RunOne(r, steps[0]);
      RingSteps.StepKeepsInv(r, steps[0]);
      EndsSubmit(r);
    }
  }

  lemma EndsSubmit(r: Ring)
    requires Inv(r) && ProducerRuns(r) && r.p.submittingValue != 0
    ensures var r' := Apply(r, EndSubmit(r.p.submittingSlot, 0));
      ConsumerStays(r, r') && ProducerRuns(r') && r'.p.submittingValue == 0
  {
    hide FramesOk, SentOk, QueueOk, ConsumerOk, SlotsOk, NewestOk, Live, NoRequest, NoReply;
    RingSteps.RunningIsSynced(r);
  }

  ghost predicate UnreservedBelow(p: Producer, n: nat) {
    n <= |p.submitValue| && forall i :: 0 <= i < n ==> p.submitValue[i] != SENTINEL
  }

  /** Every reserved slot is cancelled. */
  lemma CancelReserved(r: Ring, n: nat) returns (steps: seq<Step>)
    requires Inv(r) && ProducerRuns(r) && r.p.submittingValue == 0 && UnreservedBelow(r.p, n)
    ensures Plain(steps)
    ensures var r' := Run(r, steps);
      Inv(r') && ConsumerStays(r, r') && ProducerRuns(r') && SENTINEL !in r'.p.submitValue
    decreases |r.p.submitValue| - n
  {
    hide Inv, Apply;
    if n == |r.p.submitValue| {
      steps := [];
    } else {
      var r' := Apply(r, CancelSlot(n));
      RingSteps.StepKeepsInv(r, CancelSlot(n));
      Cancels(r, n);
      var rest := CancelReserved(r', n + 1);
      steps := [CancelSlot(n)] + rest;
      T.RunConcat(r, [CancelSlot(n)], rest);
      T.RunOne(r, CancelSlot(n));
    }
  }

  lemma Cancels(r: Ring, n: nat)
    requires Inv(r) && ProducerRuns(r) && r.p.submittingValue == 0 && UnreservedBelow(r.p, n) && n < |r.p.submitValue|
    ensures var r' := Apply(r, CancelSlot(n));
      && ConsumerStays(r, r') && ProducerRuns(r') && r'.p.submittingValue == 0 && UnreservedBelow(r'.p, n + 1)
      && |r'.p.submitValue| == |r.p.submitValue|
  {
    hide FramesOk, SentOk, QueueOk, ConsumerOk, SlotsOk, SubmitOk, NewestOk, Live, NoRequest, NoReply;
    RingSteps.RunningIsSynced(r);
  }

  /** Every local reference is released. */
  lemma ReleasePins(r: Ring) returns (steps: seq<Step>)
    requires Inv(r)
    ensures Plain(steps)
    ensures var r' := Run(r, steps);
      Inv(r') && r' == r.(p := r.p.(pins := map[]))
    decreases |r.p.pins|
  {
    hide Inv, Apply;
    if r.p.pins == map[] {
      steps := [];
    } else {
      var t :| t in r.p.pins;
      var r' := Apply(r, ReleaseReference(t));
      RingSteps.StepKeepsInv(r, ReleaseReference(t));
      Unpins(r, t);
      assert |r.p.pins - {t}| < |r.p.pins| by {
        L.FewerKeys((r.p.pins - {t}).Keys, r.p.pins.Keys - {t});
      }
      var rest := ReleasePins(r');
      steps := [ReleaseReference(t)] + rest;
      T.RunConcat(r, [ReleaseReference(t)], rest);
      T.RunOne(r, ReleaseReference(t));
    }
  }

  lemma Unpins(r: Ring, t: nat)
    ensures Apply(r, ReleaseReference(t)) == r.(p := r.p.(pins := r.p.pins - {t}))
  {
  }

  /** Whatever frames are in flight are delivered, up to the request behind them. */
  lemma DeliverFrames(r: Ring, images: seq<nat>) returns (steps: seq<Step>)
    requires Overdue(r) && r.open && r.toC != [] && r.toC[|r.toC| - 1].RequestGeometry?
      && NoRequest(r.toC[..|r.toC| - 1])
    requires FreshPool(r.c, images)
    ensures Plain(steps)
    ensures var r' := Run(r, steps);
      && Overdue(r') && r'.open && r'.toC == [r.toC[|r.toC| - 1]] && r'.p == r.p && r'.toP == r.toP
      && SameChannel(r.c, r'.c)
    decreases |r.toC|
  {
    hide Inv, Apply, FreshPool, AllSignalled;
    if |r.toC| == 1 {
      steps := [];
    } else {
      assert r.toC[0].FrameReady? by {
        assert r.toC[..|r.toC| - 1][0] == r.toC[0];
      }
      var r' := Apply(r, Deliver(images));
      RingSteps.StepKeepsInv(r, Deliver(images));
      DeliversFrame(r, images);
      var rest := DeliverFrames(r', images);
      steps := [Deliver(images)] + rest;
      T.RunConcat(r, [Deliver(images)], rest);
      T.RunOne(r, Deliver(images));
    }
  }

  /** Storage, size and pool of a consumer. */
  ghost predicate SameChannel(c: Consumer, c': Consumer) {
    c'.images == c.images && c'.geometry == c.geometry && c'.externalPool == c.externalPool
  }

  lemma DeliversFrame(r: Ring, images: seq<nat>)
    requires Overdue(r) && r.open && FreshPool(r.c, images) && |r.toC| > 1 && r.toC[0].FrameReady?
    requires NoRequest(r.toC[..|r.toC| - 1])
    ensures var r' := Apply(r, Deliver(images));
      && r'.open && r'.toC == r.toC[1..] && r'.p == r.p && r'.toP == r.toP && r'.sent == r.sent && r'.done == r.done
      && SameChannel(r.c, r'.c) && FreshPool(r'.c, images) && NoRequest(r'.toC[..|r'.toC| - 1])
      && r'.c.ledger == r.c.ledger && !r'.c.frameHeld && r'.c.held == r.c.held && r'.c.retired == r.c.retired
  {
    hide Inv, AllSignalled;
    RingSteps.DeliverFrameKeeps(r, images);
    var r' := Apply(r, Deliver(images));
    assert r'.toC[..|r'.toC| - 1] == r.toC[..|r.toC| - 1][1..];
  }

  /** A pool unlike the present one. */
  function OtherPool(images: seq<nat>): (other: seq<nat>)
    requires images != []
    ensures |other| == |images| && other != images && (forall i :: 0 <= i < |other| ==> other[i] != 0)
    ensures forall i, j :: 0 <= i < j < |other| ==> other[i] != other[j]
  {
    var other := seq(|images|, i requires 0 <= i < |images| => images[0] + 1 + i);
    assert other[0] != images[0];
    other
  }

  /** A size unlike the present one, legal in every format. */
  function OtherGeometry(g: Geometry): (h: Geometry)
    ensures h.format == g.format && (h.width != g.width || h.height != g.height)
    ensures ValidGeometry(h)
  {
    Geometry(if g.width == 2 then 4 else 2, 2, g.format)
  }

  /** A request at the head of the socket that the consumer honours. */
  lemma HonouredRequest(r: Ring, images: seq<nat>)
    requires Overdue(r) && r.toC != [] && r.toC[0].RequestGeometry? && Resizes(r.c, r.toC[0].geometry)
    requires FreshPool(r.c, images)
    ensures var r' := Apply(r, Deliver(images)); r'.c.generation == r.c.generation + 1 && r'.c.images == images
  {
    hide Inv, AllSignalled, FreshPool, AdvanceConsumer;
    OverdueIsQuiescent(r);
    T.AdvanceKeepsLedger(r.c, r.done);
  }

  lemma PoolExists(r: Ring)
    requires Inv(r)
    ensures r.c.images != [] && FreshPool(r.c, OtherPool(r.c.images)) && FormatKnown(r.c.geometry.format)
  {
    hide FramesOk, SentOk, PhaseOk, SyncedOk, NewestOk, Live, LedgerOk;
  }

  /** From a running producer: give everything up, ask for another size, and let the consumer hear of it. */
  lemma ResizeRunning(r: Ring) returns (steps: seq<Step>, last: Step)
    requires Overdue(r) && ProducerRuns(r) && !r.c.externalPool
    ensures Plain(steps) && RenewsStorage(r, steps, last)
  {
    hide Inv, Apply, FreshPool, AllSignalled, Run;
    var a := FinishSubmit(r);
    var r1 := Run(r, a);
    var b := CancelReserved(r1, 0);
    var r2 := Run(r1, b);
    var c := ReleasePins(r2);
    var r3 := Run(r2, c);
    StaysOverdue(r, r3);
    var g := OtherGeometry(r.c.geometry);
    PoolExists(r3);
    Asks(r3, g);
    var r4 := Apply(r3, AskGeometry(g));
    RingSteps.StepKeepsInv(r3, AskGeometry(g));
    StaysOverdue(r, r4);
    var images := OtherPool(r.c.images);
    var d := DeliverFrames(r4, images);
    var r5 := Run(r4, d);
    PoolExists(r5);
    HonouredRequest(r5, images);
    T.RunOne(r3, AskGeometry(g));
    T.RunConcat(r, a, b);
    T.RunConcat(r, a + b, c);
    T.RunConcat(r, a + b + c, [AskGeometry(g)]);
    T.RunConcat(r, a + b + c + [AskGeometry(g)], d);
    steps, last := a + b + c + [AskGeometry(g)] + d, Deliver(images);
  }

  lemma Asks(r: Ring, g: Geometry)
    requires Inv(r) && ProducerRuns(r) && SENTINEL !in r.p.submitValue && r.p.pins == map[]
    requires ValidGeometry(g) && FormatKnown(g.format)
    ensures var r' := Apply(r, AskGeometry(g));
      && ConsumerStays(r, r') && r'.toC == r.toC + [RequestGeometry(g)] && NoRequest(r'.toC[..|r'.toC| - 1])
  {
    hide FramesOk, SentOk, QueueOk, ConsumerOk, SyncedOk, NewestOk, Live;
    assert Apply(r, AskGeometry(g)).toC[..|r.toC|] == r.toC;
  }

  /** The last step replaces the storage while an announced fence is running. */
  ghost predicate RenewsStorage(r: Ring, steps: seq<Step>, last: Step) {
    var b := Run(r, steps);
    && last.Deliver? && Apply(b, last).c.generation != b.c.generation && Apply(b, last).c.images != b.c.images
    && !AllSignalled(b.sent, b.done)
  }

  // ---- from any ring with a live link ---------------------------------------------------------------

  lemma {:induction false} ReplyComes(p: Producer, toP: seq<ToProducer>, d: nat, done: set<nat>)
    requires d < |toP| && toP[d].RingDesc?
    ensures ProducerChannels.Await(p, toP, done).2 == Ok
    decreases |toP|
  {
    if d > 0 && toP[0].FrameReleased? {
      ReplyComes(ApplyRelease(p, toP[0].release, done), toP[1..], d - 1, done);
    }
  }

  /** A producer whose reply is on its way reads it. */
  lemma ReadReply(r: Ring) returns (steps: seq<Step>)
    requires Inv(r) && r.open && r.p.waiting && (exists d :: 0 <= d < |r.toP| && r.toP[d].RingDesc?)
    ensures Plain(steps) && steps == Receives(|steps|) && |steps| <= |r.toP|
    ensures var r' := Run(r, steps); Inv(r') && ConsumerStays(r, r') && ProducerRuns(r')
  {
    hide Inv, Run, ProducerChannels.Await;
    var d :| 0 <= d < |r.toP| && r.toP[d].RingDesc?;
    ReplyComes(r.p, r.toP, d, r.done);
    ProducerChannels.AwaitIsRun(r);
    steps := Receives(|r.toP| - |ProducerChannels.Await(r.p, r.toP, r.done).1|);
    T.RunKeepsInv(r, steps);
  }

  /** A request the consumer declines is answered all the same. */
  lemma DeclinedRequest(r: Ring, images: seq<nat>)
    requires Overdue(r) && r.open && r.p.waiting && r.toC != [] && r.toC[0].RequestGeometry?
      && !Resizes(r.c, r.toC[0].geometry)
    requires FreshPool(r.c, images)
    ensures var r' := Apply(r, Deliver(images));
      && ConsumerStays(r, r') && r'.p == r.p && r'.toP == r.toP + [RingDesc(r.c.generation, r.c.images)]
  {
    hide Inv, AllSignalled, Resizes, FreshPool;
  }

  lemma ResizeDeclined(r: Ring, images: seq<nat>) returns (steps: seq<Step>, last: Step)
    requires Overdue(r) && r.open && r.p.waiting && r.toC != [] && r.toC[0].RequestGeometry?
      && !Resizes(r.c, r.toC[0].geometry)
    requires FreshPool(r.c, images) && !r.c.externalPool
    ensures Plain(steps) && RenewsStorage(r, steps, last)
  {
    hide Inv, Apply, Run, AllSignalled, FreshPool, Resizes;
    var r1 := Apply(r, Deliver(images));
    RingSteps.StepKeepsInv(r, Deliver(images));
    DeclinedRequest(r, images);
    assert r1.toP[|r.toP|].RingDesc?;
    var a := ReadReply(r1);
    StaysOverdue(r, Run(r1, a));
    var b;
    b, last := ResizeRunning(Run(r1, a));
    T.RunOne(r, Deliver(images));
    T.RunConcat(r, [Deliver(images)], a);
    T.RunConcat(r, [Deliver(images)] + a, b);
    steps := [Deliver(images)] + a + b;
  }

  lemma ResizeAsked(r: Ring) returns (steps: seq<Step>, last: Step)
    requires Overdue(r) && r.open && r.p.waiting && Asked(r.toC, r.toP) && !r.c.externalPool
    ensures Plain(steps) && RenewsStorage(r, steps, last)
  {
    hide Inv, Apply, Run, AllSignalled, FreshPool, Resizes, NoRequest;
    PoolExists(r);
    var images := OtherPool(r.c.images);
    var a := DeliverFrames(r, images);
    var r1 := Run(r, a);
    PoolExists(r1);
    if Resizes(r1.c, r1.toC[0].geometry) {
      HonouredRequest(r1, images);
      steps, last := a, Deliver(images);
    } else {
      var b;
      b, last := ResizeDeclined(r1, images);
      T.RunConcat(r, a, b);
      steps := a + b;
    }
  }

  lemma WaitingPhases(r: Ring)
    requires Inv(r) && r.p.waiting
    ensures Asked(r.toC, r.toP) || exists d :: 0 <= d < |r.toP| && r.toP[d].RingDesc?
  {
    hide FramesOk, SentOk, ConsumerOk, SyncedOk, NewestOk, Live, Asked, NoRequest, NoReply;
    if Synced(r) && !Asked(r.toC, r.toP) {
      var d: nat :| Answered(r.toC, r.toP, d, RingDesc(r.c.generation, r.c.images));
    }
  }

  /** Whatever the producer is doing, the storage of an overdue ring with a live link can be replaced. */
  lemma Resize(r: Ring) returns (steps: seq<Step>, last: Step)
    requires Overdue(r) && r.open && !r.c.externalPool
    ensures Plain(steps) && RenewsStorage(r, steps, last)
  {
    hide Inv, AllSignalled, Asked, Run, RenewsStorage;
    if !r.p.waiting {
      steps, last := ResizeRunning(r);
    } else {
      WaitingPhases(r);
      if Asked(r.toC, r.toP) {
        steps, last := ResizeAsked(r);
      } else {
        steps, last := ResizeAnswered(r);
      }
    }
  }

  lemma ResizeAnswered(r: Ring) returns (steps: seq<Step>, last: Step)
    requires Overdue(r) && r.open && r.p.waiting && !r.c.externalPool
    requires exists d :: 0 <= d < |r.toP| && r.toP[d].RingDesc?
    ensures Plain(steps) && RenewsStorage(r, steps, last)
  {
    hide Inv, Apply, Run, AllSignalled;
    var a := ReadReply(r);
    StaysOverdue(r, Run(r, a));
    var b;
    b, last := ResizeRunning(Run(r, a));
    T.RunConcat(r, a, b);
    steps := a + b;
  }

  // ---- exactly when ---------------------------------------------------------------------------------

  lemma LosesAfterLease(r: Ring, frame: Frame, steps: seq<Step>, last: Step)
    requires Plain(steps)
      && RenewsStorage(Run(Apply(r, Lease(frame)), [CompleteToken(r.c.nextToken), Collect]), steps, last)
    ensures LosesStorage(Apply(r, Lease(frame)), [CompleteToken(r.c.nextToken), Collect] + steps, last)
  {
    hide Apply, Run, AllSignalled, Unmixed;
    var s, done := Apply(r, Lease(frame)), [CompleteToken(r.c.nextToken), Collect];
    T.RunConcat(s, done, steps);
    assert Plain(done + steps) by {
      assert forall i :: 0 <= i < |done + steps| ==> (done + steps)[i] == if i < 2 then done[i] else steps[i - 2];
    }
    PlainIsUnmixed(s, done + steps);
  }

  /**
   * In every ring with storage of its own and a live link that unmixed steps lead to: after leasing a frame some
   * continuation, itself unmixed and without a fence signalling, replaces the storage under running reads if and only
   * if some release queued at the moment of the lease has not signalled.
   */
  lemma MixingLosesStorage(r0: Ring, steps: seq<Step>, frame: Frame)
    requires Initial(r0) && Unmixed(r0, steps)
    requires var r := Run(r0, steps); LeaseResult(r.c, frame) == Ok && r.open && !r.c.externalPool
    ensures var r := Run(r0, steps);
      StorageCanBeLost(Apply(r, Lease(frame))) <==> !AllSignalled(r.c.releases, r.done)
  {
    hide Inv, Retires, Apply, Run, Initial, AllSignalled, Unmixed, LeaseResult, LosesStorage, Loses, RenewsStorage;
    ReachableRetires(r0, steps);
    var r := Run(r0, steps);
    if AllSignalled(r.c.releases, r.done) {
      forall more, last ensures !LosesStorage(Apply(r, Lease(frame)), more, last) {
        SignalledKeepsStorage(r, frame, more, last);
      }
    } else {
      LeasedBehind(r, frame);
      LeasedThrough(Apply(r, Lease(frame)), frame, r.c.nextToken);
      var more, last := Resize(Run(Apply(r, Lease(frame)), [CompleteToken(r.c.nextToken), Collect]));
      LosesAfterLease(r, frame, more, last);
    }
  }

  lemma SignalledKeepsStorage(r: Ring, frame: Frame, steps: seq<Step>, last: Step)
    requires Inv(r) && Retires(r) && AllSignalled(r.c.releases, r.done)
    ensures !LosesStorage(Apply(r, Lease(frame)), steps, last)
  {
    hide Inv, Retires, Apply, Run, AllSignalled, Loses;
    SignalledLosesNothing(r, frame, steps, last);
  }

  lemma ReachableRetires(r0: Ring, steps: seq<Step>)
    requires Initial(r0) && Unmixed(r0, steps)
    ensures Inv(Run(r0, steps)) && Retires(Run(r0, steps))
  {
    hide Inv, Retires, Apply, Run, Initial, Unmixed;
    T.InitialInv(r0);
    InitialRetires(r0);
    RunKeepsRetires(r0, steps);
  }

  // ---- such a ring exists ---------------------------------------------------------------------------

  const FIRST := Frame(0, 1, 0, 1, 1)
  const SECOND := Frame(1, 2, 0, 2, 2)
  const UNUSED := Frame(0, 0, 0, 0, 0)

  /** A new deferring channel of two slots. */
  const NEW := Ring(
    Attached(1, [1, 2], 1),
    Consumer(1, [1, 2], Geometry(64, 64, 1), false, true, false, false, UNUSED, None, 0, false, UNUSED, 0, [],
      L.EMPTY_LEDGER, 1, map[]), [], [], {}, false, [], [], [], [])

  const ATTACHED := NEW.(p := Attached(2, [1, 2], 1), c := NEW.c.(generation := 2), open := true)

  /** The first frame published, delivered and held. */
  const SUBMITTED := ATTACHED.(
    p := ATTACHED.p.(submitValue := [1, 0], ready := 1), toC := [FrameReady(0, 1, 0, None)], published := [0],
    shots := [Shot(0, None)])
  const HOLDING := SUBMITTED.(
    c := ATTACHED.c.(sequence := 1, frameHeld := true, pending := FIRST.(sequence := 0), held := FIRST), toC := [])

  /** The first frame given back under fence 9, the second held. */
  const RELEASED := HOLDING.(
    c := HOLDING.c.(frameHeld := false, releases := [Release(1, Some(9))]),
    toP := [FrameReleased(Release(1, Some(9)))], sent := [Release(1, Some(9))])
  const REFILLED := RELEASED.(
    p := RELEASED.p.(submitValue := [1, 2], ready := 2), toC := [FrameReady(1, 2, 0, None)], published := [0, 1],
    shots := [Shot(0, None), Shot(0, None)])
  const READY := REFILLED.(
    c := RELEASED.c.(sequence := 2, frameHeld := true, pending := SECOND.(sequence := 0), held := SECOND), toC := [])

  lemma {:induction false} RunTwo(r: Ring, a: Step, b: Step)
    ensures Run(r, [a, b]) == Apply(Apply(r, a), b)
  {
    hide Apply;
    assert [a, b] == [a] + [b];
    T.RunConcat(r, [a], [b]);
    T.RunOne(r, a);
    T.RunOne(Apply(r, a), b);
  }

  lemma NewAttaches()
    ensures Initial(NEW) && Apply(NEW, Attach) == ATTACHED
  {
  }

  lemma FirstSubmitted()
    ensures Apply(Apply(ATTACHED, Acquire), SubmitSync(0, 0, None)) == SUBMITTED
  {
    var a := ATTACHED.(p := ATTACHED.p.(submitValue := [SENTINEL, 0]));
    assert ATTACHED.p.submitValue == [0, 0];
    assert Apply(ATTACHED, Acquire) == a;
  }

  lemma FirstHeld()
    ensures Apply(Apply(SUBMITTED, Deliver([3, 4])), TakeFrame) == HOLDING
  {
    var d := SUBMITTED.(c := ATTACHED.c.(sequence := 1, hasPending := true, pending := FIRST.(sequence := 0)),
      toC := []);
    assert Apply(SUBMITTED, Deliver([3, 4])) == d;
  }

  lemma FirstReleased()
    ensures Apply(HOLDING, GiveBack(Some(9))) == RELEASED
  {
  }

  lemma SecondSubmitted()
    ensures Apply(Apply(RELEASED, Acquire), SubmitSync(1, 0, None)) == REFILLED
  {
    var a := RELEASED.(p := RELEASED.p.(submitValue := [1, SENTINEL]));
    assert FirstAvailable(RELEASED.p, 0) == 1;
    assert Apply(RELEASED, Acquire) == a;
  }

  lemma SecondHeld()
    ensures Apply(Apply(REFILLED, Deliver([3, 4])), TakeFrame) == READY
  {
    var d := REFILLED.(c := RELEASED.c.(sequence := 2, hasPending := true, pending := SECOND.(sequence := 0)),
      toC := []);
    assert Apply(REFILLED, Deliver([3, 4])) == d;
  }

  /**
   * From a new channel: publish, take and give back one frame under fence 9, then take the next. Leasing that one
   * lets the storage be replaced while fence 9 is running.
   */
  lemma MixingLosesFence() returns (steps: seq<Step>)
    ensures Initial(NEW) && Unmixed(NEW, steps)
    ensures var r := Run(NEW, steps);
      && LeaseResult(r.c, SECOND) == Ok && Release(1, Some(9)) in r.sent && 9 !in r.done
      && StorageCanBeLost(Apply(r, Lease(SECOND)))
  {
    hide Apply, Run, Unmixed, Initial, StorageCanBeLost;
    var a, b, c, d, e := [Acquire, SubmitSync(0, 0, None)], [Deliver([3, 4]), TakeFrame], [GiveBack(Some(9))],
      [Acquire, SubmitSync(1, 0, None)], [Deliver([3, 4]), TakeFrame];
    steps := [Attach] + a + b + c + d + e;
    T.RunConcat(NEW, [Attach] + a + b + c + d, e);
    T.RunConcat(NEW, [Attach] + a + b + c, d);
    T.RunConcat(NEW, [Attach] + a + b, c);
    T.RunConcat(NEW, [Attach] + a, b);
    T.RunConcat(NEW, [Attach], a);
    T.RunOne(NEW, Attach);
    NewAttaches();
    RunTwo(ATTACHED, a[0], a[1]);
    FirstSubmitted();
    RunTwo(SUBMITTED, b[0], b[1]);
    FirstHeld();
    T.RunOne(HOLDING, c[0]);
    FirstReleased();
    RunTwo(RELEASED, d[0], d[1]);
    SecondSubmitted();
    RunTwo(REFILLED, e[0], e[1]);
    SecondHeld();
    PlainIsUnmixed(NEW, steps);
    ReadyToMix();
    MixingLosesStorage(NEW, steps, SECOND);
  }

  lemma ReadyToMix()
    ensures LeaseResult(READY.c, SECOND) == Ok && READY.open && !READY.c.externalPool
      && !AllSignalled(READY.c.releases, READY.done)
  {
    assert !FenceReady(READY.c.releases[0].fence, READY.done);
  }

  /** From a new channel: publish, take and drop one frame. The ring is drained, and its slot does not come back. */
  lemma DropLeaks() returns (steps: seq<Step>)
    ensures Initial(NEW) && G.Drained(Run(NEW, steps)) && !G.AllConsumed(Run(NEW, steps))
  {
    hide Apply, Run, Initial, G.AllConsumed, G.LastAnnounced;
    var a, b := [Acquire, SubmitSync(0, 0, None)], [Deliver([3, 4]), TakeFrame];
    steps := [Attach] + a + b + [Drop];
    T.RunConcat(NEW, [Attach] + a + b, [Drop]);
    T.RunConcat(NEW, [Attach] + a, b);
    T.RunConcat(NEW, [Attach], a);
    T.RunOne(NEW, Attach);
    NewAttaches();
    RunTwo(ATTACHED, a[0], a[1]);
    FirstSubmitted();
    RunTwo(SUBMITTED, b[0], b[1]);
    FirstHeld();
    T.RunOne(HOLDING, Drop);
    FirstDropped();
    T.InitialInv(NEW);
    T.RunKeepsInv(NEW, steps);
    G.FreeExactlyWhenAnnounced(Run(NEW, steps));
  }

  lemma FirstDropped()
    ensures var r := Apply(HOLDING, Drop); G.Drained(r) && !r.p.waiting && !G.LastAnnounced(r)
  {
  }
}
