/**
 * When the next producer's attachment may renew a timeline whose released reads are still running: what mixing needs
 * besides an unsignalled release is a way past the fence of the pending frame, which an attachment waits for
 * (src/framelink_linux.cpp:322-336).
 */
module TimelineLosses {
  import opened Basics
  import opened Base
  import opened SyncFences
  import opened Rings
  import opened RingInvariant
  import opened RingRetirement
  import opened MixedReleases
  import G = RingReclamation
  import O = RingOutcomes
  import RingSteps
  import T = RingTheorems
  import L = Leases

  ghost predicate TimelineCanBeLost(r: Ring) {
    exists steps :: Loses(r, steps, Attach)
  }

  /** How far the producer's counter can rise while no further fence signals. */
  function Reach(r: Ring): nat {
    TopOf(r.sent, ReadyPrefix(r.sent, r.done))
  }

  /** A slot the producer holds, or can get without a signal. */
  predicate Obtainable(r: Ring, i: nat) {
    i < |r.p.submitValue| && (r.p.submitValue[i] == SENTINEL || r.p.submitValue[i] <= Reach(r))
  }

  predicate SomeObtainable(r: Ring) {
    exists i :: 0 <= i < |r.p.submitValue| && Obtainable(r, i)
  }

  /** The producer can announce one more frame: the one it is submitting, or one in a slot it can get. */
  predicate CanPublish(r: Ring) {
    r.open && (r.p.submittingValue != 0 || (r.p.ready < U64_MAX - 1 && SomeObtainable(r)))
  }

  predicate ReadyInFlight(toC: seq<ToConsumer>, done: set<nat>) {
    exists k :: 0 <= k < |toC| && toC[k].FrameReady? && FenceReady(toC[k].fence, done)
  }

  /** The pending frame's fence has signalled, or a frame without that obstacle can take its place. */
  predicate PendingCanClear(r: Ring) {
    FenceReady(r.c.pendingFence, r.done) || ReadyInFlight(r.toC, r.done) || CanPublish(r)
  }

  // ---- no way past the pending fence ----------------------------------------------------------------

  ghost predicate Stuck(r: Ring) {
    Inv(r) && Synced(r) && !r.c.gpuSync && !AllSignalled(r.sent, r.done) && !PendingCanClear(r)
  }

  /** What is announced behind an unsignalled release does not help the producer. */
  lemma ReachStays(sent: seq<Release>, x: Release, done: set<nat>)
    requires !AllSignalled(sent, done)
    ensures ReadyPrefix(sent + [x], done) == ReadyPrefix(sent, done) < |sent| && !AllSignalled(sent + [x], done)
  {
    var k, n := ReadyPrefix(sent, done), ReadyPrefix(sent + [x], done);
    assert forall i :: 0 <= i < |sent| ==> (sent + [x])[i] == sent[i];
  }

  lemma ConsumedWithinReach(r: Ring)
    requires Inv(r) && Synced(r)
    ensures AdvanceProducer(r.p, r.done).consumed <= Reach(r)
  {
    hide FramesOk, ConsumerOk, SlotsOk, SubmitOk, PhaseOk, NewestOk, Live, Releases, FenceReady, AdvanceProducer;
    RingSteps.AdvanceKeeps(r);
    var a := AdvanceProducer(r.p, r.done);
    var s := |r.sent| - |a.releases + Releases(r.toP)|;
    assert s <= ReadyPrefix(r.sent, r.done);
  }

  /** The producer's slots and values, as far as publishing is concerned. */
  ghost predicate SameSlots(p: Producer, p': Producer) {
    p'.submitValue == p.submitValue && p'.submittingValue == p.submittingValue && p'.ready == p.ready
  }

  /** No frame is announced and no slot changes hands, unless the counter is exhausted. */
  ghost predicate PublishesNothing(r: Ring, r': Ring) {
    && r'.c == r.c && r'.sent == r.sent && r'.done == r.done && (r'.open ==> r.open)
    && r'.p.submittingValue == r.p.submittingValue && r'.p.ready == r.p.ready
    && (r.p.ready < U64_MAX - 1 ==> r'.p.submitValue == r.p.submitValue)
    && (r'.toC == r.toC || exists g :: r'.toC == r.toC + [RequestGeometry(g)])
  }

  lemma InFlightBefore(toC: seq<ToConsumer>, toC': seq<ToConsumer>, done: set<nat>)
    requires ReadyInFlight(toC', done)
    requires toC' == toC || (toC != [] && toC' == toC[1..]) || exists g :: toC' == toC + [RequestGeometry(g)]
    ensures ReadyInFlight(toC, done)
  {
    hide FenceReady;
    var k :| 0 <= k < |toC'| && toC'[k].FrameReady? && FenceReady(toC'[k].fence, done);
    if toC != [] && toC' == toC[1..] {
      assert toC[k + 1] == toC'[k];
    } else {
      assert toC[k] == toC'[k];
    }
  }

  lemma ObtainableBefore(r: Ring, r': Ring)
    requires SomeObtainable(r') && r'.p.submitValue == r.p.submitValue && Reach(r') == Reach(r)
    ensures SomeObtainable(r)
  {
    var i :| 0 <= i < |r'.p.submitValue| && Obtainable(r', i);
    assert Obtainable(r, i);
  }

  lemma StuckAfterProducer(r: Ring, r': Ring)
    requires Stuck(r) && Inv(r') && Synced(r') && PublishesNothing(r, r')
    ensures Stuck(r')
  {
    hide Inv, AllSignalled, FenceReady, TopOf, ReadyInFlight, SomeObtainable;
    if ReadyInFlight(r'.toC, r'.done) {
      InFlightBefore(r.toC, r'.toC, r.done);
    }
    if r.p.submitValue == r'.p.submitValue && SomeObtainable(r') {
      ObtainableBefore(r, r');
    }
  }

  lemma StuckAfterConsumer(r: Ring, r': Ring)
    requires Stuck(r) && Inv(r') && Synced(r') && r'.p == r.p && r'.done == r.done && r'.open == r.open
    requires !FenceReady(r'.c.pendingFence, r'.done) && r'.c.gpuSync == r.c.gpuSync
    requires r'.toC == r.toC || (r.toC != [] && r'.toC == r.toC[1..])
    requires r'.sent == r.sent || exists x :: r'.sent == r.sent + [x]
    ensures Stuck(r')
  {
    hide Inv, AllSignalled, FenceReady, ReadyInFlight, SomeObtainable;
    if r'.sent != r.sent {
      var x :| r'.sent == r.sent + [x];
      ReachStays(r.sent, x, r.done);
    }
    assert Reach(r') == Reach(r);
    if ReadyInFlight(r'.toC, r'.done) {
      InFlightBefore(r.toC, r'.toC, r.done);
    }
    if SomeObtainable(r') {
      ObtainableBefore(r, r');
    }
  }

  lemma NothingToAcquire(r: Ring)
    requires Stuck(r) && r.open && r.p.ready < U64_MAX - 1
    ensures Reserve(AdvanceProducer(r.p, r.done)).0 == AdvanceProducer(r.p, r.done)
    ensures forall i :: 0 <= i < |r.p.submitValue| ==> r.p.submitValue[i] != SENTINEL
  {
    hide Inv, Reach, FenceReady;
    ConsumedWithinReach(r);
    var a := AdvanceProducer(r.p, r.done);
    forall i | 0 <= i < |r.p.submitValue| ensures r.p.submitValue[i] != SENTINEL && !Available(a, i) {
      assert !Obtainable(r, i);
    }
  }

  lemma ReceivePublishesNothing(r: Ring)
    requires Inv(r) && Synced(r)
    ensures var r' := Apply(r, Receive);
      PublishesNothing(r, r') && SameSlots(r.p, r'.p) && Synced(r') && r'.toC == r.toC
    ensures Apply(r, Receive).p.images == r.p.images
    ensures Apply(r, Receive).toP == if r.open && r.toP != [] then r.toP[1..] else r.toP
  {
    hide FramesOk, SentOk, QueueOk, ConsumerOk, SyncedOk, NewestOk, Live, NoRequest, NoReply, Unreserved,
      AdvanceProducer;
    if r.open && r.toP != [] && r.toP[0].FrameReleased? {
      AcquireKeepsCounters(r.p.(releases := r.p.releases + [r.toP[0].release]), r.done);
    }
    if r.open && r.toP != [] && r.toP[0].RingDesc? && r.p.waiting {
      if Asked(r.toC, r.toP) {
        RingSteps.HeadOfAsked(r.toC, r.toP);
      }
      RingSteps.HeadOfAnswered(r.toC, r.toP, RingDesc(r.c.generation, r.c.images));
    }
  }

  /** A producer that cannot publish stays that way. */
  lemma ProducerStaysStuck(r: Ring, step: Step)
    requires Stuck(r) && (step.Receive? || IsProducerStep(step) || step.Close?)
    ensures Stuck(Apply(r, step))
  {
    hide Inv, Apply, PendingCanClear, AllSignalled;
    RingSteps.StepKeepsInv(r, step);
    if step.Receive? {
      ReceivePublishesNothing(r);
    } else {
      CallPublishesNothing(r, step);
    }
    StuckAfterProducer(r, Apply(r, step));
  }

  lemma CallPublishesNothing(r: Ring, step: Step)
    requires Stuck(r) && (IsProducerStep(step) || step.Close?)
    ensures PublishesNothing(r, Apply(r, step)) && Apply(r, step).p.generation == r.p.generation
  {
    hide Inv, AllSignalled, AdvanceProducer, Reserve, GeometryResult;
    if r.open && r.p.ready < U64_MAX - 1 {
      NothingToAcquire(r);
    }
    AcquireKeepsCounters(r.p, r.done);
  }

  lemma AcquireKeepsCounters(p: Producer, done: set<nat>)
    ensures var a := AdvanceProducer(p, done);
      SameSlots(p, a) && a.generation == p.generation && a.images == p.images && a.waiting == p.waiting
    ensures var a := Reserve(AdvanceProducer(p, done)).0;
      a.generation == p.generation && a.submittingValue == p.submittingValue && a.ready == p.ready
  {
    hide ReadyPrefix, Raise, FirstAvailable;
  }

  /** A consumer step that renews nothing. */
  lemma ConsumerStaysStuck(r: Ring, step: Step)
    requires Stuck(r) && !step.Receive? && !IsProducerStep(step) && !step.Close? && !step.SignalFence?
    requires Apply(r, step).c.generation == r.c.generation
    ensures Stuck(Apply(r, step))
  {
    hide Inv, Apply, PendingCanClear, AllSignalled;
    RingSteps.StepKeepsInv(r, step);
    G.ModeStays(r, step);
    if step.Deliver? {
      DeliverLeavesBlocked(r, step.images);
    } else if step.Attach? || step.GiveBack? {
      AdvancingLeavesBlocked(r, step);
    } else {
      OthersLeaveBlocked(r, step);
    }
    StuckAfterConsumer(r, Apply(r, step));
  }

  /** The consumer's part of what keeps the ring stuck. */
  ghost predicate LeavesBlocked(r: Ring, r': Ring) {
    && r'.p == r.p && r'.done == r.done && r'.open == r.open && !FenceReady(r'.c.pendingFence, r'.done)
    && (r'.toC == r.toC || (r.toC != [] && r'.toC == r.toC[1..]))
    && (r'.sent == r.sent || exists x :: r'.sent == r.sent + [x])
  }

  lemma DeliverLeavesBlocked(r: Ring, images: seq<nat>)
    requires Stuck(r) && Apply(r, Deliver(images)).c.generation == r.c.generation
    ensures LeavesBlocked(r, Apply(r, Deliver(images)))
  {
    hide Inv, AllSignalled, CanPublish, FenceReady, FreshPool, OnGeometry;
    if r.toC != [] && FreshPool(r.c, images) {
      if r.toC[0].FrameReady? {
        RingSteps.DeliverFrameKeeps(r, images);
        assert ReadyInFlight(r.toC, r.done) <== FenceReady(r.toC[0].fence, r.done);
      } else {
        RequestLeavesPending(r.c, r.toC[0].geometry, images, r.done);
      }
    }
  }

  lemma RequestLeavesPending(c: Consumer, g: Geometry, images: seq<nat>, done: set<nat>)
    ensures var c' := OnGeometry(c, g, images, done); c'.generation == c.generation ==>
      c'.pendingFence == c.pendingFence
  {
    hide AdvanceConsumer, Resizes;
    AdvanceLeavesPending(c, done);
  }

  lemma AdvanceLeavesPending(c: Consumer, done: set<nat>)
    ensures var a := AdvanceConsumer(c, done); a.pendingFence == c.pendingFence && a.generation == c.generation
  {
    hide ReadyPrefix, Raise;
  }

  lemma AdvancingLeavesBlocked(r: Ring, step: Step)
    requires Stuck(r) && (step.Attach? || step.GiveBack?) && Apply(r, step).c.generation == r.c.generation
    ensures LeavesBlocked(r, Apply(r, step))
  {
    hide Inv, AllSignalled, CanPublish, ReadyInFlight, FenceReady, AdvanceConsumer, Quiescent, ReleaseResult;
    AdvanceLeavesPending(r.c, r.done);
    if step.GiveBack? {
      AdvanceLeavesPending(r.c.(releases := r.c.releases + [Release(r.c.held.ready, step.fence)]), r.done);
    }
  }

  lemma OthersLeaveBlocked(r: Ring, step: Step)
    requires Stuck(r)
    requires step.TakeFrame? || step.Drop? || step.Lease? || step.RetainToken? || step.CompleteToken?
      || step.DeferToken? || step.Collect?
    ensures LeavesBlocked(r, Apply(r, step))
  {
    hide Stuck, LeavesBlocked, Apply;
    if step.TakeFrame? || step.Drop? {
      TakingLeavesBlocked(r, step);
    } else if step.Collect? {
      CollectLeavesBlocked(r);
    } else {
      TokensLeaveBlocked(r, step);
    }
  }

  lemma TakingLeavesBlocked(r: Ring, step: Step)
    requires Stuck(r) && (step.TakeFrame? || step.Drop?)
    ensures LeavesBlocked(r, Apply(r, step))
  {
    hide Inv, AllSignalled, CanPublish, ReadyInFlight, FenceReady, DropResult;
  }

  lemma CollectLeavesBlocked(r: Ring)
    requires Stuck(r)
    ensures LeavesBlocked(r, Apply(r, Collect))
  {
    hide Inv, AllSignalled, CanPublish, ReadyInFlight, FenceReady, L.Retirement, L.Retired;
  }

  lemma TokensLeaveBlocked(r: Ring, step: Step)
    requires Stuck(r) && (step.Lease? || step.RetainToken? || step.CompleteToken? || step.DeferToken?)
    ensures LeavesBlocked(r, Apply(r, step))
  {
    hide Inv, AllSignalled, CanPublish, ReadyInFlight, FenceReady, LeaseResult, L.RetainResult, L.Live, L.Acquire,
      L.Retain, L.Complete, L.Defer;
  }

  // ---- runs from a stuck ring -----------------------------------------------------------------------

  /** A resize forgets the old generation's releases, so nothing of it can be lost afterwards. */
  lemma RenewalRetires(r: Ring, step: Step)
    requires Stuck(r) && Apply(r, step).c.generation != r.c.generation
    ensures step != Attach && Retires(Apply(r, step))
  {
    hide Inv, AllSignalled, CanPublish, ReadyInFlight, FenceReady, AdvanceConsumer, FreshPool, Resizes;
    T.RenewedOnlyWhenQuiet(r, step);
    AdvanceLeavesPending(r.c, r.done);
    NothingQueued(r.done);
  }

  lemma StepFromStuck(r: Ring, step: Step)
    requires Stuck(r) && !step.SignalFence?
    ensures Stuck(Apply(r, step)) || (step != Attach && Inv(Apply(r, step)) && Retires(Apply(r, step)))
    ensures step == Attach ==> Apply(r, step).c.generation == r.c.generation
  {
    hide Stuck, Retires, Apply, Inv;
    if Apply(r, step).c.generation != r.c.generation {
      RenewalRetires(r, step);
      StuckIsInv(r);
      RingSteps.StepKeepsInv(r, step);
    } else if step.Receive? || IsProducerStep(step) || step.Close? {
      ProducerStaysStuck(r, step);
    } else {
      ConsumerStaysStuck(r, step);
    }
  }

  lemma StuckIsInv(r: Ring)
    requires Stuck(r)
    ensures Inv(r)
  {
    hide Inv, PendingCanClear, AllSignalled;
  }

  lemma {:induction false} StuckLosesNothing(r: Ring, steps: seq<Step>)
    requires Stuck(r)
    ensures !Loses(r, steps, Attach)
    decreases |steps|
  {
    hide Stuck, Retires, Inv, Apply, UnmixedStep, AllSignalled;
    if steps == [] {
      StepFromStuck(r, Attach);
    } else if !steps[0].SignalFence? {
      var r' := Apply(r, steps[0]);
      StepFromStuck(r, steps[0]);
      LosesLater(r, steps);
      if Stuck(r') {
        StuckLosesNothing(r', steps[1..]);
      } else {
        RetiringLosesNothing(r', steps[1..], Attach);
      }
    }
  }

  lemma LosesLater(r: Ring, steps: seq<Step>)
    requires steps != []
    ensures Loses(r, steps, Attach) ==> Loses(Apply(r, steps[0]), steps[1..], Attach)
  {
    hide Apply, UnmixedStep, AllSignalled;
    assert forall i :: 0 <= i < |steps[1..]| ==> steps[1..][i] == steps[i + 1];
  }

  // ---- a way past the pending fence -----------------------------------------------------------------

  /** A message reaches the consumer while the frame is leased; a request is answered but not honoured. */
  lemma DeliverLeased(r: Ring, frame: Frame, t: nat)
    requires Leased(r, frame, t) && r.toC != []
    ensures var r' := Apply(r, Deliver(r.c.images));
      && Leased(r', frame, t) && r'.p == r.p && r'.toC == r.toC[1..] && r'.done == r.done && r'.open == r.open
      && r'.sent == r.sent && r'.c.images == r.c.images
      && if r.toC[0].FrameReady? then r'.toP == r.toP && r'.c.pendingFence == r.toC[0].fence
         else r'.toP == r.toP + [RingDesc(r'.c.generation, r'.c.images)]
  {
    hide Inv, AllSignalled, AdvanceConsumer, Resizes, OnGeometry;
    var images := r.c.images;
    assert FreshPool(r.c, images) by {
      OwnPool(r);
    }
    RingSteps.StepKeepsInv(r, Deliver(images));
    if r.toC[0].FrameReady? {
      RingSteps.DeliverFrameKeeps(r, images);
    } else {
      RequestRefused(r.c, r.toC[0].geometry, images, r.done);
    }
  }

  lemma OwnPool(r: Ring)
    requires Inv(r)
    ensures FreshPool(r.c, r.c.images)
  {
    hide FramesOk, SentOk, PhaseOk, SyncedOk, NewestOk, Live, LedgerOk, FreshPool;
  }

  lemma RequestRefused(c: Consumer, g: Geometry, images: seq<nat>, done: set<nat>)
    requires c.ledger.frames != []
    ensures var c' := OnGeometry(c, g, images, done);
      && c'.ledger == c.ledger && c'.generation == c.generation && c'.images == c.images && c'.held == c.held
      && c'.frameHeld == c.frameHeld && c'.completions == c.completions
  {
    hide ReadyPrefix, Raise, Resizes;
  }

  /** The first `n` messages reach the consumer; the last of them decides what is pending or asked. */
  lemma {:induction false} DeliverMany(r: Ring, frame: Frame, t: nat, n: nat)
    requires Leased(r, frame, t) && 0 < n <= |r.toC|
    ensures var r' := Run(r, Deliveries(r.c.images, n));
      && Leased(r', frame, t) && r'.p == r.p && r'.toC == r.toC[n..] && r'.done == r.done && r'.open == r.open
      && r'.sent == r.sent && r.toP <= r'.toP
      && if r.toC[n - 1].FrameReady? then r'.c.pendingFence == r.toC[n - 1].fence
         else exists d :: 0 <= d < |r'.toP| && r'.toP[d].RingDesc?
    decreases n
  {
    hide Leased, Apply, Run;
    var r' := Apply(r, Deliver(r.c.images));
    DeliverLeased(r, frame, t);
    RunDeliveries(r, r.c.images, n);
    if n == 1 {
      NoDeliveries(r', r.c.images);
      assert !r.toC[0].FrameReady? ==> r'.toP[|r.toP|].RingDesc?;
    } else {
      DeliverMany(r', frame, t, n - 1);
    }
  }

  /** With nothing unfinished but the lease, reading it ends in an attachment that loses the timeline. */
  lemma AttachLoses(r: Ring, frame: Frame, t: nat)
    requires Leased(r, frame, t) && FenceReady(r.c.pendingFence, r.done)
    ensures Loses(r, [CompleteToken(t), Collect] + [Close], Attach)
  {
    hide Inv, Apply, Run, AllSignalled, Unmixed;
    var read := [CompleteToken(t), Collect];
    LeasedThrough(r, frame, t);
    T.RunConcat(r, read, [Close]);
    T.RunOne(Run(r, read), Close);
    ClosedAttaches(Run(r, read));
    assert read + [Close] == [CompleteToken(t), Collect, Close];
    PlainIsUnmixed(r, read + [Close]);
  }

  lemma ClosedAttaches(r: Ring)
    requires Overdue(r) && FenceReady(r.c.pendingFence, r.done)
    ensures var b := Apply(r, Close);
      b.sent == r.sent && b.done == r.done && Apply(b, Attach).c.generation == b.c.generation + 1
  {
    hide Inv, AllSignalled, AdvanceConsumer, FenceReady;
    OverdueIsQuiescent(r);
    T.AdvanceKeepsLedger(r.c, r.done);
  }

  /** What can be lost after some plain steps can be lost. */
  lemma LostAfter(r: Ring, prep: seq<Step>)
    requires Plain(prep) && TimelineCanBeLost(Run(r, prep))
    ensures TimelineCanBeLost(r)
  {
    hide Apply, Run, Unmixed, AllSignalled;
    var steps :| Loses(Run(r, prep), steps, Attach);
    T.RunConcat(r, prep, steps);
    PlainThenUnmixed(r, prep, steps);
    assert Loses(r, prep + steps, Attach);
  }

  lemma {:induction false} PlainThenUnmixed(r: Ring, prep: seq<Step>, steps: seq<Step>)
    requires Plain(prep) && Unmixed(Run(r, prep), steps)
    ensures Unmixed(r, prep + steps)
    decreases |prep|
  {
    hide Apply;
    if prep == [] {
      assert prep + steps == steps;
    } else {
      assert (prep + steps)[1..] == prep[1..] + steps;
      assert forall i :: 0 <= i < |prep[1..]| ==> prep[1..][i] == prep[i + 1];
      PlainThenUnmixed(Apply(r, prep[0]), prep[1..], steps);
    }
  }

  /** A ready frame in flight clears the way. */
  lemma InFlightLoses(r: Ring, frame: Frame, t: nat)
    requires Leased(r, frame, t) && ReadyInFlight(r.toC, r.done)
    ensures TimelineCanBeLost(r)
  {
    hide Leased, Run, Loses, FenceReady;
    var k :| 0 <= k < |r.toC| && r.toC[k].FrameReady? && FenceReady(r.toC[k].fence, r.done);
    var prep := Deliveries(r.c.images, k + 1);
    DeliverMany(r, frame, t, k + 1);
    AttachLoses(Run(r, prep), frame, t);
    LostAfter(r, prep);
  }

  // ---- the producer publishes one -------------------------------------------------------------------

  /** Producer steps keep the lease. */
  lemma StaysLeased(r: Ring, r': Ring, frame: Frame, t: nat)
    requires Leased(r, frame, t) && Inv(r') && ConsumerStays(r, r') && r'.p.generation == r.p.generation
    ensures Leased(r', frame, t)
  {
    hide Inv, AllSignalled;
  }

  lemma EndPublishes(r: Ring)
    requires Inv(r) && ProducerRuns(r) && r.p.submittingValue != 0
    ensures var r' := Apply(r, EndSubmit(r.p.submittingSlot, 0));
      ConsumerStays(r, r') && ReadyInFlight(r'.toC, r'.done) && r'.p.generation == r.p.generation
  {
    hide FramesOk, SentOk, QueueOk, ConsumerOk, SlotsOk, NewestOk, Live, NoRequest, NoReply;
    RingSteps.RunningIsSynced(r);
    var r' := Apply(r, EndSubmit(r.p.submittingSlot, 0));
    assert r'.toC[|r.toC|].FrameReady? && FenceReady(r'.toC[|r.toC|].fence, r.done);
  }

  lemma SubmitPublishes(r: Ring, i: nat)
    requires Inv(r) && ProducerRuns(r) && r.p.submittingValue == 0 && r.p.ready < U64_MAX - 1
    requires i < |r.p.submitValue| && r.p.submitValue[i] == SENTINEL
    ensures var r' := Apply(r, SubmitSync(i, 0, None));
      ConsumerStays(r, r') && ReadyInFlight(r'.toC, r'.done) && r'.p.generation == r.p.generation
  {
    hide FramesOk, SentOk, QueueOk, ConsumerOk, SlotsOk, NewestOk, Live, NoRequest, NoReply;
    RingSteps.RunningIsSynced(r);
    var r' := Apply(r, SubmitSync(i, 0, None));
    assert r'.toC[|r.toC|].FrameReady? && FenceReady(r'.toC[|r.toC|].fence, r.done);
  }

  lemma PublishingLoses(r: Ring, step: Step, frame: Frame, t: nat)
    requires Leased(r, frame, t) && Plain([step])
    requires var r' := Apply(r, step);
      ConsumerStays(r, r') && ReadyInFlight(r'.toC, r'.done) && r'.p.generation == r.p.generation
    ensures TimelineCanBeLost(r)
  {
    hide Inv, Apply, Run, AllSignalled, TimelineCanBeLost;
    RingSteps.StepKeepsInv(r, step);
    StaysLeased(r, Apply(r, step), frame, t);
    InFlightLoses(Apply(r, step), frame, t);
    T.RunOne(r, step);
    LostAfter(r, [step]);
  }

  /** All the producer's counter can reach it has once its socket is read. */
  lemma ReachIsRead(r: Ring)
    requires Inv(r) && Synced(r) && Releases(r.toP) == []
    ensures AdvanceProducer(r.p, r.done).consumed == Reach(r)
  {
    hide Inv, FenceReady, AdvanceProducer;
    var n := O.ConsumedPrefix(r);
    assert n == ReadyPrefix(r.sent, r.done);
  }

  /** With nothing to read and no pins an obtainable slot is handed out. */
  lemma ObtainableIsAcquired(r: Ring)
    requires Inv(r) && ProducerRuns(r) && Releases(r.toP) == [] && r.p.pins == map[] && SomeObtainable(r)
    requires SENTINEL !in r.p.submitValue
    ensures var r' := Apply(r, Acquire);
      && ConsumerStays(r, r') && ProducerRuns(r') && r'.p.generation == r.p.generation
      && r'.p.submittingValue == r.p.submittingValue && r'.p.ready == r.p.ready && SENTINEL in r'.p.submitValue
  {
    hide Inv, Reach, FenceReady, AdvanceProducer;
    RingSteps.RunningIsSynced(r);
    ReachIsRead(r);
    AcquireKeepsCounters(r.p, r.done);
    AdvanceKeepsPins(r.p, r.done);
    var i :| 0 <= i < |r.p.submitValue| && Obtainable(r, i);
    var a := AdvanceProducer(r.p, r.done);
    assert Available(a, i);
    var slot := FirstAvailable(a, 0);
    assert Apply(r, Acquire).p.submitValue[slot] == SENTINEL;
  }

  lemma AdvanceKeepsPins(p: Producer, done: set<nat>)
    ensures AdvanceProducer(p, done).pins == p.pins
  {
    hide ReadyPrefix, Raise;
  }

  /** Reading messages neither publishes nor takes a slot. */
  lemma {:induction false} ReceivesKeepSlots(r: Ring, n: nat)
    requires Inv(r) && Synced(r) && n <= |r.toP| && r.open
    ensures var r' := Run(r, Receives(n));
      && Inv(r') && ConsumerStays(r, r') && SameSlots(r.p, r'.p) && r'.p.generation == r.p.generation
      && r'.toP == r.toP[n..] && r'.toC == r.toC
      && (!r.p.waiting ==> !r'.p.waiting)
    decreases n
  {
    hide Inv, Apply, Run;
    RunReceives(r, n);
    if n > 0 {
      var r' := Apply(r, Receive);
      ReceivePublishesNothing(r);
      ReceiveStaysRunning(r);
      RingSteps.StepKeepsInv(r, Receive);
      ReceivesKeepSlots(r', n - 1);
    }
  }

  lemma ReceiveStaysRunning(r: Ring)
    ensures (!r.p.waiting ==> !Apply(r, Receive).p.waiting) && Apply(r, Receive).open == r.open
  {
    hide AdvanceProducer;
    if r.open && r.toP != [] && r.toP[0].FrameReleased? {
      AcquireKeepsCounters(r.p.(releases := r.p.releases + [r.toP[0].release]), r.done);
    }
  }

  lemma StaysObtainable(r: Ring, r': Ring)
    requires SomeObtainable(r) && SameSlots(r.p, r'.p) && r'.sent == r.sent && r'.done == r.done
    ensures SomeObtainable(r')
  {
    hide TopOf, ReadyPrefix;
    ObtainableBefore(r', r);
  }

  lemma SubmitLoses(r: Ring, frame: Frame, t: nat)
    requires Leased(r, frame, t) && ProducerRuns(r) && r.p.submittingValue == 0 && r.p.ready < U64_MAX - 1
      && SENTINEL in r.p.submitValue
    ensures TimelineCanBeLost(r)
  {
    hide Leased, Apply, ReadyInFlight, TimelineCanBeLost, ConsumerStays, Inv;
    LeasedIsInv(r, frame, t);
    var i :| 0 <= i < |r.p.submitValue| && r.p.submitValue[i] == SENTINEL;
    SubmitPublishes(r, i);
    PublishingLoses(r, SubmitSync(i, 0, None), frame, t);
  }

  lemma LeasedIsInv(r: Ring, frame: Frame, t: nat)
    requires Leased(r, frame, t)
    ensures Inv(r) && Synced(r)
  {
    hide Inv, AllSignalled;
  }

  lemma AcquireLoses(r: Ring, frame: Frame, t: nat)
    requires Leased(r, frame, t) && ProducerRuns(r) && r.p.submittingValue == 0 && r.p.ready < U64_MAX - 1
    requires SENTINEL !in r.p.submitValue && r.toP == [] && r.p.pins == map[] && SomeObtainable(r)
    ensures TimelineCanBeLost(r)
  {
    hide Leased, Apply, Run, TimelineCanBeLost, Inv, SomeObtainable;
    LeasedIsInv(r, frame, t);
    ObtainableIsAcquired(r);
    RingSteps.StepKeepsInv(r, Acquire);
    StaysLeased(r, Apply(r, Acquire), frame, t);
    SubmitLoses(Apply(r, Acquire), frame, t);
    T.RunOne(r, Acquire);
    LostAfter(r, [Acquire]);
  }

  /** Its socket read and its pins released, the producer acquires and submits. */
  lemma ReadingLoses(r: Ring, frame: Frame, t: nat)
    requires Leased(r, frame, t) && ProducerRuns(r) && r.p.submittingValue == 0 && r.p.ready < U64_MAX - 1
      && SENTINEL !in r.p.submitValue && SomeObtainable(r)
    ensures TimelineCanBeLost(r)
  {
    hide Leased, Apply, Run, TimelineCanBeLost, SomeObtainable, Inv;
    LeasedIsInv(r, frame, t);
    ReceivesKeepSlots(r, |r.toP|);
    var r1 := Run(r, Receives(|r.toP|));
    StaysLeased(r, r1, frame, t);
    StaysObtainable(r, r1);
    UnpinningLoses(r1, frame, t);
    LostAfter(r, Receives(|r.toP|));
  }

  lemma UnpinningLoses(r: Ring, frame: Frame, t: nat)
    requires Leased(r, frame, t) && ProducerRuns(r) && r.p.submittingValue == 0 && r.p.ready < U64_MAX - 1
    requires SENTINEL !in r.p.submitValue && r.toP == [] && SomeObtainable(r)
    ensures TimelineCanBeLost(r)
  {
    hide Leased, Apply, Run, TimelineCanBeLost, SomeObtainable, Inv;
    LeasedIsInv(r, frame, t);
    var unpin := ReleasePins(r);
    var r' := Run(r, unpin);
    StaysLeased(r, r', frame, t);
    StaysObtainable(r, r');
    AcquireLoses(r', frame, t);
    LostAfter(r, unpin);
  }

  /** From a running producer: read, unpin, acquire and submit, as far as each is needed. */
  lemma PublishFrom(r: Ring, frame: Frame, t: nat)
    requires Leased(r, frame, t) && ProducerRuns(r) && CanPublish(r)
    ensures TimelineCanBeLost(r)
  {
    hide Leased, Apply, TimelineCanBeLost, SomeObtainable, ReadyInFlight, Inv;
    if r.p.submittingValue != 0 {
      LeasedIsInv(r, frame, t);
      EndPublishes(r);
      PublishingLoses(r, EndSubmit(r.p.submittingSlot, 0), frame, t);
    } else if SENTINEL in r.p.submitValue {
      SubmitLoses(r, frame, t);
    } else {
      ReadingLoses(r, frame, t);
    }
  }

  /** A blocked producer whose reply is on its way goes on as before. */
  lemma ReplyLoses(r: Ring, frame: Frame, t: nat)
    requires Leased(r, frame, t) && r.p.waiting && CanPublish(r) && exists d :: 0 <= d < |r.toP| && r.toP[d].RingDesc?
    ensures TimelineCanBeLost(r)
  {
    hide Leased, Apply, Run, TimelineCanBeLost, Inv, SomeObtainable;
    LeasedIsInv(r, frame, t);
    var steps := ReadReply(r);
    ReceivesKeepSlots(r, |steps|);
    var r' := Run(r, steps);
    StaysLeased(r, r', frame, t);
    if r.p.submittingValue == 0 {
      StaysObtainable(r, r');
    }
    PublishFrom(r', frame, t);
    LostAfter(r, steps);
  }

  /** Whatever the producer is doing, if it can publish the way is clear. */
  lemma PublishLoses(r: Ring, frame: Frame, t: nat)
    requires Leased(r, frame, t) && CanPublish(r)
    ensures TimelineCanBeLost(r)
  {
    hide Leased, Apply, Run, TimelineCanBeLost, Inv, SomeObtainable, NoRequest, NoReply;
    LeasedIsInv(r, frame, t);
    if !r.p.waiting {
      PublishFrom(r, frame, t);
    } else {
      WaitingPhases(r);
      if Asked(r.toC, r.toP) {
        var prep := Deliveries(r.c.images, |r.toC|);
        DeliverMany(r, frame, t, |r.toC|);
        var r' := Run(r, prep);
        if r.p.submittingValue == 0 {
          StaysObtainable(r, r');
        }
        ReplyLoses(r', frame, t);
        LostAfter(r, prep);
      } else {
        ReplyLoses(r, frame, t);
      }
    }
  }

  // ---- exactly when ---------------------------------------------------------------------------------

  lemma ClearingLoses(r: Ring, frame: Frame, t: nat)
    requires Leased(r, frame, t) && PendingCanClear(r)
    ensures TimelineCanBeLost(r)
  {
    hide Leased, Loses, CanPublish, ReadyInFlight, FenceReady;
    if FenceReady(r.c.pendingFence, r.done) {
      AttachLoses(r, frame, t);
    } else if ReadyInFlight(r.toC, r.done) {
      InFlightLoses(r, frame, t);
    } else {
      PublishLoses(r, frame, t);
    }
  }

  /** Leasing changes nothing about the pending frame. */
  lemma LeaseKeepsPending(r: Ring, frame: Frame)
    ensures var r' := r.(c := LeaseFrame(r.c, frame)); PendingCanClear(r') <==> PendingCanClear(r)
  {
    hide CanPublish, LeaseResult, ReadyInFlight, FenceReady;
    var r' := r.(c := LeaseFrame(r.c, frame));
    SamePublishing(r, r');
  }

  lemma SamePublishing(r: Ring, r': Ring)
    requires r' == r.(c := r'.c)
    ensures CanPublish(r') <==> CanPublish(r)
  {
    hide TopOf, ReadyPrefix, SomeObtainable;
    if SomeObtainable(r) {
      ObtainableBefore(r', r);
    }
    if SomeObtainable(r') {
      ObtainableBefore(r, r');
    }
  }

  lemma LeaseKeepsStuck(r: Ring, frame: Frame)
    requires Inv(r) && Retires(r) && LeaseResult(r.c, frame) == Ok && !AllSignalled(r.c.releases, r.done)
    requires !PendingCanClear(r)
    ensures Stuck(Apply(r, Lease(frame)))
  {
    hide Inv, Truthful, AllSignalled, PendingCanClear, Apply;
    LeasedBehind(r, frame);
    LeaseKeepsPending(r, frame);
    G.ModeStays(r, Lease(frame));
  }

  /**
   * In every ring that unmixed steps lead to: after leasing a frame some continuation, itself unmixed and without a
   * fence signalling, ends in an attachment that renews the timeline under running reads if and only if some release
   * queued at the moment of the lease has not signalled and the pending frame's fence is no obstacle for good: it has
   * signalled, a frame with a signalled fence is already in flight, or the producer can publish another.
   */
  lemma MixingLosesTimeline(r0: Ring, steps: seq<Step>, frame: Frame)
    requires Initial(r0) && Unmixed(r0, steps)
    requires LeaseResult(Run(r0, steps).c, frame) == Ok
    ensures var r := Run(r0, steps);
      TimelineCanBeLost(Apply(r, Lease(frame))) <==> !AllSignalled(r.c.releases, r.done) && PendingCanClear(r)
  {
    hide Inv, Retires, Apply, Run, Initial, AllSignalled, Unmixed, LeaseResult, Loses, Stuck, PendingCanClear, Leased,
      LeaseFrame;
    ReachableRetires(r0, steps);
    var r := Run(r0, steps);
    var s := Apply(r, Lease(frame));
    if AllSignalled(r.c.releases, r.done) {
      forall more ensures !Loses(s, more, Attach) {
        SignalledLosesNothing(r, frame, more, Attach);
      }
    } else if PendingCanClear(r) {
      LeasedBehind(r, frame);
      LeaseKeepsPending(r, frame);
      ClearingLoses(s, frame, r.c.nextToken);
    } else {
      LeaseKeepsStuck(r, frame);
      forall more ensures !Loses(s, more, Attach) {
        StuckLosesNothing(s, more);
      }
    }
  }
}
