/** What a ring gives back: once nothing is under way every frame's slot is free again, unless a frame was dropped. */
module RingReclamation {
  import opened Basics
  import opened Base
  import opened SyncFences
  import opened Rings
  import opened RingInvariant
  import R = RingRetirement
  import RingSteps
  import T = RingTheorems
  import L = Leases
  import P = BufferPins

  /** Nothing is under way: sockets empty, every queued fence signalled, no frame pending, held or leased. */
  ghost predicate Drained(r: Ring) {
    && r.toC == [] && r.toP == [] && !r.c.hasPending && !r.c.frameHeld && r.c.ledger.frames == []
    && AllSignalled(r.p.releases, r.done)
  }

  /** The last frame ever taken is also the last one announced. */
  predicate LastAnnounced(r: Ring) {
    r.c.held.ready == TopOf(r.sent, |r.sent|)
  }

  /** Every slot without a reservation is consumed as far as it was ever submitted. */
  predicate AllConsumed(r: Ring) {
    forall i :: 0 <= i < |r.p.submitValue| && r.p.submitValue[i] != SENTINEL ==>
      r.p.submitValue[i] <= AdvanceProducer(r.p, r.done).consumed
  }

  /** A drained producer has retired every release, and every frame published was taken or skipped. */
  lemma DrainedConsumed(r: Ring)
    requires Inv(r) && Drained(r) && !r.p.waiting
    ensures AdvanceProducer(r.p, r.done).consumed == TopOf(r.sent, |r.sent|) && |r.published| == r.c.held.ready
  {
    hide ConsumerOk, SlotsOk, SubmitOk, Tagged, Increasing;
    RingSteps.RunningIsSynced(r);
    RingSteps.AdvanceKeeps(r);
    var a := AdvanceProducer(r.p, r.done);
    assert FlightItems(r.toC) == [] && Releases(r.toP) == [];
    assert Live(r) == [];
    PrefixIsAll(r.p.releases, r.done);
    assert a.releases + Releases(r.toP) == [];
  }

  lemma {:induction false} PrefixIsAll(q: seq<Release>, done: set<nat>)
    requires AllSignalled(q, done)
    ensures ReadyPrefix(q, done) == |q|
  {
    if q != [] {
      PrefixIsAll(q[1..], done);
    }
  }

  /** On a drained ring a slot is lost exactly when the last frame taken was dropped without an announcement. */
  lemma FreeExactlyWhenAnnounced(r: Ring)
    requires Inv(r) && Drained(r) && !r.p.waiting
    ensures AllConsumed(r) <==> LastAnnounced(r)
  {
    hide FramesOk, SentOk, ConsumerOk, QueueOk, Taken, Coming, NoRequest, NoReply, NewestOk, AdvanceProducer;
    RingSteps.RunningIsSynced(r);
    DrainedConsumed(r);
    TopIsPublished(r);
    var n := |r.published|;
    if n > 0 {
      assert r.p.submitValue[r.published[n - 1]] == n || n <= r.p.consumed;
      RingSteps.AdvanceKeeps(r);
    }
  }

  lemma TopIsPublished(r: Ring)
    requires Inv(r)
    ensures TopOf(r.sent, |r.sent|) <= r.c.held.ready <= |r.published|
    ensures |r.published| < SENTINEL || r.p.waiting
  {
    hide ConsumerOk, QueueOk, SlotsOk, Taken, Coming, Tagged, Increasing, NoRequest, NoReply;
  }

  lemma DrainedSlots(r: Ring)
    requires Inv(r) && !r.p.waiting && AllConsumed(r)
    ensures EverySlotFree(r)
  {
    hide Inv, ReadyPrefix, Raise;
    RingSteps.RunningIsSynced(r);
    T.ConsumedBelowSentinel(r);
    FirstOfFree(AdvanceProducer(r.p, r.done));
  }

  lemma FirstOfFree(a: Producer)
    requires a.consumed < SENTINEL
    requires forall i :: 0 <= i < |a.submitValue| && a.submitValue[i] != SENTINEL ==> a.submitValue[i] <= a.consumed
    ensures forall i :: 0 <= i < |a.submitValue| && a.submitValue[i] != SENTINEL && i !in a.pins.Values ==>
      Available(a, i)
    ensures Reserve(a).1.Some? <==>
      exists i :: 0 <= i < |a.submitValue| && a.submitValue[i] != SENTINEL && i !in a.pins.Values
  {
    var slot := FirstAvailable(a, 0);
    if slot < |a.submitValue| {
      assert a.submitValue[slot] != SENTINEL && slot !in a.pins.Values;
    }
  }

  /** Every slot neither reserved nor pinned can be acquired, and an acquire succeeds exactly when there is one. */
  ghost predicate EverySlotFree(r: Ring) {
    var a := AdvanceProducer(r.p, r.done);
    && (forall i :: 0 <= i < |r.p.submitValue| && r.p.submitValue[i] != SENTINEL && i !in r.p.pins.Values ==>
      Available(a, i))
    && (Reserve(a).1.Some? <==>
        exists i :: 0 <= i < |r.p.submitValue| && r.p.submitValue[i] != SENTINEL && i !in r.p.pins.Values)
  }

  // ---- runs that drop nothing ---------------------------------------------------------------------

  /** Every frame taken is still held or leased, or no newer one than the last announced. */
  predicate Accounted(r: Ring) {
    var taken := Taken(r.c);
    r.c.held.ready == if taken != [] then taken[|taken| - 1].value else TopOf(r.sent, |r.sent|)
  }

  /** The step forgets the held frame without announcing it. */
  predicate Drops(c: Consumer, step: Step) {
    step.Drop? && (c.deferRelease || c.gpuSync)
  }

  lemma SameAccount(r: Ring, r': Ring)
    requires Accounted(r) && r'.c.held == r.c.held && r'.c.frameHeld == r.c.frameHeld
    requires r'.c.ledger.frames == r.c.ledger.frames && r'.sent == r.sent
    ensures Accounted(r')
  {
  }

  lemma NothingTaken(r: Ring)
    requires Taken(r.c) == [] && r.sent == [] && r.c.held.ready == 0
    ensures Accounted(r)
  {
  }

  predicate IsTokenStep(step: Step) {
    step.RetainToken? || step.CompleteToken? || step.DeferToken?
  }

  predicate IsConsumerStep(step: Step) {
    step.TakeFrame? || step.GiveBack? || step.Drop? || step.Lease? || step.Collect? || step.Deliver? || step.Attach?
  }

  /** Steps of the producer and of a GPU. */
  lemma OthersLeaveConsumer(r: Ring, step: Step)
    requires !IsConsumerStep(step) && !IsTokenStep(step)
    ensures Apply(r, step).c == r.c && Apply(r, step).sent == r.sent
  {
    hide Reserve, AdvanceProducer, ApplyRelease, Adopt, Begin, BeginResult, End, EndResult, Cancel, GeometryResult,
      Reserved, P.RetainResult;
  }

  lemma TokensLeaveFrames(r: Ring, step: Step)
    requires IsTokenStep(step)
    ensures var r' := Apply(r, step);
      OnlyTokens(r.c, r'.c) && r'.sent == r.sent
  {
    hide RetainLease, CompleteLease, DeferLease;
    match step
    case RetainToken(t) => TokenCallsLeaveFrames(r.c, t, 0);
    case CompleteToken(t) => TokenCallsLeaveFrames(r.c, t, 0);
    case DeferToken(t, fence) => TokenCallsLeaveFrames(r.c, t, fence);
  }

  lemma TokenCallsLeaveFrames(c: Consumer, t: nat, fence: nat)
    ensures OnlyTokens(c, RetainLease(c, t)) && OnlyTokens(c, CompleteLease(c, t))
      && OnlyTokens(c, DeferLease(c, t, fence))
  {
    hide L.RetainResult, L.Live;
  }

  predicate OnlyTokens(c: Consumer, c': Consumer) {
    && c' == c.(ledger := c'.ledger, nextToken := c'.nextToken, completions := c'.completions)
    && c'.ledger.frames == c.ledger.frames
  }

  predicate SameMode(c: Consumer, c': Consumer) {
    c'.deferRelease == c.deferRelease && c'.gpuSync == c.gpuSync
  }

  /** A geometry request keeps the frames taken, or finds none. */
  lemma RequestLeavesFrames(c: Consumer, g: Geometry, images: seq<nat>, done: set<nat>)
    ensures var c' := OnGeometry(c, g, images, done);
      && SameMode(c, c') && c'.ledger.frames == c.ledger.frames && c'.frameHeld == c.frameHeld
      && if c'.generation == c.generation then c'.held == c.held
         else c'.ledger.frames == [] && !c'.frameHeld && c'.held.ready == 0
  {
    hide AdvanceConsumer, Resizes;
    T.AdvanceKeepsLedger(c, done);
    AdvanceKeepsMode(c, done);
  }

  lemma DeliverAccounted(r: Ring, images: seq<nat>)
    requires Accounted(r)
    ensures Accounted(Apply(r, Deliver(images)))
  {
    hide Accounted, OnGeometry, FreshPool, Taken;
    var r' := Apply(r, Deliver(images));
    if r.toC != [] && r.toC[0].RequestGeometry? {
      RequestLeavesFrames(r.c, r.toC[0].geometry, images, r.done);
    }
    if r'.c.generation == r.c.generation {
      SameAccount(r, r');
    } else {
      NoneTaken(r'.c);
      NothingTaken(r');
    }
  }

  lemma NoneTaken(c: Consumer)
    requires c.ledger.frames == [] && !c.frameHeld
    ensures Taken(c) == []
  {
  }

  lemma AttachAccounted(r: Ring)
    requires Accounted(r)
    ensures Accounted(Apply(r, Attach))
  {
    hide Accounted, AdvanceConsumer, Taken;
    T.AdvanceKeepsLedger(r.c, r.done);
    var r' := Apply(r, Attach);
    if r'.c.generation == r.c.generation {
      SameAccount(r, r');
    } else {
      NoneTaken(r'.c);
      NothingTaken(r');
    }
  }

  lemma TakeAccounted(r: Ring)
    requires Accounted(r)
    ensures Accounted(Apply(r, TakeFrame))
  {
    hide FenceReady;
    var c := AcquireFrame(r.c, r.done);
    if c != r.c {
      assert Taken(c) == LedgerItems(c.ledger.frames) + [Item(c.held.slot, c.held.ready)];
    }
  }

  lemma GiveBackAccounted(r: Ring, fence: Option<nat>)
    requires Inv(r) && Accounted(r)
    ensures Accounted(Apply(r, GiveBack(fence)))
  {
    hide Inv, Accounted, ReleaseResult, ReleaseFrame;
    if ReleaseResult(r.c, r.c.held) == Ok {
      assert ConsumerOk(r.c) by {
        ConsumerIsOk(r);
      }
      RingSteps.GivenBack(r.c, fence, r.done, r.toC);
      AnnouncedLast(Apply(r, GiveBack(fence)));
    }
  }

  lemma ConsumerIsOk(r: Ring)
    requires Inv(r)
    ensures ConsumerOk(r.c)
  {
    hide FramesOk, SentOk, ConsumerOk, PhaseOk, SyncedOk, NewestOk;
  }

  lemma AnnouncedLast(r: Ring)
    requires Taken(r.c) == [] && r.sent != [] && r.sent[|r.sent| - 1].value == r.c.held.ready
    ensures Accounted(r)
  {
  }

  lemma LeaseAccounted(r: Ring, frame: Frame)
    requires Accounted(r)
    ensures Accounted(Apply(r, Lease(frame)))
  {
    hide LeaseResult, LeaseFrame, Taken, Coming;
    if LeaseResult(r.c, frame) == Ok {
      RingSteps.LeaseMovesHeld(r.c, frame, r.toC);
      LeaseKeepsHeld(r.c, frame);
    } else {
      LeaseRefused(r.c, frame);
    }
  }

  lemma LeaseKeepsHeld(c: Consumer, frame: Frame)
    ensures LeaseFrame(c, frame).held == c.held
  {
    hide LeaseResult;
  }

  lemma LeaseRefused(c: Consumer, frame: Frame)
    requires LeaseResult(c, frame) != Ok
    ensures LeaseFrame(c, frame) == c
  {
    hide LeaseResult;
  }

  /** Retiring a prefix leaves the newest frame taken, or announces it. */
  lemma CollectAccounted(r: Ring)
    requires Accounted(r)
    ensures Accounted(Apply(r, Collect))
  {
    hide L.Retirement, L.Retired, Taken;
    var q := PollCompletions(r.c, r.done);
    PollKeepsTaken(r.c, r.done, r.toC);
    var value := L.Retirement(q.ledger);
    if value != 0 {
      var c := q.(retired := value, ledger := L.Retired(q.ledger));
      var m := RingSteps.RetiredFront(r.(c := q), c);
      LastAfterFront(m, Taken(c));
    }
  }

  lemma PollKeepsTaken(c: Consumer, done: set<nat>, toC: seq<ToConsumer>)
    ensures Taken(PollCompletions(c, done)) == Taken(c)
  {
    RingSteps.SameTaken(c, PollCompletions(c, done), toC);
  }

  lemma LastAfterFront(m: seq<Item>, rest: seq<Item>)
    requires m != []
    ensures (m + rest)[|m + rest| - 1] == if rest != [] then rest[|rest| - 1] else m[|m| - 1]
  {
  }

  /** Only dropping the held frame loses track of a frame. */
  lemma StepKeepsAccount(r: Ring, step: Step)
    requires Inv(r) && Accounted(r) && !Drops(r.c, step)
    ensures Accounted(Apply(r, step))
  {
    hide Inv, Accounted, Apply;
    match step
    case TakeFrame => TakeAccounted(r);
    case GiveBack(fence) => GiveBackAccounted(r, fence);
    case Lease(frame) => LeaseAccounted(r, frame);
    case Collect => CollectAccounted(r);
    case Deliver(images) => DeliverAccounted(r, images);
    case Attach => AttachAccounted(r);
    case Drop => DisabledDrop(r);
    case _ =>
      if IsTokenStep(step) {
        TokensLeaveFrames(r, step);
      } else {
        OthersLeaveConsumer(r, step);
      }
      SameAccount(r, Apply(r, step));
  }

  lemma DisabledDrop(r: Ring)
    requires !Drops(r.c, Drop)
    ensures Apply(r, Drop) == r
  {
  }

  /** How a channel releases frames is fixed when it is created. */
  lemma ModeStays(r: Ring, step: Step)
    ensures SameMode(r.c, Apply(r, step).c)
  {
    hide Apply;
    if step.Deliver? {
      DeliverKeepsMode(r, step.images);
    } else if step.Attach? || step.GiveBack? {
      AdvancingKeepsMode(r, step);
    } else if IsConsumerStep(step) {
      ConsumerKeepsMode(r, step);
    } else if IsTokenStep(step) {
      TokensLeaveFrames(r, step);
    } else {
      OthersLeaveConsumer(r, step);
    }
  }

  lemma DeliverKeepsMode(r: Ring, images: seq<nat>)
    ensures SameMode(r.c, Apply(r, Deliver(images)).c)
  {
    hide OnGeometry, FreshPool;
    if r.toC != [] && r.toC[0].RequestGeometry? {
      RequestLeavesFrames(r.c, r.toC[0].geometry, images, r.done);
    }
  }

  lemma AdvancingKeepsMode(r: Ring, step: Step)
    requires step.Attach? || step.GiveBack?
    ensures SameMode(r.c, Apply(r, step).c)
  {
    hide AdvanceConsumer, Quiescent, ReleaseResult;
    AdvanceKeepsMode(r.c, r.done);
    if step.GiveBack? {
      AdvanceKeepsMode(r.c.(releases := r.c.releases + [Release(r.c.held.ready, step.fence)]), r.done);
    }
  }

  lemma ConsumerKeepsMode(r: Ring, step: Step)
    requires step.TakeFrame? || step.Drop? || step.Lease? || step.Collect?
    ensures SameMode(r.c, Apply(r, step).c)
  {
    hide L.Acquire, L.Retirement, L.Retired, LeaseResult, DropResult, CanAcquireFrame;
  }

  lemma AdvanceKeepsMode(c: Consumer, done: set<nat>)
    ensures SameMode(c, AdvanceConsumer(c, done))
  {
    hide ReadyPrefix, Raise;
  }

  ghost predicate DropsNothing(c: Consumer, steps: seq<Step>) {
    forall k :: 0 <= k < |steps| ==> !Drops(c, steps[k])
  }

  lemma {:induction false} RunKeepsAccount(r: Ring, steps: seq<Step>)
    requires Inv(r) && Accounted(r) && DropsNothing(r.c, steps)
    ensures Accounted(Run(r, steps))
    decreases |steps|
  {
    hide Inv, Accounted, Apply;
    if steps != [] {
      assert !Drops(r.c, steps[0]);
      StepKeepsAccount(r, steps[0]);
      RingSteps.StepKeepsInv(r, steps[0]);
      ModeStays(r, steps[0]);
      RunKeepsAccount(Apply(r, steps[0]), steps[1..]);
    }
  }

  lemma DrainedIsAnnounced(r: Ring)
    requires Drained(r) && Accounted(r)
    ensures LastAnnounced(r)
  {
  }

  /**
   * No slot leaks. In every run that drops no frame, whatever the channel's way of releasing and however many
   * frames were skipped, a drained ring offers every slot that is neither reserved nor pinned.
   */
  lemma NoSlotLeak(r0: Ring, steps: seq<Step>)
    requires Initial(r0) && DropsNothing(r0.c, steps)
    requires Drained(Run(r0, steps)) && !Run(r0, steps).p.waiting
    ensures EverySlotFree(Run(r0, steps))
  {
    hide Run, Inv, Drained, AllConsumed, EverySlotFree, Accounted, DropsNothing, LastAnnounced;
    var r := Run(r0, steps);
    T.InitialInv(r0);
    T.RunKeepsInv(r0, steps);
    InitiallyAccounted(r0);
    RunKeepsAccount(r0, steps);
    DrainedIsAnnounced(r);
    FreeExactlyWhenAnnounced(r);
    DrainedSlots(r);
  }

  lemma InitiallyAccounted(r: Ring)
    requires Initial(r)
    ensures Accounted(r)
  {
    hide FreshPool;
  }

  /**
   * With drops a slot leaks in a drained ring exactly when the last frame taken was dropped and not announced; a
   * later announcement brings it back.
   */
  lemma LeakExactlyAfterDrop(r0: Ring, steps: seq<Step>)
    requires Initial(r0) && Drained(Run(r0, steps)) && !Run(r0, steps).p.waiting
    ensures AllConsumed(Run(r0, steps)) <==> LastAnnounced(Run(r0, steps))
    ensures LastAnnounced(Run(r0, steps)) ==> EverySlotFree(Run(r0, steps))
  {
    hide Run, Inv, Drained, AllConsumed, EverySlotFree, LastAnnounced;
    var r := Run(r0, steps);
    T.InitialInv(r0);
    T.RunKeepsInv(r0, steps);
    FreeExactlyWhenAnnounced(r);
    if LastAnnounced(r) {
      DrainedSlots(r);
    }
  }

  /** Dropping always loses track: the frame is newer than anything announced. */
  lemma DropForgets(r: Ring)
    requires Inv(r) && Drops(r.c, Drop) && DropResult(r.c, r.c.held) == Ok
    ensures !LastAnnounced(Apply(r, Drop)) && Taken(Apply(r, Drop).c) == []
  {
    hide Inv, TopOf, FlightItems;
    R.SentBelowHeldFrame(r);
    DropOnly(r);
  }

  lemma DropOnly(r: Ring)
    requires Drops(r.c, Drop) && DropResult(r.c, r.c.held) == Ok
    ensures Apply(r, Drop) == r.(c := r.c.(frameHeld := false)) && r.c.frameHeld && r.c.ledger.frames == []
  {
  }

  // ---- the producer reads what was announced ------------------------------------------------------

  /** Drained but for announcements on their way to the producer. */
  ghost predicate DrainedUnread(r: Ring) {
    && r.toC == [] && !r.c.hasPending && !r.c.frameHeld && r.c.ledger.frames == []
    && AllSignalled(r.p.releases, r.done) && AllSignalled(Releases(r.toP), r.done)
  }

  lemma ReceiveDrains(r: Ring)
    requires r.open && !r.p.waiting && DrainedUnread(r) && NoReply(r.toP) && r.toP != []
    ensures var r' := Apply(r, Receive);
      && DrainedUnread(r') && NoReply(r'.toP) && r' == r.(p := r'.p, toP := r.toP[1..])
      && r'.p == r.p.(releases := r'.p.releases, consumed := r'.p.consumed)
  {
    hide Raise, FenceReady;
    RingSteps.TailOfNoReply(r.toP);
    var release := r.toP[0].release;
    assert Releases(r.toP) == [release] + Releases(r.toP[1..]);
    SignalledSplits([release], Releases(r.toP[1..]), r.done);
    assert [release][0] == release;
    SignalledJoins(r.p.releases, release, r.done);
    var q := r.p.releases + [release];
    var k := ReadyPrefix(q, r.done);
    assert q[..k] + q[k..] == q;
    SignalledSplits(q[..k], q[k..], r.done);
  }

  lemma SignalledSplits(a: seq<Release>, b: seq<Release>, done: set<nat>)
    requires AllSignalled(a + b, done)
    ensures AllSignalled(a, done) && AllSignalled(b, done)
  {
    assert forall k :: 0 <= k < |a| ==> a[k] == (a + b)[k];
    assert forall k :: 0 <= k < |b| ==> b[k] == (a + b)[|a| + k];
  }

  lemma SignalledJoins(a: seq<Release>, x: Release, done: set<nat>)
    requires AllSignalled(a, done) && FenceReady(x.fence, done)
    ensures AllSignalled(a + [x], done)
  {
  }

  /** Reading its socket is all a producer still has to do. */
  lemma {:induction false} ReadingDrains(r: Ring)
    requires r.open && !r.p.waiting && DrainedUnread(r) && NoReply(r.toP)
    ensures var r' := Run(r, Receives(|r.toP|));
      && Drained(r') && r' == r.(p := r'.p, toP := [])
      && r'.p == r.p.(releases := r'.p.releases, consumed := r'.p.consumed)
    decreases |r.toP|
  {
    hide Apply, NoReply, AllSignalled;
    if r.toP != [] {
      ReceiveDrains(r);
      RunReceives(r, |r.toP|);
      ReadingDrains(Apply(r, Receive));
    }
  }
}
