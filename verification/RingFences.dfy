/**
 * The fences of a ring that no counter shows: the fence a frame was submitted with, until it is read, and the fence the
 * end of a read was left to, until the frame is given up.
 */
module RingFences {
  import opened Basics
  import opened Base
  import opened SyncFences
  import opened Rings
  import opened RingInvariant
  import RingSteps
  import L = Leases
  import P = BufferPins

  // ---- what is kept ---------------------------------------------------------------------------------

  /** Some deferred reader still pins the frame and waits for the fence. */
  ghost predicate StillRead(c: Consumer, d: Deferral) {
    exists t :: Waits(c, t, d)
  }

  predicate Waits(c: Consumer, t: nat, d: Deferral) {
    && t in c.completions && c.completions[t] == d.fence
    && t in c.ledger.readers && c.ledger.readers[t].value == d.value
  }

  /** A read left to a fence is over only once the fence has signalled. */
  ghost predicate DeferralsOk(c: Consumer, deferrals: seq<Deferral>, done: set<nat>) {
    forall m :: 0 <= m < |deferrals| ==> deferrals[m].fence in done || StillRead(c, deferrals[m])
  }

  /** The frame is announced with what it was submitted with. */
  predicate Shows(shots: seq<Shot>, value: nat, ptsNs: int, fence: Option<nat>) {
    1 <= value <= |shots| && shots[value - 1] == Shot(ptsNs, fence)
  }

  /** The writes of the frame are over, unless waiting for them is the reader's own business. */
  predicate Written(shots: seq<Shot>, value: nat, gpuSync: bool, done: set<nat>) {
    1 <= value <= |shots| && (gpuSync || FenceReady(shots[value - 1].fence, done))
  }

  ghost predicate FlightOk(toC: seq<ToConsumer>, shots: seq<Shot>) {
    forall k :: 0 <= k < |toC| && toC[k].FrameReady? ==> Shows(shots, toC[k].ready, toC[k].ptsNs, toC[k].fence)
  }

  ghost predicate TakenOk(c: Consumer, shots: seq<Shot>, done: set<nat>) {
    && (c.hasPending ==> Shows(shots, c.pending.ready, c.pending.ptsNs, c.pendingFence))
    && (c.frameHeld ==> Written(shots, c.held.ready, c.gpuSync, done) && shots[c.held.ready - 1].ptsNs == c.held.ptsNs)
    && forall i :: 0 <= i < |c.ledger.frames| ==> Written(shots, c.ledger.frames[i].ready, c.gpuSync, done)
  }

  /** Every reader left to a fence is waiting for it. */
  predicate PendingOk(c: Consumer) {
    forall t :: t in c.ledger.readers && c.ledger.readers[t].pending ==> t in c.completions
  }

  ghost predicate FencesOk(r: Ring) {
    && |r.shots| == |r.published| && FlightOk(r.toC, r.shots) && TakenOk(r.c, r.shots, r.done)
    && DeferralsOk(r.c, r.deferrals, r.done) && PendingOk(r.c)
  }

  // ---- the producer's side --------------------------------------------------------------------------

  predicate IsProducerCall(step: Step) {
    step.Receive? || step.Acquire? || step.CancelSlot? || step.BeginSubmit? || step.RetainReference?
    || step.ReleaseReference? || step.AskGeometry? || step.Close?
  }

  lemma CallsLeaveConsumer(r: Ring, step: Step)
    requires IsProducerCall(step)
    ensures var r' := Apply(r, step);
      && r'.c == r.c && r'.done == r.done && r'.published == r.published && r'.shots == r.shots
      && r'.deferrals == r.deferrals && r'.sent == r.sent
      && (r'.toC == r.toC || exists g :: r'.toC == r.toC + [RequestGeometry(g)])
  {
    hide Reserve, AdvanceProducer, ApplyRelease, Adopt, Begin, BeginResult, Cancel, GeometryResult, Reserved,
      P.RetainResult;
  }

  lemma CallsKeepFences(r: Ring, step: Step)
    requires FencesOk(r) && IsProducerCall(step)
    ensures FencesOk(Apply(r, step))
  {
    hide TakenOk, DeferralsOk, Apply, Shows;
    CallsLeaveConsumer(r, step);
  }

  lemma MoreShots(r: Ring, shot: Shot)
    requires FlightOk(r.toC, r.shots) && TakenOk(r.c, r.shots, r.done)
    ensures FlightOk(r.toC, r.shots + [shot]) && TakenOk(r.c, r.shots + [shot], r.done)
  {
    hide FenceReady;
    assert forall i :: 0 <= i < |r.shots| ==> (r.shots + [shot])[i] == r.shots[i];
  }

  /** A frame is announced under the next value. */
  lemma PublishKeepsFences(r: Ring, p: Producer, slot: nat, ptsNs: int, fence: Option<nat>)
    requires FencesOk(r)
    ensures FencesOk(Publish(r, p, slot, |r.published| + 1, ptsNs, fence))
  {
    hide TakenOk, DeferralsOk;
    MoreShots(r, Shot(ptsNs, fence));
  }

  lemma SubmitKeepsFences(r: Ring, step: Step)
    requires Inv(r) && FencesOk(r) && (step.EndSubmit? || step.SubmitSync?)
    ensures FencesOk(Apply(r, step))
  {
    hide FencesOk, Apply, Publish;
    if Apply(r, step) != r {
      match step
      case EndSubmit(slot, ptsNs) =>
        var p := Ends(r, slot, ptsNs);
        PublishKeepsFences(r, p, slot, ptsNs, None);
      case SubmitSync(slot, ptsNs, fence) =>
        var p := Submits(r, slot, ptsNs, fence);
        PublishKeepsFences(r, p, slot, ptsNs, fence);
    }
  }

  lemma Ends(r: Ring, slot: nat, ptsNs: int) returns (p: Producer)
    requires Inv(r) && Apply(r, EndSubmit(slot, ptsNs)) != r
    ensures Apply(r, EndSubmit(slot, ptsNs)) == Publish(r, p, slot, |r.published| + 1, ptsNs, None)
  {
    hide FramesOk, SentOk, QueueOk, ConsumerOk, SlotsOk, NewestOk, Taken, Coming, NoRequest, NoReply;
    RingSteps.RunningIsSynced(r);
    p := End(r.p, slot, ImageAt(r.p.images, slot), r.p.submittingValue, true);
  }

  lemma Submits(r: Ring, slot: nat, ptsNs: int, fence: Option<nat>) returns (p: Producer)
    requires Inv(r) && Apply(r, SubmitSync(slot, ptsNs, fence)) != r
    ensures Apply(r, SubmitSync(slot, ptsNs, fence)) == Publish(r, p, slot, |r.published| + 1, ptsNs, fence)
  {
    hide FramesOk, SentOk, QueueOk, ConsumerOk, SlotsOk, NewestOk, Taken, Coming, NoRequest, NoReply;
    RingSteps.RunningIsSynced(r);
    var begun := Begin(r.p, slot, ImageAt(r.p.images, slot), true);
    p := End(begun, slot, ImageAt(r.p.images, slot), begun.submittingValue, true);
  }

  lemma SignalKeepsFences(r: Ring, f: nat)
    requires FencesOk(r)
    ensures FencesOk(Apply(r, SignalFence(f)))
  {
    hide Waits;
  }

  // ---- the consumer's side --------------------------------------------------------------------------

  /** Every waiting reader is still there, or its fence has signalled. */
  lemma DeferralsStay(c: Consumer, c': Consumer, deferrals: seq<Deferral>, done: set<nat>)
    requires DeferralsOk(c, deferrals, done)
    requires forall t :: t in c.completions && t in c.ledger.readers ==>
      c.completions[t] in done
      || (t in c'.completions && c'.completions[t] == c.completions[t]
          && t in c'.ledger.readers && c'.ledger.readers[t].value == c.ledger.readers[t].value)
    ensures DeferralsOk(c', deferrals, done)
  {
    forall m | 0 <= m < |deferrals| ensures deferrals[m].fence in done || StillRead(c', deferrals[m]) {
      if deferrals[m].fence !in done {
        var t :| Waits(c, t, deferrals[m]);
        assert Waits(c', t, deferrals[m]);
      }
    }
  }

  lemma SameTable(c: Consumer, c': Consumer, deferrals: seq<Deferral>, done: set<nat>)
    requires DeferralsOk(c, deferrals, done) && c'.completions == c.completions && c'.ledger.readers == c.ledger.readers
    ensures DeferralsOk(c', deferrals, done)
  {
    hide DeferralsOk;
    DeferralsStay(c, c', deferrals, done);
  }

  /** Taking the pending frame: its fence has signalled, unless waiting is the reader's own business. */
  lemma TakeKeepsFences(r: Ring)
    requires FencesOk(r)
    ensures FencesOk(Apply(r, TakeFrame))
  {
    hide DeferralsOk, FlightOk, FenceReady;
    SameTable(r.c, AcquireFrame(r.c, r.done), r.deferrals, r.done);
  }

  lemma GiveKeepsFences(r: Ring, step: Step)
    requires FencesOk(r) && (step.GiveBack? || step.Drop?)
    ensures FencesOk(Apply(r, step))
  {
    hide DeferralsOk, FlightOk, Shows, Written, ReadyPrefix, Raise, ReleaseResult, DropResult;
    SameTable(r.c, Apply(r, step).c, r.deferrals, r.done);
  }

  lemma LeaseKeepsFences(r: Ring, frame: Frame)
    requires Inv(r) && FencesOk(r)
    ensures FencesOk(Apply(r, Lease(frame)))
  {
    hide Inv, DeferralsOk, FlightOk, Shows, FenceReady, L.AddReaderResult;
    if LeaseResult(r.c, frame) == Ok {
      TokensBehind(r);
      DeferralsStay(r.c, LeaseFrame(r.c, frame), r.deferrals, r.done);
    }
  }

  lemma TokensBehind(r: Ring)
    requires Inv(r)
    ensures r.c.nextToken !in r.c.ledger.readers && L.AllDeferred(r.c.ledger, r.c.completions)
  {
    hide FramesOk, SentOk, PhaseOk, SyncedOk, NewestOk, L.Valid, Imaged, FreshPool;
  }

  lemma RetainKeepsFences(r: Ring, t: nat)
    requires Inv(r) && FencesOk(r)
    ensures FencesOk(Apply(r, RetainToken(t)))
  {
    hide Inv, DeferralsOk, FlightOk, Shows, Written, L.AddReaderResult;
    TokensBehind(r);
    DeferralsStay(r.c, RetainLease(r.c, t), r.deferrals, r.done);
  }

  lemma CompleteKeepsFences(r: Ring, t: nat)
    requires Inv(r) && FencesOk(r)
    ensures FencesOk(Apply(r, CompleteToken(t)))
  {
    hide Inv, DeferralsOk, FlightOk, Shows, Written;
    TokensBehind(r);
    DeferralsStay(r.c, CompleteLease(r.c, t), r.deferrals, r.done);
  }

  /** The read is remembered, and its reader waits. */
  lemma DeferKeepsFences(r: Ring, t: nat, f: nat)
    requires Inv(r) && FencesOk(r)
    ensures FencesOk(Apply(r, DeferToken(t, f)))
  {
    hide Inv, FlightOk, Shows, Written;
    TokensBehind(r);
    var c := DeferLease(r.c, t, f);
    if c != r.c {
      var d := Deferral(r.c.ledger.readers[t].value, f);
      DeferralsStay(r.c, c, r.deferrals, r.done);
      assert Waits(c, t, d);
    }
  }

  lemma CollectKeepsFences(r: Ring)
    requires FencesOk(r)
    ensures FencesOk(Apply(r, Collect))
  {
    hide DeferralsOk, FlightOk, Shows, Written, L.Retirement, L.FreePrefix;
    DeferralsStay(r.c, Apply(r, Collect).c, r.deferrals, r.done);
  }

  lemma NothingTaken(r: Ring)
    requires r.shots == [] && r.published == [] && r.deferrals == [] && !r.c.hasPending && !r.c.frameHeld
    requires r.c.ledger.frames == [] && NoFrames(r.toC) && PendingOk(r.c)
    ensures FencesOk(r)
  {
  }

  predicate NoFrames(toC: seq<ToConsumer>) {
    forall k :: 0 <= k < |toC| ==> !toC[k].FrameReady?
  }

  lemma DeliverFrameKeepsFences(r: Ring, images: seq<nat>)
    requires FencesOk(r) && r.toC != [] && r.toC[0].FrameReady?
    ensures FencesOk(DeliverOne(r, images))
  {
    hide DeferralsOk, Written;
    SameTable(r.c, DeliverOne(r, images).c, r.deferrals, r.done);
  }

  lemma DeliverRequestKeepsFences(r: Ring, images: seq<nat>)
    requires Inv(r) && FencesOk(r) && r.toC != [] && r.toC[0].RequestGeometry?
    ensures FencesOk(DeliverOne(r, images))
  {
    hide Inv, DeferralsOk, Shows, Written, OnGeometry, TakenOk;
    OnlyRequest(r);
    var c := OnGeometry(r.c, r.toC[0].geometry, images, r.done);
    RequestLeavesFrames(r.c, r.toC[0].geometry, images, r.done);
    if c.generation != r.c.generation {
      NothingTaken(DeliverOne(r, images));
    } else {
      SameTable(r.c, c, r.deferrals, r.done);
      SameTaken(r.c, c, r.shots, r.done);
    }
  }

  lemma OnlyRequest(r: Ring)
    requires Inv(r) && r.toC != [] && r.toC[0].RequestGeometry?
    ensures |r.toC| == 1
  {
    hide FramesOk, SentOk, QueueOk, ConsumerOk, SyncedOk, NewestOk, Taken, Coming;
    RingSteps.RequestAtHead(r);
  }

  lemma SameTaken(c: Consumer, c': Consumer, shots: seq<Shot>, done: set<nat>)
    requires TakenOk(c, shots, done) && SameFrames(c, c')
    ensures TakenOk(c', shots, done)
  {
    hide Shows, Written;
  }

  predicate SameFrames(c: Consumer, c': Consumer) {
    && c'.hasPending == c.hasPending && c'.pending == c.pending && c'.pendingFence == c.pendingFence
    && c'.frameHeld == c.frameHeld && c'.held == c.held && c'.gpuSync == c.gpuSync && c'.ledger == c.ledger
    && c'.completions == c.completions
  }

  predicate SameReaders(c: Consumer, c': Consumer) {
    c'.ledger.readers == c.ledger.readers && c'.completions == c.completions
  }

  /** A request leaves every frame where it is, or finds none. */
  lemma RequestLeavesFrames(c: Consumer, g: Geometry, images: seq<nat>, done: set<nat>)
    ensures var c' := OnGeometry(c, g, images, done);
      if c'.generation == c.generation then SameFrames(c, c')
      else !c'.hasPending && !c'.frameHeld && c'.ledger.frames == [] && SameReaders(c, c')
  {
    hide AdvanceConsumer, Resizes;
    AdvanceLeavesFrames(c, done);
  }

  lemma AdvanceLeavesFrames(c: Consumer, done: set<nat>)
    ensures SameFrames(c, AdvanceConsumer(c, done)) && AdvanceConsumer(c, done).generation == c.generation
  {
    hide ReadyPrefix, Raise;
  }

  lemma AttachKeepsFences(r: Ring)
    requires FencesOk(r)
    ensures FencesOk(Apply(r, Attach))
  {
    hide DeferralsOk, Shows, Written, AdvanceConsumer, TakenOk, FlightOk;
    AdvanceLeavesFrames(r.c, r.done);
    if !r.open {
      if AttachAccepted(r.c, r.done) {
        NothingInFlight();
        NothingTaken(Apply(r, Attach));
      } else {
        SameTable(r.c, AdvanceConsumer(r.c, r.done), r.deferrals, r.done);
        SameTaken(r.c, AdvanceConsumer(r.c, r.done), r.shots, r.done);
      }
    }
  }

  lemma NothingInFlight()
    ensures NoFrames([])
  {
  }

  lemma DeliverKeepsFences(r: Ring, images: seq<nat>)
    requires Inv(r) && FencesOk(r)
    ensures FencesOk(Apply(r, Deliver(images)))
  {
    hide Inv, FencesOk, DeliverOne, FreshPool;
    if r.toC != [] && FreshPool(r.c, images) {
      if r.toC[0].FrameReady? {
        DeliverFrameKeepsFences(r, images);
      } else {
        DeliverRequestKeepsFences(r, images);
      }
    }
  }

  lemma StepKeepsFences(r: Ring, step: Step)
    requires Inv(r) && FencesOk(r)
    ensures FencesOk(Apply(r, step))
  {
    hide Inv, FencesOk, Apply;
    match step
    case EndSubmit(_, _) => SubmitKeepsFences(r, step);
    case SubmitSync(_, _, _) => SubmitKeepsFences(r, step);
    case Deliver(images) => DeliverKeepsFences(r, images);
    case Attach => AttachKeepsFences(r);
    case TakeFrame => TakeKeepsFences(r);
    case GiveBack(_) => GiveKeepsFences(r, step);
    case Drop => GiveKeepsFences(r, step);
    case Lease(frame) => LeaseKeepsFences(r, frame);
    case RetainToken(t) => RetainKeepsFences(r, t);
    case CompleteToken(t) => CompleteKeepsFences(r, t);
    case DeferToken(t, f) => DeferKeepsFences(r, t, f);
    case Collect => CollectKeepsFences(r);
    case SignalFence(f) => SignalKeepsFences(r, f);
    case _ => CallsKeepFences(r, step);
  }

  lemma {:induction false} RunKeepsFences(r: Ring, steps: seq<Step>)
    requires Inv(r) && FencesOk(r)
    ensures FencesOk(Run(r, steps))
    decreases |steps|
  {
    hide Inv, FencesOk, Apply;
    if steps != [] {
      StepKeepsFences(r, steps[0]);
      RingSteps.StepKeepsInv(r, steps[0]);
      RunKeepsFences(Apply(r, steps[0]), steps[1..]);
    }
  }

  lemma InitialFences(r: Ring)
    requires Initial(r)
    ensures FencesOk(r)
  {
    hide FreshPool;
    NothingTaken(r);
  }
}
