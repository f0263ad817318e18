/**
 * When replacing a ring's storage or timeline is safe for the reads it released: the consumer's retired value tells
 * the truth about fences as long as no frame is leased while a release waits for one.
 */
module RingRetirement {
  import opened Basics
  import opened Base
  import opened SyncFences
  import opened Rings
  import opened RingFences
  import opened RingInvariant
  import RingSteps
  import T = RingTheorems
  import L = Leases

  /** Leases are taken only when every queued release has signalled. */
  ghost predicate UnmixedStep(r: Ring, step: Step) {
    step.Lease? && LeaseResult(r.c, step.frame) == Ok ==> AllSignalled(r.c.releases, r.done)
  }

  ghost predicate Unmixed(r: Ring, steps: seq<Step>)
    decreases |steps|
  {
    steps == [] || (UnmixedStep(r, steps[0]) && Unmixed(Apply(r, steps[0]), steps[1..]))
  }

  /** Announcements under way and GPU work left alone: no lease is taken and no fence signals. */
  ghost predicate Plain(steps: seq<Step>) {
    forall i :: 0 <= i < |steps| ==> !steps[i].Lease? && !steps[i].SignalFence?
  }

  lemma {:induction false} PlainIsUnmixed(r: Ring, steps: seq<Step>)
    requires Plain(steps)
    ensures Unmixed(r, steps)
    decreases |steps|
  {
    hide Apply;
    if steps != [] {
      assert forall i :: 0 <= i < |steps[1..]| ==> steps[1..][i] == steps[i + 1];
      PlainIsUnmixed(Apply(r, steps[0]), steps[1..]);
    }
  }

  /** Every unsignalled release is still queued, and its value is still ahead of the retired one. */
  ghost predicate Truthful(releases: seq<Release>, retired: nat, sent: seq<Release>, done: set<nat>) {
    && (forall m :: 0 <= m < |sent| && !FenceReady(sent[m].fence, done) ==> sent[m] in releases)
    && (forall k :: 0 <= k < |releases| && !FenceReady(releases[k].fence, done) ==> retired < releases[k].value)
    && Ascending(releases) && Known(releases, sent)
    && retired <= TopOf(sent, |sent|)
  }

  /** Queued releases were announced. */
  ghost predicate Known(releases: seq<Release>, sent: seq<Release>) {
    forall k :: 0 <= k < |releases| ==> releases[k] in sent && 1 <= releases[k].value <= TopOf(sent, |sent|)
  }

  /** No frame is leased while a release waits for its fence. */
  ghost predicate Retires(r: Ring) {
    && Truthful(r.c.releases, r.c.retired, r.sent, r.done)
    && (r.c.ledger.frames != [] ==> AllSignalled(r.c.releases, r.done))
  }

  // ---- the release queue ----------------------------------------------------------------------------

  /** Popping the ready prefix keeps the account truthful. */
  lemma AdvanceTruthful(releases: seq<Release>, retired: nat, sent: seq<Release>, done: set<nat>)
    requires Truthful(releases, retired, sent, done)
    ensures var k := ReadyPrefix(releases, done); Truthful(releases[k..], Raise(retired, releases[..k]), sent, done)
    ensures AllSignalled(releases, done) ==> AllSignalled(releases[ReadyPrefix(releases, done)..], done)
  {
    hide ReadyPrefix, FenceReady, Known;
    var k := ReadyPrefix(releases, done);
    StillQueued(releases, sent, done, k);
    RaisedBelow(releases, retired, sent, k);
    assert forall i :: 0 <= i < |releases[k..]| ==> releases[k..][i] == releases[k + i];
  }

  lemma StillQueued(releases: seq<Release>, sent: seq<Release>, done: set<nat>, k: nat)
    requires k <= |releases| && Known(releases, sent)
    requires forall i :: 0 <= i < k ==> FenceReady(releases[i].fence, done)
    requires forall m :: 0 <= m < |sent| && !FenceReady(sent[m].fence, done) ==> sent[m] in releases
    ensures forall m :: 0 <= m < |sent| && !FenceReady(sent[m].fence, done) ==> sent[m] in releases[k..]
    ensures Known(releases[k..], sent)
  {
    hide FenceReady;
    forall m | 0 <= m < |sent| && !FenceReady(sent[m].fence, done) ensures sent[m] in releases[k..] {
      var i :| 0 <= i < |releases| && releases[i] == sent[m];
      assert i >= k && releases[k..][i - k] == sent[m];
    }
  }

  /** The retired value after popping some front releases is one of theirs, or what it was. */
  lemma RaisedBelow(releases: seq<Release>, retired: nat, sent: seq<Release>, k: nat)
    requires k <= |releases| && Ascending(releases) && Known(releases, sent) && retired <= TopOf(sent, |sent|)
    ensures var top := Raise(retired, releases[..k]);
      top <= TopOf(sent, |sent|) && forall i :: k <= i < |releases| && retired < releases[i].value ==>
        top < releases[i].value
  {
    var top := Raise(retired, releases[..k]);
    if top != retired {
      var i :| 0 <= i < k && releases[..k][i].value == top;
      assert releases[i].value == top;
    }
  }

  /** A release of the newest frame is announced and queued. */
  lemma PushTruthful(releases: seq<Release>, retired: nat, sent: seq<Release>, done: set<nat>, x: Release)
    requires Truthful(releases, retired, sent, done) && TopOf(sent, |sent|) < x.value
    ensures Truthful(releases + [x], retired, sent + [x], done)
  {
    hide FenceReady;
    var q := releases + [x];
    assert q[|releases|] == x && forall k :: 0 <= k < |releases| ==> q[k] == releases[k];
    forall m | 0 <= m < |sent + [x]| && !FenceReady((sent + [x])[m].fence, done) ensures (sent + [x])[m] in q {
      if m < |sent| {
        assert sent[m] in releases;
      }
    }
  }

  /** A retirement is announced over a queue that has signalled. */
  lemma CollectTruthful(releases: seq<Release>, retired: nat, sent: seq<Release>, done: set<nat>, value: nat)
    requires Truthful(releases, retired, sent, done) && AllSignalled(releases, done) && TopOf(sent, |sent|) < value
    ensures Truthful(releases, value, sent + [Release(value, None)], done)
  {
  }

  lemma MoreSignals(r: Ring, f: nat)
    requires Retires(r)
    ensures Retires(Apply(r, SignalFence(f)))
  {
  }

  /** A quiescent consumer has no unsignalled release behind it. */
  lemma QuietMeansSignalled(r: Ring)
    requires Inv(r) && Retires(r) && Quiescent(AdvanceConsumer(r.c, r.done))
    ensures AllSignalled(r.sent, r.done)
  {
    hide Inv, ReadyPrefix, Raise;
    AdvanceTruthful(r.c.releases, r.c.retired, r.sent, r.done);
    T.AdvanceKeepsLedger(r.c, r.done);
    SentBelowHeld(r);
  }

  lemma SentBelowHeld(r: Ring)
    requires Inv(r)
    ensures TopOf(r.sent, |r.sent|) <= r.c.held.ready
    ensures Live(r) != [] ==> TopOf(r.sent, |r.sent|) < Live(r)[0].value
  {
    hide QueueOk, ConsumerOk, PhaseOk, SyncedOk, NewestOk, Taken, Coming, Increasing, Within, Beyond;
  }

  // ---- every unmixed step ---------------------------------------------------------------------------

  lemma StepKeepsRetires(r: Ring, step: Step)
    requires Inv(r) && Retires(r) && UnmixedStep(r, step)
    ensures Retires(Apply(r, step))
  {
    hide Inv, Retires, Apply;
    match step
    case SignalFence(f) => MoreSignals(r, f);
    case GiveBack(fence) => GiveBackKeepsRetires(r, fence);
    case Collect => CollectKeepsRetires(r);
    case Deliver(images) => DeliverKeepsRetires(r, images);
    case Attach => AttachKeepsRetires(r);
    case _ => OthersKeepRetires(r, step);
  }

  lemma GiveBackKeepsRetires(r: Ring, fence: Option<nat>)
    requires Inv(r) && Retires(r)
    ensures Retires(Apply(r, GiveBack(fence)))
  {
    hide Inv, Truthful, ReadyPrefix, Raise, Live;
    var c := r.c;
    if ReleaseResult(c, c.held) == Ok {
      var x := Release(c.held.ready, fence);
      SentBelowHeldFrame(r);
      PushTruthful(c.releases, c.retired, r.sent, r.done, x);
      AdvanceTruthful(c.releases + [x], c.retired, r.sent + [x], r.done);
    }
  }

  lemma SentBelowHeldFrame(r: Ring)
    requires Inv(r) && r.c.frameHeld && r.c.ledger.frames == []
    ensures TopOf(r.sent, |r.sent|) < r.c.held.ready
  {
    hide Inv, FlightItems;
    SentBelowHeld(r);
    assert Live(r)[0] == Item(r.c.held.slot, r.c.held.ready);
  }

  lemma CollectKeepsRetires(r: Ring)
    requires Inv(r) && Retires(r)
    ensures Retires(Apply(r, Collect))
  {
    hide Inv, Truthful, L.Retirement, L.Retired, PollCompletions, AllSignalled;
    var q := PollCompletions(r.c, r.done);
    PollKeeps(r.c, r.done);
    var value := L.Retirement(q.ledger);
    if value != 0 {
      RetirementAhead(r, q);
      CollectTruthful(r.c.releases, r.c.retired, r.sent, r.done, value);
    }
  }

  lemma PollKeeps(c: Consumer, done: set<nat>)
    ensures var q := PollCompletions(c, done);
      q.ledger.frames == c.ledger.frames && q.releases == c.releases && q.retired == c.retired
  {
  }

  /** A retirement is ahead of everything announced. */
  lemma RetirementAhead(r: Ring, q: Consumer)
    requires Inv(r) && q.ledger.frames == r.c.ledger.frames && L.Retirement(q.ledger) != 0
    ensures r.c.ledger.frames != [] && TopOf(r.sent, |r.sent|) < L.Retirement(q.ledger)
  {
    hide FramesOk, QueueOk, ConsumerOk, PhaseOk, SyncedOk, NewestOk, L.FreePrefix, Coming;
    var frames, k := r.c.ledger.frames, L.FreePrefix(q.ledger);
    assert Live(r)[k - 1] == Item(frames[k - 1].slot, frames[k - 1].ready);
  }

  lemma DeliverKeepsRetires(r: Ring, images: seq<nat>)
    requires Retires(r)
    ensures Retires(Apply(r, Deliver(images)))
  {
    hide Retires, FreshPool;
    if r.toC != [] && FreshPool(r.c, images) {
      if r.toC[0].FrameReady? {
        FrameKeepsRetires(r, images);
      } else {
        RequestKeepsRetires(r, images);
      }
    }
  }

  lemma FrameKeepsRetires(r: Ring, images: seq<nat>)
    requires Retires(r) && r.toC != [] && r.toC[0].FrameReady?
    ensures Retires(DeliverOne(r, images))
  {
    hide Truthful, AllSignalled;
  }

  lemma RequestKeepsRetires(r: Ring, images: seq<nat>)
    requires Retires(r) && r.toC != [] && r.toC[0].RequestGeometry?
    ensures Retires(DeliverOne(r, images))
  {
    hide Truthful, ReadyPrefix, Raise, AllSignalled, Resizes;
    AdvanceTruthful(r.c.releases, r.c.retired, r.sent, r.done);
    NothingQueued(r.done);
  }

  lemma NothingQueued(done: set<nat>)
    ensures Truthful([], 0, [], done) && AllSignalled([], done)
  {
  }

  lemma AttachKeepsRetires(r: Ring)
    requires Retires(r)
    ensures Retires(Apply(r, Attach))
  {
    hide Truthful, ReadyPrefix, Raise, AllSignalled, FenceReady;
    AdvanceTruthful(r.c.releases, r.c.retired, r.sent, r.done);
    T.AdvanceKeepsLedger(r.c, r.done);
    NothingQueued(r.done);
  }

  lemma OthersKeepRetires(r: Ring, step: Step)
    requires Retires(r) && UnmixedStep(r, step)
    requires !step.SignalFence? && !step.GiveBack? && !step.Collect? && !step.Deliver? && !step.Attach?
    ensures Retires(Apply(r, step))
  {
    hide Retires, UnmixedStep, Apply;
    if IsProducerCall(step) {
      CallsLeaveConsumer(r, step);
      SameRetires(r, Apply(r, step));
    } else if step.EndSubmit? || step.SubmitSync? {
      T.SubmitsKeepGeneration(r, step);
      SubmitsLeaveDone(r, step);
      SameRetires(r, Apply(r, step));
    } else {
      ReadersKeepRetires(r, step);
    }
  }

  lemma SameRetires(r: Ring, r': Ring)
    requires Retires(r) && r'.c == r.c && r'.sent == r.sent && r'.done == r.done
    ensures Retires(r')
  {
  }

  lemma SubmitsLeaveDone(r: Ring, step: Step)
    requires step.EndSubmit? || step.SubmitSync?
    ensures Apply(r, step).done == r.done
  {
    hide Begin, BeginResult, End, EndResult;
  }

  lemma ReadersKeepRetires(r: Ring, step: Step)
    requires Retires(r) && UnmixedStep(r, step)
    requires step.TakeFrame? || step.Drop? || step.Lease? || step.RetainToken? || step.CompleteToken?
      || step.DeferToken?
    ensures Retires(Apply(r, step))
  {
    hide Truthful, AllSignalled, L.AcquireResult, L.AddReaderResult, L.RetainResult, L.Live, CanAcquireFrame,
      DropResult, LeaseResult;
  }

  lemma {:induction false} RunKeepsRetires(r: Ring, steps: seq<Step>)
    requires Inv(r) && Retires(r) && Unmixed(r, steps)
    ensures Retires(Run(r, steps)) && Inv(Run(r, steps))
    decreases |steps|
  {
    hide Inv, Retires, Apply, UnmixedStep;
    if steps != [] {
      RingSteps.StepKeepsInv(r, steps[0]);
      StepKeepsRetires(r, steps[0]);
      RunKeepsRetires(Apply(r, steps[0]), steps[1..]);
    }
  }

  lemma InitialRetires(r: Ring)
    requires Initial(r)
    ensures Retires(r)
  {
  }

  /**
   * In every run whose leases find all queued releases signalled, storage or timeline is replaced only when no frame
   * is held or leased and the fence of every release ever announced in the old generation has signalled.
   */
  lemma ReplacedOnlyWhenQuiet(r0: Ring, steps: seq<Step>, step: Step)
    requires Initial(r0) && Unmixed(r0, steps)
    requires Apply(Run(r0, steps), step).c.generation != Run(r0, steps).c.generation
    ensures var r := Run(r0, steps);
      !r.c.frameHeld && r.c.ledger.frames == [] && r.c.ledger.readers == map[] && AllSignalled(r.sent, r.done)
  {
    hide Inv, Retires, Apply, Run, Initial, AllSignalled;
    T.InitialInv(r0);
    InitialRetires(r0);
    RunKeepsRetires(r0, steps);
    var r := Run(r0, steps);
    T.ReplacedOnlyWhenIdle(r, step);
    QuietMeansSignalled(r);
  }
}
