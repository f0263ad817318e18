/** Whole-run guarantees of one ring: ownership, generation isolation and local pins. */
module RingTheorems {
  import opened Basics
  import opened Base
  import opened SyncFences
  import opened Rings
  import opened RingFences
  import opened RingInvariant
  import RingSteps
  import L = Leases
  import P = BufferPins

  lemma InitialConsumer(c: Consumer)
    requires c.generation > 0 && 0 < |c.images| <= MAX_POOL && FreshPool(c, c.images) && FormatKnown(c.geometry.format)
    requires !c.frameHeld && c.ledger == L.EMPTY_LEDGER && c.completions == map[] && 1 <= c.nextToken <= U64_MAX
    ensures ConsumerOk(c)
  {
    hide FreshPool;
  }

  /** A new channel has nothing live and nothing announced. */
  lemma InitialLive(r: Ring)
    requires Initial(r)
    ensures Live(r) == [] && PhaseOk(r)
    ensures FramesOk(Taken(r.c), Coming(r.c, r.toC), r.c.held.ready, r.published) && SentOk(r.sent, [], r.c.held.ready)
  {
    hide FreshPool, ValidGeometry, FormatKnown, L.Valid;
  }

  lemma InitialInv(r: Ring)
    requires Initial(r)
    ensures Inv(r)
  {
    hide ConsumerOk, FramesOk, SentOk, PhaseOk, SyncedOk, Live, FreshPool, ValidGeometry, FormatKnown;
    InitialConsumer(r.c);
    InitialLive(r);
    RingSteps.FreshSlots(r);
  }

  lemma {:induction false} RunKeepsInv(r: Ring, steps: seq<Step>)
    requires Inv(r)
    ensures Inv(Run(r, steps))
    decreases |steps|
  {
    hide Inv, Apply;
    if steps != [] {
      RingSteps.StepKeepsInv(r, steps[0]);
      RunKeepsInv(Apply(r, steps[0]), steps[1..]);
    }
  }

  // ---- ownership ----------------------------------------------------------------------------------

  /**
   * The order everything rests on: consumed <= released < leased < held < pending < in flight < reserved values
   * < sentinel.
   */
  lemma OrderOfValues(r: Ring)
    requires Inv(r) && Synced(r)
    ensures forall s :: s in r.sent ==>
      r.p.consumed <= r.sent[|r.sent| - 1].value && s.value <= r.sent[|r.sent| - 1].value
    ensures forall i, j :: 0 <= i < |r.sent| && 0 <= j < |Live(r)| ==> r.sent[i].value < Live(r)[j].value
    ensures forall j :: 0 <= j < |Live(r)| ==> r.p.consumed < Live(r)[j].value <= |r.published| <= r.p.ready < SENTINEL
    ensures Increasing(Live(r))
  {
    hide ConsumerOk, SlotsOk, PhaseOk, Taken, Coming;
    forall j | 0 <= j < |Live(r)| ensures r.p.consumed < Live(r)[j].value <= |r.published| {
    }
  }

  /** No live frame sits in a slot whose every frame is consumed. */
  lemma LiveSlotsAreSubmitted(r: Ring, j: nat)
    requires Inv(r) && Synced(r) && j < |Live(r)|
    ensures var item := Live(r)[j];
      item.slot < |r.p.submitValue| && r.p.submitValue[item.slot] == item.value && r.p.consumed < item.value < SENTINEL
  {
    hide ConsumerOk, PhaseOk, Taken, Coming, Ascending;
    OrderOfValues(r);
    var item := Live(r)[j];
    assert r.published[item.value - 1] == item.slot;
  }

  /** A slot the producer reserved, or may reserve. */
  predicate Usable(r: Ring, i: nat) {
    i < |r.p.submitValue| && (r.p.submitValue[i] == SENTINEL || (Synced(r) && r.p.submitValue[i] <= r.p.consumed))
  }

  lemma ReservedMeansSynced(r: Ring, i: nat)
    requires Inv(r) && Usable(r, i)
    ensures Synced(r)
  {
    hide FramesOk, SentOk, QueueOk, ConsumerOk, SyncedOk, Replaced, Asked, SomewhereAnswered, Taken, Coming;
    assert r.p.submitValue[i] in r.p.submitValue;
  }

  ghost predicate InFlightOn(toC: seq<ToConsumer>, i: nat) {
    exists k :: 0 <= k < |toC| && toC[k].FrameReady? && toC[k].slot == i
  }

  ghost predicate LeasedOn(l: L.Ledger, i: nat) {
    exists k :: 0 <= k < |l.frames| && l.frames[k].slot == i
  }

  /** The consumer side has or will have access to the slot. */
  ghost predicate ConsumerTouches(r: Ring, i: nat) {
    || (r.c.frameHeld && r.c.held.slot == i)
    || (r.c.hasPending && r.c.pending.slot == i)
    || InFlightOn(r.toC, i)
    || LeasedOn(r.c.ledger, i)
  }

  lemma {:induction false} FlightHas(toC: seq<ToConsumer>, k: nat) returns (j: nat)
    requires k < |toC| && toC[k].FrameReady?
    ensures j < |FlightItems(toC)| && FlightItems(toC)[j].slot == toC[k].slot
  {
    if k == 0 {
      j := 0;
    } else {
      var i := FlightHas(toC[1..], k - 1);
      j := i + |FlightItem(toC[0])|;
    }
  }

  lemma TouchesIsLive(r: Ring, i: nat) returns (j: nat)
    requires ConsumerTouches(r, i)
    ensures j < |Live(r)| && Live(r)[j].slot == i
  {
    hide FlightItems;
    var leased, taken := |r.c.ledger.frames|, |Taken(r.c)|;
    if r.c.frameHeld && r.c.held.slot == i {
      j := leased;
    } else if r.c.hasPending && r.c.pending.slot == i {
      j := taken;
    } else if LeasedOn(r.c.ledger, i) {
      j :| 0 <= j < |r.c.ledger.frames| && r.c.ledger.frames[j].slot == i;
    } else {
      var k :| 0 <= k < |r.toC| && r.toC[k].FrameReady? && r.toC[k].slot == i;
      var f := FlightHas(r.toC, k);
      j := taken + |PendingItems(r.c.hasPending, r.c.pending)| + f;
      assert Coming(r.c, r.toC)[j - taken] == FlightItems(r.toC)[f];
    }
  }

  /** Frame `value` was published on the slot. */
  predicate PublishedOn(r: Ring, value: nat, i: nat) {
    1 <= value <= |r.published| && r.published[value - 1] == i
  }

  /**
   * The reads of every frame published on the slot are over: the fence of each of its releases has signalled, and the
   * fence each of its leased reads was left to.
   */
  ghost predicate ReadsFinished(r: Ring, i: nat) {
    && (forall m :: 0 <= m < |r.sent| && PublishedOn(r, r.sent[m].value, i) ==> FenceReady(r.sent[m].fence, r.done))
    && (forall m :: 0 <= m < |r.deferrals| && PublishedOn(r, r.deferrals[m].value, i) ==>
      r.deferrals[m].fence in r.done)
  }

  lemma UsableIsUntouched(r: Ring, i: nat)
    requires Inv(r) && Usable(r, i)
    ensures !ConsumerTouches(r, i)
  {
    hide Inv, ConsumerTouches, Live;
    ReservedMeansSynced(r, i);
    if ConsumerTouches(r, i) {
      var j := TouchesIsLive(r, i);
      LiveSlotsAreSubmitted(r, j);
    }
  }

  /** On a usable slot every published frame that a release names has been consumed. */
  lemma ReleasedIsConsumed(r: Ring, value: nat, i: nat)
    requires SyncedOk(r) && Synced(r) && Usable(r, i)
    requires 1 <= value <= |r.published| && r.published[value - 1] == i && |r.published| < SENTINEL
    ensures value <= r.p.consumed
  {
    hide QueueOk, Releases;
  }

  lemma UsableIsReleased(r: Ring, i: nat, m: nat)
    requires Inv(r) && Usable(r, i) && m < |r.sent| && PublishedOn(r, r.sent[m].value, i)
    ensures FenceReady(r.sent[m].fence, r.done)
  {
    hide FramesOk, ConsumerOk, PhaseOk, Live, Releases;
    ReservedMeansSynced(r, i);
    ReleasedIsConsumed(r, r.sent[m].value, i);
    assert m < |r.sent| - |r.p.releases + Releases(r.toP)|;
  }

  /** A read that still waits for its fence pins its frame, and the slot with it. */
  lemma UsableIsUnread(r: Ring, i: nat, d: Deferral)
    requires Inv(r) && Usable(r, i) && PublishedOn(r, d.value, i)
    ensures !StillRead(r.c, d)
  {
    hide Inv, Usable, ConsumerTouches;
    UsableIsUntouched(r, i);
    if t :| Waits(r.c, t, d) {
      PinnedSlot(r, t, d, i);
    }
  }

  lemma PinnedSlot(r: Ring, t: nat, d: Deferral, i: nat)
    requires Inv(r) && Waits(r.c, t, d) && PublishedOn(r, d.value, i)
    ensures ConsumerTouches(r, i)
  {
    hide SentOk, QueueOk, PhaseOk, SyncedOk, NewestOk, Coming, Imaged, L.ValidQueue, Increasing;
    var k :| 0 <= k < |r.c.ledger.frames| && r.c.ledger.frames[k].ready == d.value;
    assert (Taken(r.c) + Coming(r.c, r.toC))[k] == Item(r.c.ledger.frames[k].slot, d.value);
    assert LeasedOn(r.c.ledger, i);
  }

  lemma UsableIsRead(r: Ring, i: nat)
    requires Inv(r) && FencesOk(r) && Usable(r, i)
    ensures ReadsFinished(r, i)
  {
    hide Inv, Usable, FenceReady, PublishedOn, FlightOk, TakenOk;
    forall m | 0 <= m < |r.sent| && PublishedOn(r, r.sent[m].value, i) ensures FenceReady(r.sent[m].fence, r.done) {
      UsableIsReleased(r, i, m);
    }
    forall m | 0 <= m < |r.deferrals| && PublishedOn(r, r.deferrals[m].value, i)
      ensures r.deferrals[m].fence in r.done {
      UsableIsUnread(r, i, r.deferrals[m]);
    }
  }

  /**
   * Single-ring safety. In every state reachable from a new channel, a slot the producer holds reserved or may
   * reserve is not held, not leased, not pending and not named by an undelivered announcement; if a frame of that slot
   * was ever released with a fence, or the end of a read of it was ever left to a fence, then the fence has signalled.
   */
  lemma SingleRingSafety(r0: Ring, steps: seq<Step>, i: nat)
    requires Initial(r0) && Usable(Run(r0, steps), i)
    ensures !ConsumerTouches(Run(r0, steps), i)
    ensures ReadsFinished(Run(r0, steps), i)
  {
    hide Inv, FencesOk, Usable, Run;
    InitialInv(r0);
    RunKeepsInv(r0, steps);
    InitialFences(r0);
    RunKeepsFences(r0, steps);
    UsableIsUntouched(Run(r0, steps), i);
    UsableIsRead(Run(r0, steps), i);
  }

  /** A frame in the reader's hands is the one that was submitted, in its own storage and completely written. */
  ghost predicate Intact(r: Ring, f: Frame) {
    && PublishedOn(r, f.ready, f.slot) && f.slot < |r.c.images| && f.image == r.c.images[f.slot]
    && f.ready <= |r.shots| && (r.c.gpuSync || FenceReady(r.shots[f.ready - 1].fence, r.done))
  }

  /**
   * What is read is what was submitted. In every run the held frame and every leased one is a published frame under
   * its own slot and image whose submit fence has signalled (or is the reader's own to wait for), and the held frame
   * carries the time it was submitted with.
   */
  lemma ReadsAreIntact(r0: Ring, steps: seq<Step>)
    requires Initial(r0)
    ensures var r := Run(r0, steps);
      && (r.c.frameHeld ==> Intact(r, r.c.held) && r.shots[r.c.held.ready - 1].ptsNs == r.c.held.ptsNs)
      && forall i :: 0 <= i < |r.c.ledger.frames| ==> Intact(r, r.c.ledger.frames[i])
  {
    hide Inv, FencesOk, Run, Intact;
    InitialInv(r0);
    RunKeepsInv(r0, steps);
    InitialFences(r0);
    RunKeepsFences(r0, steps);
    TakenIsIntact(Run(r0, steps));
  }

  lemma TakenIsIntact(r: Ring)
    requires Inv(r) && FencesOk(r)
    ensures r.c.frameHeld ==> Intact(r, r.c.held) && r.shots[r.c.held.ready - 1].ptsNs == r.c.held.ptsNs
    ensures forall i :: 0 <= i < |r.c.ledger.frames| ==> Intact(r, r.c.ledger.frames[i])
  {
    hide SentOk, QueueOk, PhaseOk, SyncedOk, NewestOk, Coming, FlightOk, DeferralsOk, FenceReady, Increasing,
      L.ValidState, L.AllDeferred;
    var all := Taken(r.c) + Coming(r.c, r.toC);
    if r.c.frameHeld {
      assert all[|r.c.ledger.frames|] == Item(r.c.held.slot, r.c.held.ready);
    }
    forall i | 0 <= i < |r.c.ledger.frames| ensures Intact(r, r.c.ledger.frames[i]) {
      assert all[i] == Item(r.c.ledger.frames[i].slot, r.c.ledger.frames[i].ready);
    }
  }

  lemma ConsumedBelowSentinel(r: Ring)
    requires Inv(r) && Synced(r)
    ensures AdvanceProducer(r.p, r.done).consumed < SENTINEL
  {
    hide ConsumerOk, SlotsOk, Taken, Coming, PhaseOk;
    RingSteps.AdvanceKeeps(r);
  }

  // ---- generation isolation -----------------------------------------------------------------------

  /** The histories of `r` continue in `r'`. */
  predicate Continues(r: Ring, r': Ring) {
    r.sent <= r'.sent && r.published <= r'.published && r.shots <= r'.shots && r.deferrals <= r'.deferrals
  }

  predicate StartsOver(r: Ring) {
    r.sent == [] && r.published == [] && r.shots == [] && r.deferrals == []
  }

  /** The histories are those of the consumer's current generation and of nothing else. */
  lemma HistoriesBelongToGeneration(r: Ring, step: Step)
    ensures var r' := Apply(r, step);
      if r'.c.generation == r.c.generation then Continues(r, r')
      else StartsOver(r') && r'.c.generation == r.c.generation + 1
    ensures |Apply(r, step).sent| <= |r.sent| + 1
  {
    hide Apply;
    if step.Deliver? || step.Attach? {
      RenewalStartsOver(r, step);
    } else {
      OthersKeepGeneration(r, step);
    }
  }

  lemma RenewalStartsOver(r: Ring, step: Step)
    requires step.Deliver? || step.Attach?
    ensures var r' := Apply(r, step);
      if r'.c.generation == r.c.generation
      then r'.sent == r.sent && r'.published == r.published && r'.shots == r.shots && r'.deferrals == r.deferrals
      else StartsOver(r') && r'.c.generation == r.c.generation + 1
  {
    hide AdvanceConsumer, FreshPool, Resizes;
    AdvanceKeepsLedger(r.c, r.done);
  }

  /** Which readers a poll finishes: those whose fence has signalled, and no others. */
  lemma PollFinishesExactly(c: Consumer, done: set<nat>, t: nat)
    requires L.AllDeferred(c.ledger, c.completions)
    ensures var q := PollCompletions(c, done);
      && (t in q.ledger.readers <==> t in c.ledger.readers && !(t in c.completions && c.completions[t] in done))
      && (t in q.completions <==> t in c.completions && c.completions[t] !in done)
      && (t in q.ledger.readers ==> q.ledger.readers[t] == c.ledger.readers[t])
      && (t in q.completions ==> q.completions[t] == c.completions[t])
  {
  }

  /**
   * Storage or timeline is replaced only when no frame is held or leased; a resize, moreover, finds no reserved
   * slot, no frame in flight and no local pin.
   */
  lemma ReplacedOnlyWhenIdle(r: Ring, step: Step)
    requires Inv(r) && Apply(r, step).c.generation != r.c.generation
    ensures !r.c.frameHeld && r.c.ledger.frames == [] && r.c.ledger.readers == map[]
    ensures Quiescent(AdvanceConsumer(r.c, r.done))
    ensures step.Deliver? ==> SENTINEL !in r.p.submitValue && r.p.pins == map[] && |r.toC| == 1
    ensures Live(Apply(r, step)) == []
  {
    hide FramesOk, SlotsOk, SubmitOk, QueueOk, SyncedOk, PhaseOk, SentOk, L.ValidQueue, FreshPool, NewestOk,
      AdvanceConsumer, Resizes;
    RenewedOnlyWhenQuiet(r, step);
    AdvanceKeepsLedger(r.c, r.done);
    NoFramesNoReaders(r.c.ledger);
    if step.Deliver? {
      ResizeFindsNothing(r);
    }
  }

  /** Which steps renew the timeline, and what they leave. */
  lemma RenewedOnlyWhenQuiet(r: Ring, step: Step)
    requires Apply(r, step).c.generation != r.c.generation
    ensures step.Deliver? || step.Attach?
    ensures step.Deliver? ==> r.toC != [] && r.toC[0].RequestGeometry? && Apply(r, step).toC == r.toC[1..]
    ensures step.Attach? ==> Apply(r, step).toC == []
    ensures Quiescent(AdvanceConsumer(r.c, r.done))
    ensures var c := Apply(r, step).c; c.ledger.frames == [] && !c.frameHeld && !c.hasPending
  {
    hide AdvanceConsumer, FreshPool, Resizes, L.AcquireResult, L.Retirement, L.RetainResult, L.Retired;
    AdvanceKeepsLedger(r.c, r.done);
    if !step.Deliver? && !step.Attach? {
      OthersKeepGeneration(r, step);
    }
  }

  lemma OthersKeepGeneration(r: Ring, step: Step)
    requires !step.Deliver? && !step.Attach?
    ensures Apply(r, step).c.generation == r.c.generation
    ensures Continues(r, Apply(r, step))
    ensures |Apply(r, step).sent| <= |r.sent| + 1
  {
    hide Apply;
    if IsProducerCall(step) {
      CallsLeaveConsumer(r, step);
    } else if step.EndSubmit? || step.SubmitSync? {
      SubmitsKeepGeneration(r, step);
    } else {
      ConsumerKeepsGeneration(r, step);
    }
  }

  lemma SubmitsKeepGeneration(r: Ring, step: Step)
    requires step.EndSubmit? || step.SubmitSync?
    ensures Apply(r, step).c == r.c && Apply(r, step).sent == r.sent && Continues(r, Apply(r, step))
  {
    hide Begin, BeginResult, End, EndResult;
  }

  lemma ConsumerKeepsGeneration(r: Ring, step: Step)
    requires !step.Deliver? && !step.Attach? && !IsProducerCall(step) && !step.EndSubmit? && !step.SubmitSync?
    ensures Apply(r, step).c.generation == r.c.generation
    ensures Continues(r, Apply(r, step))
    ensures |Apply(r, step).sent| <= |r.sent| + 1
  {
    hide AdvanceConsumer, L.AcquireResult, L.Acquire, L.Retirement, L.RetainResult, L.Retain, L.Complete, L.Defer,
      L.Retired, LeaseResult, ReleaseResult, DropResult, CanAcquireFrame, ReleaseFrame;
    if step.GiveBack? {
      GiveBackKeepsGeneration(r.c, step.fence, r.done);
    }
  }

  lemma GiveBackKeepsGeneration(c: Consumer, fence: Option<nat>, done: set<nat>)
    ensures var c' := ReleaseFrame(c, c.held, fence, done); c'.generation == c.generation && c'.ledger == c.ledger
  {
    hide ReadyPrefix, Raise, ReleaseResult;
  }

  lemma AdvanceKeepsLedger(c: Consumer, done: set<nat>)
    ensures var a := AdvanceConsumer(c, done);
      a.ledger == c.ledger && a.frameHeld == c.frameHeld && a.held == c.held && a.generation == c.generation
  {
    hide ReadyPrefix, Raise;
  }

  lemma ResizeFindsNothing(r: Ring)
    requires Inv(r) && r.toC != [] && r.toC[0].RequestGeometry?
    ensures r.p.waiting && SENTINEL !in r.p.submitValue && r.p.pins == map[] && |r.toC| == 1
  {
    hide FramesOk, SentOk, QueueOk, ConsumerOk, SyncedOk, NoReply, Taken, Coming, NewestOk;
    RingSteps.RequestAtHead(r);
  }

  lemma NoFramesNoReaders(l: L.Ledger)
    requires L.ValidReaders(l.frames, l.readers) && l.frames == []
    ensures l.readers == map[]
  {
    assert forall v :: !L.Holds(l.frames, v);
  }

  /** While the two sides differ in generation the producer is blocked in its request and owns nothing. */
  lemma OldProducerIsBlocked(r: Ring)
    requires Inv(r) && !Synced(r)
    ensures r.p.waiting && SENTINEL !in r.p.submitValue && r.p.pins == map[]
    ensures r.p.generation < r.c.generation && Live(r) == []
  {
    hide FramesOk, SentOk, QueueOk, ConsumerOk, Taken, Coming;
  }

  /** A slot that became free was freed by an announcement of the generation it was submitted in. */
  lemma FreedByOwnGeneration(r: Ring, i: nat)
    requires Inv(r) && Synced(r) && i < |r.p.submitValue| && 0 < r.p.submitValue[i] <= r.p.consumed
    ensures exists m :: 0 <= m < |r.sent| && r.p.submitValue[i] <= r.sent[m].value && FenceReady(r.sent[m].fence,
      r.done)
  {
    hide FramesOk, SentOk, SlotsOk, ConsumerOk, PhaseOk, Live, Releases;
    var k := |r.sent| - |r.p.releases + Releases(r.toP)|;
    assert r.p.consumed == r.sent[k - 1].value;
  }

  /** The m-th release of the final generation was announced by step k, and the generation has not changed since. */
  ghost predicate AnnouncedAt(r0: Ring, steps: seq<Step>, m: nat, k: nat) {
    && k < |steps| && m < |Run(r0, steps).sent|
    && var before, after, last := Run(r0, steps[..k]), Run(r0, steps[..k + 1]), Run(r0, steps);
       && before.c.generation == after.c.generation == last.c.generation
       && |before.sent| == m && |after.sent| == m + 1 && after.sent[m] == last.sent[m]
  }

  lemma {:induction false} RunConcat(r: Ring, a: seq<Step>, b: seq<Step>)
    ensures Run(r, a + b) == Run(Run(r, a), b)
    decreases |a|
  {
    hide Apply;
    if a == [] {
      assert a + b == b;
    } else {
      assert (a + b)[1..] == a[1..] + b;
      RunConcat(Apply(r, a[0]), a[1..], b);
    }
  }

  lemma RunOne(r: Ring, step: Step)
    ensures Run(r, [step]) == Apply(r, step)
  {
    hide Apply;
    assert Run(r, [step]) == Run(Apply(r, step), [step][1..]);
  }

  lemma RunSnoc(r: Ring, steps: seq<Step>)
    requires steps != []
    ensures Run(r, steps) == Apply(Run(r, steps[..|steps| - 1]), steps[|steps| - 1])
  {
    hide Apply;
    var n := |steps| - 1;
    assert steps == steps[..n] + [steps[n]];
    RunConcat(r, steps[..n], [steps[n]]);
    RunOne(Run(r, steps[..n]), steps[n]);
  }

  lemma {:induction false} AnnouncedInItsGeneration(r0: Ring, steps: seq<Step>, m: nat) returns (k: nat)
    requires r0.sent == [] && m < |Run(r0, steps).sent|
    ensures AnnouncedAt(r0, steps, m, k)
    decreases |steps|
  {
    hide Apply;
    if steps != [] {
      var n := |steps| - 1;
      var r := Run(r0, steps[..n]);
      RunSnoc(r0, steps);
      HistoriesBelongToGeneration(r, steps[n]);
      if m < |r.sent| {
        k := AnnouncedInItsGeneration(r0, steps[..n], m);
        assert steps[..n][..k] == steps[..k] && steps[..n][..k + 1] == steps[..k + 1];
      } else {
        k := n;
        assert steps[..k + 1] == steps;
      }
    }
  }

  /**
   * Generation isolation. In every run, a submitted slot that is free again was freed by a release announced,
   * with its fence signalled, after the current generation began: no older release value can free it.
   */
  lemma GenerationIsolation(r0: Ring, steps: seq<Step>, i: nat) returns (m: nat, k: nat)
    requires Initial(r0)
    requires var r := Run(r0, steps); Synced(r) && i < |r.p.submitValue| && 0 < r.p.submitValue[i] <= r.p.consumed
    ensures AnnouncedAt(r0, steps, m, k)
    ensures var r := Run(r0, steps); r.p.submitValue[i] <= r.sent[m].value && FenceReady(r.sent[m].fence, r.done)
  {
    hide Inv, Run;
    var r := Run(r0, steps);
    InitialInv(r0);
    RunKeepsInv(r0, steps);
    FreedByOwnGeneration(r, i);
    m :| 0 <= m < |r.sent| && r.p.submitValue[i] <= r.sent[m].value && FenceReady(r.sent[m].fence, r.done);
    k := AnnouncedInItsGeneration(r0, steps, m);
  }

  lemma {:induction false} HistoriesGrow(r: Ring, steps: seq<Step>)
    ensures var r' := Run(r, steps);
      r'.c.generation >= r.c.generation && (r'.c.generation == r.c.generation ==> Continues(r, r'))
    decreases |steps|
  {
    hide Apply;
    if steps != [] {
      HistoriesBelongToGeneration(r, steps[0]);
      HistoriesGrow(Apply(r, steps[0]), steps[1..]);
    }
  }

  /**
   * The end of a read left to a fence. If the end of a reader's read is left to a fence at step `k` of a run, then as
   * long as the generation lasts the slot of its frame is not reserved and cannot be until that fence has signalled.
   */
  lemma DeferredReadEnds(r0: Ring, steps: seq<Step>, k: nat, i: nat)
    requires Initial(r0) && k < |steps| && steps[k].DeferToken?
    requires var r := Run(r0, steps[..k]);
      && Apply(r, steps[k]) != r && steps[k].token in r.c.ledger.readers
      && PublishedOn(r, r.c.ledger.readers[steps[k].token].value, i)
    requires Run(r0, steps).c.generation == Run(r0, steps[..k]).c.generation && Usable(Run(r0, steps), i)
    ensures steps[k].completion in Run(r0, steps).done
  {
    hide Run, Usable, Inv, FencesOk, Apply;
    var r, last := Run(r0, steps[..k]), Run(r0, steps);
    var d := Deferral(r.c.ledger.readers[steps[k].token].value, steps[k].completion);
    DeferralRemembered(r, steps[k]);
    assert steps == steps[..k] + [steps[k]] + steps[k + 1..];
    RunConcat(r0, steps[..k] + [steps[k]], steps[k + 1..]);
    RunConcat(r0, steps[..k], [steps[k]]);
    RunOne(r, steps[k]);
    HistoriesGrow(Apply(r, steps[k]), steps[k + 1..]);
    SingleRingSafety(r0, steps, i);
    assert last.deferrals[|r.deferrals|] == d;
  }

  lemma DeferralRemembered(r: Ring, step: Step)
    requires step.DeferToken? && Apply(r, step) != r && step.token in r.c.ledger.readers
    ensures var r' := Apply(r, step);
      && r'.deferrals == r.deferrals + [Deferral(r.c.ledger.readers[step.token].value, step.completion)]
      && r'.c.generation == r.c.generation && r'.published == r.published
  {
  }

  /** A refusal or no-op reply leaves the producer's whole slot state as it was. */
  lemma SameGenerationReply(r: Ring)
    requires Inv(r) && r.open && r.toP != [] && r.toP[0].RingDesc? && r.toP[0].generation == r.p.generation
    ensures Apply(r, Receive).p == r.p.(waiting := false)
    ensures Apply(r, Receive).c == r.c && Apply(r, Receive).sent == r.sent && Apply(r, Receive).published == r.published
  {
    hide FramesOk, SentOk, QueueOk, ConsumerOk, SyncedOk, Taken, Coming, Asked, SomewhereAnswered;
    if !r.p.waiting {
      RingSteps.RunningIsSynced(r);
      RingSteps.TailOfNoReply(r.toP);
    }
  }

  // ---- local pins ---------------------------------------------------------------------------------

  predicate PinsFresh(r: Ring) {
    forall t :: t in r.p.pins ==> t < r.p.nextPin
  }

  lemma PinsStayFresh(r: Ring, step: Step)
    requires PinsFresh(r)
    ensures PinsFresh(Apply(r, step)) && Apply(r, step).p.nextPin >= r.p.nextPin
    ensures forall t :: t < r.p.nextPin && t !in r.p.pins ==> t !in Apply(r, step).p.pins
    ensures forall t :: t in r.p.pins && t in Apply(r, step).p.pins ==> Apply(r, step).p.pins[t] == r.p.pins[t]
  {
    hide L.AcquireResult, L.Retirement, L.RetainResult, OnGeometry, OnAttach, AttachAccepted, CollectLeases, LeaseFrame,
      FreshPool;
  }

  lemma {:induction false} ReleasedPinsNeverReturn(r: Ring, steps: seq<Step>, t: nat)
    requires PinsFresh(r) && t < r.p.nextPin && t !in r.p.pins
    ensures t !in Run(r, steps).p.pins
    decreases |steps|
  {
    hide Apply;
    if steps != [] {
      PinsStayFresh(r, steps[0]);
      ReleasedPinsNeverReturn(Apply(r, steps[0]), steps[1..], t);
    }
  }

  /** The step hands the slot out. */
  ghost predicate Reserves(r: Ring, step: Step, slot: nat) {
    var r' := Apply(r, step);
    && slot < |r.p.submitValue| && slot < |r'.p.submitValue|
    && r.p.submitValue[slot] != SENTINEL && r'.p.submitValue[slot] == SENTINEL
  }

  /** Along the whole run the slot is never handed out, no geometry request starts and the images stay. */
  ghost predicate Undisturbed(r: Ring, steps: seq<Step>, slot: nat)
    decreases |steps|
  {
    steps == [] ||
    (var r' := Apply(r, steps[0]);
     && !Reserves(r, steps[0], slot)
     && !r'.p.waiting && r'.p.generation == r.p.generation && r'.p.images == r.p.images
     && Undisturbed(r', steps[1..], slot))
  }

  lemma PinHoldsSlot(r: Ring, step: Step, t: nat)
    requires Inv(r) && PinsFresh(r) && t in r.p.pins && t in Apply(r, step).p.pins
    ensures !Reserves(r, step, r.p.pins[t])
    ensures var r' := Apply(r, step); !r'.p.waiting && r'.p.generation == r.p.generation && r'.p.images == r.p.images
  {
    hide FramesOk, SentOk, QueueOk, ConsumerOk, SyncedOk, Taken, Coming, Asked, SomewhereAnswered, Replaced, NewestOk,
      L.AcquireResult, L.Retirement, L.RetainResult, OnGeometry, OnAttach, AttachAccepted, CollectLeases, LeaseFrame,
      FreshPool, NoReply, NoRequest;
    assert r.p.pins[t] in r.p.pins.Values;
    assert !r.p.waiting;
    RingSteps.RunningIsSynced(r);
    if step.Receive? && r.toP != [] {
      RingSteps.TailOfNoReply(r.toP);
    }
  }

  /**
   * Local pin safety. As long as a reference stays live, whatever is cancelled, submitted, released remotely or
   * requested, its slot is not handed out again, no geometry request goes out and the images are not exchanged.
   */
  lemma {:induction false} PinSafety(r: Ring, steps: seq<Step>, t: nat)
    requires Inv(r) && PinsFresh(r) && t in r.p.pins && t in Run(r, steps).p.pins
    ensures Undisturbed(r, steps, r.p.pins[t])
    decreases |steps|
  {
    hide Inv, Apply, Reserves;
    if steps != [] {
      var r' := Apply(r, steps[0]);
      PinsStayFresh(r, steps[0]);
      RingSteps.StepKeepsInv(r, steps[0]);
      if t !in r'.p.pins {
        ReleasedPinsNeverReturn(r', steps[1..], t);
      }
      PinHoldsSlot(r, steps[0], t);
      PinSafety(r', steps[1..], t);
    }
  }
}
