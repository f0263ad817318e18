/**
 * A relay that forwards frames of one ring over another without copying: the two pools refer to the same
 * allocations, so an upstream slot may not be written again before the downstream reader is done with it.
 *
 * The machine interleaves the relay, one channel operation at a time, with arbitrary steps of both rings.
 */
module Relays {
  import opened Basics
  import opened Base
  import opened SyncFences
  import opened Rings
  import opened RingFences
  import opened RingInvariant
  import RingSteps
  import T = RingTheorems
  import L = Leases

  /** `lease` 0 is none. A slot's buffer is the downstream slot of the same index. */
  datatype Slot = Slot(reserved: bool, lease: nat)

  /** `serving` holds from a successful initialisation until the relay is finished. */
  datatype Relay = Relay(slots: seq<Slot>, initialized: bool, failed: bool, serving: bool)

  const FREE_SLOT := Slot(false, 0)

  /** Upstream the relay is the consumer, downstream the producer. */
  datatype Joint = Joint(up: Ring, down: Ring, relay: Relay)

  datatype Move =
    | Up(step: Step)
    | Down(step: Step)
    // initialize
    | Start
    | Serve
    // collect
    | Reacquire
    | CompleteSlot(slot: nat)
    | RetireUp
    // forward
    | LeaseSlot(slot: nat, frame: Frame)
    | SubmitSlot(slot: nat, ptsNs: int)
    // finish
    | CancelReserved(slot: nat)
    | Stop
    // a channel call failed in a way the relay does not tolerate
    | Poison

  predicate Active(j: Joint) {
    j.relay.initialized && !j.relay.failed
  }

  predicate HasSlot(j: Joint, d: nat) {
    d < |j.relay.slots| && d < |j.down.p.images|
  }

  /** The relay alone knows its tokens. */
  predicate UpAllowed(j: Joint, step: Step) {
    match step
    case CompleteToken(t) => t == 0 || forall d :: 0 <= d < |j.relay.slots| ==> j.relay.slots[d].lease != t
    case DeferToken(t, _) => t == 0 || forall d :: 0 <= d < |j.relay.slots| ==> j.relay.slots[d].lease != t
    case _ => true
  }

  /** While the relay runs nobody else produces downstream; its attachment is never resized or replaced. */
  predicate DownAllowed(j: Joint, step: Step) {
    match step
    case AskGeometry(_) => false
    case Attach => false
    case Acquire => !j.relay.initialized
    case CancelSlot(_) => !j.relay.initialized
    case BeginSubmit(_) => !j.relay.initialized
    case EndSubmit(_, _) => !j.relay.initialized
    case SubmitSync(_, _, _) => !j.relay.initialized
    case RetainReference(_) => !j.relay.initialized
    case _ => true
  }

  function Set(j: Joint, d: nat, slot: Slot): Joint
    requires d < |j.relay.slots|
  {
    j.(relay := j.relay.(slots := j.relay.slots[d := slot]))
  }

  function Fail(j: Joint): Joint {
    j.(relay := j.relay.(failed := true))
  }

  /** The downstream slot a non-blocking acquire would return. */
  function Reacquired(j: Joint): Option<nat> {
    Reserve(AdvanceProducer(j.down.p, j.down.done)).1
  }

  predicate AllReserved(j: Joint) {
    |j.down.p.images| <= |j.relay.slots| && forall d :: 0 <= d < |j.down.p.images| ==> j.relay.slots[d].reserved
  }

  predicate Idle(j: Joint) {
    forall d :: 0 <= d < |j.relay.slots| ==> j.relay.slots[d] == FREE_SLOT
  }

  /** Reacquiring a slot proves the downstream reader is done with it. */
  function OnReacquire(j: Joint): Joint {
    if !ProducerRuns(j.down) then Fail(j)
    else
      var j' := j.(down := j.down.(p := Reserve(AdvanceProducer(j.down.p, j.down.done)).0));
      var d := Reacquired(j);
      if d == None then j'
      else if d.value >= |j.relay.slots| || j.relay.slots[d.value].reserved then Fail(j')
      else Set(j', d.value, j.relay.slots[d.value].(reserved := true))
  }

  /** Only then is the upstream lease completed. */
  function OnComplete(j: Joint, d: nat): Joint
    requires d < |j.relay.slots|
  {
    var slot := j.relay.slots[d];
    if !slot.reserved || slot.lease == 0 then j
    else if !L.Live(j.up.c.ledger, slot.lease, false) then Fail(j)
    else Set(j.(up := j.up.(c := CompleteLease(j.up.c, slot.lease))), d, slot.(lease := 0))
  }

  function OnLease(j: Joint, d: nat, frame: Frame): Joint
    requires HasSlot(j, d)
  {
    var slot := j.relay.slots[d];
    if !slot.reserved || slot.lease != 0 || frame.image != j.down.p.images[d] || LeaseResult(j.up.c, frame) != Ok then j
    else Set(j.(up := j.up.(c := LeaseFrame(j.up.c, frame))), d, Slot(false, j.up.c.nextToken))
  }

  function OnSubmit(j: Joint, d: nat, ptsNs: int): Joint
    requires HasSlot(j, d)
  {
    var slot, image, p := j.relay.slots[d], j.down.p.images[d], j.down.p;
    if slot.reserved || slot.lease == 0 then j
    else if !ProducerRuns(j.down) || BeginResult(p, d, image, true) != Ok then Fail(j)
    else
      var begun := Begin(p, d, image, true);
      j.(down := Publish(j.down, End(begun, d, image, begun.submittingValue, true), d, begun.submittingValue, ptsNs,
        None))
  }

  function OnCancel(j: Joint, d: nat): Joint
    requires HasSlot(j, d)
  {
    var slot, image, p := j.relay.slots[d], j.down.p.images[d], j.down.p;
    if !slot.reserved || slot.lease != 0 || !ProducerRuns(j.down) || CancelResult(p, d, image) != Ok then j
    else Set(j.(down := j.down.(p := Cancel(p, d, image))), d, FREE_SLOT)
  }

  ghost function ApplyMove(j: Joint, m: Move): Joint {
    match m
    case Up(step) => if UpAllowed(j, step) then j.(up := Apply(j.up, step)) else j
    case Down(step) => if DownAllowed(j, step) then j.(down := Apply(j.down, step)) else j
    case Start => if !j.relay.initialized then j.(relay := j.relay.(initialized := true)) else j
    case Serve => if Active(j) && AllReserved(j) then j.(relay := j.relay.(serving := true)) else j
    case Reacquire => if Active(j) then OnReacquire(j) else j
    case CompleteSlot(d) => if Active(j) && HasSlot(j, d) then OnComplete(j, d) else j
    case RetireUp => if Active(j) then j.(up := Apply(j.up, Collect)) else j
    case LeaseSlot(d, frame) => if Active(j) && j.relay.serving && HasSlot(j, d) then OnLease(j, d, frame) else j
    case SubmitSlot(d, ptsNs) => if Active(j) && HasSlot(j, d) then OnSubmit(j, d, ptsNs) else j
    case CancelReserved(d) => if Active(j) && HasSlot(j, d) then OnCancel(j, d) else j
    case Stop => if Active(j) && Idle(j) then j.(relay := j.relay.(initialized := false, serving := false)) else j
    case Poison => if Active(j) then Fail(j) else j
  }

  ghost function RunMoves(j: Joint, moves: seq<Move>): Joint
    decreases |moves|
  {
    if moves == [] then j else RunMoves(ApplyMove(j, moves[0]), moves[1..])
  }

  // ---- the joint invariant --------------------------------------------------------------------------

  /** Every lease the relay keeps is a live reader of a frame in the allocation of its downstream slot. */
  ghost predicate LeaseHeld(l: L.Ledger, t: nat, image: nat) {
    L.Valid(l) && L.Live(l, t, false) && L.FrameOf(l, t).image == image
  }

  ghost predicate LeasesOk(slots: seq<Slot>, l: L.Ledger, images: seq<nat>) {
    && (forall d :: 0 <= d < |slots| && slots[d].lease != 0 ==> d < |images| && LeaseHeld(l, slots[d].lease, images[d]))
    && (forall d, e :: 0 <= d < e < |slots| && slots[d].lease != 0 ==> slots[d].lease != slots[e].lease)
  }

  ghost predicate ReservedOk(slots: seq<Slot>, submitValue: seq<nat>) {
    forall d :: 0 <= d < |slots| && slots[d].reserved ==> d < |submitValue| && submitValue[d] == SENTINEL
  }

  /** Once serving, a slot without a lease is one nobody downstream can still read. */
  ghost predicate ServingOk(slots: seq<Slot>, down: Ring) {
    forall d :: 0 <= d < |slots| && d < |down.p.submitValue| && slots[d].lease == 0 ==> T.Usable(down, d)
  }

  /** No open submit transaction concerns a slot the relay keeps in reserve. */
  ghost predicate TransactionOk(slots: seq<Slot>, p: Producer) {
    p.submittingValue != 0 && p.submittingSlot < |slots| ==> !slots[p.submittingSlot].reserved
  }

  ghost predicate JointInv(j: Joint) {
    && Inv(j.up) && Inv(j.down) && !j.down.p.waiting
    && |j.relay.slots| == MAX_POOL
    && (!j.relay.initialized ==> !j.relay.serving && Idle(j))
    && LeasesOk(j.relay.slots, j.up.c.ledger, j.down.p.images)
    && ReservedOk(j.relay.slots, j.down.p.submitValue)
    && TransactionOk(j.relay.slots, j.down.p)
    && (j.relay.serving ==> ServingOk(j.relay.slots, j.down))
  }

  // ---- upstream: a live token survives everything but its own completion ----------------------------

  lemma FramesStay(l: L.Ledger, l': L.Ledger, t: nat)
    requires L.Valid(l) && L.Valid(l') && L.Live(l, t, false) && t in l'.readers && l'.readers[t] == l.readers[t]
    requires L.Advanced(l, l')
    ensures L.Live(l', t, false) && L.FrameOf(l', t) == L.FrameOf(l, t)
  {
    hide L.Valid, L.Advanced;
    L.AdvancedKeepsFrame(l, l', t);
  }

  lemma LedgerValid(r: Ring)
    requires Inv(r)
    ensures L.Valid(r.c.ledger) && L.Issued(r.c.ledger.readers, r.c.nextToken)
      && L.AllDeferred(r.c.ledger, r.c.completions)
    ensures Imaged(r.c.ledger.frames, r.c.images) && 1 <= r.c.nextToken <= U64_MAX
  {
    hide FramesOk, SentOk, QueueOk, PhaseOk, SyncedOk, NewestOk, L.Valid, Imaged, FreshPool;
  }

  lemma LiveHasFrame(l: L.Ledger, t: nat)
    requires L.Valid(l) && t in l.readers
    ensures l.frames != []
  {
    var i := L.IndexOf(l, t);
  }

  /** The steps that do not touch the ledger while some token is live. */
  predicate LeavesLedger(step: Step) {
    !step.Lease? && !step.RetainToken? && !step.CompleteToken? && !step.DeferToken? && !step.Collect?
  }

  lemma OthersLeaveLedger(r: Ring, step: Step)
    requires LeavesLedger(step) && r.c.ledger.frames != []
    ensures Apply(r, step).c.ledger == r.c.ledger
  {
    hide AdvanceConsumer, Reserve, AdvanceProducer, ApplyRelease, Adopt, Begin, BeginResult, End, EndResult, Cancel,
      GeometryResult, CanAcquireFrame, ReleaseFrame, Resizes, FreshPool, Reserved, DropResult, ReleaseResult;
    T.AdvanceKeepsLedger(r.c, r.done);
    if step.GiveBack? {
      T.GiveBackKeepsGeneration(r.c, step.fence, r.done);
    }
  }

  lemma CollectKeepsLease(r: Ring, t: nat)
    requires Inv(r) && L.Live(r.c.ledger, t, false)
    ensures L.Valid(Apply(r, Collect).c.ledger)
    ensures L.Live(Apply(r, Collect).c.ledger, t, false)
    ensures L.FrameOf(Apply(r, Collect).c.ledger, t) == L.FrameOf(r.c.ledger, t)
  {
    hide Inv, L.Valid, L.Retirement, L.FreePrefix, Apply, PollCompletions;
    LedgerValid(r);
    var q := PollCompletions(r.c, r.done);
    RingSteps.CollectKeeps(r);
    LedgerValid(Apply(r, Collect));
    PollKeepsLease(r, t);
    CollectedLedger(r);
    FramesStay(q.ledger, Apply(r, Collect).c.ledger, t);
  }

  lemma CollectedLedger(r: Ring)
    ensures var l, l' := PollCompletions(r.c, r.done).ledger, Apply(r, Collect).c.ledger;
      l'.readers == l.readers && L.Advanced(l, l')
  {
    hide L.Retirement, L.FreePrefix, PollCompletions;
  }

  lemma PollKeepsLease(r: Ring, t: nat)
    requires Inv(r) && L.Live(r.c.ledger, t, false)
    ensures var l := PollCompletions(r.c, r.done).ledger;
      && L.Valid(r.c.ledger) && L.Valid(l) && L.Live(l, t, false) && l.readers[t] == r.c.ledger.readers[t]
      && L.FrameOf(l, t) == L.FrameOf(r.c.ledger, t)
  {
    hide Inv, L.ValidQueue, L.ValidReaders;
    LedgerValid(r);
    var finished := set u | u in r.c.completions && r.c.completions[u] in r.done :: u;
    L.DropReadersKeepsValid(r.c.ledger.frames, r.c.ledger.readers, finished);
    assert t !in finished;
    FramesStay(r.c.ledger, PollCompletions(r.c, r.done).ledger, t);
  }

  lemma LeaseSurvives(r: Ring, step: Step, t: nat, image: nat)
    requires Inv(r) && LeaseHeld(r.c.ledger, t, image)
    requires !(step.CompleteToken? && step.token == t) && !(step.DeferToken? && step.token == t)
    ensures LeaseHeld(Apply(r, step).c.ledger, t, image)
  {
    hide Inv, L.Valid, L.AcquireResult, L.AddReaderResult, L.RetainResult;
    LedgerValid(r);
    RingSteps.StepKeepsInv(r, step);
    LedgerValid(Apply(r, step));
    LiveHasFrame(r.c.ledger, t);
    if step.Collect? {
      CollectKeepsLease(r, t);
    } else if LeavesLedger(step) {
      OthersLeaveLedger(r, step);
    } else {
      TokenStepKeepsReader(r, step, t);
      FramesStay(r.c.ledger, Apply(r, step).c.ledger, t);
    }
  }

  lemma TokenStepKeepsReader(r: Ring, step: Step, t: nat)
    requires !LeavesLedger(step) && !step.Collect? && t in r.c.ledger.readers && t < r.c.nextToken
    requires !(step.CompleteToken? && step.token == t) && !(step.DeferToken? && step.token == t)
    ensures KeepsReader(r.c.ledger, Apply(r, step).c.ledger, t)
  {
    hide Apply, LeaseFrame, RetainLease, CompleteLease, DeferLease, L.FreePrefix;
    TokenStep(r, step);
    match step
    case Lease(frame) => LeaseKeepsReader(r.c, frame, t);
    case RetainToken(u) => RetainKeepsReader(r.c, u, t);
    case CompleteToken(u) => CompleteKeepsReader(r.c, u, t);
    case DeferToken(u, fence) => DeferKeepsReader(r.c, u, fence, t);
  }

  ghost predicate KeepsReader(l: L.Ledger, l': L.Ledger, t: nat) {
    t in l.readers && t in l'.readers && l'.readers[t] == l.readers[t] && L.Advanced(l, l')
  }

  lemma LeaseKeepsReader(c: Consumer, frame: Frame, t: nat)
    requires t in c.ledger.readers && t < c.nextToken
    ensures KeepsReader(c.ledger, LeaseFrame(c, frame).ledger, t)
  {
    hide L.AcquireResult, LeaseResult, L.FreePrefix;
  }

  lemma RetainKeepsReader(c: Consumer, u: nat, t: nat)
    requires t in c.ledger.readers && t < c.nextToken
    ensures KeepsReader(c.ledger, RetainLease(c, u).ledger, t)
  {
    hide L.RetainResult, L.FreePrefix;
  }

  lemma CompleteKeepsReader(c: Consumer, u: nat, t: nat)
    requires t in c.ledger.readers && u != t
    ensures KeepsReader(c.ledger, CompleteLease(c, u).ledger, t)
  {
    hide L.FreePrefix;
  }

  lemma DeferKeepsReader(c: Consumer, u: nat, fence: nat, t: nat)
    requires t in c.ledger.readers && u != t
    ensures KeepsReader(c.ledger, DeferLease(c, u, fence).ledger, t)
  {
    hide L.FreePrefix;
  }

  lemma TokenStep(r: Ring, step: Step)
    ensures step.Lease? ==> Apply(r, step).c == LeaseFrame(r.c, step.frame)
    ensures step.RetainToken? ==> Apply(r, step).c == RetainLease(r.c, step.token)
    ensures step.CompleteToken? ==> Apply(r, step).c == CompleteLease(r.c, step.token)
    ensures step.DeferToken? ==> Apply(r, step).c == DeferLease(r.c, step.token, step.completion)
  {
    hide LeaseFrame, RetainLease, CompleteLease, DeferLease;
  }

  // ---- every move keeps the joint invariant ---------------------------------------------------------

  lemma LeasesSurvive(slots: seq<Slot>, r: Ring, step: Step, images: seq<nat>)
    requires Inv(r) && LeasesOk(slots, r.c.ledger, images)
    requires forall d :: 0 <= d < |slots| && slots[d].lease != 0 ==>
      !(step.CompleteToken? && step.token == slots[d].lease) && !(step.DeferToken? && step.token == slots[d].lease)
    ensures LeasesOk(slots, Apply(r, step).c.ledger, images)
  {
    hide Inv, Apply, LeaseHeld;
    forall d | 0 <= d < |slots| && slots[d].lease != 0
      ensures LeaseHeld(Apply(r, step).c.ledger, slots[d].lease, images[d]) {
      LeaseSurvives(r, step, slots[d].lease, images[d]);
    }
  }

  lemma UpKeeps(j: Joint, step: Step)
    requires JointInv(j)
    ensures JointInv(ApplyMove(j, Up(step)))
  {
    hide Inv, Apply, ServingOk, ReservedOk, LeaseHeld;
    if UpAllowed(j, step) {
      RingSteps.StepKeepsInv(j.up, step);
      LeasesSurvive(j.relay.slots, j.up, step, j.down.p.images);
    }
  }

  lemma RetireKeeps(j: Joint)
    requires JointInv(j)
    ensures JointInv(ApplyMove(j, RetireUp))
  {
    hide Inv, Apply, ServingOk, ReservedOk, LeaseHeld;
    if Active(j) {
      RingSteps.StepKeepsInv(j.up, Collect);
      LeasesSurvive(j.relay.slots, j.up, Collect, j.down.p.images);
    }
  }

  /** Images and, while the relay runs, slots and transaction of a producer at least as far as before. */
  ghost predicate KeepsSlots(p: Producer, p': Producer, running: bool) {
    && p'.images == p.images && !p'.waiting
    && (running ==> p'.submitValue == p.submitValue && p'.consumed >= p.consumed)
    && (running ==> p'.submittingValue == p.submittingValue && p'.submittingSlot == p.submittingSlot)
  }

  /** Whatever else happens downstream, the producer keeps its images and, while the relay runs, its slots. */
  lemma DownLeavesSlots(j: Joint, step: Step)
    requires DownAllowed(j, step) && Inv(j.down) && !j.down.p.waiting
    ensures KeepsSlots(j.down.p, Apply(j.down, step).p, j.relay.initialized)
  {
    hide Inv, Apply, DownAllowed;
    if step.Receive? {
      ReceiveLeavesSlots(j.down);
    } else if IsProducerStep(step) {
      ProducerLeavesSlots(j, step);
    } else {
      ConsumerLeavesProducer(j, step);
    }
  }

  lemma ReceiveLeavesSlots(r: Ring)
    requires Inv(r) && !r.p.waiting
    ensures KeepsSlots(r.p, Apply(r, Receive).p, true)
  {
    hide Inv, ReadyPrefix, Raise;
  }

  lemma ProducerLeavesSlots(j: Joint, step: Step)
    requires DownAllowed(j, step) && !j.down.p.waiting && IsProducerStep(step)
    ensures KeepsSlots(j.down.p, Apply(j.down, step).p, j.relay.initialized)
  {
    hide BeginResult, EndResult, CancelResult, Reserved, ReadyPrefix, Raise, FirstAvailable;
  }

  lemma ConsumerLeavesProducer(j: Joint, step: Step)
    requires DownAllowed(j, step) && !j.down.p.waiting && !step.Receive? && !IsProducerStep(step)
    ensures Apply(j.down, step).p == j.down.p
  {
    hide AdvanceConsumer, CanAcquireFrame, ReleaseFrame, Resizes, FreshPool, DropResult, ReleaseResult, L.AcquireResult,
      L.Retirement, L.RetainResult, L.Retired, LeaseFrame, RetainLease, CompleteLease, DeferLease, PollCompletions;
  }

  /** More consumed, nothing else: a usable slot stays usable. */
  lemma UsableStays(r: Ring, r': Ring, d: nat)
    requires T.Usable(r, d) && Synced(r')
    requires d < |r'.p.submitValue| && r'.p.submitValue[d] == r.p.submitValue[d] && r'.p.consumed >= r.p.consumed
    ensures T.Usable(r', d)
  {
  }

  lemma DownKeeps(j: Joint, step: Step)
    requires JointInv(j)
    ensures JointInv(ApplyMove(j, Down(step)))
  {
    hide Inv, Apply, LeaseHeld, T.Usable, DownAllowed;
    if DownAllowed(j, step) {
      var down := Apply(j.down, step);
      RingSteps.StepKeepsInv(j.down, step);
      DownLeavesSlots(j, step);
      RingSteps.RunningIsSynced(down);
      if j.relay.serving {
        forall d | 0 <= d < |j.relay.slots| && d < |down.p.submitValue| && j.relay.slots[d].lease == 0
          ensures T.Usable(down, d) {
          UsableStays(j.down, down, d);
        }
      }
    }
  }

  lemma ReservedIsUsable(r: Ring, d: nat)
    requires d < |r.p.submitValue| && r.p.submitValue[d] == SENTINEL
    ensures T.Usable(r, d)
  {
  }

  /** What an acquire does to the slots. */
  lemma AcquireEffect(r: Ring)
    requires Inv(r) && ProducerRuns(r)
    ensures var (p, d) := Reserve(AdvanceProducer(r.p, r.done));
      && r.(p := p) == Apply(r, Acquire) && p.images == r.p.images && !p.waiting && p.consumed >= r.p.consumed
      && p.submittingValue == r.p.submittingValue && p.submittingSlot == r.p.submittingSlot
      && (d.Some? && p.submittingValue != 0 ==> d.value != p.submittingSlot)
      && (d == None ==> p.submitValue == r.p.submitValue)
      && (d.Some? ==>
        d.value < |r.p.submitValue| && r.p.submitValue[d.value] < SENTINEL
        && p.submitValue == r.p.submitValue[d.value := SENTINEL])
  {
    hide FramesOk, SentOk, QueueOk, ConsumerOk, SlotsOk, NewestOk, Taken, Coming, ReadyPrefix, Raise;
    RingSteps.RunningIsSynced(r);
    RingSteps.AdvanceKeeps(r);
    T.ConsumedBelowSentinel(r);
  }

  lemma ReacquireKeeps(j: Joint)
    requires JointInv(j)
    ensures JointInv(ApplyMove(j, Reacquire))
    ensures Active(j) && ProducerRuns(j.down) ==> !ApplyMove(j, Reacquire).relay.failed
  {
    hide Inv, Apply, LeaseHeld, T.Usable, Reserve, AdvanceProducer;
    if Active(j) && ProducerRuns(j.down) {
      var slots := j.relay.slots;
      var (p, d) := Reserve(AdvanceProducer(j.down.p, j.down.done));
      AcquireEffect(j.down);
      RingSteps.StepKeepsInv(j.down, Acquire);
      var down := j.down.(p := p);
      RingSteps.RunningIsSynced(down);
      SizesAgree(j.down);
      if j.relay.serving {
        forall e | 0 <= e < |slots| && e < |down.p.submitValue| && slots[e].lease == 0 ensures T.Usable(down, e) {
          if d.Some? && e == d.value {
            ReservedIsUsable(down, e);
          } else {
            UsableStays(j.down, down, e);
          }
        }
      }
    }
  }

  lemma SizesAgree(r: Ring)
    requires Inv(r) && !r.p.waiting
    ensures |r.p.submitValue| == |r.p.images| == |r.c.images| <= MAX_POOL && r.p.images == r.c.images && Synced(r)
  {
    hide FramesOk, SentOk, QueueOk, SlotsOk, SubmitOk, NewestOk, LedgerOk, Taken, Coming;
    RingSteps.RunningIsSynced(r);
  }

  lemma CompleteKeeps(j: Joint, d: nat)
    requires JointInv(j)
    ensures JointInv(ApplyMove(j, CompleteSlot(d)))
    ensures ApplyMove(j, CompleteSlot(d)).relay.failed == j.relay.failed
  {
    hide Inv, LeaseHeld, T.Usable, CompleteLease, ServingOk;
    if Active(j) && HasSlot(j, d) && j.relay.slots[d].reserved && j.relay.slots[d].lease != 0 {
      var slots, t := j.relay.slots, j.relay.slots[d].lease;
      HeldIsLive(j.up.c.ledger, t, j.down.p.images[d]);
      CompletedSlot(j, d);
    }
  }

  lemma HeldIsLive(l: L.Ledger, t: nat, image: nat)
    requires LeaseHeld(l, t, image)
    ensures L.Live(l, t, false)
  {
  }

  lemma CompletedSlot(j: Joint, d: nat)
    requires JointInv(j) && Active(j) && HasSlot(j, d) && j.relay.slots[d].reserved && j.relay.slots[d].lease != 0
    ensures JointInv(Set(j.(up := j.up.(c := CompleteLease(j.up.c, j.relay.slots[d].lease))), d,
      j.relay.slots[d].(lease := 0)))
  {
    hide Inv, Apply, LeaseHeld, T.Usable, CompleteLease;
    var slots, t := j.relay.slots, j.relay.slots[d].lease;
    TokenStep(j.up, CompleteToken(t));
    CompleteIsApply(j.up, t);
    RingSteps.StepKeepsInv(j.up, CompleteToken(t));
    var slots' := slots[d := slots[d].(lease := 0)];
    LeasesSurvive(slots', j.up, CompleteToken(t), j.down.p.images);
    ReservedIsUsable(j.down, d);
  }

  lemma CompleteIsApply(r: Ring, t: nat)
    ensures Apply(r, CompleteToken(t)) == r.(c := CompleteLease(r.c, t))
  {
    hide CompleteLease;
  }

  lemma LeaseIsApply(r: Ring, frame: Frame)
    ensures Apply(r, Lease(frame)) == r.(c := LeaseFrame(r.c, frame))
  {
    hide LeaseFrame;
  }

  /** The token a lease returns denotes the frame leased. */
  lemma NewLeaseHeld(r: Ring, frame: Frame)
    requires Inv(r) && LeaseResult(r.c, frame) == Ok
    ensures LeaseHeld(LeaseFrame(r.c, frame).ledger, r.c.nextToken, frame.image)
    ensures r.c.nextToken !in r.c.ledger.readers && r.c.nextToken != 0
  {
    hide Inv, L.ValidReaders;
    LedgerValid(r);
    var l := LeaseFrame(r.c, frame).ledger;
    LeaseIsApply(r, frame);
    RingSteps.LeaseKeeps(r, frame);
    LedgerValid(r.(c := LeaseFrame(r.c, frame)));
    var i := L.IndexOf(l, r.c.nextToken);
    assert l.frames[|l.frames| - 1] == frame;
    assert l.frames[i].ready == frame.ready;
  }

  lemma LeaseMoveKeeps(j: Joint, d: nat, frame: Frame)
    requires JointInv(j)
    ensures JointInv(ApplyMove(j, LeaseSlot(d, frame)))
  {
    hide Inv, LeaseHeld, T.Usable, LeaseFrame, LeaseResult, Apply;
    var slots := j.relay.slots;
    if Active(j) && j.relay.serving && HasSlot(j, d) && OnLease(j, d, frame) != j {
      var t := j.up.c.nextToken;
      NewLeaseHeld(j.up, frame);
      LeaseIsApply(j.up, frame);
      RingSteps.StepKeepsInv(j.up, Lease(frame));
      LeasesSurvive(slots, j.up, Lease(frame), j.down.p.images);
      LeasesAreReaders(slots, j.up.c.ledger, j.down.p.images);
    }
  }

  lemma LeasesAreReaders(slots: seq<Slot>, l: L.Ledger, images: seq<nat>)
    requires LeasesOk(slots, l, images)
    ensures forall d :: 0 <= d < |slots| && slots[d].lease != 0 ==> slots[d].lease in l.readers
  {
  }

  /** What a submit does to the slots. */
  lemma SubmitEffect(r: Ring, d: nat, ptsNs: int)
    requires Inv(r) && ProducerRuns(r) && d < |r.p.images| && BeginResult(r.p, d, r.p.images[d], true) == Ok
    ensures var begun := Begin(r.p, d, r.p.images[d], true);
      var p := End(begun, d, r.p.images[d], begun.submittingValue, true);
      && Publish(r, p, d, begun.submittingValue, ptsNs, None) == Apply(r, SubmitSync(d, ptsNs, None))
      && d < |r.p.submitValue| && p.images == r.p.images && !p.waiting && p.consumed == r.p.consumed
        && p.submittingValue == 0
      && p.submitValue == r.p.submitValue[d := begun.submittingValue]
  {
    hide Inv;
  }

  lemma SubmitMoveKeeps(j: Joint, d: nat, ptsNs: int)
    requires JointInv(j)
    ensures JointInv(ApplyMove(j, SubmitSlot(d, ptsNs)))
  {
    hide Inv, LeaseHeld, T.Usable, BeginResult, Begin, End, Apply;
    var slots := j.relay.slots;
    if Active(j) && HasSlot(j, d) && !slots[d].reserved && slots[d].lease != 0
      && ProducerRuns(j.down) && BeginResult(j.down.p, d, j.down.p.images[d], true) == Ok
    {
      SubmitEffect(j.down, d, ptsNs);
      RingSteps.StepKeepsInv(j.down, SubmitSync(d, ptsNs, None));
      var down := Apply(j.down, SubmitSync(d, ptsNs, None));
      RingSteps.RunningIsSynced(down);
      if j.relay.serving {
        forall e | 0 <= e < |slots| && e < |down.p.submitValue| && slots[e].lease == 0 ensures T.Usable(down, e) {
          UsableStays(j.down, down, e);
        }
      }
    }
  }

  lemma CancelEffect(r: Ring, d: nat)
    requires Inv(r) && ProducerRuns(r) && d < |r.p.images| && CancelResult(r.p, d, r.p.images[d]) == Ok
    ensures var p := Cancel(r.p, d, r.p.images[d]);
      && r.(p := p) == Apply(r, CancelSlot(d)) && d < |r.p.submitValue|
      && p == r.p.(submitValue := r.p.submitValue[d := 0])
  {
    hide Inv;
  }

  lemma CancelMoveKeeps(j: Joint, d: nat)
    requires JointInv(j)
    ensures JointInv(ApplyMove(j, CancelReserved(d)))
  {
    hide Inv, LeaseHeld, T.Usable, CancelResult, Cancel, Apply;
    var slots := j.relay.slots;
    if Active(j) && HasSlot(j, d) && OnCancel(j, d) != j {
      CancelEffect(j.down, d);
      RingSteps.StepKeepsInv(j.down, CancelSlot(d));
      var down := Apply(j.down, CancelSlot(d));
      RingSteps.RunningIsSynced(down);
      if j.relay.serving {
        forall e | 0 <= e < |slots| && e < |down.p.submitValue| && slots[e].lease == 0 ensures T.Usable(down, e) {
          if e == d {
            ClearedIsUsable(down, e);
          } else {
            UsableStays(j.down, down, e);
          }
        }
      }
    }
  }

  lemma ClearedIsUsable(r: Ring, d: nat)
    requires d < |r.p.submitValue| && r.p.submitValue[d] == 0 && Synced(r)
    ensures T.Usable(r, d)
  {
  }

  lemma ServeKeeps(j: Joint)
    requires JointInv(j)
    ensures JointInv(ApplyMove(j, Serve))
  {
    hide Inv, LeaseHeld, T.Usable;
    if Active(j) && AllReserved(j) {
      SizesAgree(j.down);
      forall d | 0 <= d < |j.relay.slots| && d < |j.down.p.submitValue| ensures T.Usable(j.down, d) {
        ReservedIsUsable(j.down, d);
      }
    }
  }

  lemma MoveKeepsInv(j: Joint, m: Move)
    requires JointInv(j)
    ensures JointInv(ApplyMove(j, m))
  {
    hide JointInv, ApplyMove;
    match m
    case Up(step) => UpKeeps(j, step);
    case Down(step) => DownKeeps(j, step);
    case Serve => ServeKeeps(j);
    case Reacquire => ReacquireKeeps(j);
    case CompleteSlot(d) => CompleteKeeps(j, d);
    case RetireUp => RetireKeeps(j);
    case LeaseSlot(d, frame) => LeaseMoveKeeps(j, d, frame);
    case SubmitSlot(d, ptsNs) => SubmitMoveKeeps(j, d, ptsNs);
    case CancelReserved(d) => CancelMoveKeeps(j, d);
    case _ => FlagsKeep(j, m);
  }

  lemma FlagsKeep(j: Joint, m: Move)
    requires JointInv(j) && (m.Start? || m.Stop? || m.Poison?)
    ensures JointInv(ApplyMove(j, m))
  {
    hide Inv, LeaseHeld, T.Usable;
  }

  // ---- whole runs -----------------------------------------------------------------------------------

  /** Two rings in a state of their own making, and a relay not yet initialised. */
  ghost predicate JointInitial(j: Joint) {
    && Inv(j.up) && Inv(j.down) && FencesOk(j.up) && FencesOk(j.down) && !j.down.p.waiting
    && j.relay == Relay(seq(MAX_POOL, _ => FREE_SLOT), false, false, false)
  }

  /** Any two rings grown from new channels can be joined, while no geometry request waits downstream. */
  lemma RingsJoin(up0: Ring, upSteps: seq<Step>, down0: Ring, downSteps: seq<Step>)
    requires Initial(up0) && Initial(down0) && !Run(down0, downSteps).p.waiting
    ensures JointInitial(Joint(Run(up0, upSteps), Run(down0, downSteps),
      Relay(seq(MAX_POOL, _ => FREE_SLOT), false, false, false)))
  {
    hide Inv, FencesOk, Initial, Run;
    T.InitialInv(up0);
    T.InitialInv(down0);
    InitialFences(up0);
    InitialFences(down0);
    T.RunKeepsInv(up0, upSteps);
    T.RunKeepsInv(down0, downSteps);
    RunKeepsFences(up0, upSteps);
    RunKeepsFences(down0, downSteps);
  }

  lemma StartsJoint(j: Joint)
    requires JointInitial(j)
    ensures JointInv(j)
  {
    hide Inv;
  }

  lemma {:induction false} RunKeepsJointInv(j: Joint, moves: seq<Move>)
    requires JointInv(j)
    ensures JointInv(RunMoves(j, moves))
    decreases |moves|
  {
    hide JointInv, ApplyMove;
    if moves != [] {
      MoveKeepsInv(j, moves[0]);
      RunKeepsJointInv(ApplyMove(j, moves[0]), moves[1..]);
    }
  }

  /** What the fences of the downstream ring promise is kept by whoever moves. */
  lemma MoveKeepsFences(j: Joint, m: Move)
    requires JointInv(j) && FencesOk(j.down)
    ensures FencesOk(ApplyMove(j, m).down)
  {
    hide Inv, LeasesOk, ReservedOk, ServingOk, TransactionOk, FencesOk, Apply;
    match m
    case Down(step) => StepKeepsFences(j.down, step);
    case SubmitSlot(d, ptsNs) =>
      if ApplyMove(j, m).down != j.down {
        SubmitEffect(j.down, d, ptsNs);
        StepKeepsFences(j.down, SubmitSync(d, ptsNs, None));
      }
    case _ =>
      OnlyProducerMoves(j, m);
      FencesIgnoreProducer(j.down, ApplyMove(j, m).down);
  }

  lemma OnlyProducerMoves(j: Joint, m: Move)
    requires !m.Down? && !m.SubmitSlot?
    ensures ApplyMove(j, m).down == j.down.(p := ApplyMove(j, m).down.p)
  {
    hide Apply, Reserve, AdvanceProducer, Cancel, CancelResult, LeaseResult, LeaseFrame;
  }

  lemma FencesIgnoreProducer(r: Ring, r': Ring)
    requires FencesOk(r) && r' == r.(p := r'.p)
    ensures FencesOk(r')
  {
    hide FlightOk, TakenOk, DeferralsOk;
  }

  lemma {:induction false} RunKeepsJointFences(j: Joint, moves: seq<Move>)
    requires JointInv(j) && FencesOk(j.down)
    ensures FencesOk(RunMoves(j, moves).down)
    decreases |moves|
  {
    hide JointInv, FencesOk, ApplyMove;
    if moves != [] {
      MoveKeepsInv(j, moves[0]);
      MoveKeepsFences(j, moves[0]);
      RunKeepsJointFences(ApplyMove(j, moves[0]), moves[1..]);
    }
  }

  /** A leased frame keeps its upstream slot from the producer, and every slot has an allocation of its own. */
  lemma LeasePinsAllocation(r: Ring, t: nat, image: nat, i: nat)
    requires Inv(r) && LeaseHeld(r.c.ledger, t, image) && T.Usable(r, i)
    ensures i < |r.p.images| && r.p.images[i] != image
  {
    hide Inv, T.Usable, T.ConsumerTouches, L.Valid;
    T.ReservedMeansSynced(r, i);
    T.UsableIsUntouched(r, i);
    UsableInPool(r, i);
    LedgerValid(r);
    var k := L.IndexOf(r.c.ledger, t);
    LeasedSlotTouched(r, k);
  }

  lemma LeasedSlotTouched(r: Ring, k: nat)
    requires k < |r.c.ledger.frames|
    ensures T.ConsumerTouches(r, r.c.ledger.frames[k].slot)
  {
    assert T.LeasedOn(r.c.ledger, r.c.ledger.frames[k].slot);
  }

  lemma UsableInPool(r: Ring, i: nat)
    requires Inv(r) && Synced(r) && T.Usable(r, i)
    ensures i < |r.c.images| && r.p.images == r.c.images
    ensures forall a, b :: 0 <= a < b < |r.c.images| ==> r.c.images[a] != r.c.images[b]
  {
    hide FramesOk, SentOk, QueueOk, PhaseOk, SlotsOk, SubmitOk, NewestOk, LedgerOk, Taken, Coming;
  }

  lemma TwoHopState(j: Joint, i: nat, d: nat)
    requires JointInv(j) && FencesOk(j.down) && j.relay.serving && T.Usable(j.up, i)
    requires i < |j.up.p.images| && d < |j.down.c.images| && j.down.c.images[d] == j.up.p.images[i]
    ensures !T.ConsumerTouches(j.down, d) && T.ReadsFinished(j.down, d)
  {
    hide Inv, T.Usable, LeaseHeld, T.ConsumerTouches, T.ReadsFinished;
    SizesAgree(j.down);
    var t := j.relay.slots[d].lease;
    if t != 0 {
      LeasePinsAllocation(j.up, t, j.down.p.images[d], i);
    }
    T.UsableIsUntouched(j.down, d);
    T.UsableIsRead(j.down, d);
  }

  /**
   * Two-hop ownership. In every run of two rings joined by a relay, poisoned or not, whenever the upstream producer
   * holds or may reserve a slot, the same allocation is not in flight to, pending at, held by or leased to the
   * downstream consumer, and the fence of every downstream release of it, and of every downstream read whose end was
   * left to one, has signalled.
   */
  lemma TwoHopSafety(j0: Joint, moves: seq<Move>, i: nat, d: nat)
    requires JointInitial(j0)
    requires var j := RunMoves(j0, moves);
      && j.relay.serving && T.Usable(j.up, i) && i < |j.up.p.images| && d < |j.down.c.images|
      && j.down.c.images[d] == j.up.p.images[i]
    ensures var j := RunMoves(j0, moves); !T.ConsumerTouches(j.down, d) && T.ReadsFinished(j.down, d)
  {
    hide Inv, FencesOk, RunMoves, T.Usable, T.ConsumerTouches, T.ReadsFinished;
    RunKeepsJointInv(j0, moves);
    RunKeepsJointFences(j0, moves);
    TwoHopState(RunMoves(j0, moves), i, d);
  }

  lemma PoisonedMove(j: Joint, m: Move)
    requires j.relay.failed
    ensures ApplyMove(j, m).relay.failed
    ensures ApplyMove(j, m).relay.slots == j.relay.slots
  {
    hide Apply;
  }

  /** A poisoned relay abandons nothing: every lease it kept stays live upstream for ever. */
  lemma {:induction false} PoisonedKeepsLeases(j: Joint, moves: seq<Move>, d: nat)
    requires JointInv(j) && j.relay.failed && d < |j.relay.slots| && j.relay.slots[d].lease != 0
    ensures var j' := RunMoves(j, moves);
      && j'.relay.failed && j'.relay.slots == j.relay.slots
      && d < |j'.down.p.images| && LeaseHeld(j'.up.c.ledger, j.relay.slots[d].lease, j'.down.p.images[d])
    decreases |moves|
  {
    hide Inv, ApplyMove, LeaseHeld, T.Usable;
    if moves != [] {
      MoveKeepsInv(j, moves[0]);
      PoisonedMove(j, moves[0]);
      PoisonedKeepsLeases(ApplyMove(j, moves[0]), moves[1..], d);
    }
  }

  /**
   * The relay's own sanity checks never fire: an acquire returns a slot it does not already keep, completing a
   * lease always finds its token live, and cancelling a reserve always succeeds. Only the link can poison it.
   */
  lemma OwnChecksNeverFire(j: Joint, d: nat)
    requires JointInv(j) && Active(j) && ProducerRuns(j.down)
    ensures !ApplyMove(j, Reacquire).relay.failed && !ApplyMove(j, CompleteSlot(d)).relay.failed
    ensures HasSlot(j, d) && j.relay.slots[d].reserved ==> CancelResult(j.down.p, d, j.down.p.images[d]) == Ok
  {
    hide Inv, ApplyMove, LeaseHeld, T.Usable;
    ReacquireKeeps(j);
    CompleteKeeps(j, d);
    SizesAgree(j.down);
  }
}
