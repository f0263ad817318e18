/**
 * What decides the answers of a relay, in terms of the fields of the two rings and of the relay's own slots: when a
 * frame is forwarded, and when a ring can be served at all.
 */
module RelayOutcomes {
  import opened Basics
  import opened Base
  import opened SyncFences
  import opened Rings
  import opened RingInvariant
  import opened RingOutcomes
  import opened Relays
  import RingSteps
  import R = RelayReclamation

  // ---- forwarding ---------------------------------------------------------------------------------

  /** A reserved slot of the allocation to forward. */
  predicate Target(j: Joint, d: nat, image: nat) {
    HasSlot(j, d) && j.relay.slots[d].reserved && j.down.p.images[d] == image
  }

  /** No two slots hold one allocation, so the relay's search never finds two. */
  lemma OneTarget(j: Joint, d: nat, e: nat, image: nat)
    requires JointInv(j) && Target(j, d, image) && Target(j, e, image)
    ensures d == e
  {
    hide FramesOk, SentOk, QueueOk, PhaseOk, SyncedOk, NewestOk, LedgerOk, LeasesOk, ReservedOk, ServingOk,
      TransactionOk;
    SizesAgree(j.down);
  }

  /**
   * Whether a frame goes on, from a relay that has just collected on a live link: some reserved slot holds its
   * allocation, the frame is the one held upstream with a reader entry and a token left for its lease, and downstream
   * no submit is open and a publishable value is left.
   */
  ghost function ForwardOutcome(j: Joint, frame: Frame): FlResult {
    if forall d :: !Target(j, d, frame.image) then FormatUnsupported
    else if LeaseOutcome(j.up.c, frame) != Ok then LeaseOutcome(j.up.c, frame)
    else if j.down.p.submittingValue != 0 then Busy
    else if j.down.p.ready >= U64_MAX - 1 then Invalid
    else Ok
  }

  /** Only a submit that fails after the lease poisons the relay; any other refusal leaves the input frame held. */
  ghost predicate Breaks(j: Joint, frame: Frame) {
    && LeaseOutcome(j.up.c, frame) == Ok
    && ForwardOutcome(j, frame) != Ok && ForwardOutcome(j, frame) != FormatUnsupported
  }

  /** The first `n` moves collect all there is, and what that leaves decides the answer. */
  ghost predicate Answers(j: Joint, moves: seq<Move>, n: nat, frame: Frame, result: FlResult, poisoned: bool) {
    && n <= |moves| && CollectsOnly(moves[..n])
    && var mid := RunMoves(j, moves[..n]);
      Reacquired(mid) == None && result == ForwardOutcome(mid, frame) && poisoned == Breaks(mid, frame)
  }

  lemma AnswersOnce(j: Joint, a: seq<Move>, b: seq<Move>, frame: Frame, result: FlResult, poisoned: bool)
    requires CollectsOnly(a) && Reacquired(RunMoves(j, a)) == None && result == ForwardOutcome(RunMoves(j, a), frame)
    requires poisoned == Breaks(RunMoves(j, a), frame)
    ensures Answers(j, a + b, |a|, frame, result, poisoned)
  {
    hide CollectsOnly, Reacquired, RunMoves, ForwardOutcome, Breaks;
    assert (a + b)[..|a|] == a;
  }

  /** The answers of the two channel calls of a forward. */
  lemma ForwardExactly(j: Joint, d: nat, frame: Frame)
    requires JointInv(j) && Target(j, d, frame.image)
    ensures ForwardOutcome(j, frame) == if LeaseResult(j.up.c, frame) != Ok then LeaseResult(j.up.c, frame)
                                        else BeginResult(j.down.p, d, frame.image, true)
    ensures Breaks(j, frame) <==> LeaseResult(j.up.c, frame) == Ok && ForwardOutcome(j, frame) != Ok
  {
    hide Inv, LeasesOk, ServingOk, TransactionOk, LeaseResult, LeaseOutcome;
    LeaseExactly(j.up, frame);
  }

  // ---- collecting ---------------------------------------------------------------------------------

  /** What a collection is made of: reading, acquiring, completing and retiring. */
  predicate Collects(m: Move) {
    m == Down(Receive) || m.Reacquire? || m.CompleteSlot? || m.RetireUp?
  }

  predicate CollectsOnly(moves: seq<Move>) {
    forall k :: 0 <= k < |moves| ==> Collects(moves[k])
  }

  lemma CollectsNothing()
    ensures CollectsOnly([])
  {
  }

  lemma CollectsConcat(a: seq<Move>, b: seq<Move>)
    requires CollectsOnly(a) && CollectsOnly(b)
    ensures CollectsOnly(a + b)
  {
  }

  lemma CollectsLeasesNothing(moves: seq<Move>)
    requires CollectsOnly(moves)
    ensures R.LeasesNothing(moves)
  {
  }

  /** Every downstream slot is the relay's, or free for the next acquire. */
  predicate ForTheRelay(j: Joint) {
    forall d :: 0 <= d < |j.down.p.submitValue| ==>
      (d < |j.relay.slots| && j.relay.slots[d].reserved) || Available(j.down.p, d)
  }

  lemma ReceiveKeepsPins(r: Ring)
    requires !r.p.waiting
    ensures Apply(r, Receive).p.pins == r.p.pins
  {
    hide ReadyPrefix, Raise;
  }

  lemma CollectKeepsForTheRelay(j: Joint, m: Move)
    requires JointInv(j) && ForTheRelay(j) && Collects(m)
    ensures ForTheRelay(ApplyMove(j, m))
  {
    hide Inv, Apply, LeasesOk, ServingOk, TransactionOk, ReservedOk, CompleteLease, Reserve, AdvanceProducer;
    match m
    case Down(step) =>
      ReceiveLeavesSlots(j.down);
      ReceiveKeepsPins(j.down);
    case Reacquire =>
      if Active(j) && ProducerRuns(j.down) {
        AcquireEffect(j.down);
        AcquireKeepsPins(j.down.p, j.down.done);
        SizesAgree(j.down);
      }
    case _ =>
  }

  lemma AcquireKeepsPins(p: Producer, done: set<nat>)
    ensures Reserve(AdvanceProducer(p, done)).0.pins == p.pins
  {
    hide FirstAvailable, ReadyPrefix, Raise;
  }

  lemma {:induction false} CollectionKeepsForTheRelay(j: Joint, moves: seq<Move>)
    requires JointInv(j) && ForTheRelay(j) && CollectsOnly(moves)
    ensures ForTheRelay(RunMoves(j, moves))
    decreases |moves|
  {
    hide JointInv, ForTheRelay, ApplyMove;
    if moves != [] {
      CollectKeepsForTheRelay(j, moves[0]);
      MoveKeepsInv(j, moves[0]);
      CollectionKeepsForTheRelay(ApplyMove(j, moves[0]), moves[1..]);
    }
  }

  /** A ring without anybody else's slot or pin is reserved whole by a collection that acquires what it can. */
  lemma FreeRingIsServed(j: Joint, moves: seq<Move>)
    requires JointInv(j) && ForTheRelay(j) && CollectsOnly(moves)
    requires Reacquired(RunMoves(j, moves)) == None
    ensures AllReserved(RunMoves(j, moves))
  {
    hide Inv, ApplyMove, RunMoves, LeasesOk, ServingOk, TransactionOk, ReservedOk;
    var w := RunMoves(j, moves);
    RunKeepsJointInv(j, moves);
    CollectionKeepsForTheRelay(j, moves);
    SizesAgree(w.down);
    AvailableIsReserved(w.down.p, w.down.done);
  }

  /** When an acquire finds nothing, nothing was available before it either. */
  lemma AvailableIsReserved(p: Producer, done: set<nat>)
    requires Reserve(AdvanceProducer(p, done)).1 == None
    ensures forall d :: 0 <= d < |p.submitValue| ==> !Available(p, d)
  {
    hide ReadyPrefix;
    var a := AdvanceProducer(p, done);
    forall d | 0 <= d < |p.submitValue| ensures !Available(p, d) {
      assert !Available(a, d);
    }
  }

  /** A slot that somebody else reserved, or that a local reference pins. */
  predicate Withheld(j: Joint, d: nat) {
    && d < |j.down.p.submitValue| && (d < |j.relay.slots| ==> !j.relay.slots[d].reserved)
    && (j.down.p.submitValue[d] == SENTINEL || d in j.down.p.pins.Values)
  }

  lemma CollectLeavesWithheld(j: Joint, m: Move, d: nat)
    requires JointInv(j) && Withheld(j, d) && Collects(m)
    ensures Withheld(ApplyMove(j, m), d)
  {
    hide Inv, Apply, LeasesOk, ServingOk, TransactionOk, ReservedOk, CompleteLease, Reserve, AdvanceProducer;
    match m
    case Down(step) =>
      ReceiveLeavesSlots(j.down);
      ReceiveKeepsPins(j.down);
    case Reacquire =>
      if Active(j) && ProducerRuns(j.down) {
        AcquireEffect(j.down);
        AcquireKeepsPins(j.down.p, j.down.done);
        AcquiresAvailable(j.down.p, j.down.done);
        SizesAgree(j.down);
      }
    case _ =>
  }

  lemma AcquiresAvailable(p: Producer, done: set<nat>)
    ensures var d := Reserve(AdvanceProducer(p, done)).1; d.Some? ==> d.value !in p.pins.Values
  {
    hide ReadyPrefix, Raise;
  }

  lemma {:induction false} CollectionLeavesWithheld(j: Joint, moves: seq<Move>, d: nat)
    requires JointInv(j) && Withheld(j, d) && CollectsOnly(moves)
    ensures Withheld(RunMoves(j, moves), d)
    decreases |moves|
  {
    hide JointInv, Withheld, ApplyMove;
    if moves != [] {
      CollectLeavesWithheld(j, moves[0], d);
      MoveKeepsInv(j, moves[0]);
      CollectionLeavesWithheld(ApplyMove(j, moves[0]), moves[1..], d);
    }
  }

  /** A ring with a slot withheld from the relay is not served. */
  lemma WithheldSlotBlocks(j: Joint, moves: seq<Move>, d: nat)
    requires JointInv(j) && Withheld(j, d) && CollectsOnly(moves)
    ensures !AllReserved(RunMoves(j, moves))
  {
    hide Inv, ApplyMove, RunMoves, LeasesOk, ServingOk, TransactionOk, ReservedOk;
    RunKeepsJointInv(j, moves);
    CollectionLeavesWithheld(j, moves, d);
    SizesAgree(RunMoves(j, moves).down);
  }

  /** After `Start` the moves up to the `n`th collect all there is, and what that leaves decides the answer. */
  ghost predicate Serves(j: Joint, moves: seq<Move>, n: nat, result: FlResult) {
    && 1 <= n <= |moves| && moves[0] == Start && CollectsOnly(moves[1..n])
    && Reacquired(RunMoves(j, moves[..n])) == None
    && result == if AllReserved(RunMoves(j, moves[..n])) then Ok else Busy
  }

  lemma ServesOnce(j: Joint, a: seq<Move>, b: seq<Move>, result: FlResult)
    requires CollectsOnly(a) && Reacquired(RunMoves(j, [Start] + a)) == None
    requires result == if AllReserved(RunMoves(j, [Start] + a)) then Ok else Busy
    ensures Serves(j, [Start] + a + b, 1 + |a|, result)
  {
    hide CollectsOnly, Reacquired, RunMoves, AllReserved;
    var moves := [Start] + a + b;
    assert moves[..1 + |a|] == [Start] + a && moves[1..1 + |a|] == a;
  }

  /** Only a ring of its own is served: all of its slots free beforehand suffices, one withheld prevents it. */
  lemma OwnRingIsServed(j: Joint, moves: seq<Move>, n: nat, result: FlResult)
    requires JointInv(j) && !j.relay.initialized && Serves(j, moves, n, result)
    ensures (forall d :: 0 <= d < |j.down.p.submitValue| ==> Available(j.down.p, d)) ==> result == Ok
    ensures (exists d: nat :: Withheld(j, d)) ==> result == Busy
  {
    hide JointInv, RunMoves, Withheld, AllReserved, Reacquired, CollectsOnly, ApplyMove, Available;
    var j1, rest := ApplyMove(j, Start), moves[1..n];
    assert moves[..n][0] == Start && moves[..n][1..] == rest;
    RunsOn(j, moves[..n]);
    StartLeavesRest(j);
    MoveKeepsInv(j, Start);
    if forall d :: 0 <= d < |j.down.p.submitValue| ==> Available(j.down.p, d) {
      FreeRingIsServed(j1, rest);
    }
    if d: nat :| Withheld(j, d) {
      StartLeavesWithheld(j, d);
      WithheldSlotBlocks(j1, rest, d);
    }
  }

  lemma RunsOn(j: Joint, moves: seq<Move>)
    requires moves != []
    ensures RunMoves(j, moves) == RunMoves(ApplyMove(j, moves[0]), moves[1..])
  {
    hide ApplyMove;
  }

  lemma StartLeavesRest(j: Joint)
    requires !j.relay.initialized
    ensures ApplyMove(j, Start).down == j.down && ApplyMove(j, Start).relay.slots == j.relay.slots
  {
  }

  lemma StartLeavesWithheld(j: Joint, d: nat)
    requires !j.relay.initialized && Withheld(j, d)
    ensures Withheld(ApplyMove(j, Start), d)
  {
  }
}
