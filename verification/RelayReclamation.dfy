/**
 * What a relay gives back: once the downstream ring is drained, collecting ends every upstream lease, and the upstream
 * producer gets its slots again.
 */
module RelayReclamation {
  import opened Basics
  import opened Base
  import opened SyncFences
  import opened Rings
  import opened RingInvariant
  import opened Relays
  import opened RingReclamation
  import RingSteps
  import T = RingTheorems
  import L = Leases

  // ---- a lease is kept only for a frame that went on ----------------------------------------------

  predicate SubmittedOn(p: Producer, d: nat) {
    d < |p.submitValue| && p.submitValue[d] != SENTINEL
  }

  /** Every lease that is not about to be completed belongs to a slot that was submitted downstream. */
  predicate Handed(j: Joint) {
    forall d :: 0 <= d < |j.relay.slots| && j.relay.slots[d].lease != 0 && !j.relay.slots[d].reserved ==>
      SubmittedOn(j.down.p, d)
  }

  /** A slot in reserve owes nothing upstream. */
  predicate NothingOwed(j: Joint) {
    forall d :: 0 <= d < |j.relay.slots| && j.relay.slots[d].reserved ==> j.relay.slots[d].lease == 0
  }

  lemma HandedStays(j: Joint, j': Joint)
    requires Handed(j) && |j'.relay.slots| == |j.relay.slots|
    requires forall d :: 0 <= d < |j.relay.slots| && j'.relay.slots[d].lease != 0 && !j'.relay.slots[d].reserved ==>
      j'.relay.slots[d] == j.relay.slots[d] && (SubmittedOn(j.down.p, d) ==> SubmittedOn(j'.down.p, d))
    ensures Handed(j')
  {
    hide SubmittedOn;
  }

  lemma DownKeepsHanded(j: Joint, step: Step)
    requires JointInv(j) && Handed(j)
    ensures Handed(ApplyMove(j, Down(step)))
  {
    hide Inv, Apply, DownAllowed, LeasesOk, ReservedOk, ServingOk, TransactionOk;
    if DownAllowed(j, step) {
      DownLeavesSlots(j, step);
      HandedStays(j, ApplyMove(j, Down(step)));
    }
  }

  lemma ReacquireKeepsHanded(j: Joint)
    requires JointInv(j) && Handed(j)
    ensures Handed(ApplyMove(j, Reacquire))
  {
    hide Inv, Apply, LeasesOk, ReservedOk, ServingOk, TransactionOk, Reserve, AdvanceProducer;
    if Active(j) && ProducerRuns(j.down) {
      AcquireEffect(j.down);
      SizesAgree(j.down);
      HandedStays(j, ApplyMove(j, Reacquire));
    }
  }

  lemma SubmitKeepsHanded(j: Joint, d: nat, ptsNs: int)
    requires JointInv(j) && Handed(j)
    ensures Handed(ApplyMove(j, SubmitSlot(d, ptsNs)))
  {
    hide Inv, LeasesOk, ReservedOk, ServingOk, TransactionOk;
    var j' := ApplyMove(j, SubmitSlot(d, ptsNs));
    if Active(j) && HasSlot(j, d) && j'.down != j.down {
      SubmitSubmits(j.down.p, d);
      HandedStays(j, j');
    }
  }

  lemma SubmitSubmits(p: Producer, d: nat)
    requires d < |p.images| && BeginResult(p, d, p.images[d], true) == Ok
    ensures var begun := Begin(p, d, p.images[d], true);
      var p' := End(begun, d, p.images[d], begun.submittingValue, true);
      && SubmittedOn(p', d) && |p'.submitValue| == |p.submitValue|
      && forall e :: 0 <= e < |p.submitValue| && e != d ==> p'.submitValue[e] == p.submitValue[e]
  {
  }

  lemma CancelKeepsHanded(j: Joint, d: nat)
    requires JointInv(j) && Handed(j)
    ensures Handed(ApplyMove(j, CancelReserved(d)))
  {
    hide Inv, Apply, LeasesOk, ReservedOk, ServingOk, TransactionOk, CancelResult, Cancel;
    var j' := ApplyMove(j, CancelReserved(d));
    if Active(j) && HasSlot(j, d) && j' != j {
      CancelEffect(j.down, d);
      HandedStays(j, j');
    }
  }

  lemma CompleteKeepsHanded(j: Joint, d: nat)
    requires Handed(j)
    ensures Handed(ApplyMove(j, CompleteSlot(d)))
  {
    hide CompleteLease, SubmittedOn;
  }

  /** Only leasing opens a gap, until the submit that follows. */
  lemma MoveKeepsHanded(j: Joint, m: Move)
    requires JointInv(j) && Handed(j) && !m.LeaseSlot?
    ensures Handed(ApplyMove(j, m))
  {
    hide JointInv, ApplyMove, Handed;
    match m
    case Down(step) => DownKeepsHanded(j, step);
    case Reacquire => ReacquireKeepsHanded(j);
    case CompleteSlot(d) => CompleteKeepsHanded(j, d);
    case SubmitSlot(d, ptsNs) => SubmitKeepsHanded(j, d, ptsNs);
    case CancelReserved(d) => CancelKeepsHanded(j, d);
    case _ => OthersKeepHanded(j, m);
  }

  lemma OthersKeepHanded(j: Joint, m: Move)
    requires Handed(j) && (m.Up? || m.Start? || m.Serve? || m.RetireUp? || m.Stop? || m.Poison?)
    ensures Handed(ApplyMove(j, m))
  {
    hide Apply, SubmittedOn;
  }

  ghost predicate LeasesNothing(moves: seq<Move>) {
    forall k :: 0 <= k < |moves| ==> !moves[k].LeaseSlot?
  }

  lemma {:induction false} RunKeepsHanded(j: Joint, moves: seq<Move>)
    requires JointInv(j) && Handed(j) && LeasesNothing(moves)
    ensures Handed(RunMoves(j, moves))
    decreases |moves|
  {
    hide JointInv, Handed, ApplyMove;
    if moves != [] {
      assert !moves[0].LeaseSlot?;
      MoveKeepsHanded(j, moves[0]);
      MoveKeepsInv(j, moves[0]);
      RunKeepsHanded(ApplyMove(j, moves[0]), moves[1..]);
    }
  }

  /** A lease followed by its submit, if the submit goes through. */
  lemma ForwardKeepsHanded(j: Joint, d: nat, frame: Frame, ptsNs: int)
    requires JointInv(j) && Handed(j)
    requires var j2 := ApplyMove(ApplyMove(j, LeaseSlot(d, frame)), SubmitSlot(d, ptsNs));
      !j2.relay.failed && d < |j2.relay.slots| && j2.relay.slots[d].lease != 0 && !j2.relay.slots[d].reserved
    ensures Handed(ApplyMove(ApplyMove(j, LeaseSlot(d, frame)), SubmitSlot(d, ptsNs)))
  {
    hide Inv, LeasesOk, ReservedOk, ServingOk, TransactionOk, LeaseResult, LeaseFrame;
  }

  // ---- a drained downstream ring ends every lease -------------------------------------------------

  /** The downstream ring is drained, nothing of it was dropped last, and no local reference pins a slot. */
  ghost predicate Returned(down: Ring) {
    Drained(down) && LastAnnounced(down) && down.p.pins == map[]
  }

  /** When an acquire finds nothing in a drained ring every slot is in reserve. */
  lemma NothingToReacquire(j: Joint, d: nat)
    requires JointInv(j) && Returned(j.down) && Reacquired(j) == None && d < |j.down.p.submitValue|
    ensures j.down.p.submitValue[d] == SENTINEL
  {
    hide Inv, Drained, LastAnnounced, AllConsumed, LeasesOk, ReservedOk, ServingOk, AdvanceProducer, Reserve;
    FreeExactlyWhenAnnounced(j.down);
    DrainedSlots(j.down);
  }

  /** Once the downstream ring is drained and the relay has collected, it keeps no upstream lease. */
  lemma CollectedEndsLeases(j: Joint)
    requires JointInv(j) && Handed(j) && NothingOwed(j) && Returned(j.down) && Reacquired(j) == None
    ensures forall d :: 0 <= d < |j.relay.slots| ==> j.relay.slots[d].lease == 0
  {
    hide JointInv, Returned, Reacquired;
    forall d | 0 <= d < |j.relay.slots| ensures j.relay.slots[d].lease == 0 {
      if j.relay.slots[d].lease != 0 {
        NothingToReacquire(j, d);
      }
    }
  }

  // ---- and gives the upstream producer its slots back ---------------------------------------------

  /** Apart from the relay's leases nobody reads upstream. */
  ghost predicate OnlyRelayReads(j: Joint) {
    forall t :: t in PollCompletions(j.up.c, j.up.done).ledger.readers ==> OfRelay(j.relay.slots, t)
  }

  ghost predicate OfRelay(slots: seq<Slot>, t: nat) {
    t != 0 && exists d :: 0 <= d < |slots| && slots[d].lease == t
  }

  /** Without readers collecting empties the ledger. */
  lemma CollectEmpties(r: Ring)
    requires Inv(r) && PollCompletions(r.c, r.done).ledger.readers == map[]
    ensures Apply(r, Collect).c.ledger.frames == []
  {
    hide Inv, L.FreePrefix, L.Retirement, L.Retired;
    LedgerValid(r);
    NoneReading(PollCompletions(r.c, r.done).ledger);
  }

  lemma CollectLeavesRest(r: Ring)
    ensures var r' := Apply(r, Collect);
      && r'.c.frameHeld == r.c.frameHeld && r'.c.hasPending == r.c.hasPending && r'.p == r.p && r'.toC == r.toC
      && r'.done == r.done && r'.open == r.open
      && (r'.toP == r.toP || (exists v :: r'.toP == r.toP + [FrameReleased(Release(v, None))]))
  {
    hide L.Retirement, L.Retired;
  }

  /** Once every reader left its end to a fence that has signalled, collecting retires every frame. */
  lemma SignalledReadersCollect(r: Ring)
    requires Inv(r)
    requires forall t :: t in r.c.ledger.readers ==> t in r.c.completions && r.c.completions[t] in r.done
    ensures Apply(r, Collect).c.ledger.frames == []
    ensures r.c.ledger.frames != [] ==>
      var last := r.c.ledger.frames[|r.c.ledger.frames| - 1];
      Apply(r, Collect).sent == r.sent + [Release(last.ready, None)]
  {
    hide Inv, L.FreePrefix, L.Retirement, L.Retired;
    LedgerValid(r);
    var q := PollCompletions(r.c, r.done).ledger;
    assert q.readers == map[];
    NoneReading(q);
    CollectEmpties(r);
    LastRetired(q);
  }

  lemma LastRetired(l: L.Ledger)
    requires L.FreePrefix(l) == |l.frames|
    ensures L.Retirement(l) == if l.frames == [] then 0 else l.frames[|l.frames| - 1].ready
  {
    hide L.FreePrefix;
  }

  lemma NoneReading(l: L.Ledger)
    requires L.ValidQueue(l.frames, l.generation, l.last) && l.readers == map[]
    ensures L.FreePrefix(l) == |l.frames| && (l.frames != [] ==> L.Retirement(l) != 0) && L.Retired(l).frames == []
  {
    hide L.FreePrefixFrom;
  }

  /** Upstream everything but the relay's leases is settled: no frame on its way or held, every fence signalled. */
  ghost predicate OtherwiseDrained(r: Ring) {
    && r.open && !r.p.waiting && r.toC == [] && !r.c.hasPending && !r.c.frameHeld
    && AllSignalled(r.p.releases, r.done) && AllSignalled(Releases(r.toP), r.done)
  }

  lemma CollectDrains(r: Ring)
    requires Inv(r) && OtherwiseDrained(r) && PollCompletions(r.c, r.done).ledger.readers == map[]
    ensures var r' := Apply(r, Collect); r'.open && !r'.p.waiting && r'.p == r.p && DrainedUnread(r') && NoReply(r'.toP)
  {
    hide Inv, Apply, AllSignalled, PollCompletions, NoReply;
    var r' := Apply(r, Collect);
    CollectEmpties(r);
    CollectLeavesRest(r);
    RingSteps.CollectKeeps(r);
    RingSteps.RunningIsSynced(r');
    if r'.toP != r.toP {
      var v :| r'.toP == r.toP + [FrameReleased(Release(v, None))];
      AppendRelease(r.toP, FrameReleased(Release(v, None)));
      SignalledJoins(Releases(r.toP), Release(v, None), r.done);
    }
  }

  /**
   * The upstream producer gets every slot back: with the downstream ring drained and the relay's leases ended, one
   * more collection and the reading of what it announced leave the upstream ring drained.
   */
  lemma UpstreamDrains(j: Joint)
    requires JointInv(j) && Handed(j) && NothingOwed(j) && Returned(j.down) && Reacquired(j) == None
    requires OtherwiseDrained(j.up) && OnlyRelayReads(j)
    ensures var up := Apply(j.up, Collect);
      Drained(Run(up, Receives(|up.toP|))) && !Run(up, Receives(|up.toP|)).p.waiting
  {
    hide Inv, Handed, NothingOwed, Returned, Reacquired, LeasesOk, ReservedOk, ServingOk, TransactionOk, Drained,
      DrainedUnread, OtherwiseDrained, PollCompletions, Apply, Run, NoReply;
    CollectedEndsLeases(j);
    assert PollCompletions(j.up.c, j.up.done).ledger.readers == map[];
    CollectDrains(j.up);
    ReadingDrains(Apply(j.up, Collect));
  }

  // ---- along runs ---------------------------------------------------------------------------------

  predicate MoveDrops(j: Joint, m: Move) {
    match m
    case Up(step) => Drops(j.up.c, step)
    case Down(step) => Drops(j.down.c, step)
    case _ => false
  }

  lemma MoveKeepsDown(j: Joint, m: Move)
    requires Inv(j.down) && Accounted(j.down) && !MoveDrops(j, m)
    ensures Accounted(ApplyMove(j, m).down) && SameMode(j.down.c, ApplyMove(j, m).down.c)
  {
    hide Inv, Apply, Accounted, Reserve, AdvanceProducer, LeaseResult, LeaseFrame, BeginResult, Begin, End,
      CancelResult, Cancel, DownAllowed, UpAllowed;
    if m.Down? {
      StepKeepsAccount(j.down, m.step);
      ModeStays(j.down, m.step);
    } else {
      SameAccount(j.down, ApplyMove(j, m).down);
    }
  }

  lemma MoveKeepsUp(j: Joint, m: Move)
    requires Inv(j.up) && Accounted(j.up) && !MoveDrops(j, m)
    ensures Accounted(ApplyMove(j, m).up) && SameMode(j.up.c, ApplyMove(j, m).up.c)
  {
    hide Inv, Apply, Accounted, ApplyMove, SameMode;
    var up := ApplyMove(j, m).up;
    match m
    case Up(step) =>
      StepKeepsAccount(j.up, step);
      ModeStays(j.up, step);
      UpEffect(j, m);
    case RetireUp =>
      StepKeepsAccount(j.up, Collect);
      ModeStays(j.up, Collect);
      UpEffect(j, m);
    case LeaseSlot(_, frame) =>
      StepKeepsAccount(j.up, Lease(frame));
      ModeStays(j.up, Lease(frame));
      LeaseIsApply(j.up, frame);
      UpEffect(j, m);
    case CompleteSlot(d) =>
      UpEffect(j, m);
      if up != j.up {
        var t := j.relay.slots[d].lease;
        StepKeepsAccount(j.up, CompleteToken(t));
        ModeStays(j.up, CompleteToken(t));
        CompleteIsApply(j.up, t);
      }
    case _ =>
      UpUntouched(j, m);
      UpEffect(j, m);
  }

  lemma UpEffect(j: Joint, m: Move)
    ensures var up := ApplyMove(j, m).up;
      match m
      case Up(step) => up == j.up || up == Apply(j.up, step)
      case RetireUp => up == j.up || up == Apply(j.up, Collect)
      case LeaseSlot(_, frame) => up == j.up || up == j.up.(c := LeaseFrame(j.up.c, frame))
      case CompleteSlot(d) =>
        up == j.up || (d < |j.relay.slots| && up == j.up.(c := CompleteLease(j.up.c, j.relay.slots[d].lease)))
      case _ => true
    ensures SameMode(j.up.c, j.up.c)
  {
    hide Apply, LeaseFrame, LeaseResult, CompleteLease, UpAllowed;
  }

  lemma UpUntouched(j: Joint, m: Move)
    requires !m.Up? && !m.RetireUp? && !m.LeaseSlot? && !m.CompleteSlot?
    ensures ApplyMove(j, m).up == j.up
  {
    hide Apply, Reserve, AdvanceProducer, BeginResult, Begin, End, CancelResult, Cancel, DownAllowed, L.Live,
      LeaseResult, LeaseFrame;
  }

  /** No frame of either ring is dropped. */
  ghost predicate MovesDropNothing(j: Joint, moves: seq<Move>) {
    forall k :: 0 <= k < |moves| ==> !MoveDrops(j, moves[k])
  }

  lemma {:induction false} RunKeepsAccounts(j: Joint, moves: seq<Move>)
    requires JointInv(j) && Accounted(j.up) && Accounted(j.down) && MovesDropNothing(j, moves)
    ensures Accounted(RunMoves(j, moves).up) && Accounted(RunMoves(j, moves).down)
    decreases |moves|
  {
    hide Inv, Accounted, ApplyMove, LeasesOk, ReservedOk, ServingOk, TransactionOk;
    if moves != [] {
      var j' := ApplyMove(j, moves[0]);
      assert !MoveDrops(j, moves[0]);
      MoveKeepsUp(j, moves[0]);
      MoveKeepsDown(j, moves[0]);
      MoveKeepsInv(j, moves[0]);
      forall k | 0 <= k < |moves[1..]| ensures !MoveDrops(j', moves[1..][k]) {
        assert !MoveDrops(j, moves[k + 1]);
      }
      RunKeepsAccounts(j', moves[1..]);
    }
  }

  /** Downstream everything is read, its sockets are empty and nothing is pinned. */
  ghost predicate Quiet(down: Ring) {
    Drained(down) && down.p.pins == map[]
  }

  /**
   * Nothing leaks through a relay. In every run that drops no frame, once the downstream ring is drained and a
   * collection between two forwards finds nothing more to take back, the relay keeps no upstream lease; if nobody
   * else reads upstream either, one more collection and the upstream producer's reading of it leave every upstream
   * slot that is neither reserved nor pinned free.
   */
  lemma NothingLeaksThroughRelay(j0: Joint, moves: seq<Move>)
    requires JointInitial(j0) && Accounted(j0.up) && Accounted(j0.down) && MovesDropNothing(j0, moves)
    requires var j := RunMoves(j0, moves); Handed(j) && NothingOwed(j) && Quiet(j.down) && Reacquired(j) == None
    ensures var j := RunMoves(j0, moves); forall d :: 0 <= d < |j.relay.slots| ==> j.relay.slots[d].lease == 0
    ensures var j := RunMoves(j0, moves); OtherwiseDrained(j.up) && OnlyRelayReads(j) ==>
      var up := Apply(j.up, Collect); EverySlotFree(Run(up, Receives(|up.toP|)))
  {
    hide Inv, JointInv, RunMoves, Handed, NothingOwed, Reacquired, OtherwiseDrained, OnlyRelayReads, Apply, Run,
      EverySlotFree, Accounted, Drained, LastAnnounced, MovesDropNothing, AllConsumed;
    var j := RunMoves(j0, moves);
    StartsJoint(j0);
    RunKeepsJointInv(j0, moves);
    RunKeepsAccounts(j0, moves);
    UpInv(j);
    DrainedIsAnnounced(j.down);
    CollectedEndsLeases(j);
    if OtherwiseDrained(j.up) && OnlyRelayReads(j) {
      var up := Apply(j.up, Collect);
      UpstreamDrains(j);
      UpstreamFree(j.up);
    }
  }

  lemma UpInv(j: Joint)
    requires JointInv(j)
    ensures Inv(j.up) && Inv(j.down)
  {
    hide Inv;
  }

  lemma UpstreamFree(r: Ring)
    requires Inv(r) && Accounted(r)
    requires var up := Apply(r, Collect); Drained(Run(up, Receives(|up.toP|))) && !Run(up, Receives(|up.toP|)).p.waiting
    ensures var up := Apply(r, Collect); EverySlotFree(Run(up, Receives(|up.toP|)))
  {
    hide Inv, Apply, Run, EverySlotFree, Accounted, Drained, LastAnnounced, AllConsumed;
    var up := Apply(r, Collect);
    var last := Run(up, Receives(|up.toP|));
    RingSteps.StepKeepsInv(r, Collect);
    StepKeepsAccount(r, Collect);
    T.RunKeepsInv(up, Receives(|up.toP|));
    RunKeepsAccount(up, Receives(|up.toP|));
    DrainedIsAnnounced(last);
    FreeExactlyWhenAnnounced(last);
    DrainedSlots(last);
  }
}
