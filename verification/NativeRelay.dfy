/**
 * The relay as the program runs it, over the two channel objects it borrows. Every call is a run of the joint
 * machine of Relay.dfy, which `world` follows move by move.
 */
module NativeRelays {
  import opened Basics
  import opened Base
  import opened Rings
  import opened RingInvariant
  import opened Relays
  import opened RelayOutcomes
  import opened RingOutcomes
  import opened RingFences
  import opened ProducerChannels
  import C = ConsumerChannels
  import R = RelayReclamation
  import L = Leases

  datatype RelaySlot = RelaySlot(buffer: Buffer, lease: nat, reserved: bool)

  const NO_SLOT_YET := RelaySlot(Buffer(0, 0), 0, false)

  function Shown(slots: seq<RelaySlot>): (shown: seq<Slot>)
    ensures |shown| == |slots|
    ensures forall d :: 0 <= d < |slots| ==> shown[d] == Slot(slots[d].reserved, slots[d].lease)
  {
    seq(|slots|, d requires 0 <= d < |slots| => Slot(slots[d].reserved, slots[d].lease))
  }

  /** How many slots carry an upstream lease. */
  function LeaseCount(slots: seq<RelaySlot>): nat {
    if slots == [] then 0 else LeaseCount(slots[..|slots| - 1]) + if slots[|slots| - 1].lease != 0 then 1 else 0
  }

  lemma {:induction false} LeaseCountUpdate(slots: seq<RelaySlot>, d: nat, slot: RelaySlot)
    requires d < |slots|
    ensures LeaseCount(slots[d := slot]) ==
      LeaseCount(slots) + (if slot.lease != 0 then 1 else 0) - (if slots[d].lease != 0 then 1 else 0)
  {
    var n := |slots| - 1;
    if d < n {
      LeaseCountUpdate(slots[..n], d, slot);
      assert slots[d := slot][..n] == slots[..n][d := slot];
    } else {
      assert slots[d := slot][..n] == slots[..n];
    }
  }

  lemma {:induction false} NoLeases(slots: seq<RelaySlot>)
    ensures LeaseCount(slots) == 0 <==> forall d :: 0 <= d < |slots| ==> slots[d].lease == 0
  {
    if slots != [] {
      NoLeases(slots[..|slots| - 1]);
    }
  }

  /** Buffers the relay keeps are handles of their own slot. */
  ghost predicate BuffersOk(slots: seq<RelaySlot>, images: seq<nat>) {
    forall d :: 0 <= d < |slots| && (slots[d].reserved || slots[d].lease != 0) ==>
      d < |images| && slots[d].buffer == Buffer(d, images[d])
  }

  /** Between calls a reserved slot owes nothing upstream. */
  ghost predicate Settled(slots: seq<RelaySlot>) {
    forall d :: 0 <= d < |slots| && slots[d].reserved ==> slots[d].lease == 0
  }

  /** Every slot is as it was, or came back and owes nothing any more. */
  ghost predicate Collected(before: seq<RelaySlot>, after: seq<RelaySlot>) {
    |before| == |after| && forall d :: 0 <= d < |after| ==>
      after[d] == before[d] || (after[d].reserved && after[d].lease == 0)
  }

  /** The frame is leased in the slot of its own allocation, and only then submitted there. */
  ghost predicate Forwarded(slot: RelaySlot, d: nat, frame: Frame, moves: seq<Move>) {
    && slot.lease != 0 && !slot.reserved && slot.buffer == Buffer(d, frame.image)
    && |moves| >= 2 && moves[|moves| - 2..] == [Move.LeaseSlot(d, frame), Move.SubmitSlot(d, frame.ptsNs)]
  }

  lemma ForwardedExtends(slot: RelaySlot, d: nat, frame: Frame, a: seq<Move>, b: seq<Move>)
    requires Forwarded(slot, d, frame, b)
    ensures Forwarded(slot, d, frame, a + b)
  {
    assert (a + b)[|a + b| - 2..] == b[|b| - 2..];
  }

  lemma ForwardedNow(slot: RelaySlot, d: nat, frame: Frame)
    requires slot.lease != 0 && !slot.reserved && slot.buffer == Buffer(d, frame.image)
    ensures Forwarded(slot, d, frame, [Move.LeaseSlot(d, frame)] + [Move.SubmitSlot(d, frame.ptsNs)])
  {
  }

  lemma ShownAfter(slots: seq<RelaySlot>, d: nat, slot: RelaySlot)
    requires d < |slots|
    ensures Shown(slots[d := slot]) == Shown(slots)[d := Slot(slot.reserved, slot.lease)]
  {
  }

  lemma BufferOf(slots: seq<RelaySlot>, images: seq<nat>, d: nat)
    requires BuffersOk(slots, images) && d < |slots| && slots[d].reserved
    ensures slots[d].buffer.slot == d
  {
  }

  lemma {:induction false} RunMovesConcat(j: Joint, a: seq<Move>, b: seq<Move>)
    ensures RunMoves(j, a + b) == RunMoves(RunMoves(j, a), b)
    decreases |a|
  {
    hide ApplyMove;
    if a == [] {
      assert a + b == b;
    } else {
      assert (a + b)[1..] == a[1..] + b;
      RunMovesConcat(ApplyMove(j, a[0]), a[1..], b);
    }
  }

  lemma RunMovesSnoc(j: Joint, a: seq<Move>, m: Move)
    ensures RunMoves(j, a + [m]) == ApplyMove(RunMoves(j, a), m)
  {
    hide ApplyMove;
    RunMovesConcat(j, a, [m]);
    assert RunMoves(RunMoves(j, a), [m]) == RunMoves(ApplyMove(RunMoves(j, a), m), [m][1..]);
  }

  lemma RunNothing(j: Joint)
    ensures RunMoves(j, []) == j
  {
  }

  lemma RunOne(j: Joint, m: Move)
    ensures RunMoves(j, [m]) == ApplyMove(j, m)
  {
    hide ApplyMove;
    assert RunMoves(ApplyMove(j, m), [m][1..]) == ApplyMove(j, m);
  }

  function DownReceives(n: nat): (moves: seq<Move>)
    ensures |moves| == n
    ensures forall i :: 0 <= i < n ==> moves[i] == Down(Receive)
  {
    seq(n, _ => Down(Receive))
  }

  /** The control messages an acquire reads, as moves. */
  lemma {:induction false} DrainMoves(j: Joint)
    requires ProducerRuns(j.down)
    ensures RunMoves(j, DownReceives(|j.down.toP|))
      == j.(down := j.down.(p := Drain(j.down.p, j.down.toP, j.down.done), toP := []))
    decreases |j.down.toP|
  {
    hide ApplyRelease;
    if j.down.toP != [] {
      var m := j.down.toP[0];
      var j' := ApplyMove(j, Down(Receive));
      HandleKeepsRunning(j.down.p, m, j.down.done);
      assert j' == j.(down := j.down.(p := Handle(j.down.p, m, j.down.done), toP := j.down.toP[1..]));
      assert DownReceives(|j.down.toP|)[1..] == DownReceives(|j'.down.toP|);
      DrainMoves(j');
    }
  }

  /** The joint state agrees with what the relay and its channels hold. */
  ghost predicate Tracks(w: Joint, c: Consumer, p: Producer, inbox: seq<ToProducer>, connected: bool, relay: Relay) {
    w.up.c == c && w.down.p == p && w.down.toP == inbox && w.down.open == connected && w.relay == relay
  }

  class NativeRelay {
    const up: C.ConsumerChannel
    const down: ProducerChannel
    const slots: array<RelaySlot>
    var upGeneration: nat
    var downGeneration: nat
    var poolSize: nat
    var initialized: bool
    var failed: bool
    var inFlight: nat
    var forwarded: nat
    ghost var serving: bool
    ghost var world: Joint

    ghost function Shape(): Relay
      reads this`initialized, this`failed, this`serving, slots
    {
      Relay(Shown(slots[..]), initialized, failed, serving)
    }

    /** The two channels share nothing. */
    ghost predicate Separate()
      reads this, up, down
    {
      up.sync != down.sync && up.readers.tokens != down.references.tokens
    }

    /** What holds between any two channel calls. */
    ghost predicate Coupled()
      reads this, slots, up, up.sync, up.readers, up.readers.frames, up.readers.readers, up.readers.tokens,
        up.completions, down, down.sync, down.references, down.references.entries, down.references.counts,
        down.references.tokens
    {
      && Separate() && up.Valid() && down.Valid() && slots.Length == MAX_POOL
      && Tracks(world, up.State(), down.State(), down.inbox, down.connected, Shape())
      && JointInv(world) && BuffersOk(slots[..], down.images) && inFlight == LeaseCount(slots[..])
      && (initialized ==> poolSize == |down.images|)
    }

    /** What holds between any two calls of the relay. */
    ghost predicate Valid()
      reads this, slots, up, up.sync, up.readers, up.readers.frames, up.readers.readers, up.readers.tokens,
        up.completions, down, down.sync, down.references, down.references.entries, down.references.counts,
        down.references.tokens
    {
      Coupled() && (!failed ==> Settled(slots[..]) && R.Handed(world)) && (initialized && !failed ==> serving)
    }

    constructor (up: C.ConsumerChannel, down: ProducerChannel, ghost upRing: Ring, ghost downRing: Ring)
      requires up.Valid() && down.Valid() && up.sync != down.sync && up.readers.tokens != down.references.tokens
      requires Inv(upRing) && Inv(downRing) && FencesOk(upRing) && FencesOk(downRing) && upRing.c == up.State()
      requires downRing.p == down.State() && downRing.toP == down.inbox && downRing.open == down.connected
      ensures Valid() && this.up == up && this.down == down && fresh(slots) && JointInitial(world)
    {
      hide Inv, JointInv, LeaseCount, C.ConsumerChannel.Valid, C.ConsumerChannel.State, ProducerChannel.Valid;
      this.up, this.down := up, down;
      slots := new RelaySlot[MAX_POOL](_ => NO_SLOT_YET);
      upGeneration, downGeneration, poolSize := 0, 0, 0;
      initialized, failed, inFlight, forwarded := false, false, 0, 0;
      serving := false;
      world := Joint(upRing, downRing, Relay(seq(MAX_POOL, _ => FREE_SLOT), false, false, false));
      new;
      NoLeases(slots[..]);
      assert Shown(slots[..]) == seq(MAX_POOL, _ => FREE_SLOT);
      StartsJoint(world);
    }

    method Poison()
      requires Coupled() && initialized && !failed
      modifies this`failed, this`world
      ensures Coupled() && failed && world == ApplyMove(old(world), Move.Poison)
      ensures world.up == old(world.up) && world.down == old(world.down)
    {
      hide JointInv, ApplyMove, LeaseCount, BuffersOk, C.ConsumerChannel.Valid, C.ConsumerChannel.State,
        ProducerChannel.Valid, ProducerChannel.State;
      MoveKeepsInv(world, Move.Poison);
      PoisonEffect(world);
      failed := true;
      world := ApplyMove(world, Move.Poison);
    }

    /** One non-blocking acquire downstream; a slot that comes back joins the reserve. */
    method TakeBack(downDone: set<nat>) returns (result: FlResult, d: nat, ghost moves: seq<Move>)
      requires Coupled() && initialized && !failed && downDone == world.down.done
      modifies this`failed, this`world, this`inFlight, slots, down`consumedValue, down`inbox, down`slotSubmitValue,
        down.sync
      ensures Coupled() && world == RunMoves(old(world), moves) && inFlight == old(inFlight)
      ensures world.down.done == old(world.down.done) && world.up == old(world.up)
      ensures result == Ok || result == Timeout || result == Disconnected
      ensures failed <==> result == Disconnected
      ensures down.connected <==> result != Disconnected
      ensures result == Timeout ==> Reacquired(world) == None
      ensures result == Ok ==>
        d < poolSize && d < slots.Length && !old(slots[..])[d].reserved && slots[..] == old(slots[..])[d := slots[d]]
      ensures result == Ok ==> slots[d].reserved && slots[d].lease == old(slots[d].lease)
      ensures result != Ok ==> slots[..] == old(slots[..])
      ensures CollectsOnly(moves)
    {
      hide JointInv, LeaseCount, BuffersOk, C.ConsumerChannel.Valid, C.ConsumerChannel.State, RunMoves,
        ProducerChannel.Valid, ProducerChannel.State, Shown, CollectsOnly;
      ghost var w;
      var b;
      d := 0;
      result, b, moves, w := AskDown(downDone);
      if result == Ok {
        d := b.slot;
        result := Keep(b, w);
      } else {
        Follow(w, result != Timeout);
      }
    }

    /** The channels have moved and `w` with them; only the relay's own fields are behind. */
    ghost predicate Ahead(w: Joint)
      reads this, slots, up, up.sync, up.readers, up.readers.frames, up.readers.readers, up.readers.tokens,
        up.completions, down, down.sync, down.references, down.references.entries, down.references.counts,
        down.references.tokens
    {
      && Separate() && up.Valid() && down.Valid() && slots.Length == MAX_POOL && JointInv(w)
      && w.up.c == up.State() && w.down.p == down.State() && w.down.toP == down.inbox && w.down.open == down.connected
      && BuffersOk(slots[..], down.images) && inFlight == LeaseCount(slots[..])
        && (initialized ==> poolSize == |down.images|)
    }

    method Follow(ghost w: Joint, lost: bool)
      requires Ahead(w) && initialized && !failed && w.relay == Shape().(failed := lost)
      modifies this`failed, this`world
      ensures Coupled() && world == w && failed == lost
    {
      hide JointInv, LeaseCount, BuffersOk, C.ConsumerChannel.Valid, C.ConsumerChannel.State, ProducerChannel.Valid,
        ProducerChannel.State, Shown;
      failed := lost;
      world := w;
    }

    /** Files what a channel call did to one slot. */
    method Record(d: nat, slot: RelaySlot, n: nat, ghost w: Joint)
      requires Ahead(w) && d < slots.Length
      requires w.relay == Shape().(slots := Shown(slots[..])[d := Slot(slot.reserved, slot.lease)])
      requires BuffersOk(slots[..][d := slot], down.images) && n == LeaseCount(slots[..][d := slot])
      modifies this`world, this`inFlight, slots
      ensures Coupled() && world == w && inFlight == n && slots[..] == old(slots[..])[d := slot]
    {
      hide JointInv, LeaseCount, BuffersOk, C.ConsumerChannel.Valid, C.ConsumerChannel.State, ProducerChannel.Valid,
        ProducerChannel.State, Shown;
      ShownAfter(slots[..], d, slot);
      slots[d] := slot;
      inFlight := n;
      world := w;
      assert slots[..] == old(slots[..])[d := slot];
    }

    /** The acquire itself; `w` is where it takes the joint machine. */
    method AskDown(downDone: set<nat>) returns (result: FlResult, b: Buffer, ghost moves: seq<Move>, ghost w: Joint)
      requires Coupled() && initialized && !failed && downDone == world.down.done
      modifies down`consumedValue, down`inbox, down`slotSubmitValue, down.sync
      ensures Ahead(w) && w == RunMoves(world, moves) && w.down.done == world.down.done && w.up == world.up
      ensures CollectsOnly(moves)
      ensures result == Ok || result == Timeout || result == Disconnected
      ensures down.connected <==> result != Disconnected
      ensures result == Timeout ==> w.relay == Shape() && Reacquired(w) == None
      ensures result == Disconnected ==> w.relay == Shape().(failed := true)
      ensures result == Ok ==> b.slot < |down.images| <= MAX_POOL && b == Buffer(b.slot, down.images[b.slot])
      ensures result == Ok ==> !slots[b.slot].reserved
      ensures result == Ok ==> w.relay == Shape().(slots := Shown(slots[..])[b.slot := Slot(true, slots[b.slot].lease)])
    {
      hide JointInv, LeaseCount, BuffersOk, C.ConsumerChannel.Valid, C.ConsumerChannel.State, RunMoves, Acquired,
        ProducerChannel.Valid, ProducerChannel.State, CollectsOnly;
      CoupledMeans();
      PoolFits(world);
      moves, w := TakeBackMoves(world);
      NothingLeft(world.down.p, world.down.toP, world.down.done);
      result, b := down.AcquireBuffer(downDone);
    }

    /** Files a buffer the downstream channel just handed out. */
    method Keep(b: Buffer, ghost w: Joint) returns (result: FlResult)
      requires Ahead(w) && initialized && !failed
      requires b.slot < |down.images| <= MAX_POOL && b == Buffer(b.slot, down.images[b.slot])
      requires w.relay == if slots[b.slot].reserved then Shape().(failed := true)
                          else Shape().(slots := Shown(slots[..])[b.slot := Slot(true, slots[b.slot].lease)])
      modifies this`failed, this`world, this`inFlight, slots
      ensures Coupled() && world == w && inFlight == old(inFlight) && (failed <==> result != Ok)
      ensures result == if old(slots[b.slot].reserved) then Invalid else Ok
      ensures result == Ok ==> slots[..] == old(slots[..])[b.slot := slots[b.slot]]
      ensures result == Ok ==> slots[b.slot].reserved && slots[b.slot].lease == old(slots[b.slot].lease)
      ensures result != Ok ==> slots[..] == old(slots[..])
    {
      hide JointInv, LeaseCount, BuffersOk, C.ConsumerChannel.Valid, C.ConsumerChannel.State, ProducerChannel.Valid,
        ProducerChannel.State, Shown;
      if slots[b.slot].reserved {
        Follow(w, true);
        return Invalid;
      }
      SlotReserved(slots[..], b.slot, down.images);
      Record(b.slot, RelaySlot(b, slots[b.slot].lease, true), inFlight, w);
      result := Ok;
    }

    /** Completes the lease of a slot that came back, and retires what that frees upstream. */
    method Settle(d: nat, upDone: set<nat>) returns (result: FlResult, ghost moves: seq<Move>)
      requires Coupled() && initialized && !failed && upDone == world.up.done
      requires d < poolSize <= MAX_POOL && slots[d].reserved && slots[d].lease != 0
      modifies this`failed, this`world, this`inFlight, slots, up`outstanding, up`retiredValue, up`outbox, up.readers,
        up.readers.frames, up.readers.readers, up.completions
      ensures Coupled() && world == RunMoves(old(world), moves)
      ensures world.down == old(world.down) && world.up.done == old(world.up.done)
      ensures result == Ok && !failed && inFlight <= old(inFlight)
      ensures slots[..] == old(slots[..])[d := slots[d]] && slots[d].reserved && slots[d].lease == 0
      ensures CollectsOnly(moves)
    {
      hide JointInv, ApplyMove, RunMoves, Tracks, LeaseCount, BuffersOk, C.ConsumerChannel.Valid,
        C.ConsumerChannel.State, ProducerChannel.Valid, ProducerChannel.State;
      result := CompleteOne(d);
      moves := [Move.CompleteSlot(d)];
      RunOne(old(world), Move.CompleteSlot(d));
      if result != Ok {
        return;
      }
      RetireUpstream(upDone);
      RunMovesSnoc(old(world), moves, Move.RetireUp);
      moves := moves + [Move.RetireUp];
    }

    /** The completion itself; `w` is where it takes the joint machine. */
    method EndLease(d: nat) returns (result: FlResult, ghost w: Joint)
      requires Coupled() && initialized && !failed
      requires d < poolSize <= MAX_POOL && slots[d].reserved && slots[d].lease != 0
      modifies up.readers, up.readers.frames, up.readers.readers
      ensures Ahead(w) && w == ApplyMove(world, Move.CompleteSlot(d))
      ensures w.down == world.down && w.up.done == world.up.done
      ensures result == Ok || result == Invalid
      ensures w.relay == if result == Ok then Shape().(slots := Shown(slots[..])[d := Slot(true, 0)])
                         else Shape().(failed := true)
    {
      hide JointInv, ApplyMove, LeaseCount, BuffersOk, C.ConsumerChannel.Valid, ProducerChannel.Valid,
        ProducerChannel.State;
      CoupledMeans();
      MoveKeepsInv(world, Move.CompleteSlot(d));
      CompleteEffect(world, d);
      w := ApplyMove(world, Move.CompleteSlot(d));
      result := up.CompleteReadLease(slots[d].lease);
    }

    method CompleteOne(d: nat) returns (result: FlResult)
      requires Coupled() && initialized && !failed
      requires d < poolSize <= MAX_POOL && slots[d].reserved && slots[d].lease != 0
      modifies this`failed, this`world, this`inFlight, slots, up.readers, up.readers.frames, up.readers.readers
      ensures Coupled() && world == ApplyMove(old(world), Move.CompleteSlot(d))
      ensures world.down == old(world.down) && world.up.done == old(world.up.done)
      ensures result == Ok && !failed && inFlight <= old(inFlight)
      ensures slots[..] == old(slots[..])[d := slots[d]] && slots[d].reserved && slots[d].lease == 0
    {
      hide JointInv, ApplyMove, LeaseCount, BuffersOk, C.ConsumerChannel.Valid, C.ConsumerChannel.State,
        ProducerChannel.Valid, ProducerChannel.State, Shown;
      ghost var w;
      result, w := EndLease(d);
      if result != Ok {
        Follow(w, true);
        Unpoisoned(old(world), d);
        return;
      }
      SlotSettled(slots[..], d, down.images);
      Record(d, slots[d].(lease := 0), inFlight - 1, w);
    }

    method RetireUpstream(upDone: set<nat>)
      requires Coupled() && initialized && !failed && upDone == world.up.done
      modifies this`world, up`outstanding, up`retiredValue, up`outbox, up.readers, up.readers.frames,
        up.readers.readers, up.completions
      ensures Coupled() && world == ApplyMove(old(world), Move.RetireUp)
      ensures world.down == old(world.down) && world.up.done == old(world.up.done)
    {
      hide JointInv, ApplyMove, LeaseCount, BuffersOk, C.ConsumerChannel.Valid, ProducerChannel.Valid,
        ProducerChannel.State, CollectLeases;
      MoveKeepsInv(world, Move.RetireUp);
      RetireEffect(world);
      var collected := up.CollectReadLeases(upDone);
      world := ApplyMove(world, Move.RetireUp);
    }

    /** A collection is refused while the relay does not run, and fails exactly when a peer was lost or replaced. */
    function CollectOutcome(): FlResult
      reads this, up, down
    {
      if !initialized || failed then Invalid
      else if up.generation != upGeneration || down.generation != downGeneration || !down.connected then Disconnected
      else Ok
    }

    /**
     * Takes back every downstream slot that is free again and only then completes its upstream lease. A changed
     * generation on either side, or a lost link, poisons the relay instead.
     */
    method Collect(upDone: set<nat>, downDone: set<nat>) returns (result: FlResult, ghost moves: seq<Move>)
      requires Coupled() && (!failed ==> Settled(slots[..]) && R.Handed(world))
      requires upDone == world.up.done && downDone == world.down.done
      modifies this`failed, this`world, this`inFlight, slots, up`outstanding, up`retiredValue, up`outbox, up.readers,
        up.readers.frames, up.readers.readers, up.completions, down`consumedValue, down`inbox, down`slotSubmitValue,
        down.sync
      ensures Coupled() && (!failed ==> Settled(slots[..]) && R.Handed(world)) && world == RunMoves(old(world), moves)
        && inFlight <= old(inFlight)
      ensures world.up.done == old(world.up.done) && world.down.done == old(world.down.done)
      ensures result == Ok && R.Returned(world.down) ==> inFlight == 0
      ensures result == old(CollectOutcome())
      ensures !initialized || old(failed) ==> moves == [] && failed == old(failed)
      ensures initialized && !old(failed) ==> (failed <==> result != Ok)
      ensures result == Ok ==> initialized && !failed && down.connected
      ensures result == Ok ==> CollectsOnly(moves) && Reacquired(world) == None && Collected(old(slots[..]), slots[..])
    {
      hide JointInv, ApplyMove, LeaseCount, BuffersOk, C.ConsumerChannel.Valid, ProducerChannel.Valid,
        C.ConsumerChannel.State, ProducerChannel.State, RunMoves, Tracks, Shown, Reacquired, ReservedSet, Coupled,
        R.Handed, R.Returned, CollectsOnly;
      moves := [];
      RunNothing(world);
      if !initialized || failed {
        return Invalid, moves;
      }
      if up.generation != upGeneration || down.generation != downGeneration {
        Poison();
        RunOne(old(world), Move.Poison);
        return Disconnected, [Move.Poison];
      }
      CoupledMeans();
      CollectsNothing();
      var n := 0;
      while n < poolSize
        invariant Collected(old(slots[..]), slots[..]) && |ReservedSet(slots[..])| >= n
        invariant n <= poolSize && Coupled() && !failed && Settled(slots[..]) && world == RunMoves(old(world), moves)
        invariant world.up.done == upDone && world.down.done == downDone && inFlight <= old(inFlight)
        invariant n > 0 ==> down.connected
        invariant CollectsOnly(moves)
      {
        var d;
        ghost var more;
        ghost var before := slots[..];
        result, d, more := CollectOne(upDone, downDone);
        RunMovesConcat(old(world), moves, more);
        CollectsConcat(moves, more);
        moves := moves + more;
        if result == Timeout {
          CollectsLeasesNothing(moves);
          R.RunKeepsHanded(old(world), moves);
          NothingKept();
          return Ok, moves;
        }
        if result != Ok {
          return;
        }
        ReservedAfter(before, d, slots[d]);
        n := n + 1;
      }
      EverythingCollected();
      CollectsLeasesNothing(moves);
      R.RunKeepsHanded(old(world), moves);
      NothingKept();
      result := Ok;
    }

    /** A settled relay that finds nothing to take back from a drained ring has no lease in flight. */
    lemma NothingKept()
      requires Coupled() && Settled(slots[..]) && R.Handed(world) && Reacquired(world) == None
      ensures R.Returned(world.down) ==> inFlight == 0
    {
      hide JointInv, LeaseCount, BuffersOk, C.ConsumerChannel.Valid, ProducerChannel.Valid, C.ConsumerChannel.State,
        ProducerChannel.State, Reacquired, R.Handed, R.Returned;
      NoLeases(slots[..]);
      if R.Returned(world.down) {
        R.CollectedEndsLeases(world);
      }
    }

    lemma Seen(d: nat)
      requires Coupled() && d < slots.Length
      ensures world.relay.failed == failed && d < |world.relay.slots|
        && world.relay.slots[d] == Slot(slots[d].reserved, slots[d].lease)
    {
      hide JointInv, LeaseCount, BuffersOk, C.ConsumerChannel.Valid, ProducerChannel.Valid, C.ConsumerChannel.State,
        ProducerChannel.State;
    }

    lemma CoupledMeans()
      requires Coupled()
      ensures JointInv(world) && slots.Length == MAX_POOL && (initialized ==> 0 < poolSize == |down.images| <= MAX_POOL)
      ensures world.down.p.images == down.images && world.down.open == down.connected
      ensures BuffersOk(slots[..], down.images) && inFlight == LeaseCount(slots[..])
    {
      hide JointInv, LeaseCount, BuffersOk, C.ConsumerChannel.Valid, ProducerChannel.Valid, C.ConsumerChannel.State;
      PoolFits(world);
    }

    lemma EverythingCollected()
      requires Coupled() && initialized && down.connected && |ReservedSet(slots[..])| >= poolSize
      ensures Reacquired(world) == None
    {
      hide JointInv, LeaseCount, C.ConsumerChannel.Valid, ProducerChannel.Valid, C.ConsumerChannel.State, ReservedSet,
        Reacquired;
      PoolFits(world);
      FullReserve(slots[..], poolSize);
      AllReservedNothingLeft(world);
    }

    /** One slot taken back and settled. */
    method CollectOne(upDone: set<nat>, downDone: set<nat>) returns (result: FlResult, d: nat, ghost moves: seq<Move>)
      requires Coupled() && initialized && !failed && Settled(slots[..]) && upDone == world.up.done
        && downDone == world.down.done
      modifies this`failed, this`world, this`inFlight, slots, up`outstanding, up`retiredValue, up`outbox, up.readers,
        up.readers.frames, up.readers.readers, up.completions, down`consumedValue, down`inbox, down`slotSubmitValue,
        down.sync
      ensures Coupled() && (!failed ==> Settled(slots[..])) && world == RunMoves(old(world), moves)
        && inFlight <= old(inFlight)
      ensures world.up.done == old(world.up.done) && world.down.done == old(world.down.done)
      ensures result == Ok || result == Timeout || result == Disconnected
      ensures failed <==> result == Disconnected
      ensures down.connected <==> result != Disconnected
      ensures result == Timeout ==> Reacquired(world) == None && slots[..] == old(slots[..])
      ensures result == Ok ==>
        d < slots.Length && !old(slots[..])[d].reserved && slots[..] == old(slots[..])[d := slots[d]]
      ensures result == Ok ==> slots[d].reserved && slots[d].lease == 0
      ensures CollectsOnly(moves)
    {
      hide JointInv, ApplyMove, LeaseCount, BuffersOk, C.ConsumerChannel.Valid, ProducerChannel.Valid,
        C.ConsumerChannel.State, ProducerChannel.State, RunMoves, Tracks, Shown, Reacquired, Coupled, CollectsOnly;
      result, d, moves := TakeBack(downDone);
      if result == Ok && slots[d].lease != 0 {
        ghost var more;
        ghost var taken := slots[..];
        CoupledMeans();
        result, more := Settle(d, upDone);
        assert result == Ok ==> slots[..] == taken[d := slots[d]] == old(slots[..])[d := slots[d]];
        RunMovesConcat(old(world), moves, more);
        CollectsConcat(moves, more);
        moves := moves + more;
      }
    }

    /** A reserved slot of an allocation. */
    predicate Holds(d: nat, image: nat)
      reads slots
    {
      d < slots.Length && slots[d].reserved && slots[d].buffer.image == image
    }

    lemma HoldsMeans(d: nat, image: nat)
      requires Coupled()
      ensures Holds(d, image) <==> Target(world, d, image)
    {
      hide JointInv, LeaseCount, C.ConsumerChannel.Valid, ProducerChannel.Valid, C.ConsumerChannel.State;
      CoupledMeans();
      if d < slots.Length {
        Seen(d);
        assert slots[..][d] == slots[d];
      }
    }

    /** The reserved slot of an allocation: none, one, or more than one. */
    method FindTarget(image: nat) returns (found: nat, d: nat)
      requires slots.Length == MAX_POOL
      ensures found <= 2
      ensures found == 0 ==> forall e :: 0 <= e < MAX_POOL ==> !Holds(e, image)
      ensures found == 1 ==> Holds(d, image)
      ensures found == 2 ==> exists e, f :: 0 <= e < f && Holds(e, image) && Holds(f, image)
    {
      found, d := 0, 0;
      var i := 0;
      while i < MAX_POOL
        invariant i <= MAX_POOL && found <= 1
        invariant found == 0 ==> forall e :: 0 <= e < i ==> !Holds(e, image)
        invariant found == 1 ==> d < i && Holds(d, image)
      {
        if slots[i].reserved && slots[i].buffer.image == image {
          if found == 1 {
            assert Holds(d, image) && Holds(i, image);
            return 2, d;
          }
          found, d := 1, i;
        }
        i := i + 1;
      }
    }

    /** The lease itself; `w` is where it takes the joint machine. */
    method TakeLease(d: nat, frame: Frame) returns (result: FlResult, lease: nat, ghost w: Joint)
      requires Coupled() && initialized && !failed && serving && d < slots.Length
      requires slots[d].reserved && slots[d].lease == 0 && slots[d].buffer.image == frame.image
      modifies up`frameHeld, up.readers, up.readers.frames, up.readers.readers, up.readers.tokens
      ensures Ahead(w) && w == ApplyMove(world, Move.LeaseSlot(d, frame))
      ensures w.down == world.down && w.up.done == world.up.done
      ensures result == LeaseResult(world.up.c, frame) && (result != Ok ==> w == world)
      ensures result == Ok ==> lease != 0 && w.relay == Shape().(slots := Shown(slots[..])[d := Slot(false, lease)])
    {
      hide JointInv, ApplyMove, LeaseCount, C.ConsumerChannel.Valid, ProducerChannel.Valid, LeaseFrame, LeaseResult,
        ProducerChannel.State;
      CoupledMeans();
      MoveKeepsInv(world, Move.LeaseSlot(d, frame));
      LeaseEffect(world, d, frame);
      RefusedLease(world.up.c, frame);
      TokenNonzero(world);
      w := ApplyMove(world, Move.LeaseSlot(d, frame));
      result, lease := up.LeaseHeld(frame);
    }

    /** Leases the input upstream before anything is published downstream. */
    method LeaseInto(d: nat, frame: Frame) returns (result: FlResult)
      requires Coupled() && initialized && !failed && serving && d < slots.Length
      requires slots[d].reserved && slots[d].lease == 0 && slots[d].buffer.image == frame.image
      modifies this`world, this`failed, this`inFlight, slots, up`frameHeld, up.readers, up.readers.frames,
        up.readers.readers, up.readers.tokens
      ensures Coupled() && world == ApplyMove(old(world), Move.LeaseSlot(d, frame))
      ensures !failed && world.up.done == old(world.up.done) && world.down == old(world.down)
      ensures result == LeaseResult(old(world).up.c, frame)
      ensures result != Ok ==> slots[..] == old(slots[..]) && world == old(world)
      ensures result == Ok ==> slots[..] == old(slots[..])[d := slots[d]] && !slots[d].reserved && slots[d].lease != 0
      ensures slots[d].buffer == old(slots[d].buffer)
    {
      hide JointInv, ApplyMove, LeaseCount, BuffersOk, C.ConsumerChannel.Valid, C.ConsumerChannel.State,
        ProducerChannel.Valid, ProducerChannel.State, Shown, LeaseResult;
      var lease;
      ghost var w;
      result, lease, w := TakeLease(d, frame);
      if result != Ok {
        Follow(w, false);
        return;
      }
      SlotLeased(slots[..], d, down.images, lease);
      Record(d, slots[d].(lease := lease, reserved := false), inFlight + 1, w);
    }

    method SubmitFrom(d: nat, ptsNs: int) returns (result: FlResult)
      requires Coupled() && initialized && !failed && d < slots.Length && !slots[d].reserved && slots[d].lease != 0
      modifies this`world, this`failed, down`slotSubmitValue, down`submittingSlot, down`submittingValue,
        down`readyValue, down`outbox
      ensures Coupled() && world == ApplyMove(old(world), Move.SubmitSlot(d, ptsNs))
      ensures world.up == old(world.up) && world.down.done == old(world.down.done)
      ensures failed <==> result != Ok
      ensures slots[d].buffer.slot == d ==>
        result == BeginResult(old(world).down.p, d, slots[d].buffer.image, down.connected)
      ensures down.outbox == old(down.outbox) + if result == Ok then [FrameReady(d, down.readyValue, ptsNs, None)]
        else []
    {
      hide JointInv, ApplyMove, LeaseCount, C.ConsumerChannel.Valid, C.ConsumerChannel.State, ProducerChannel.Valid,
        Begin, End, BeginResult;
      MoveKeepsInv(world, Move.SubmitSlot(d, ptsNs));
      SubmitMoveEffect(world, d, ptsNs);
      Unconnected(world.down.p, d, down.images[d]);
      result := down.Submit(slots[d].buffer, ptsNs);
      world := ApplyMove(world, Move.SubmitSlot(d, ptsNs));
      if result != Ok {
        failed := true;
      }
    }

    /**
     * Forwards one held frame. The upstream lease is taken before the downstream submit; after a failed submit the
     * relay keeps the lease and is poisoned.
     */
    method Forward(frame: Frame, upDone: set<nat>, downDone: set<nat>)
        returns (result: FlResult, d: nat, ghost moves: seq<Move>, ghost collected: nat)
      requires Valid() && upDone == world.up.done && downDone == world.down.done
      modifies this`failed, this`world, this`inFlight, this`forwarded, slots, up`outstanding, up`retiredValue,
        up`outbox, up.readers, up.readers.frames, up.readers.readers, up.completions, up`frameHeld, up.readers.tokens,
        down`consumedValue, down`inbox, down`slotSubmitValue, down.sync, down`slotSubmitValue, down`submittingSlot,
        down`submittingValue, down`readyValue, down`outbox
      ensures Valid() && world == RunMoves(old(world), moves) && collected <= |moves|
      ensures old(CollectOutcome()) != Ok ==> result == old(CollectOutcome())
      ensures old(CollectOutcome()) == Ok ==> Answers(old(world), moves, collected, frame, result, failed)
      ensures result != Ok && !failed ==> collected == |moves|
      ensures result == Ok ==> !failed && forwarded == old(forwarded) + 1 && inFlight > 0
      ensures result == Ok ==> d < slots.Length && Forwarded(slots[d], d, frame, moves)
      ensures down.outbox == old(down.outbox) + if result == Ok then [FrameReady(d, down.readyValue, frame.ptsNs, None)]
        else []
      ensures result != Ok ==> forwarded == old(forwarded)
    {
      hide JointInv, ApplyMove, LeaseCount, BuffersOk, C.ConsumerChannel.Valid, ProducerChannel.Valid,
        C.ConsumerChannel.State, ProducerChannel.State, RunMoves, Tracks, Shown, Reacquired, Collected, Forwarded,
        Coupled, R.Handed, R.Returned, ForwardOutcome, LeaseOutcome, CollectsOnly, Answers, CollectOutcome, Breaks;
      ghost var asked := CollectOutcome();
      ghost var j0 := world;
      d := 0;
      result, moves := Collect(upDone, downDone);
      assert result == asked;
      collected := |moves|;
      if result != Ok {
        return;
      }
      ghost var more;
      result, d, more := ForwardHeld(frame);
      RunMovesConcat(old(world), moves, more);
      if result == Ok {
        ForwardedExtends(slots[d], d, frame, moves, more);
      }
      AnswersOnce(j0, moves, more, frame, result, failed);
      moves := moves + more;
    }

    /** The rest of a forward, once the relay has collected. */
    method ForwardHeld(frame: Frame) returns (result: FlResult, d: nat, ghost moves: seq<Move>)
      requires Valid() && initialized && !failed && down.connected
      modifies this`failed, this`world, this`inFlight, this`forwarded, slots, up`frameHeld, up.readers,
        up.readers.frames, up.readers.readers, up.readers.tokens, down`slotSubmitValue, down`submittingSlot,
        down`submittingValue, down`readyValue, down`outbox
      ensures Valid() && world == RunMoves(old(world), moves) && result == ForwardOutcome(old(world), frame)
      ensures failed == Breaks(old(world), frame)
      ensures result != Ok && !failed ==> moves == []
      ensures result == Ok ==> !failed && forwarded == old(forwarded) + 1 && inFlight > 0
      ensures result == Ok ==> d < slots.Length && Forwarded(slots[d], d, frame, moves) && |moves| == 2
      ensures down.outbox == old(down.outbox) + if result == Ok then [FrameReady(d, down.readyValue, frame.ptsNs, None)]
        else []
      ensures result != Ok ==> forwarded == old(forwarded)
    {
      hide JointInv, ApplyMove, LeaseCount, BuffersOk, C.ConsumerChannel.Valid, ProducerChannel.Valid,
        C.ConsumerChannel.State, ProducerChannel.State, RunMoves, Tracks, Shown, Reacquired, Collected, Forwarded,
        Coupled, R.Handed, ForwardOutcome, Breaks, Target, Holds;
      moves := [];
      RunNothing(world);
      CoupledMeans();
      var found;
      found, d := FindTarget(frame.image);
      if found == 0 {
        NoTarget(frame);
        return FormatUnsupported, d, moves;
      }
      if found == 2 {
        NotTwo(frame.image);
        return Invalid, d, moves;
      }
      HoldsInside(d, frame.image);
      result, moves := ForwardOn(d, frame);
    }

    lemma NoTarget(frame: Frame)
      requires Coupled() && forall e :: 0 <= e < MAX_POOL ==> !Holds(e, frame.image)
      ensures ForwardOutcome(world, frame) == FormatUnsupported && !Breaks(world, frame)
    {
      hide Coupled, Holds, Target;
      CoupledMeans();
      forall e: nat ensures !Target(world, e, frame.image) {
        HoldsMeans(e, frame.image);
        hide *;
        HoldsInside(e, frame.image);
      }
    }

    lemma HoldsInside(e: nat, image: nat)
      ensures Holds(e, image) ==> e < slots.Length
    {
    }

    lemma NotTwo(image: nat)
      requires Coupled()
      ensures forall e: nat, f: nat :: e < f ==> !(Holds(e, image) && Holds(f, image))
    {
      hide Coupled, Holds, Target;
      CoupledMeans();
      forall e: nat, f: nat | e < f && Holds(e, image) && Holds(f, image) ensures false {
        HoldsMeans(e, image);
        HoldsMeans(f, image);
        OneTarget(world, e, f, image);
      }
    }

    method Tally()
      requires Coupled()
      modifies this`forwarded
      ensures Coupled() && forwarded == old(forwarded) + 1
    {
      hide JointInv, LeaseCount, BuffersOk, C.ConsumerChannel.Valid, ProducerChannel.Valid, C.ConsumerChannel.State,
        ProducerChannel.State, Tracks, Shown;
      forwarded := forwarded + 1;
    }

    method ForwardOn(d: nat, frame: Frame) returns (result: FlResult, ghost moves: seq<Move>)
      requires Valid() && initialized && !failed && down.connected && Holds(d, frame.image)
      modifies this`failed, this`world, this`inFlight, this`forwarded, slots, up`frameHeld, up.readers,
        up.readers.frames, up.readers.readers, up.readers.tokens, down`slotSubmitValue, down`submittingSlot,
        down`submittingValue, down`readyValue, down`outbox
      ensures Valid() && world == RunMoves(old(world), moves) && result == ForwardOutcome(old(world), frame)
      ensures failed == Breaks(old(world), frame)
      ensures result != Ok && !failed ==> moves == []
      ensures result == Ok ==> !failed && forwarded == old(forwarded) + 1 && inFlight > 0
      ensures result == Ok ==> Forwarded(slots[d], d, frame, moves) && |moves| == 2
      ensures down.outbox == old(down.outbox) + if result == Ok then [FrameReady(d, down.readyValue, frame.ptsNs, None)]
        else []
      ensures result != Ok ==> forwarded == old(forwarded)
    {
      hide JointInv, ApplyMove, LeaseCount, BuffersOk, C.ConsumerChannel.Valid, ProducerChannel.Valid,
        C.ConsumerChannel.State, ProducerChannel.State, RunMoves, Tracks, Shown, Forwarded, Coupled, R.Handed,
        LeaseResult, BeginResult, ForwardOutcome, Breaks, Target;
      CoupledMeans();
      HoldsMeans(d, frame.image);
      ForwardExactly(world, d, frame);
      BufferOf(slots[..], down.images, d);
      assert slots[d].buffer == Buffer(d, frame.image) && slots[..][d] == slots[d];
      result := LeaseInto(d, frame);
      if result != Ok {
        RunNothing(world);
        return result, [];
      }
      moves := [Move.LeaseSlot(d, frame)];
      RunOne(old(world), Move.LeaseSlot(d, frame));
      result := SubmitFrom(d, frame.ptsNs);
      RunMovesSnoc(old(world), moves, Move.SubmitSlot(d, frame.ptsNs));
      moves := moves + [Move.SubmitSlot(d, frame.ptsNs)];
      if result == Ok {
        CoupledMeans();
        SomeLease(slots[..], d);
        Seen(d);
        R.ForwardKeepsHanded(old(world), d, frame, frame.ptsNs);
        Tally();
        ForwardedNow(slots[d], d, frame);
      }
    }

    method CancelOne(d: nat)
      requires Coupled() && initialized && !failed && down.connected && d < slots.Length && slots[d].reserved
        && slots[d].lease == 0
      modifies this`world, slots, down`slotSubmitValue
      ensures Coupled() && world == ApplyMove(old(world), Move.CancelReserved(d))
      ensures slots[..] == old(slots[..])[d := slots[d]] && !slots[d].reserved && slots[d].lease == 0
    {
      hide JointInv, ApplyMove, LeaseCount, C.ConsumerChannel.Valid, C.ConsumerChannel.State, ProducerChannel.Valid,
        Shown, Cancel, CancelResult;
      MoveKeepsInv(world, Move.CancelReserved(d));
      PoolFits(world);
      CancelMoveEffect(world, d);
      SlotFreed(slots[..], d, down.images);
      var cancelled := down.CancelBuffer(slots[d].buffer);
      world := ApplyMove(world, Move.CancelReserved(d));
      slots[d] := slots[d].(reserved := false);
      assert slots[..] == old(slots[..])[d := slots[d]];
    }

    /** Gives up every reserved slot. */
    method CancelAll() returns (ghost moves: seq<Move>)
      requires Coupled() && initialized && !failed && down.connected && Settled(slots[..])
      modifies this`world, slots, down`slotSubmitValue
      ensures Coupled() && Settled(slots[..]) && world == RunMoves(old(world), moves)
      ensures forall d :: 0 <= d < slots.Length ==> !slots[d].reserved && slots[d].lease == old(slots[d].lease)
    {
      hide JointInv, ApplyMove, LeaseCount, BuffersOk, C.ConsumerChannel.Valid, ProducerChannel.Valid,
        C.ConsumerChannel.State, ProducerChannel.State, RunMoves, Tracks, Shown;
      moves := [];
      RunNothing(world);
      var d := 0;
      while d < MAX_POOL
        invariant d <= MAX_POOL && Coupled() && Settled(slots[..]) && world == RunMoves(old(world), moves)
        invariant forall e :: 0 <= e < MAX_POOL ==> slots[e].lease == old(slots[e].lease)
        invariant forall e :: 0 <= e < d ==> !slots[e].reserved
      {
        if slots[d].reserved {
          RunMovesSnoc(old(world), moves, Move.CancelReserved(d));
          moves := moves + [Move.CancelReserved(d)];
          CancelOne(d);
        }
        d := d + 1;
      }
    }

    method Quit()
      requires Coupled() && initialized && !failed
      requires forall d :: 0 <= d < slots.Length ==> !slots[d].reserved && slots[d].lease == 0
      modifies this`world, this`initialized, this`serving
      ensures Valid() && !initialized && world == ApplyMove(old(world), Move.Stop)
    {
      hide JointInv, ApplyMove, LeaseCount, BuffersOk, C.ConsumerChannel.Valid, C.ConsumerChannel.State,
        ProducerChannel.Valid, ProducerChannel.State;
      MoveKeepsInv(world, Move.Stop);
      StopEffect(world);
      initialized, serving := false, false;
      world := ApplyMove(world, Move.Stop);
    }

    /** Ends the relay only when no upstream lease is left: in-flight frames are never abandoned. */
    method Finish(upDone: set<nat>, downDone: set<nat>) returns (result: FlResult, ghost moves: seq<Move>)
      requires Valid() && upDone == world.up.done && downDone == world.down.done
      modifies this`failed, this`world, this`inFlight, this`initialized, this`serving, slots, up`outstanding,
        up`retiredValue, up`outbox, up.readers, up.readers.frames, up.readers.readers, up.completions,
        down`consumedValue, down`inbox, down`slotSubmitValue, down.sync
      ensures Valid() && world == RunMoves(old(world), moves)
      ensures old(CollectOutcome()) != Ok ==> result == old(CollectOutcome())
      ensures old(CollectOutcome()) == Ok ==> result == if inFlight == 0 then Ok else Busy
      ensures result == Ok ==> !initialized && inFlight == 0 && old(initialized)
      ensures result == Busy ==> initialized && inFlight > 0 && Reacquired(world) == None && !R.Returned(world.down)
    {
      hide JointInv, ApplyMove, LeaseCount, BuffersOk, C.ConsumerChannel.Valid, ProducerChannel.Valid,
        C.ConsumerChannel.State, ProducerChannel.State, RunMoves, Tracks, Shown, Reacquired, Collected, ReservedSet,
        Coupled, R.Handed, R.Returned;
      result, moves := Collect(upDone, downDone);
      if result != Ok {
        return;
      }
      if inFlight != 0 {
        return Busy, moves;
      }
      CoupledMeans();
      NoLeases(slots[..]);
      ghost var more := CancelAll();
      RunMovesConcat(old(world), moves, more);
      moves := moves + more;
      RunMovesSnoc(old(world), moves, Move.Stop);
      moves := moves + [Move.Stop];
      Quit();
      result := Ok;
    }

    method StartUp()
      requires Valid() && !initialized && !failed
      modifies this`world, this`initialized, this`poolSize, this`upGeneration, this`downGeneration
      ensures Coupled() && Settled(slots[..]) && initialized && world == ApplyMove(old(world), Move.Start)
      ensures world.up == old(world.up) && world.down == old(world.down)
      ensures poolSize == |down.images| && inFlight == 0 && R.Handed(world)
      ensures CollectOutcome() == if down.connected then Ok else Disconnected
    {
      hide JointInv, ApplyMove, LeaseCount, BuffersOk, C.ConsumerChannel.Valid, C.ConsumerChannel.State,
        ProducerChannel.Valid, ProducerChannel.State;
      MoveKeepsInv(world, Move.Start);
      StartEffect(world);
      IdleBefore(world);
      NoLeases(slots[..]);
      upGeneration, downGeneration, poolSize := up.generation, down.generation, |down.images|;
      initialized := true;
      world := ApplyMove(world, Move.Start);
    }

    method Open()
      requires Coupled() && initialized && !failed && Settled(slots[..]) && R.Handed(world)
      requires poolSize <= MAX_POOL && forall d :: 0 <= d < poolSize ==> slots[d].reserved
      modifies this`world, this`serving
      ensures Valid() && world == ApplyMove(old(world), Move.Serve)
    {
      hide JointInv, ApplyMove, LeaseCount, BuffersOk, C.ConsumerChannel.Valid, C.ConsumerChannel.State,
        ProducerChannel.Valid;
      MoveKeepsInv(world, Move.Serve);
      ServeEffect(world);
      serving := true;
      world := ApplyMove(world, Move.Serve);
    }

    /** What is checked before the downstream ring is touched. */
    function StartOutcome(): FlResult
      reads this, up, down
    {
      if initialized || !up.deferRelease || up.gpuSync then Invalid
      else if |down.images| == 0 || |down.images| > MAX_POOL || |up.images| != |down.images| then FormatUnsupported
      else Ok
    }

    /** Serves only a downstream ring all of whose slots it could reserve. */
    method Initialize(upDone: set<nat>, downDone: set<nat>)
        returns (result: FlResult, ghost moves: seq<Move>, ghost collected: nat)
      requires Valid() && upDone == world.up.done && downDone == world.down.done && (failed ==> initialized)
      modifies this`failed, this`world, this`inFlight, this`initialized, this`serving, this`poolSize, this`upGeneration,
        this`downGeneration, slots, up`outstanding, up`retiredValue, up`outbox, up.readers, up.readers.frames,
        up.readers.readers, up.completions, down`consumedValue, down`inbox, down`slotSubmitValue, down.sync
      ensures Valid() && world == RunMoves(old(world), moves)
      ensures result == Ok ==> serving && !failed && forall d :: 0 <= d < poolSize && d < slots.Length ==>
        slots[d].reserved
      ensures old(StartOutcome()) != Ok ==> result == old(StartOutcome()) && moves == []
      ensures old(StartOutcome()) == Ok && !down.connected ==> result == Disconnected && failed
      ensures old(StartOutcome()) == Ok && down.connected ==> Serves(old(world), moves, collected, result)
      ensures old(StartOutcome()) == Ok && result == Busy ==> !failed && !initialized && inFlight == 0
    {
      hide JointInv, ApplyMove, LeaseCount, BuffersOk, C.ConsumerChannel.Valid, ProducerChannel.Valid,
        C.ConsumerChannel.State, ProducerChannel.State, RunMoves, Tracks, Shown, Reacquired, Collected, ReservedSet,
        Coupled, R.Handed, R.Returned, CollectsOnly, AllReserved, Serves;
      moves, collected := [], 0;
      RunNothing(world);
      if initialized {
        return Invalid, moves, collected;
      }
      if !up.deferRelease || up.gpuSync {
        return Invalid, moves, collected;
      }
      if |down.images| == 0 || |down.images| > MAX_POOL || |up.images| != |down.images| {
        return FormatUnsupported, moves, collected;
      }
      ghost var j0 := world;
      StartUp();
      RunOne(j0, Move.Start);
      ghost var taken;
      result, taken := Collect(upDone, downDone);
      RunMovesConcat(j0, [Move.Start], taken);
      moves, collected := [Move.Start] + taken, 1 + |taken|;
      if result != Ok {
        return;
      }
      ghost var more;
      result, more := OpenOrAbort();
      RunMovesConcat(j0, moves, more);
      ServesOnce(j0, taken, more, result);
      moves := moves + more;
    }

    lemma AllReservedSeen()
      requires Coupled() && initialized
      ensures AllReserved(world) <==> forall d :: 0 <= d < poolSize ==> d < slots.Length && slots[d].reserved
    {
      hide Coupled;
      CoupledMeans();
      PoolFits(world);
      forall d | 0 <= d < slots.Length ensures slots[d].reserved == world.relay.slots[d].reserved {
        Seen(d);
      }
    }

    method OpenOrAbort() returns (result: FlResult, ghost moves: seq<Move>)
      requires Coupled() && initialized && !failed && down.connected && Settled(slots[..]) && poolSize <= MAX_POOL
        && inFlight == 0 && R.Handed(world)
      modifies this`world, this`initialized, this`serving, slots, down`slotSubmitValue
      ensures Valid() && world == RunMoves(old(world), moves)
      ensures result == (if initialized then Ok else Busy) == if AllReserved(old(world)) then Ok else Busy
      ensures result == Ok ==> serving && forall d :: 0 <= d < poolSize ==> slots[d].reserved
    {
      hide JointInv, ApplyMove, LeaseCount, BuffersOk, C.ConsumerChannel.Valid, ProducerChannel.Valid,
        C.ConsumerChannel.State, ProducerChannel.State, RunMoves, Tracks, Shown,
        AllReserved, Reacquired;
      AllReservedSeen();
      var d := 0;
      while d < poolSize
        invariant d <= poolSize && forall e :: 0 <= e < d ==> slots[e].reserved
      {
        if !slots[d].reserved {
          NoLeases(slots[..]);
          moves := CancelAll();
          RunMovesSnoc(old(world), moves, Move.Stop);
          moves := moves + [Move.Stop];
          Quit();
          return Busy, moves;
        }
        d := d + 1;
      }
      RunOne(world, Move.Serve);
      Open();
      result, moves := Ok, [Move.Serve];
    }
  }

  lemma CompleteEffect(j: Joint, d: nat)
    requires Active(j) && HasSlot(j, d)
    ensures ApplyMove(j, Move.CompleteSlot(d)) == OnComplete(j, d)
  {
    hide OnComplete;
  }

  /** Completing a lease of the relay's own never fails. */
  lemma Unpoisoned(j: Joint, d: nat)
    requires JointInv(j)
    ensures ApplyMove(j, Move.CompleteSlot(d)).relay.failed == j.relay.failed
  {
    hide JointInv, ApplyMove;
    CompleteKeeps(j, d);
  }

  lemma RetireEffect(j: Joint)
    requires Active(j)
    ensures var w := ApplyMove(j, Move.RetireUp);
      w.up.c == CollectLeases(j.up.c, j.up.done).0 && w.up.done == j.up.done && w.down == j.down && w.relay == j.relay
  {
    hide CollectLeases;
  }

  lemma SlotSettled(slots: seq<RelaySlot>, d: nat, images: seq<nat>)
    requires BuffersOk(slots, images) && d < |slots| && slots[d].lease != 0
    ensures var slots' := slots[d := slots[d].(lease := 0)];
      && BuffersOk(slots', images) && LeaseCount(slots') == LeaseCount(slots) - 1 && LeaseCount(slots) > 0
      && Shown(slots') == Shown(slots)[d := Shown(slots)[d].(lease := 0)]
  {
    LeaseCountUpdate(slots, d, slots[d].(lease := 0));
    NoLeases(slots);
  }

  lemma PoisonEffect(j: Joint)
    requires Active(j)
    ensures ApplyMove(j, Move.Poison) == Fail(j)
  {
  }

  /** An acquire as moves: read the queued messages, then scan. */
  lemma TakeBackMoves(j: Joint) returns (moves: seq<Move>, w: Joint)
    requires JointInv(j) && Active(j)
    ensures w == RunMoves(j, moves) && JointInv(w) && CollectsOnly(moves)
    ensures !j.down.open ==> w == Fail(j)
    ensures j.down.open ==> !w.relay.failed
    ensures j.down.open ==>
      var (p, d) := Acquired(j.down.p, j.down.toP, j.down.done);
      var j' := j.(down := j.down.(p := p, toP := []));
      w == if d == None then j'
           else if d.value >= |j.relay.slots| || j.relay.slots[d.value].reserved then Fail(j')
           else Set(j', d.value, j.relay.slots[d.value].(reserved := true))
  {
    hide Inv, LeasesOk, ReservedOk, ServingOk, ApplyMove, Reserve, AdvanceProducer, Drain;
    var k := if j.down.open then |j.down.toP| else 0;
    moves := DownReceives(k);
    var j1 := RunMoves(j, moves);
    if j.down.open {
      DrainMoves(j);
      DrainKeepsRunning(j.down.p, j.down.toP, j.down.done);
    }
    RunKeepsJointInv(j, moves);
    ReacquireEffect(j1);
    ReacquireKeeps(j1);
    RunMovesSnoc(j, moves, Move.Reacquire);
    moves := moves + [Move.Reacquire];
    w := ApplyMove(j1, Move.Reacquire);
  }

  /** A scan that found nothing would find nothing again. */
  lemma NothingLeft(p: Producer, inbox: seq<ToProducer>, done: set<nat>)
    ensures var (q, d) := Acquired(p, inbox, done); d == None ==> Reserve(AdvanceProducer(q, done)).1 == None
  {
    hide Drain, FirstAvailable, AdvanceProducer;
    var a := AdvanceProducer(Drain(p, inbox, done), done);
    AdvanceIsIncremental(Drain(p, inbox, done), [], done);
    assert a.releases + [] == a.releases && Drain(p, inbox, done).releases + [] == Drain(p, inbox, done).releases;
  }

  /** With every slot in reserve nothing can be acquired. */
  lemma AllReservedNothingLeft(j: Joint)
    requires JointInv(j) && j.down.open && AllReserved(j)
    ensures Reacquired(j) == None
  {
    hide Inv, LeasesOk, ServingOk, Reserve, AdvanceProducer;
    AcquireEffect(j.down);
    SizesAgree(j.down);
  }

  ghost function ReservedSet(slots: seq<RelaySlot>): set<nat> {
    set d | 0 <= d < |slots| && slots[d].reserved :: d
  }

  lemma ReservedMember(slots: seq<RelaySlot>, d: nat)
    ensures d in ReservedSet(slots) <==> d < |slots| && slots[d].reserved
  {
  }

  lemma ReservedAfter(slots: seq<RelaySlot>, d: nat, slot: RelaySlot)
    requires d < |slots| && slot.reserved
    ensures ReservedSet(slots[d := slot]) == ReservedSet(slots) + {d}
    ensures !slots[d].reserved ==> |ReservedSet(slots[d := slot])| == |ReservedSet(slots)| + 1
  {
    hide ReservedSet;
    forall e: nat ensures e in ReservedSet(slots[d := slot]) <==> e in ReservedSet(slots) + {d} {
      ReservedMember(slots[d := slot], e);
      ReservedMember(slots, e);
    }
    ReservedMember(slots, d);
    assert ReservedSet(slots[d := slot]) == ReservedSet(slots) + {d};
  }

  /** As many reserved slots as the pool has are all of them. */
  lemma FullReserve(slots: seq<RelaySlot>, n: nat)
    requires n <= |slots| && |ReservedSet(slots)| >= n && forall d :: 0 <= d < |slots| && slots[d].reserved ==> d < n
    ensures forall d :: 0 <= d < n ==> slots[d].reserved
  {
    hide ReservedSet;
    forall d | 0 <= d < n ensures slots[d].reserved {
      if !slots[d].reserved {
        forall e: nat | e in ReservedSet(slots) ensures e in Below(n) - {d} {
          ReservedMember(slots, e);
        }
        L.FewerKeys(ReservedSet(slots), Below(n) - {d});
      }
    }
  }

  lemma {:induction false} DrainKeepsRunning(p: Producer, inbox: seq<ToProducer>, done: set<nat>)
    ensures Drain(p, inbox, done).waiting == p.waiting
    decreases |inbox|
  {
    hide Handle;
    if inbox != [] {
      HandleKeepsRunning(p, inbox[0], done);
      DrainKeepsRunning(Handle(p, inbox[0], done), inbox[1..], done);
    }
  }

  lemma PoolFits(j: Joint)
    requires JointInv(j)
    ensures 0 < |j.down.p.images| <= MAX_POOL == |j.relay.slots|
  {
    hide FramesOk, SentOk, QueueOk, PhaseOk, SyncedOk, NewestOk, LedgerOk, LeasesOk;
    SizesAgree(j.down);
  }

  lemma ReacquireEffect(j: Joint)
    requires Active(j)
    ensures ApplyMove(j, Move.Reacquire) == OnReacquire(j)
  {
    hide OnReacquire;
  }

  lemma SlotReserved(slots: seq<RelaySlot>, d: nat, images: seq<nat>)
    requires BuffersOk(slots, images) && d < |slots| && d < |images|
    ensures var slots' := slots[d := RelaySlot(Buffer(d, images[d]), slots[d].lease, true)];
      && BuffersOk(slots', images) && LeaseCount(slots') == LeaseCount(slots)
      && Shown(slots') == Shown(slots)[d := Shown(slots)[d].(reserved := true)]
  {
    LeaseCountUpdate(slots, d, RelaySlot(Buffer(d, images[d]), slots[d].lease, true));
  }

  lemma LeaseEffect(j: Joint, d: nat, frame: Frame)
    requires Active(j) && j.relay.serving && HasSlot(j, d)
    ensures ApplyMove(j, Move.LeaseSlot(d, frame)) == OnLease(j, d, frame)
  {
    hide OnLease;
  }

  lemma SubmitMoveEffect(j: Joint, d: nat, ptsNs: int)
    requires Active(j) && HasSlot(j, d)
    ensures ApplyMove(j, Move.SubmitSlot(d, ptsNs)) == OnSubmit(j, d, ptsNs)
  {
    hide OnSubmit;
  }

  lemma Unconnected(p: Producer, d: nat, image: nat)
    ensures BeginResult(p, d, image, false) != Ok
  {
  }

  lemma SlotLeased(slots: seq<RelaySlot>, d: nat, images: seq<nat>, lease: nat)
    requires BuffersOk(slots, images) && d < |slots| && slots[d].lease == 0 && slots[d].reserved && lease != 0
    ensures var slots' := slots[d := slots[d].(lease := lease, reserved := false)];
      && BuffersOk(slots', images) && LeaseCount(slots') == LeaseCount(slots) + 1
      && Shown(slots') == Shown(slots)[d := Slot(false, lease)]
  {
    LeaseCountUpdate(slots, d, slots[d].(lease := lease, reserved := false));
  }

  lemma SomeLease(slots: seq<RelaySlot>, d: nat)
    requires d < |slots| && slots[d].lease != 0
    ensures LeaseCount(slots) > 0
  {
    NoLeases(slots);
  }

  lemma RefusedLease(c: Consumer, frame: Frame)
    ensures LeaseResult(c, frame) != Ok ==> LeaseFrame(c, frame) == c
  {
    hide LeaseResult;
  }

  lemma TokenNonzero(j: Joint)
    requires JointInv(j)
    ensures j.up.c.nextToken != 0
  {
    hide Inv;
    LedgerValid(j.up);
  }

  lemma CancelMoveEffect(j: Joint, d: nat)
    requires JointInv(j) && Active(j) && HasSlot(j, d) && j.down.open && j.relay.slots[d] == Slot(true, 0)
    ensures CancelResult(j.down.p, d, j.down.p.images[d]) == Ok
    ensures ApplyMove(j, Move.CancelReserved(d))
      == Set(j.(down := j.down.(p := Cancel(j.down.p, d, j.down.p.images[d]))), d, FREE_SLOT)
  {
    hide Inv, LeasesOk, ReservedOk, ServingOk, TransactionOk, Cancel, CancelResult;
    OwnChecksNeverFire(j, d);
  }

  lemma SlotFreed(slots: seq<RelaySlot>, d: nat, images: seq<nat>)
    requires BuffersOk(slots, images) && d < |slots| && slots[d].lease == 0
    ensures var slots' := slots[d := slots[d].(reserved := false)];
      && BuffersOk(slots', images) && LeaseCount(slots') == LeaseCount(slots)
      && Shown(slots') == Shown(slots)[d := FREE_SLOT]
  {
    LeaseCountUpdate(slots, d, slots[d].(reserved := false));
  }

  lemma StopEffect(j: Joint)
    requires Active(j) && Idle(j)
    ensures ApplyMove(j, Move.Stop) == j.(relay := j.relay.(initialized := false, serving := false))
  {
  }

  lemma StartEffect(j: Joint)
    requires !j.relay.initialized
    ensures ApplyMove(j, Move.Start) == j.(relay := j.relay.(initialized := true))
  {
  }

  lemma ServeEffect(j: Joint)
    requires Active(j) && AllReserved(j)
    ensures ApplyMove(j, Move.Serve) == j.(relay := j.relay.(serving := true))
  {
  }

  lemma IdleBefore(j: Joint)
    requires JointInv(j) && !j.relay.initialized
    ensures Idle(j)
  {
    hide Inv, LeasesOk, ReservedOk, ServingOk;
  }
}
