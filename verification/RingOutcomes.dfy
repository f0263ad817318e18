/**
 * When each step of a ring succeeds, and what it then does, in terms of the fields and histories of the ring: what is
 * refused is refused for a reason a caller could check, and nothing else is.
 */
module RingOutcomes {
  import opened Basics
  import opened Base
  import opened SyncFences
  import opened Rings
  import opened RingFences
  import opened RingInvariant
  import RingSteps
  import T = RingTheorems
  import L = Leases
  import P = BufferPins

  // ---- acquiring a slot -----------------------------------------------------------------------------

  /** How many releases the producer has read. */
  function ReadSoFar(r: Ring): int {
    |r.sent| - |Releases(r.toP)|
  }

  /** A release the producer has read covers the value, and it and every earlier one have signalled. */
  ghost predicate Covered(r: Ring, value: nat) {
    exists m: nat :: CoveredBy(r, value, m)
  }

  ghost predicate CoveredBy(r: Ring, value: nat, m: nat) {
    && m < ReadSoFar(r) <= |r.sent| && r.sent[m].value >= value
    && forall k :: 0 <= k <= m ==> FenceReady(r.sent[k].fence, r.done)
  }

  /** A slot that is neither reserved nor pinned, and of which no read is left. */
  ghost predicate Free(r: Ring, i: nat) {
    && i < |r.p.submitValue| && r.p.submitValue[i] != SENTINEL && i !in r.p.pins.Values
    && (r.p.submitValue[i] == 0 || Covered(r, r.p.submitValue[i]))
  }

  /** A producer that has retired all it may has consumed the signalled prefix of what it has read. */
  lemma ConsumedPrefix(r: Ring) returns (n: nat)
    requires Inv(r) && Synced(r)
    ensures n <= ReadSoFar(r) <= |r.sent| && AdvanceProducer(r.p, r.done).consumed == TopOf(r.sent, n)
    ensures forall k :: 0 <= k < n ==> FenceReady(r.sent[k].fence, r.done)
    ensures n < ReadSoFar(r) ==> !FenceReady(r.sent[n].fence, r.done)
  {
    hide FramesOk, ConsumerOk, SlotsOk, SubmitOk, PhaseOk, NewestOk, Live, FenceReady, Raise, Before, Ascending;
    RingSteps.AdvanceKeeps(r);
    var a, back := AdvanceProducer(r.p, r.done), Releases(r.toP);
    n := |r.sent| - |a.releases + back|;
    assert a.releases != [] ==> r.sent[n..][0] == (a.releases + back)[0] == a.releases[0];
  }

  lemma ConsumedIsCovered(r: Ring, value: nat)
    requires Inv(r) && Synced(r) && value > 0
    ensures value <= AdvanceProducer(r.p, r.done).consumed <==> Covered(r, value)
  {
    hide FramesOk, ConsumerOk, PhaseOk, SyncedOk, NewestOk, Live, FenceReady, AdvanceProducer, ReadSoFar;
    var n := ConsumedPrefix(r);
    if value <= TopOf(r.sent, n) {
      assert CoveredBy(r, value, n - 1);
    }
    if m: nat :| CoveredBy(r, value, m) {
      assert r.sent[m].value <= r.sent[n - 1].value;
    }
  }

  /** An acquire hands out the lowest free slot, and fails only when there is none. */
  lemma AcquireExactly(r: Ring)
    requires Inv(r) && ProducerRuns(r)
    ensures var (p, d) := Reserve(AdvanceProducer(r.p, r.done));
      if d == None then forall i: nat :: !Free(r, i)
      else && Free(r, d.value) && (forall i: nat :: i < d.value ==> !Free(r, i))
           && p.submitValue == r.p.submitValue[d.value := SENTINEL]
  {
    hide Inv, FirstAvailable, Covered;
    RingSteps.RunningIsSynced(r);
    var a := AdvanceProducer(r.p, r.done);
    AdvanceOnlyConsumes(r.p, r.done);
    T.ConsumedBelowSentinel(r);
    forall i: nat ensures Free(r, i) <==> Available(a, i) {
      if i < |r.p.submitValue| && r.p.submitValue[i] > 0 {
        ConsumedIsCovered(r, r.p.submitValue[i]);
      }
    }
    var slot := FirstAvailable(a, 0);
  }

  lemma AdvanceOnlyConsumes(p: Producer, done: set<nat>)
    ensures var a := AdvanceProducer(p, done); a == p.(releases := a.releases, consumed := a.consumed)
  {
    hide ReadyPrefix, Raise;
  }

  // ---- submitting -----------------------------------------------------------------------------------

  predicate HasReserved(p: Producer, i: nat) {
    i < |p.submitValue| && p.submitValue[i] == SENTINEL
  }

  /** A reserved slot is given back unless it is being submitted. */
  lemma CancelExactly(r: Ring, i: nat)
    requires Inv(r)
    ensures Apply(r, CancelSlot(i)) ==
      if ProducerRuns(r) && HasReserved(r.p, i) && !(r.p.submittingValue != 0 && r.p.submittingSlot == i)
      then r.(p := r.p.(submitValue := r.p.submitValue[i := 0])) else r
  {
    hide FramesOk, SentOk, QueueOk, ConsumerOk, SlotsOk, SubmitOk, NewestOk, Taken, Coming, NoRequest, NoReply;
  }

  /** A submit opens on a reserved slot while no other is open, under the next value as long as there is one. */
  lemma BeginExactly(r: Ring, i: nat)
    requires Inv(r)
    ensures Apply(r, BeginSubmit(i)) ==
      if ProducerRuns(r) && HasReserved(r.p, i) && r.p.submittingValue == 0 && |r.published| < U64_MAX - 1
      then r.(p := r.p.(submittingSlot := i, submittingValue := |r.published| + 1, ready := |r.published| + 1)) else r
  {
    hide FramesOk, SentOk, QueueOk, ConsumerOk, SlotsOk, NewestOk, Taken, Coming, NoRequest, NoReply;
  }

  /** What announcing a frame does: it goes out under the next value, and no submit is open any more. */
  ghost predicate Announces(r: Ring, r': Ring, i: nat, ptsNs: int, fence: Option<nat>) {
    var value := |r.published| + 1;
    && r'.published == r.published + [i] && r'.shots == r.shots + [Shot(ptsNs, fence)]
    && r'.toC == r.toC + [FrameReady(i, value, ptsNs, fence)]
    && i < |r.p.submitValue| && r'.p.submitValue == r.p.submitValue[i := value] && r'.p.ready == value
    && r'.p.submittingValue == 0 && r'.c == r.c && r'.toP == r.toP && r'.sent == r.sent && r'.open == r.open
  }

  /** The open submit is announced, and nothing but the open one. */
  lemma EndExactly(r: Ring, i: nat, ptsNs: int)
    requires Inv(r)
    ensures var r' := Apply(r, EndSubmit(i, ptsNs));
      if ProducerRuns(r) && r.p.submittingValue != 0 && r.p.submittingSlot == i
      then Announces(r, r', i, ptsNs, None) else r' == r
  {
    hide FramesOk, SentOk, QueueOk, ConsumerOk, SlotsOk, NewestOk, Taken, Coming, NoRequest, NoReply;
  }

  /** The same in one call. */
  lemma SubmitExactly(r: Ring, i: nat, ptsNs: int, fence: Option<nat>)
    requires Inv(r)
    ensures var r' := Apply(r, SubmitSync(i, ptsNs, fence));
      if ProducerRuns(r) && HasReserved(r.p, i) && r.p.submittingValue == 0 && |r.published| < U64_MAX - 1
      then Announces(r, r', i, ptsNs, fence) else r' == r
  {
    hide FramesOk, SentOk, QueueOk, ConsumerOk, SlotsOk, NewestOk, Taken, Coming, NoRequest, NoReply;
  }

  /** A reserved slot is pinned while the table has an entry and a token left. */
  lemma PinExactly(r: Ring, i: nat)
    requires Inv(r)
    ensures Apply(r, RetainReference(i)) ==
      if ProducerRuns(r) && HasReserved(r.p, i) && |r.p.pins| < P.MAX_REFERENCES && r.p.nextPin < U64_MAX
      then r.(p := r.p.(pins := r.p.pins[r.p.nextPin := i], nextPin := r.p.nextPin + 1)) else r
  {
    hide FramesOk, SentOk, QueueOk, LedgerOk, SlotsOk, SubmitOk, NewestOk, Taken, Coming, NoRequest, NoReply;
  }

  // ---- receiving and taking a frame -----------------------------------------------------------------

  /** An announced frame becomes the pending one, whatever was pending; the link is never given up over it. */
  lemma FrameExactly(r: Ring, images: seq<nat>)
    requires Inv(r) && r.toC != [] && r.toC[0].FrameReady? && FreshPool(r.c, images)
    ensures var m := r.toC[0];
      && m.slot < |r.c.images|
      && Apply(r, Deliver(images)) == r.(toC := r.toC[1..], c := r.c.(hasPending := true,
        pending := Frame(m.slot, r.c.images[m.slot], m.ptsNs, 0, m.ready), pendingFence := m.fence,
        sequence := r.c.sequence + 1))
  {
    hide Inv;
    RingSteps.DeliverFrameKeeps(r, images);
  }

  /**
   * The pending frame is taken when no other is held and its submit fence has signalled, or is the reader's own to
   * wait for. It carries the slot and time it was submitted with, and the count of announcements received. With
   * nothing on its way it is the newest frame of the generation.
   */
  lemma TakeExactly(r: Ring)
    requires Inv(r) && FencesOk(r)
    ensures var c, v := r.c, r.c.pending.ready;
      if c.hasPending && !c.frameHeld && Written(r.shots, v, c.gpuSync, r.done)
      then && T.PublishedOn(r, v, c.pending.slot) && c.pending.slot < |c.images| && v <= |r.shots|
           && Apply(r, TakeFrame) == r.(c := c.(frameHeld := true, hasPending := false, pendingFence := None,
             held := Frame(c.pending.slot, c.images[c.pending.slot], r.shots[v - 1].ptsNs, c.sequence, v)))
           && (FlightItems(r.toC) == [] ==> v == |r.published|)
      else Apply(r, TakeFrame) == r
  {
    hide SentOk, QueueOk, ConsumerOk, SlotsOk, SubmitOk, NoRequest, NoReply, DeferralsOk, FlightOk, Increasing,
      FenceReady, FlightItems, Unreserved;
    var c := r.c;
    if c.hasPending {
      var k := |Taken(c)|;
      assert Live(r)[k] == Item(c.pending.slot, c.pending.ready);
      RingSteps.LiveMeansSynced(r);
      RingSteps.PublishedSlotExists(r, Live(r)[k]);
    }
  }

  // ---- giving it back -------------------------------------------------------------------------------

  /** Without leases the held frame is released once, under its own value and fence. */
  lemma GiveBackExactly(r: Ring, fence: Option<nat>)
    requires Inv(r)
    ensures var r' := Apply(r, GiveBack(fence));
      if r.c.frameHeld && r.c.ledger.frames == []
      then
        var release := Release(r.c.held.ready, fence);
        && r'.sent == r.sent + [release] && r'.toP == r.toP + [FrameReleased(release)] && !r'.c.frameHeld
        && r'.c.held == r.c.held && r'.p == r.p && r'.toC == r.toC && r'.c.hasPending == r.c.hasPending
      else r' == r
  {
    hide FramesOk, SentOk, LedgerOk, PhaseOk, SyncedOk, NewestOk, ReadyPrefix, Raise;
  }

  /** A channel that retires explicitly may also drop it, without a word to the producer. */
  lemma DropExactly(r: Ring)
    ensures Apply(r, Drop) ==
      if (r.c.deferRelease || r.c.gpuSync) && r.c.frameHeld && r.c.ledger.frames == []
      then r.(c := r.c.(frameHeld := false)) else r
  {
  }

  // ---- leasing the held frame ---------------------------------------------------------------------

  /** The frame the consumer holds, under its own allocation. */
  predicate HeldFrame(c: Consumer, frame: Frame) {
    && c.frameHeld && frame.slot == c.held.slot && frame.ready == c.held.ready && frame.image == c.held.image
  }

  /** The held frame is leased exactly while there is a reader entry and a token left to give. */
  function LeaseOutcome(c: Consumer, frame: Frame): FlResult {
    if !c.deferRelease || c.gpuSync || !HeldFrame(c, frame) then Invalid
    else if |c.ledger.readers| >= L.MAX_READERS then Busy
    else if c.nextToken >= U64_MAX then Internal
    else Ok
  }

  ghost function SlotsOf(frames: seq<Frame>): set<nat> {
    set f | f in frames :: f.slot
  }

  lemma {:induction false} DistinctSlots(frames: seq<Frame>)
    requires forall i, j :: 0 <= i < j < |frames| ==> frames[i].slot != frames[j].slot
    ensures |SlotsOf(frames)| == |frames|
  {
    if frames == [] {
    } else {
      var rest, last := frames[..|frames| - 1], frames[|frames| - 1];
      DistinctSlots(rest);
      assert frames == rest + [last];
      assert SlotsOf(frames) == SlotsOf(rest) + {last.slot};
      assert last.slot !in SlotsOf(rest);
    }
  }

  function Below(n: nat): (s: set<nat>)
    ensures |s| == n && forall d: nat :: d in s <==> d < n
  {
    if n == 0 then {} else Below(n - 1) + {n - 1}
  }

  /** A slot that no leased frame occupies leaves a place in the ledger. */
  lemma RoomForOne(frames: seq<Frame>, slot: nat, n: nat)
    requires forall i, j :: 0 <= i < j < |frames| ==> frames[i].slot != frames[j].slot
    requires forall i :: 0 <= i < |frames| ==> frames[i].slot < n && frames[i].slot != slot
    requires slot < n
    ensures |frames| < n
  {
    var s := SlotsOf(frames);
    DistinctSlots(frames);
    assert s <= Below(n) - {slot};
    L.FewerKeys(s, Below(n) - {slot});
  }

  /** The held frame is newer than every leased one and sits in a slot of its own. */
  lemma HeldApart(r: Ring)
    requires Inv(r) && r.c.frameHeld
    ensures forall i :: 0 <= i < |r.c.ledger.frames| ==> r.c.ledger.frames[i].slot != r.c.held.slot
    ensures 1 <= r.c.held.ready
  {
    hide SentOk, QueueOk, SyncedOk, NewestOk, ConsumerOk, Asked, SomewhereAnswered, Coming, Increasing;
    var n := |r.c.ledger.frames|;
    assert Live(r)[n] == Item(r.c.held.slot, r.c.held.ready);
    assert Synced(r);
    T.LiveSlotsAreSubmitted(r, n);
    forall i | 0 <= i < n ensures r.c.ledger.frames[i].slot != r.c.held.slot {
      assert Live(r)[i] == Item(r.c.ledger.frames[i].slot, r.c.ledger.frames[i].ready);
      T.LiveSlotsAreSubmitted(r, i);
      T.OrderOfValues(r);
      assert Live(r)[i].value < Live(r)[n].value by { hide *; InOrder(Live(r), i, n); }
    }
  }

  lemma InOrder(items: seq<Item>, i: nat, j: nat)
    requires Increasing(items) && i < j < |items|
    ensures items[i].value < items[j].value
  {
  }

  /**
   * In any ring the answer to a lease depends on the channel's mode, the frame held, and room for one
   * more reader; a place among the leased frames is always left.
   */
  lemma LeaseExactly(r: Ring, frame: Frame)
    requires Inv(r)
    ensures LeaseResult(r.c, frame) == LeaseOutcome(r.c, frame)
  {
    hide FramesOk, SentOk, QueueOk, PhaseOk, SyncedOk, NewestOk;
    var c := r.c;
    if c.deferRelease && !c.gpuSync && HeldFrame(c, frame) {
      HeldApart(r);
      RoomForOne(c.ledger.frames, c.held.slot, |c.images|);
    }
  }

  // ---- reading leased frames ------------------------------------------------------------------------

  /** Retaining gives a live reader's frame one reader more, as long as an entry and a token are left. */
  lemma RetainExactly(r: Ring, t: nat)
    requires Inv(r) && FencesOk(r)
    ensures var c, l := r.c, r.c.ledger;
      Apply(r, RetainToken(t)) ==
        if t in l.readers && t !in c.completions && |l.readers| < L.MAX_READERS && c.nextToken < U64_MAX
        then r.(c := c.(nextToken := c.nextToken + 1,
          ledger := l.(readers := l.readers[c.nextToken := L.Reader(l.readers[t].value, false)])))
        else r
  {
    hide FramesOk, SentOk, PhaseOk, SyncedOk, NewestOk, L.Valid, Imaged, FreshPool, FlightOk, TakenOk, DeferralsOk;
  }

  /** A live reader that was not left to a fence ends when it is completed, and no other does. */
  lemma CompleteExactly(r: Ring, t: nat)
    requires Inv(r) && FencesOk(r)
    ensures var c, l := r.c, r.c.ledger;
      Apply(r, CompleteToken(t)) ==
        if t in l.readers && t !in c.completions then r.(c := c.(ledger := l.(readers := l.readers - {t}))) else r
  {
    hide FramesOk, SentOk, PhaseOk, SyncedOk, NewestOk, L.Valid, Imaged, FreshPool, FlightOk, TakenOk, DeferralsOk;
  }

  /** Such a reader may be left to a fence while the table of completions has an entry, and keeps its frame. */
  lemma DeferExactly(r: Ring, t: nat, f: nat)
    requires Inv(r) && FencesOk(r)
    ensures var c, l := r.c, r.c.ledger;
      Apply(r, DeferToken(t, f)) ==
        if t in l.readers && t !in c.completions && |c.completions| < L.MAX_READERS
        then r.(deferrals := r.deferrals + [Deferral(l.readers[t].value, f)],
          c := c.(completions := c.completions[t := f],
            ledger := l.(readers := l.readers[t := L.Reader(l.readers[t].value, true)])))
        else r
  {
    hide FramesOk, SentOk, PhaseOk, SyncedOk, NewestOk, L.Valid, Imaged, FreshPool, FlightOk, TakenOk, DeferralsOk;
  }

  predicate ReadBy(c: Consumer, done: set<nat>, t: nat, value: nat) {
    t in c.ledger.readers && c.ledger.readers[t].value == value && !(t in c.completions && c.completions[t] in done)
  }

  /** Some reader of the frame has neither completed nor left its end to a fence that has signalled. */
  ghost predicate BeingRead(c: Consumer, done: set<nat>, value: nat) {
    exists t :: ReadBy(c, done, t, value)
  }

  /** Collecting retires the longest run of leased frames nobody reads any more, and announces the last of them. */
  lemma CollectExactly(r: Ring, k: nat)
    requires Inv(r) && k <= |r.c.ledger.frames|
    requires forall i :: 0 <= i < k ==> !BeingRead(r.c, r.done, r.c.ledger.frames[i].ready)
    requires k < |r.c.ledger.frames| ==> BeingRead(r.c, r.done, r.c.ledger.frames[k].ready)
    ensures var l, r' := r.c.ledger, Apply(r, Collect);
      && r'.c.ledger.frames == l.frames[k..]
      && if k == 0 then r'.sent == r.sent && r'.toP == r.toP && r'.c.retired == r.c.retired
         else
           var release := Release(l.frames[k - 1].ready, None);
           && r'.sent == r.sent + [release] && r'.toP == r.toP + [FrameReleased(release)]
           && r'.c.retired == l.frames[k - 1].ready
  {
    hide Inv, Apply, BeingRead;
    PrefixFound(r.c, r.done, k);
    PrefixRetired(r);
  }

  lemma PrefixFound(c: Consumer, done: set<nat>, k: nat)
    requires k <= |c.ledger.frames| && forall i :: 0 <= i < k ==> !BeingRead(c, done, c.ledger.frames[i].ready)
    requires k < |c.ledger.frames| ==> BeingRead(c, done, c.ledger.frames[k].ready)
    ensures L.FreePrefix(PollCompletions(c, done).ledger) == k
  {
    hide PollCompletions, BeingRead, L.Pinned, L.FreePrefix;
    PollLeavesFrames(c, done);
    var q := PollCompletions(c, done).ledger;
    var n := L.FreePrefix(q);
    if n < |c.ledger.frames| {
      PinnedMeansRead(c, done, c.ledger.frames[n].ready);
    }
    if k < |c.ledger.frames| {
      PinnedMeansRead(c, done, c.ledger.frames[k].ready);
    }
  }

  lemma PrefixRetired(r: Ring)
    requires Inv(r)
    ensures var k, l, r' := L.FreePrefix(PollCompletions(r.c, r.done).ledger), r.c.ledger, Apply(r, Collect);
      && k <= |l.frames| && r'.c.ledger.frames == l.frames[k..]
      && if k == 0 then r'.sent == r.sent && r'.toP == r.toP && r'.c.retired == r.c.retired
         else
           var release := Release(l.frames[k - 1].ready, None);
           && r'.sent == r.sent + [release] && r'.toP == r.toP + [FrameReleased(release)]
           && r'.c.retired == l.frames[k - 1].ready
  {
    hide FramesOk, SentOk, PhaseOk, SyncedOk, NewestOk, Imaged, FreshPool, PollCompletions, L.FreePrefix;
    PollLeavesFrames(r.c, r.done);
  }

  lemma PollLeavesFrames(c: Consumer, done: set<nat>)
    ensures var q := PollCompletions(c, done); q.ledger.frames == c.ledger.frames && q.retired == c.retired
  {
  }

  lemma PinnedMeansRead(c: Consumer, done: set<nat>, value: nat)
    ensures L.Pinned(PollCompletions(c, done).ledger.readers, value) <==> BeingRead(c, done, value)
  {
    var q := PollCompletions(c, done).ledger.readers;
    if t :| t in q && q[t].value == value {
      assert ReadBy(c, done, t, value);
    }
    if t :| ReadBy(c, done, t, value) {
      assert t in q && q[t].value == value;
    }
  }

  // ---- replacing storage ----------------------------------------------------------------------------

  /** Of the last frame taken every read has ended: it is retired, or released and signalled in order up to it. */
  ghost predicate ReadsEnded(c: Consumer, done: set<nat>) {
    c.held.ready <= c.retired || exists m: nat :: EndedBy(c, done, m)
  }

  ghost predicate EndedBy(c: Consumer, done: set<nat>, m: nat) {
    && m < |c.releases| && c.releases[m].value >= c.held.ready
    && forall k :: 0 <= k <= m ==> FenceReady(c.releases[k].fence, done)
  }

  lemma EndedMeansRetired(c: Consumer, done: set<nat>)
    ensures c.held.ready <= AdvanceConsumer(c, done).retired <==> ReadsEnded(c, done)
  {
    hide FenceReady, Raise;
    var k := ReadyPrefix(c.releases, done);
    var top := Raise(c.retired, c.releases[..k]);
    if c.retired < c.held.ready <= top {
      var m: nat :| m < k && c.releases[..k][m].value == top;
      assert EndedBy(c, done, m);
    }
    if m: nat :| EndedBy(c, done, m) {
      assert c.releases[..k][m].value <= top;
    }
  }

  /** Nothing of the present generation is held, leased or still being read. */
  ghost predicate Untouched(c: Consumer, done: set<nat>) {
    c.ledger.frames == [] && !c.frameHeld && ReadsEnded(c, done)
  }

  lemma UntouchedMeansQuiescent(c: Consumer, done: set<nat>)
    ensures Quiescent(AdvanceConsumer(c, done)) <==> Untouched(c, done)
    ensures var a := AdvanceConsumer(c, done); a == c.(releases := a.releases, retired := a.retired)
  {
    hide ReadyPrefix, Raise, ReadsEnded;
    EndedMeansRetired(c, done);
  }

  /** A request asks for a legal size other than the present one, in the present format, of storage that is its own. */
  predicate AsksAnother(c: Consumer, g: Geometry) {
    && !c.externalPool && g.format == c.geometry.format && g != c.geometry
    && 1 <= g.width <= 8192 && 1 <= g.height <= 8192
    && (g.format == FORMAT_NV12 ==> g.width % 2 == 0 && g.height % 2 == 0)
  }

  /** Frames, storage and timeline as they were. */
  predicate SameTimeline(c: Consumer, c': Consumer) {
    && c'.generation == c.generation && c'.images == c.images && c'.geometry == c.geometry
    && c'.hasPending == c.hasPending && c'.pending == c.pending && c'.pendingFence == c.pendingFence
    && c'.frameHeld == c.frameHeld && c'.held == c.held && c'.ledger == c.ledger && c'.completions == c.completions
  }

  predicate NewTimeline(c: Consumer, c': Consumer) {
    c'.generation == c.generation + 1 && !c'.hasPending && !c'.frameHeld && c'.ledger.frames == [] && c'.releases == []
  }

  predicate SameHistories(r: Ring, r': Ring) {
    r'.published == r.published && r'.sent == r.sent && r'.shots == r.shots && r'.deferrals == r.deferrals
  }

  /**
   * A request is honoured exactly when it asks for another size of the channel's own storage and nothing of the old
   * storage is held, leased or still read; either way it is answered with the pool then in use.
   */
  lemma RequestExactly(r: Ring, images: seq<nat>)
    requires Inv(r) && r.toC != [] && r.toC[0].RequestGeometry? && FreshPool(r.c, images)
    ensures var g, r' := r.toC[0].geometry, Apply(r, Deliver(images));
      && r'.toC == [] && r'.toP == r.toP + [RingDesc(r'.c.generation, r'.c.images)] && r'.p == r.p && r'.open == r.open
      && if AsksAnother(r.c, g) && Untouched(r.c, r.done)
         then NewTimeline(r.c, r'.c) && r'.c.geometry == g && r'.c.images == images && T.StartsOver(r')
         else SameTimeline(r.c, r'.c) && SameHistories(r, r')
  {
    hide Inv, AdvanceConsumer, Quiescent, Untouched, FreshPool;
    OnlyRequest(r);
    UntouchedMeansQuiescent(r.c, r.done);
    QuiescentHasNone(AdvanceConsumer(r.c, r.done));
  }

  /** A producer attaches exactly when nothing of the old timeline is held, leased, read or still being written. */
  lemma AttachExactly(r: Ring)
    ensures var r' := Apply(r, Attach);
      if r.open then r' == r
      else if Untouched(r.c, r.done) && FenceReady(r.c.pendingFence, r.done)
      then && NewTimeline(r.c, r'.c) && r'.c.images == r.c.images && r'.c.geometry == r.c.geometry && T.StartsOver(r')
           && r'.open && r'.toC == [] && r'.toP == [] && NewProducer(r'.p, r'.c)
      else SameTimeline(r.c, r'.c) && SameHistories(r, r') && r'.p == r.p && !r'.open
  {
    hide AdvanceConsumer, Quiescent, Untouched, FenceReady;
    UntouchedMeansQuiescent(r.c, r.done);
    QuiescentHasNone(AdvanceConsumer(r.c, r.done));
  }

  lemma QuiescentHasNone(c: Consumer)
    ensures Quiescent(c) ==> c.ledger.frames == [] && !c.frameHeld
  {
  }

  /** A producer that imported the consumer's pool and has every slot to itself. */
  predicate NewProducer(p: Producer, c: Consumer) {
    && p.generation == c.generation && p.images == c.images && !p.waiting && p.submittingValue == 0 && p.ready == 0
    && |p.submitValue| == |c.images| && (forall i :: 0 <= i < |p.submitValue| ==> Available(p, i))
  }

  /** A producer asks for a legal size of a known format while it has no slot reserved or pinned, and then waits. */
  lemma AskExactly(r: Ring, g: Geometry)
    ensures Apply(r, AskGeometry(g)) ==
      if && ProducerRuns(r) && r.p.pins == map[] && (forall i :: 0 <= i < |r.p.submitValue| ==> !HasReserved(r.p, i))
         && 1 <= g.width <= 8192 && 1 <= g.height <= 8192 && 1 <= g.format <= 4
         && (g.format == FORMAT_NV12 ==> g.width % 2 == 0 && g.height % 2 == 0)
      then r.(p := r.p.(waiting := true), toC := r.toC + [RequestGeometry(g)]) else r
  {
    if SENTINEL in r.p.submitValue {
      var i :| 0 <= i < |r.p.submitValue| && r.p.submitValue[i] == SENTINEL;
      assert HasReserved(r.p, i);
    }
  }

  /** The frames ahead of a request are delivered, and the request is honoured. */
  lemma {:induction false} RequestReached(r: Ring, images: seq<nat>)
    requires Inv(r) && FreshPool(r.c, images) && r.toC != [] && NoRequest(r.toC[..|r.toC| - 1])
    requires var m := r.toC[|r.toC| - 1]; m.RequestGeometry? && AsksAnother(r.c, m.geometry) && Untouched(r.c, r.done)
    ensures var r' := Run(r, Deliveries(images, |r.toC|));
      && Inv(r') && r'.c.generation == r.c.generation + 1 && r'.c.images == images
      && r'.c.geometry == r.toC[|r.toC| - 1].geometry
      && r'.toP == r.toP + [RingDesc(r'.c.generation, images)] && r'.p == r.p && r'.open == r.open && r'.toC == []
    decreases |r.toC|
  {
    hide Inv, Apply, FreshPool, Run;
    var r' := Apply(r, Deliver(images));
    RingSteps.StepKeepsInv(r, Deliver(images));
    RunDeliveries(r, images, |r.toC|);
    if |r.toC| == 1 {
      RequestExactly(r, images);
      NoDeliveries(r', images);
    } else {
      assert r.toC[..|r.toC| - 1][0] == r.toC[0];
      FrameExactly(r, images);
      assert r'.toC[..|r'.toC| - 1] == r.toC[..|r.toC| - 1][1..];
      PendingAlone(r.c, r'.c, r.done, images);
      RequestReached(r', images);
    }
  }

  lemma PendingAlone(c: Consumer, c': Consumer, done: set<nat>, images: seq<nat>)
    requires c' == c.(hasPending := true, pending := c'.pending, pendingFence := c'.pendingFence,
      sequence := c'.sequence)
    ensures Untouched(c, done) ==> Untouched(c', done)
    ensures FreshPool(c, images) ==> FreshPool(c', images)
  {
    if m: nat :| EndedBy(c, done, m) {
      assert EndedBy(c', done, m);
    }
  }

  /** Releases ahead of the reply are read, and the reply is adopted. */
  lemma {:induction false} ReplyReached(r: Ring)
    requires r.open && r.p.waiting && r.p.pins == map[] && r.p.submittingValue == 0
    requires r.toP != [] && NoReply(r.toP[..|r.toP| - 1])
    requires r.toP[|r.toP| - 1] == RingDesc(r.c.generation, r.c.images) && r.c.generation != r.p.generation
    ensures var r' := Run(r, Receives(|r.toP|)); r'.c == r.c && r'.open && NewProducer(r'.p, r.c)
    decreases |r.toP|
  {
    hide Run;
    var r' := Apply(r, Receive);
    RunReceives(r, |r.toP|);
    if |r.toP| == 1 {
      RunReceives(r', 0);
    } else {
      assert r.toP[..|r.toP| - 1][0] == r.toP[0];
      ReleaseLeavesWaiting(r);
      assert r'.toP[..|r'.toP| - 1] == r.toP[..|r.toP| - 1][1..];
      hide Apply;
      ReplyReached(r');
    }
  }

  lemma ReleaseLeavesWaiting(r: Ring)
    requires r.open && r.toP != [] && r.toP[0].FrameReleased?
    ensures var r' := Apply(r, Receive);
      && r'.p.waiting == r.p.waiting && r'.p.pins == r.p.pins && r'.p.generation == r.p.generation
      && r'.p.submittingValue == r.p.submittingValue && r'.c == r.c && r'.open && r'.toP == r.toP[1..]
  {
    hide ReadyPrefix, Raise;
  }

  /**
   * A resize goes through. A producer without a reserved or pinned slot asks for another size of a consumer of whose
   * storage nothing is held, leased or still read; once the consumer has read its socket and the producer its own, both
   * are in the next generation with the new size and pool, and every slot is free.
   */
  lemma ResizeGoesThrough(r: Ring, g: Geometry, images: seq<nat>)
    requires Inv(r) && ProducerRuns(r) && r.p.pins == map[]
    requires forall i :: 0 <= i < |r.p.submitValue| ==> !HasReserved(r.p, i)
    requires AsksAnother(r.c, g) && Untouched(r.c, r.done) && FreshPool(r.c, images)
    ensures var r' := Run(r, [AskGeometry(g)] + Deliveries(images, |r.toC| + 1) + Receives(|r.toP| + 1));
      && r'.c.generation == r.c.generation + 1 && r'.c.geometry == g && r'.c.images == images && r'.open
      && NewProducer(r'.p, r'.c)
  {
    hide Inv, Apply, FreshPool, Run, NewProducer, HasReserved;
    AskExactly(r, g);
    var r1 := Apply(r, AskGeometry(g));
    RingSteps.StepKeepsInv(r, AskGeometry(g));
    AskedOnce(r, g);
    RequestReached(r1, images);
    var r2 := Run(r1, Deliveries(images, |r1.toC|));
    assert r2.toP[..|r.toP|] == r.toP;
    ReplyReached(r2);
    T.RunOne(r, AskGeometry(g));
    T.RunConcat(r, [AskGeometry(g)], Deliveries(images, |r.toC| + 1));
    T.RunConcat(r, [AskGeometry(g)] + Deliveries(images, |r.toC| + 1), Receives(|r.toP| + 1));
  }

  lemma AskedOnce(r: Ring, g: Geometry)
    requires Inv(r) && ProducerRuns(r) && AsksAnother(r.c, g)
    requires forall i :: 0 <= i < |r.p.submitValue| ==> !HasReserved(r.p, i)
    ensures r.p.submittingValue == 0 && 1 <= g.format <= 4 && NoRequest(r.toC) && NoReply(r.toP) && Synced(r)
    ensures (r.toC + [RequestGeometry(g)])[..|r.toC|] == r.toC
  {
    hide FramesOk, SentOk, LedgerOk, SlotsOk, QueueOk, NewestOk, NoRequest, NoReply;
    assert r.p.submittingValue != 0 ==> HasReserved(r.p, r.p.submittingSlot);
  }
}
