/** Every step of either side keeps the ring invariant. */
module RingSteps {
  import opened Basics
  import opened Base
  import opened SyncFences
  import opened Rings
  import opened RingInvariant
  import L = Leases

  // ---- producer steps -----------------------------------------------------------------------------

  /** A running producer that keeps its generation and images only has its own slots to answer for. */
  lemma ProducerOnly(r: Ring, p: Producer)
    requires Inv(r) && !r.p.waiting
    requires p.generation == r.p.generation && p.images == r.p.images && !p.waiting
    requires |p.submitValue| == |r.p.submitValue|
    requires SlotsOk(p.submitValue, p.consumed, r.published) && SubmitOk(p, |r.published|)
    requires QueueOk(p.releases + Releases(r.toP), r.sent, p.consumed, r.done)
    ensures Inv(r.(p := p))
  {
    hide FramesOk, SentOk, QueueOk, ConsumerOk, SlotsOk, SubmitOk, NoRequest, NoReply, Taken, Coming, Releases;
  }

  lemma RunningIsSynced(r: Ring)
    requires Inv(r) && !r.p.waiting
    ensures Synced(r) && SyncedOk(r) && NoRequest(r.toC) && NoReply(r.toP)
  {
    hide FramesOk, SentOk, QueueOk, ConsumerOk, SlotsOk, SubmitOk, NoRequest, NoReply, Taken, Coming, Releases;
  }

  lemma PopFront(front: seq<Release>, back: seq<Release>, sent: seq<Release>, top: nat, done: set<nat>)
    requires QueueOk(front + back, sent, top, done) && Ascending(sent)
    ensures var k := ReadyPrefix(front, done); QueueOk(front[k..] + back, sent, Raise(top, front[..k]), done)
  {
    hide QueueOk, Raise, FenceReady, Ascending;
    var k, q := ReadyPrefix(front, done), front + back;
    PopReady(q, sent, top, done, k);
    assert q[k..] == front[k..] + back;
    assert q[..k] == front[..k];
  }

  /** Retiring a ready prefix at the producer. */
  lemma AdvanceKeeps(r: Ring)
    requires Inv(r) && Synced(r)
    ensures var a := AdvanceProducer(r.p, r.done);
      QueueOk(a.releases + Releases(r.toP), r.sent, a.consumed, r.done) && a.consumed >= r.p.consumed
  {
    hide FramesOk, ConsumerOk, SlotsOk, SubmitOk, PhaseOk, Taken, Coming, QueueOk, Releases, Raise, FenceReady, Before,
      NewestOk;
    PopFront(r.p.releases, Releases(r.toP), r.sent, r.p.consumed, r.done);
  }

  lemma MoreConsumed(submitValue: seq<nat>, consumed: nat, consumed': nat, published: seq<nat>)
    requires SlotsOk(submitValue, consumed, published) && consumed <= consumed'
    ensures SlotsOk(submitValue, consumed', published)
  {
  }

  /** Reserving a slot whose last submit is consumed. */
  lemma ReserveSlot(submitValue: seq<nat>, consumed: nat, published: seq<nat>, i: nat)
    requires SlotsOk(submitValue, consumed, published) && i < |submitValue| && submitValue[i] <= consumed
    ensures SlotsOk(submitValue[i := SENTINEL], consumed, published)
  {
  }

  lemma AcquireKeeps(r: Ring)
    requires Inv(r)
    ensures Inv(Apply(r, Acquire))
  {
    hide FramesOk, SentOk, QueueOk, ConsumerOk, SlotsOk, NoRequest, NoReply, Taken, Coming, Releases;
    if ProducerRuns(r) {
      RunningIsSynced(r);
      AdvanceKeeps(r);
      var a := AdvanceProducer(r.p, r.done);
      MoreConsumed(r.p.submitValue, r.p.consumed, a.consumed, r.published);
      var (p, got) := Reserve(a);
      if got.Some? {
        ReserveSlot(a.submitValue, a.consumed, r.published, got.value);
      }
      ProducerOnly(r, p);
    }
  }

  lemma ClearSlot(submitValue: seq<nat>, consumed: nat, published: seq<nat>, i: nat)
    requires SlotsOk(submitValue, consumed, published) && i < |submitValue| && submitValue[i] == SENTINEL
    requires |published| < SENTINEL
    ensures SlotsOk(submitValue[i := 0], consumed, published)
  {
  }

  lemma CancelKeeps(r: Ring, slot: nat)
    requires Inv(r)
    ensures Inv(Apply(r, CancelSlot(slot)))
  {
    hide FramesOk, SentOk, QueueOk, ConsumerOk, SlotsOk, NoRequest, NoReply, Taken, Coming, Releases;
    var image := ImageAt(r.p.images, slot);
    if ProducerRuns(r) && CancelResult(r.p, slot, image) == Ok {
      RunningIsSynced(r);
      ClearSlot(r.p.submitValue, r.p.consumed, r.published, slot);
      ProducerOnly(r, Cancel(r.p, slot, image));
    }
  }

  lemma BeginKeeps(r: Ring, slot: nat)
    requires Inv(r)
    ensures Inv(Apply(r, BeginSubmit(slot)))
  {
    hide FramesOk, SentOk, QueueOk, ConsumerOk, SlotsOk, NoRequest, NoReply, Taken, Coming, Releases;
    var image := ImageAt(r.p.images, slot);
    if ProducerRuns(r) && BeginResult(r.p, slot, image, true) == Ok {
      RunningIsSynced(r);
      ProducerOnly(r, Begin(r.p, slot, image, true));
    }
  }

  lemma PublishSlot(submitValue: seq<nat>, consumed: nat, published: seq<nat>, slot: nat)
    requires SlotsOk(submitValue, consumed, published) && slot < |submitValue| && submitValue[slot] == SENTINEL
    requires |published| + 1 < SENTINEL
    ensures SlotsOk(submitValue[slot := |published| + 1], consumed, published + [slot])
  {
  }

  lemma PublishFrame(taken: seq<Item>, coming: seq<Item>, held: nat, published: seq<nat>, slot: nat)
    requires FramesOk(taken, coming, held, published)
    ensures FramesOk(taken, coming + [Item(slot, |published| + 1)], held, published + [slot])
  {
    var item := Item(slot, |published| + 1);
    assert taken + (coming + [item]) == (taken + coming) + [item];
  }

  lemma PublishSent(sent: seq<Release>, live: seq<Item>, held: nat, item: Item)
    requires SentOk(sent, live, held) && held < item.value
    ensures SentOk(sent, live + [item], held)
  {
  }

  /** Publishing the open transaction's slot. */
  lemma PublishKeeps(r: Ring, p: Producer, slot: nat, ptsNs: int, fence: Option<nat>)
    requires Inv(r) && !r.p.waiting
    requires slot < |r.p.submitValue| && r.p.submitValue[slot] == SENTINEL && |r.published| + 1 < SENTINEL
    requires p == r.p.(submitValue := r.p.submitValue[slot := |r.published| + 1], submittingValue := 0,
      submittingSlot := NO_SLOT, ready := |r.published| + 1)
    ensures Inv(Publish(r, p, slot, |r.published| + 1, ptsNs, fence))
  {
    hide FramesOk, SentOk, QueueOk, ConsumerOk, SlotsOk, NoReply, Taken, Releases, FlightItems;
    RunningIsSynced(r);
    var value := |r.published| + 1;
    var m := FrameReady(slot, value, ptsNs, fence);
    PublishSlot(r.p.submitValue, r.p.consumed, r.published, slot);
    AppendFlight(r.toC, m);
    assert Coming(r.c, r.toC + [m]) == Coming(r.c, r.toC) + [Item(slot, value)];
    PublishFrame(Taken(r.c), Coming(r.c, r.toC), r.c.held.ready, r.published, slot);
    HeldIsPublished(Taken(r.c), Coming(r.c, r.toC), r.c.held.ready, r.published);
    PublishSent(r.sent, Live(r), r.c.held.ready, Item(slot, value));
    assert Live(Publish(r, p, slot, value, ptsNs, fence)) == Live(r) + [Item(slot, value)];
  }

  lemma HeldIsPublished(taken: seq<Item>, coming: seq<Item>, held: nat, published: seq<nat>)
    requires FramesOk(taken, coming, held, published)
    ensures held <= |published|
  {
  }

  lemma EndKeeps(r: Ring, slot: nat, ptsNs: int)
    requires Inv(r)
    ensures Inv(Apply(r, EndSubmit(slot, ptsNs)))
  {
    hide FramesOk, SentOk, QueueOk, ConsumerOk, SlotsOk, NoRequest, NoReply, Taken, Coming, Releases;
    var image, value := ImageAt(r.p.images, slot), r.p.submittingValue;
    if ProducerRuns(r) && EndResult(r.p, slot, image, value, true) == Ok {
      RunningIsSynced(r);
      PublishKeeps(r, End(r.p, slot, image, value, true), slot, ptsNs, None);
    }
  }

  lemma SubmitSyncKeeps(r: Ring, slot: nat, ptsNs: int, fence: Option<nat>)
    requires Inv(r)
    ensures Inv(Apply(r, SubmitSync(slot, ptsNs, fence)))
  {
    hide FramesOk, SentOk, QueueOk, ConsumerOk, SlotsOk, NoRequest, NoReply, Taken, Coming, Releases;
    var image := ImageAt(r.p.images, slot);
    if ProducerRuns(r) && BeginResult(r.p, slot, image, true) == Ok {
      RunningIsSynced(r);
      var begun := Begin(r.p, slot, image, true);
      PublishKeeps(r, End(begun, slot, image, begun.submittingValue, true), slot, ptsNs, fence);
    }
  }

  lemma PinsKeep(r: Ring, pins: map<nat, nat>, nextPin: nat)
    requires Inv(r) && (r.p.waiting ==> pins == map[])
    ensures Inv(r.(p := r.p.(pins := pins, nextPin := nextPin)))
  {
    hide FramesOk, SentOk, QueueOk, ConsumerOk, SlotsOk, NoRequest, NoReply, Asked, SomewhereAnswered, Taken, Coming,
      Releases;
  }

  lemma ReferenceKeeps(r: Ring, step: Step)
    requires Inv(r) && (step.RetainReference? || step.ReleaseReference?)
    ensures Inv(Apply(r, step))
  {
    hide FramesOk, SentOk, QueueOk, ConsumerOk, SlotsOk, SyncedOk, NoRequest, NoReply, Asked, SomewhereAnswered, Taken,
      Coming, Releases;
    match step
    case RetainReference(slot) =>
      if Apply(r, step) != r {
        PinsKeep(r, r.p.pins[r.p.nextPin := slot], r.p.nextPin + 1);
      }
    case ReleaseReference(reference) =>
      PinsKeep(r, r.p.pins - {reference}, r.p.nextPin);
  }

  lemma AskKeeps(r: Ring, g: Geometry)
    requires Inv(r)
    ensures Inv(Apply(r, AskGeometry(g)))
  {
    hide FramesOk, SentOk, QueueOk, ConsumerOk, SlotsOk, NoRequest, NoReply, Taken, Releases, FlightItems;
    if ProducerRuns(r) && GeometryResult(r.p, g, true) == Ok {
      RunningIsSynced(r);
      var m := RequestGeometry(g);
      AppendFlight(r.toC, m);
      assert Coming(r.c, r.toC + [m]) == Coming(r.c, r.toC);
      assert (r.toC + [m])[..|r.toC|] == r.toC;
      assert r.p.submittingValue == 0;
    }
  }

  // ---- the producer reads a message ---------------------------------------------------------------

  lemma TailOfNoReply(toP: seq<ToProducer>)
    requires NoReply(toP) && toP != []
    ensures NoReply(toP[1..]) && toP[0].FrameReleased?
  {
  }

  lemma HeadOfAsked(toC: seq<ToConsumer>, toP: seq<ToProducer>)
    requires Asked(toC, toP) && toP != []
    ensures toP[0].FrameReleased? && Asked(toC, toP[1..])
  {
    TailOfNoReply(toP);
  }

  lemma HeadOfAnswered(toC: seq<ToConsumer>, toP: seq<ToProducer>, desc: ToProducer)
    requires SomewhereAnswered(toC, toP, desc) && toP != []
    ensures toP[0].FrameReleased? ==> SomewhereAnswered(toC, toP[1..], desc)
    ensures !toP[0].FrameReleased? ==> toP[0] == desc && NoRequest(toC) && NoReply(toP[1..])
  {
    hide NoRequest;
    var d: nat :| Answered(toC, toP, d, desc);
    if d == 0 {
      assert !toP[0].FrameReleased?;
    } else {
      assert toP[..d][0] == toP[0];
      assert toP[1..][..d - 1] == toP[..d][1..];
      assert toP[1..][d..] == toP[d + 1..];
      TailOfNoReply(toP[..d]);
      assert Answered(toC, toP[1..], d - 1, desc);
    }
  }

  lemma HeadOfReplaced(r: Ring)
    requires Replaced(r)
    ensures r.toP[0].FrameReleased? ==> Replaced(r.(toP := r.toP[1..]))
    ensures !r.toP[0].FrameReleased? ==> r.toP == [RingDesc(r.c.generation, r.c.images)]
  {
    var n := |r.toP| - 1;
    if n == 0 {
      assert r.toP == [r.toP[0]];
    } else {
      assert r.toP[..n][0] == r.toP[0];
      TailOfNoReply(r.toP[..n]);
      assert r.toP[1..][..n - 1] == r.toP[..n][1..];
    }
  }

  /** A release moves from the socket into the fence queue and the queue advances. */
  lemma ApplyReleaseSynced(r: Ring, release: Release)
    requires Inv(r) && Synced(r) && r.toP != [] && r.toP[0] == FrameReleased(release)
    ensures SyncedOk(r.(p := ApplyRelease(r.p, release, r.done), toP := r.toP[1..]))
  {
    hide FramesOk, ConsumerOk, SlotsOk, PhaseOk, Taken, Coming, QueueOk, Live, Before;
    var q := r.p.releases + [release];
    var rest := Releases(r.toP[1..]);
    assert r.p.releases + Releases(r.toP) == q + rest;
    var k := ReadyPrefix(q, r.done);
    PopReady(q + rest, r.sent, r.p.consumed, r.done, k);
    assert (q + rest)[k..] == q[k..] + rest;
    assert (q + rest)[..k] == q[..k];
    MoreConsumed(r.p.submitValue, r.p.consumed, Raise(r.p.consumed, q[..k]), r.published);
  }

  lemma ReceiveReleaseKeeps(r: Ring)
    requires Inv(r) && r.toP != [] && r.toP[0].FrameReleased?
    ensures Inv(ReceiveOne(r))
  {
    hide FramesOk, SentOk, QueueOk, ConsumerOk, SyncedOk, NoRequest, NoReply, Taken, Coming, Releases, Asked,
      SomewhereAnswered, Replaced;
    if Synced(r) {
      ApplyReleaseSynced(r, r.toP[0].release);
      if !r.p.waiting {
        TailOfNoReply(r.toP);
      } else if Asked(r.toC, r.toP) {
        HeadOfAsked(r.toC, r.toP);
      } else {
        HeadOfAnswered(r.toC, r.toP, RingDesc(r.c.generation, r.c.images));
      }
    } else {
      HeadOfReplaced(r);
      ReplacedIgnoresReleases(r.(toP := r.toP[1..]), ApplyRelease(r.p, r.toP[0].release, r.done));
    }
  }

  lemma ReplacedIgnoresReleases(r: Ring, p: Producer)
    requires Replaced(r) && p.generation == r.p.generation
    ensures Replaced(r.(p := p))
  {
    hide NoReply, Live;
    assert Live(r.(p := p)) == Live(r) by {
      SameLive(r, r.(p := p));
    }
  }

  lemma SameLive(r: Ring, r': Ring)
    requires r.c == r'.c && r.toC == r'.toC
    ensures Live(r) == Live(r')
  {
  }

  /** A fresh timeline: nothing published, nothing sent, every slot free. */
  lemma FreshSlots(r: Ring)
    requires r.published == [] && r.sent == [] && r.p.images == r.c.images && |r.p.submitValue| == |r.c.images|
    requires forall i :: 0 <= i < |r.p.submitValue| ==> r.p.submitValue[i] == 0
    requires r.p.ready == 0 && r.p.submittingValue == 0 && r.p.consumed == 0 && r.p.releases == []
      && Releases(r.toP) == []
    ensures SyncedOk(r)
  {
  }

  lemma ReceiveReplyKeeps(r: Ring)
    requires Inv(r) && r.toP != [] && !r.toP[0].FrameReleased?
    ensures Inv(ReceiveOne(r))
  {
    hide FramesOk, SentOk, QueueOk, ConsumerOk, NoRequest, Taken, Coming, SlotsOk, SubmitOk, SomewhereAnswered;
    if !r.p.waiting {
      RunningIsSynced(r);
      TailOfNoReply(r.toP);
    } else if Synced(r) {
      if Asked(r.toC, r.toP) {
        HeadOfAsked(r.toC, r.toP);
      }
      HeadOfAnswered(r.toC, r.toP, RingDesc(r.c.generation, r.c.images));
      assert Releases(r.toP) == Releases(r.toP[1..]);
      assert ReceiveOne(r).p == r.p.(waiting := false);
      SameSubmit(r.p, ReceiveOne(r).p, |r.published|);
    } else {
      HeadOfReplaced(r);
      assert Releases(r.toP[1..]) == [];
      FreshSlots(ReceiveOne(r));
      NoRequestEmpty(r.toC);
    }
  }

  lemma NoRequestEmpty(toC: seq<ToConsumer>)
    requires toC == []
    ensures NoRequest(toC)
  {
  }

  lemma SameSubmit(p: Producer, p': Producer, n: nat)
    requires SubmitOk(p, n) && p' == p.(waiting := p'.waiting)
    ensures SubmitOk(p', n)
  {
  }

  lemma ReceiveKeeps(r: Ring)
    requires Inv(r)
    ensures Inv(Apply(r, Receive))
  {
    hide Inv;
    if r.open && r.toP != [] {
      if r.toP[0].FrameReleased? {
        ReceiveReleaseKeeps(r);
      } else {
        ReceiveReplyKeeps(r);
      }
    }
  }

  // ---- consumer steps -----------------------------------------------------------------------------

  /** A consumer that keeps its generation and images, with the producer and both sockets untouched. */
  lemma ConsumerOnly(r: Ring, c: Consumer)
    requires Inv(r) && c.generation == r.c.generation && c.images == r.c.images
    requires FramesOk(Taken(c), Coming(c, r.toC), c.held.ready, r.published)
    requires SentOk(r.sent, Taken(c) + Coming(c, r.toC), c.held.ready)
    requires ConsumerOk(c)
    requires !Synced(r) ==> Taken(c) + Coming(c, r.toC) == [] && c.held.ready == 0
    requires NewestOk(Taken(c) + Coming(c, r.toC), c.held.ready, |r.published|)
    ensures Inv(r.(c := c))
  {
    hide FramesOk, SentOk, QueueOk, ConsumerOk, NoRequest, NoReply, Taken, Coming, SlotsOk, SubmitOk, Asked,
      SomewhereAnswered, Unreserved;
  }

  /** As above, with the same frames live in the same order. */
  lemma SameFrames(r: Ring, c: Consumer)
    requires Inv(r) && c.generation == r.c.generation && c.images == r.c.images && ConsumerOk(c)
    requires Taken(c) + Coming(c, r.toC) == Live(r) && c.held.ready == r.c.held.ready
    requires FramesOk(Taken(c), Coming(c, r.toC), c.held.ready, r.published)
    ensures Inv(r.(c := c))
  {
    hide FramesOk, SentOk, QueueOk, ConsumerOk, NoRequest, NoReply, Taken, Coming, SyncedOk, Asked, SomewhereAnswered,
      Unreserved;
    ConsumerOnly(r, c);
  }

  lemma ConsumerAdvanceKeeps(r: Ring)
    requires Inv(r)
    ensures Inv(r.(c := AdvanceConsumer(r.c, r.done)))
  {
    hide FramesOk, NoRequest, NoReply, Taken, Coming, SyncedOk, Asked, SomewhereAnswered, Unreserved, LedgerOk, Before,
      QueueOk;
    var c := AdvanceConsumer(r.c, r.done);
    assert Taken(c) == Taken(r.c) && Coming(c, r.toC) == Coming(r.c, r.toC) by {
      SameTaken(r.c, c, r.toC);
    }
    assert ConsumerOk(c) by {
      SameLedger(r.c, c);
    }
    ConsumerOnly(r, c);
  }

  lemma SameTaken(c: Consumer, c': Consumer, toC: seq<ToConsumer>)
    requires c'.ledger.frames == c.ledger.frames && c'.frameHeld == c.frameHeld && c'.held == c.held
    requires c'.hasPending == c.hasPending && c'.pending == c.pending
    ensures Taken(c') == Taken(c) && Coming(c', toC) == Coming(c, toC)
  {
  }

  lemma SameLedger(c: Consumer, c': Consumer)
    requires LedgerOk(c) && c'.ledger == c.ledger && c'.nextToken == c.nextToken && c'.completions == c.completions
    requires c'.deferRelease == c.deferRelease && c'.generation == c.generation && c'.images == c.images
    ensures LedgerOk(c')
  {
    hide L.ValidState;
  }

  lemma TakeKeeps(r: Ring)
    requires Inv(r)
    ensures Inv(Apply(r, TakeFrame))
  {
    hide SentOk, QueueOk, NoRequest, NoReply, Asked, SomewhereAnswered, Unreserved, LedgerOk, FlightItems, SlotsOk,
      SubmitOk, Increasing, Tagged;
    var c := AcquireFrame(r.c, r.done);
    if c != r.c {
      var item := Item(r.c.pending.slot, r.c.pending.ready);
      assert Coming(r.c, r.toC)[0] == item;
      assert Taken(c) == Taken(r.c) + [item];
      assert [item] + Coming(c, r.toC) == Coming(r.c, r.toC);
      assert Live(r) == Taken(c) + Coming(c, r.toC);
      TakeFrameOk(Taken(r.c), item, Coming(c, r.toC), r.c.held.ready, r.published);
      assert ConsumerOk(c) by {
        SameLedger(r.c, c);
      }
      TakeSent(r.sent, Live(r), r.c.held.ready, c.held.ready);
      assert Synced(r) by {
        assert Live(r) != [];
      }
      ConsumerOnly(r, c);
    }
  }

  /** The first coming frame becomes the last taken one. */
  lemma TakeFrameOk(taken: seq<Item>, item: Item, coming: seq<Item>, held: nat, published: seq<nat>)
    requires FramesOk(taken, [item] + coming, held, published)
    ensures FramesOk(taken + [item], coming, item.value, published) && held < item.value
  {
    var all := taken + ([item] + coming);
    assert all == (taken + [item]) + coming;
    assert all[|taken|] == item;
    assert ([item] + coming)[0] == item;
    forall i | 0 <= i < |coming| ensures coming[i].value > item.value {
      assert all[|taken| + 1 + i] == coming[i];
    }
    forall i | 0 <= i < |taken| ensures taken[i].value <= item.value {
      assert all[i] == taken[i];
    }
  }

  lemma TakeSent(sent: seq<Release>, live: seq<Item>, held: nat, held': nat)
    requires SentOk(sent, live, held) && held <= held'
    ensures SentOk(sent, live, held')
  {
  }

  /** Frames leave the front of the live sequence. */
  lemma DropFront(m: seq<Item>, taken: seq<Item>, coming: seq<Item>, held: nat, published: seq<nat>)
    requires FramesOk(m + taken, coming, held, published)
    ensures FramesOk(taken, coming, held, published)
  {
    var all, rest := (m + taken) + coming, taken + coming;
    forall i | 0 <= i < |rest| ensures rest[i] == all[i + |m|] {
    }
    forall i | 0 <= i < |taken| ensures taken[i] == (m + taken)[i + |m|] {
    }
  }

  lemma DropFrontSent(sent: seq<Release>, m: seq<Item>, rest: seq<Item>, held: nat)
    requires SentOk(sent, m + rest, held)
    ensures SentOk(sent, rest, held)
  {
    forall i | 0 <= i < |rest| ensures rest[i] == (m + rest)[i + |m|] {
    }
  }

  /** Announcing the last of the frames that left the front. */
  lemma RetireFront(sent: seq<Release>, m: seq<Item>, rest: seq<Item>, held: nat, fence: Option<nat>)
    requires SentOk(sent, m + rest, held) && Increasing(m + rest) && m != [] && m[|m| - 1].value <= held
    requires m[|m| - 1].value >= 1
    ensures SentOk(sent + [Release(m[|m| - 1].value, fence)], rest, held)
  {
    var last := |m| - 1;
    assert (m + rest)[last] == m[last];
    forall i | 0 <= i < |rest| ensures rest[i] == (m + rest)[i + |m|] && m[last].value < rest[i].value {
    }
  }

  /** A release joins the tail of the producer's socket. */
  lemma AnnouncePhase(r: Ring, release: Release)
    requires PhaseOk(r) && Synced(r)
    ensures var toP := r.toP + [FrameReleased(release)];
      if r.p.waiting then Asked(r.toC, toP) || SomewhereAnswered(r.toC, toP, RingDesc(r.c.generation, r.c.images))
      else NoReply(toP)
  {
    var m := FrameReleased(release);
    if r.p.waiting && !Asked(r.toC, r.toP) {
      var desc := RingDesc(r.c.generation, r.c.images);
      var d: nat :| Answered(r.toC, r.toP, d, desc);
      assert (r.toP + [m])[..d] == r.toP[..d];
      assert (r.toP + [m])[d + 1..] == r.toP[d + 1..] + [m];
      assert Answered(r.toC, r.toP + [m], d, desc);
    }
  }

  /** Frames `m` leave the front and the last of them is announced. */
  lemma AnnounceKeeps(r: Ring, c: Consumer, m: seq<Item>, fence: Option<nat>)
    requires Inv(r) && Synced(r) && c.generation == r.c.generation && c.images == r.c.images
    requires m != [] && m + Taken(c) == Taken(r.c) && Coming(c, r.toC) == Coming(r.c, r.toC)
      && c.held.ready == r.c.held.ready
    requires ConsumerOk(c)
    ensures Inv(Announce(r, c, Release(m[|m| - 1].value, fence)))
  {
    hide QueueOk, ConsumerOk, NoRequest, NoReply, Taken, Coming, SlotsOk, SubmitOk, Asked, SomewhereAnswered,
      Unreserved, Releases, SentOk, Tagged, Beyond, Increasing;
    var x := Release(m[|m| - 1].value, fence);
    DropFront(m, Taken(c), Coming(c, r.toC), c.held.ready, r.published);
    assert Live(r) == m + (Taken(c) + Coming(c, r.toC));
    LastOfFront(m, Taken(c), Coming(c, r.toC), c.held.ready, r.published);
    NewestAfterFront(m, Taken(c) + Coming(c, r.toC), c.held.ready, |r.published|);
    RetireFront(r.sent, m, Taken(c) + Coming(c, r.toC), r.c.held.ready, fence);
    AnnouncePhase(r, x);
    AppendRelease(r.toP, FrameReleased(x));
    PushSent(r.p.releases + Releases(r.toP), r.sent, r.p.consumed, r.done, x);
    assert r.p.releases + Releases(r.toP + [FrameReleased(x)]) == (r.p.releases + Releases(r.toP)) + [x];
  }

  /** Taking frames away from the front leaves the newest, or it was the last one taken. */
  lemma NewestAfterFront(m: seq<Item>, rest: seq<Item>, held: nat, n: nat)
    requires NewestOk(m + rest, held, n) && m != [] && m[|m| - 1].value <= held <= n
    ensures NewestOk(rest, held, n)
  {
    if rest == [] {
      assert m + rest == m;
    } else {
      assert (m + rest)[|m + rest| - 1] == rest[|rest| - 1];
    }
  }

  lemma LastOfFront(m: seq<Item>, taken: seq<Item>, coming: seq<Item>, held: nat, published: seq<nat>)
    requires FramesOk(m + taken, coming, held, published) && m != []
    ensures 1 <= m[|m| - 1].value <= held && Increasing(m + (taken + coming))
  {
    assert (m + taken) + coming == m + (taken + coming);
    assert (m + taken)[|m| - 1] == m[|m| - 1];
    assert ((m + taken) + coming)[|m| - 1] == m[|m| - 1];
  }

  lemma LiveMeansSynced(r: Ring)
    requires Inv(r) && Live(r) != []
    ensures Synced(r)
  {
    hide FramesOk, SentOk, QueueOk, ConsumerOk, SyncedOk, NoRequest, NoReply, Taken, Coming, Asked, SomewhereAnswered,
      Unreserved;
  }

  lemma GiveBackKeeps(r: Ring, fence: Option<nat>)
    requires Inv(r)
    ensures Inv(Apply(r, GiveBack(fence)))
  {
    hide FramesOk, SentOk, QueueOk, NewestOk, SyncedOk, PhaseOk, ConsumerOk, Coming, ReleaseResult, ReleaseFrame;
    var c := r.c;
    if ReleaseResult(c, c.held) == Ok {
      var m := [Item(c.held.slot, c.held.ready)];
      GivenBack(c, fence, r.done, r.toC);
      LiveMeansSynced(r);
      AnnounceKeeps(r, ReleaseFrame(c, c.held, fence, r.done), m, fence);
    }
  }

  /** What giving the held frame back leaves of the consumer. */
  lemma GivenBack(c: Consumer, fence: Option<nat>, done: set<nat>, toC: seq<ToConsumer>)
    requires ConsumerOk(c) && ReleaseResult(c, c.held) == Ok
    ensures Taken(c) == [Item(c.held.slot, c.held.ready)]
    ensures var c' := ReleaseFrame(c, c.held, fence, done);
      && ConsumerOk(c') && Taken(c') == [] && Coming(c', toC) == Coming(c, toC) && c'.held == c.held
      && c'.generation == c.generation && c'.images == c.images
  {
    hide LedgerOk, FlightItems;
    SameLedger(c, ReleaseFrame(c, c.held, fence, done));
  }

  lemma DropKeeps(r: Ring)
    requires Inv(r)
    ensures Inv(Apply(r, Drop))
  {
    hide FramesOk, SentOk, QueueOk, SyncedOk, PhaseOk, ConsumerOk, Coming, DropResult, DropFrame;
    var c := r.c;
    if (c.deferRelease || c.gpuSync) && DropResult(c, c.held) == Ok {
      var m := [Item(c.held.slot, c.held.ready)];
      Dropped(c, r.toC);
      var c' := DropFrame(c, c.held);
      LiveMeansSynced(r);
      assert m + Taken(c') == Taken(c);
      DropFront(m, Taken(c'), Coming(c', r.toC), c'.held.ready, r.published);
      assert Live(r) == m + (Taken(c') + Coming(c', r.toC));
      DropFrontSent(r.sent, m, Taken(c') + Coming(c', r.toC), c'.held.ready);
      HeldIsPublished(Taken(r.c), Coming(r.c, r.toC), r.c.held.ready, r.published);
      NewestAfterFront(m, Taken(c') + Coming(c', r.toC), c'.held.ready, |r.published|);
      ConsumerOnly(r, c');
    } else {
      NotDropped(c);
    }
  }

  /** What dropping the held frame leaves of the consumer. */
  lemma Dropped(c: Consumer, toC: seq<ToConsumer>)
    requires ConsumerOk(c) && DropResult(c, c.held) == Ok
    ensures Taken(c) == [Item(c.held.slot, c.held.ready)]
    ensures var c' := DropFrame(c, c.held);
      && ConsumerOk(c') && Taken(c') == [] && Coming(c', toC) == Coming(c, toC)
      && c' == c.(frameHeld := false)
  {
    hide LedgerOk, FlightItems;
    SameLedger(c, DropFrame(c, c.held));
  }

  lemma NotDropped(c: Consumer)
    ensures DropResult(c, c.held) != Ok ==> DropFrame(c, c.held) == c
  {
    hide DropResult;
  }

  lemma LeaseLedgerOk(c: Consumer, frame: Frame)
    requires ConsumerOk(c) && LeaseResult(c, frame) == Ok
    ensures ConsumerOk(LeaseFrame(c, frame))
  {
    var c' := LeaseFrame(c, frame);
    hide L.Valid;
    L.AcquireOk(L.State(c.ledger, c.nextToken), c.generation, frame);
    assert c'.ledger.frames == c.ledger.frames + [frame];
  }

  /** Leasing moves the held frame to the tail of the ledger: the frames taken are the same. */
  lemma LeaseMovesHeld(c: Consumer, frame: Frame, toC: seq<ToConsumer>)
    requires LeaseResult(c, frame) == Ok
    ensures var c' := LeaseFrame(c, frame); Taken(c') == Taken(c) && Coming(c', toC) == Coming(c, toC)
  {
    hide L.AddReaderResult, FlightItems;
    var c' := LeaseFrame(c, frame);
    assert c'.ledger.frames == c.ledger.frames + [frame];
    assert LedgerItems(c'.ledger.frames) == LedgerItems(c.ledger.frames) + HeldItems(true, frame);
  }

  lemma LeaseKeeps(r: Ring, frame: Frame)
    requires Inv(r)
    ensures Inv(Apply(r, Lease(frame)))
  {
    hide SentOk, QueueOk, SyncedOk, PhaseOk, FramesOk, ConsumerOk, NewestOk, LeaseResult, Taken, Coming;
    if LeaseResult(r.c, frame) == Ok {
      LeaseLedgerOk(r.c, frame);
      LeaseMovesHeld(r.c, frame, r.toC);
      SameFrames(r, LeaseFrame(r.c, frame));
    }
  }

  /** Only tokens change. */
  lemma TokensKeep(r: Ring, c: Consumer)
    requires Inv(r) && ConsumerOk(c) && c.ledger.frames == r.c.ledger.frames
    requires c == r.c.(ledger := c.ledger, nextToken := c.nextToken, completions := c.completions)
    ensures Inv(r.(c := c))
  {
    hide FramesOk, SentOk, QueueOk, NoRequest, NoReply, SyncedOk, PhaseOk, ConsumerOk, Taken, Coming;
    SameTaken(r.c, c, r.toC);
    SameFrames(r, c);
  }

  lemma RetainTokenKeeps(r: Ring, t: nat)
    requires Inv(r)
    ensures Inv(Apply(r, RetainToken(t)))
  {
    hide FramesOk, SentOk, QueueOk, PhaseOk, SyncedOk, L.ValidReaders, L.ValidQueue;
    if L.RetainResult(r.c.ledger, t, r.c.nextToken) == Ok {
      L.RetainOk(L.State(r.c.ledger, r.c.nextToken), t);
      TokensKeep(r, RetainLease(r.c, t));
    }
  }

  lemma CompleteTokenKeeps(r: Ring, t: nat)
    requires Inv(r)
    ensures Inv(Apply(r, CompleteToken(t)))
  {
    hide FramesOk, SentOk, QueueOk, PhaseOk, SyncedOk, NewestOk, L.ValidReaders, L.ValidQueue, FreshPool, L.AllDeferred,
      Imaged, L.Issued;
    L.DropReaderKeepsValid(r.c.ledger.frames, r.c.ledger.readers, t);
    L.CompleteKeepsDeferred(r.c.ledger, r.c.completions, t);
    TokensOk(r.c, CompleteLease(r.c, t));
    TokensKeep(r, CompleteLease(r.c, t));
  }

  /** What a change of tokens has to respect. */
  lemma TokensOk(c: Consumer, c': Consumer)
    requires ConsumerOk(c) && c' == c.(ledger := c.ledger.(readers := c'.ledger.readers), completions := c'.completions)
    requires L.ValidReaders(c.ledger.frames, c'.ledger.readers) && c'.ledger.readers.Keys <= c.ledger.readers.Keys
    requires L.AllDeferred(c'.ledger, c'.completions)
    ensures ConsumerOk(c')
  {
    hide L.ValidReaders, L.ValidQueue, FreshPool, L.AllDeferred, Imaged;
    SamePool(c, c', c.images);
  }

  lemma DeferTokenKeeps(r: Ring, t: nat, f: nat)
    requires Inv(r)
    ensures Inv(Apply(r, DeferToken(t, f)))
  {
    hide FramesOk, SentOk, QueueOk, PhaseOk, SyncedOk, NewestOk, L.ValidReaders, L.ValidQueue, L.AllDeferred, Imaged,
      FreshPool;
    var c := DeferLease(r.c, t, f);
    if c != r.c {
      L.MarkReaderKeepsValid(r.c.ledger.frames, r.c.ledger.readers, t);
      L.DeferAddsDeferred(r.c.ledger, r.c.completions, t, f);
      SamePool(r.c, c, r.c.images);
      TokensKeep(r, c);
      HistoryIgnored(r.(c := c), Apply(r, DeferToken(t, f)));
    }
  }

  /** What was deferred is remembered for its own sake. */
  lemma HistoryIgnored(r: Ring, r': Ring)
    requires Inv(r) && r' == r.(deferrals := r'.deferrals)
    ensures Inv(r')
  {
    hide FramesOk, SentOk, QueueOk, ConsumerOk, SlotsOk, SubmitOk, NoRequest, NoReply, Unreserved, Asked,
      SomewhereAnswered, Taken, Coming, Releases;
  }

  lemma PollOk(c: Consumer, done: set<nat>)
    requires ConsumerOk(c)
    ensures ConsumerOk(PollCompletions(c, done))
  {
    hide L.ValidReaders, L.ValidQueue, FreshPool, L.AllDeferred, Imaged;
    var finished := set t | t in c.completions && c.completions[t] in done :: t;
    L.DropReadersKeepsValid(c.ledger.frames, c.ledger.readers, finished);
    L.PollDropsDeferred(c.ledger, c.completions, finished);
    TokensOk(c, PollCompletions(c, done));
  }

  lemma RetiredOk(c: Consumer, value: nat)
    requires ConsumerOk(c)
    ensures ConsumerOk(c.(retired := value, ledger := L.Retired(c.ledger)))
  {
    hide L.ValidReaders, L.ValidQueue, L.Pinned, L.AllDeferred, L.Issued, FreshPool;
    L.RetiredKeepsValid(c.ledger);
    L.ReadersAloneMatter(c.ledger, c.completions, L.Retired(c.ledger));
    SamePool(c, c.(retired := value, ledger := L.Retired(c.ledger)), c.images);
  }

  lemma CollectKeeps(r: Ring)
    requires Inv(r)
    ensures Inv(Apply(r, Collect))
  {
    hide FramesOk, SentOk, QueueOk, SyncedOk, PhaseOk, ConsumerOk, NewestOk, Taken, Coming, L.Retirement, L.Retired;
    var q := PollCompletions(r.c, r.done);
    PollOk(r.c, r.done);
    TokensKeep(r, q);
    var value := L.Retirement(q.ledger);
    if value != 0 {
      CollectRetires(r.(c := q));
    }
  }

  /** The frames a retirement removes, from the front of those taken. */
  lemma RetiredFront(r: Ring, c: Consumer) returns (m: seq<Item>)
    requires L.Retirement(r.c.ledger) != 0
    requires c == r.c.(retired := c.retired, ledger := L.Retired(r.c.ledger))
    ensures m != [] && m + Taken(c) == Taken(r.c) && m[|m| - 1].value == L.Retirement(r.c.ledger)
    ensures Live(r) != [] && r.c.ledger.frames != [] && Coming(c, r.toC) == Coming(r.c, r.toC)
  {
    hide L.FreePrefix, L.Retirement, L.Retired, FlightItems, HeldItems, PendingItems, LedgerItems;
    var frames := r.c.ledger.frames;
    var k := RetiredCount(r.c.ledger);
    m := LedgerItems(frames[..k]);
    SplitItems(frames, k);
    Reassociate(m, LedgerItems(frames[k..]), HeldItems(c.frameHeld, c.held));
    assert m[k - 1].value == frames[..k][k - 1].ready;
  }

  lemma RetiredCount(l: L.Ledger) returns (k: nat)
    requires L.Retirement(l) != 0
    ensures 0 < k <= |l.frames| && L.Retired(l).frames == l.frames[k..] && L.Retirement(l) == l.frames[k - 1].ready
  {
    hide L.FreePrefix;
    k := L.FreePrefix(l);
  }

  lemma SplitItems(frames: seq<Frame>, k: nat)
    requires k <= |frames|
    ensures LedgerItems(frames[..k]) + LedgerItems(frames[k..]) == LedgerItems(frames)
  {
    hide LedgerItems;
    assert LedgerItems(frames[..k]) + LedgerItems(frames[k..]) == LedgerItems(frames);
  }

  lemma CollectRetires(r: Ring)
    requires Inv(r) && L.Retirement(r.c.ledger) != 0
    ensures var value := L.Retirement(r.c.ledger);
      Inv(Announce(r, r.c.(retired := value, ledger := L.Retired(r.c.ledger)), Release(value, None)))
  {
    hide FramesOk, SentOk, SyncedOk, PhaseOk, NewestOk, ConsumerOk, Taken, Coming, QueueOk, L.Retired, L.Retirement;
    var value := L.Retirement(r.c.ledger);
    var c := r.c.(retired := value, ledger := L.Retired(r.c.ledger));
    var m := RetiredFront(r, c);
    RetiredOk(r.c, value);
    LiveMeansSynced(r);
    AnnounceKeeps(r, c, m, None);
  }

  // ---- the consumer's accept thread ---------------------------------------------------------------

  lemma NoRequestTail(toC: seq<ToConsumer>)
    requires toC != [] && NoRequest(toC)
    ensures NoRequest(toC[1..]) && toC[0].FrameReady?
  {
  }

  lemma FrameAtHeadPhase(r: Ring, c: Consumer)
    requires PhaseOk(r) && r.toC != [] && r.toC[0].FrameReady? && c.generation == r.c.generation
      && c.images == r.c.images
    ensures Synced(r) && PhaseOk(r.(c := c, toC := r.toC[1..]))
  {
    hide NoReply, Unreserved, Live;
    if !r.p.waiting {
      NoRequestTail(r.toC);
    } else if Asked(r.toC, r.toP) {
      var n := |r.toC| - 1;
      assert r.toC[..n] != [];
      NoRequestTail(r.toC[..n]);
      assert r.toC[1..][..n - 1] == r.toC[..n][1..];
    } else {
      var desc := RingDesc(r.c.generation, r.c.images);
      var d: nat :| Answered(r.toC, r.toP, d, desc);
      NoRequestTail(r.toC);
      assert Answered(r.toC[1..], r.toP, d, desc);
    }
  }

  lemma FirstComingTagged(taken: seq<Item>, a: seq<Item>, item: Item, b: seq<Item>, held: nat, published: seq<nat>)
    requires FramesOk(taken, a + ([item] + b), held, published)
    ensures 1 <= item.value <= |published| && published[item.value - 1] == item.slot
  {
    assert (taken + (a + ([item] + b)))[|taken| + |a|] == item;
  }

  lemma PublishedSlotExists(r: Ring, item: Item)
    requires SyncedOk(r) && 1 <= item.value <= |r.published| && r.published[item.value - 1] == item.slot
    ensures item.slot < |r.c.images|
  {
    hide QueueOk, SubmitOk;
  }

  lemma DeliverFrameKeeps(r: Ring, images: seq<nat>)
    requires Inv(r) && r.toC != [] && r.toC[0].FrameReady?
    ensures Inv(DeliverOne(r, images)) && DeliverOne(r, images).open == r.open
    ensures r.toC[0].slot < |r.c.images|
  {
    hide FramesOk, SentOk, QueueOk, NoRequest, NoReply, SyncedOk, PhaseOk, LedgerOk;
    var m := r.toC[0];
    var item := Item(m.slot, m.ready);
    var pending := PendingItems(r.c.hasPending, r.c.pending);
    var rest := FlightItems(r.toC[1..]);
    assert Coming(r.c, r.toC) == pending + ([item] + rest);
    FirstComingTagged(Taken(r.c), pending, item, rest, r.c.held.ready, r.published);
    FrameAtHeadPhase(r, r.c);
    PublishedSlotExists(r, item);
    var c := OnFrameReady(r.c, m.slot, m.ready, m.ptsNs, m.fence);
    FrameAtHeadPhase(r, c);
    assert Taken(c) == Taken(r.c);
    assert Coming(c, r.toC[1..]) == [item] + rest;
    DropMiddle(Taken(r.c), pending, [item] + rest, r.c.held.ready, r.published);
    DropMiddleSent(r.sent, Taken(r.c), pending, [item] + rest, r.c.held.ready);
    assert ConsumerOk(c) by {
      SameLedger(r.c, c);
    }
    var r' := r.(c := c, toC := r.toC[1..]);
    assert SyncedOk(r') by {
      SyncedIgnores(r, r');
    }
  }

  lemma SyncedIgnores(r: Ring, r': Ring)
    requires SyncedOk(r) && r' == r.(c := r'.c, toC := r'.toC) && r'.c.images == r.c.images
    ensures SyncedOk(r')
  {
    hide QueueOk, SlotsOk, SubmitOk;
  }

  lemma RequestAtHead(r: Ring)
    requires PhaseOk(r) && r.toC != [] && r.toC[0].RequestGeometry?
    ensures r.p.waiting && Unreserved(r.p) && Synced(r) && |r.toC| == 1 && NoReply(r.toP)
  {
    hide Unreserved, NoReply, Live;
    if |r.toC| > 1 && Asked(r.toC, r.toP) {
      NoRequestTail(r.toC[..|r.toC| - 1]);
    }
  }

  lemma ReplyPhase(r: Ring, c: Consumer)
    requires r.p.waiting && Unreserved(r.p) && r.p.generation == c.generation && NoReply(r.toP)
    ensures PhaseOk(r.(c := c, toC := [], toP := r.toP + [RingDesc(c.generation, c.images)]))
  {
    hide Unreserved, Live, Asked;
    var desc := RingDesc(c.generation, c.images);
    var toP := r.toP + [desc];
    assert toP[..|r.toP|] == r.toP;
    assert toP[|r.toP| + 1..] == [];
    assert Answered([], toP, |r.toP|, desc);
  }

  lemma RequestKept(r: Ring, c: Consumer)
    requires Inv(r.(c := c)) && r.toC != [] && r.toC[0].RequestGeometry? && Synced(r)
    requires c.generation == r.c.generation && c.images == r.c.images
    ensures Inv(r.(c := c, toC := [], toP := r.toP + [RingDesc(c.generation, c.images)]))
  {
    hide FramesOk, SentOk, QueueOk, NoRequest, NoReply, Unreserved, ConsumerOk, SlotsOk, SubmitOk, Releases, Taken;
    var r0 := r.(c := c);
    RequestAtHead(r0);
    ReplyPhase(r0, c);
    assert r.toC == [r.toC[0]];
    assert FlightItems(r.toC) == FlightItems([]) by {
      assert r.toC[1..] == [];
    }
    assert Coming(c, r.toC) == Coming(c, []);
    AppendRelease(r.toP, RingDesc(c.generation, c.images));
    assert Releases(r.toP + [RingDesc(c.generation, c.images)]) == Releases(r.toP);
  }

  /** A renewed consumer has nothing live. */
  lemma RenewedOk(c: Consumer)
    requires ConsumerOk(c) && Quiescent(c)
    ensures ConsumerOk(Renewed(c)) && Taken(Renewed(c)) == [] && Coming(Renewed(c), []) == []
    ensures FramesOk([], [], 0, []) && SentOk([], [], 0)
  {
    hide L.ValidReaders, L.ValidQueue, L.AllDeferred, L.Issued, FreshPool;
    L.ResetOk(c.ledger);
    L.ReadersAloneMatter(c.ledger, c.completions, L.ResetEpoch(c.ledger));
    SamePool(c, Renewed(c), c.images);
  }

  lemma NewImagesOk(c: Consumer, g: Geometry, images: seq<nat>)
    requires ConsumerOk(c) && c.ledger.frames == [] && !c.frameHeld && FreshPool(c, images)
      && g.format == c.geometry.format
    ensures ConsumerOk(c.(geometry := g, images := images))
  {
    hide L.ValidReaders, L.ValidQueue;
  }

  lemma NothingNewest()
    ensures NewestOk([], 0, 0)
  {
  }

  lemma StorageReplaced(r: Ring, g: Geometry, images: seq<nat>)
    requires Inv(r) && Synced(r) && r.p.waiting && Unreserved(r.p) && NoReply(r.toP)
    requires Quiescent(r.c) && FreshPool(r.c, images) && g.format == r.c.geometry.format
    ensures var c := Renewed(r.c).(geometry := g, images := images);
      Inv(r.(c := c, toC := [], toP := r.toP + [RingDesc(c.generation, c.images)], published := [], sent := []))
  {
    hide NoRequest, NoReply, Unreserved, ConsumerOk, SlotsOk, SubmitOk, Releases, SyncedOk, FramesOk, SentOk, QueueOk,
      Taken, Coming, NewestOk;
    RenewedOk(r.c);
    NewImagesOk(Renewed(r.c), g, images);
    var c := Renewed(r.c).(geometry := g, images := images);
    SameTaken(Renewed(r.c), c, []);
    assert Taken(c) + Coming(c, []) == [];
    assert (r.toP + [RingDesc(c.generation, c.images)])[..|r.toP|] == r.toP;
    NothingNewest();
  }

  lemma DeliverRequestKeeps(r: Ring, images: seq<nat>)
    requires Inv(r) && r.toC != [] && r.toC[0].RequestGeometry? && FreshPool(r.c, images)
    ensures Inv(DeliverOne(r, images))
  {
    hide FramesOk, SentOk, QueueOk, NoRequest, NoReply, SyncedOk, ConsumerOk, Unreserved, Asked, SomewhereAnswered,
      Taken, Coming, FreshPool;
    RequestAtHead(r);
    var g := r.toC[0].geometry;
    assert r.toC[1..] == [];
    if !Resizes(r.c, g) {
      RequestKept(r, r.c);
    } else {
      ConsumerAdvanceKeeps(r);
      var a := AdvanceConsumer(r.c, r.done);
      if !Quiescent(a) {
        RequestKept(r, a);
      } else {
        SamePool(r.c, a, images);
        StorageReplaced(r.(c := a), g, images);
      }
    }
  }

  lemma SamePool(c: Consumer, c': Consumer, images: seq<nat>)
    requires FreshPool(c, images) && c'.images == c.images
    ensures FreshPool(c', images)
  {
  }

  lemma DeliverKeeps(r: Ring, images: seq<nat>)
    requires Inv(r)
    ensures Inv(Apply(r, Deliver(images)))
  {
    hide Inv, DeliverOne, FreshPool;
    if r.toC != [] && FreshPool(r.c, images) {
      if r.toC[0].FrameReady? {
        DeliverFrameKeeps(r, images);
      } else {
        DeliverRequestKeeps(r, images);
      }
    }
  }

  /** A fresh producer on a renewed timeline. */
  lemma FreshRing(r: Ring)
    requires ConsumerOk(r.c) && Taken(r.c) == [] && Coming(r.c, []) == [] && r.c.held.ready == 0 && r.c.retired == 0
      && r.c.releases == []
    requires r.p == Attached(r.c.generation, r.c.images, r.p.nextPin)
    requires r.toC == [] && r.toP == [] && r.published == [] && r.sent == []
    ensures Inv(r)
  {
    hide ConsumerOk, Taken, Coming;
    FreshSlots(r);
  }

  lemma AttachKeeps(r: Ring)
    requires Inv(r)
    ensures Inv(Apply(r, Attach))
  {
    hide FramesOk, SentOk, QueueOk, ConsumerOk, Taken, Coming, SyncedOk, PhaseOk, NewestOk;
    if !r.open {
      ConsumerAdvanceKeeps(r);
      if AttachAccepted(r.c, r.done) {
        RenewedOk(AdvanceConsumer(r.c, r.done));
        FreshRing(Apply(r, Attach));
      }
    }
  }

  // ---- environment --------------------------------------------------------------------------------

  lemma SignalKeeps(r: Ring, f: nat)
    requires Inv(r)
    ensures Inv(Apply(r, SignalFence(f)))
  {
    hide FramesOk, SentOk, QueueOk, ConsumerOk, SlotsOk, SubmitOk, NoRequest, NoReply, Unreserved, Asked,
      SomewhereAnswered, Taken, Coming, Releases;
    if Synced(r) {
      MoreDone(r.p.releases + Releases(r.toP), r.sent, r.p.consumed, r.done, r.done + {f});
    }
  }

  lemma StepKeepsInv(r: Ring, step: Step)
    requires Inv(r)
    ensures Inv(Apply(r, step))
  {
    hide FramesOk, SentOk, QueueOk, ConsumerOk, SyncedOk, PhaseOk;
    match step
    case Receive => ReceiveKeeps(r);
    case Acquire => AcquireKeeps(r);
    case CancelSlot(slot) => CancelKeeps(r, slot);
    case BeginSubmit(slot) => BeginKeeps(r, slot);
    case EndSubmit(slot, ptsNs) => EndKeeps(r, slot, ptsNs);
    case SubmitSync(slot, ptsNs, fence) => SubmitSyncKeeps(r, slot, ptsNs, fence);
    case RetainReference(_) => ReferenceKeeps(r, step);
    case ReleaseReference(_) => ReferenceKeeps(r, step);
    case AskGeometry(g) => AskKeeps(r, g);
    case Close => CloseKeeps(r);
    case Deliver(images) => DeliverKeeps(r, images);
    case Attach => AttachKeeps(r);
    case TakeFrame => TakeKeeps(r);
    case GiveBack(fence) => GiveBackKeeps(r, fence);
    case Drop => DropKeeps(r);
    case Lease(frame) => LeaseKeeps(r, frame);
    case RetainToken(t) => RetainTokenKeeps(r, t);
    case CompleteToken(t) => CompleteTokenKeeps(r, t);
    case DeferToken(t, f) => DeferTokenKeeps(r, t, f);
    case Collect => CollectKeeps(r);
    case SignalFence(f) => SignalKeeps(r, f);
  }

  lemma CloseKeeps(r: Ring)
    requires Inv(r)
    ensures Inv(Apply(r, Close))
  {
    hide FramesOk, SentOk, QueueOk, ConsumerOk, SlotsOk, SubmitOk, NoRequest, NoReply, Unreserved, Asked,
      SomewhereAnswered, Taken, Coming, Releases;
  }
}
