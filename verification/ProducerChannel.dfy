/**
 * The producer end of a channel as the program runs it: one calling thread that reads its own control messages,
 * scans the slots and publishes. Every method computes exactly the step functions of Ring.dfy.
 */
module ProducerChannels {
  import opened Basics
  import opened Base
  import opened SyncFences
  import opened Rings
  import opened RingInvariant
  import P = BufferPins

  // ---- draining the control socket ------------------------------------------------------------------

  /** A control message read outside a geometry request: only releases mean anything. */
  function Handle(p: Producer, m: ToProducer, done: set<nat>): Producer {
    if m.FrameReleased? then ApplyRelease(p, m.release, done) else p
  }

  function Drain(p: Producer, inbox: seq<ToProducer>, done: set<nat>): Producer
    decreases |inbox|
  {
    if inbox == [] then p else Drain(Handle(p, inbox[0], done), inbox[1..], done)
  }

  /** Everything an acquire does to the producer: read what is queued, retire fences, scan the slots. */
  function Acquired(p: Producer, inbox: seq<ToProducer>, done: set<nat>): (Producer, Option<nat>) {
    Reserve(AdvanceProducer(Drain(p, inbox, done), done))
  }

  lemma {:induction false} DrainSnoc(p: Producer, inbox: seq<ToProducer>, m: ToProducer, done: set<nat>)
    ensures Drain(p, inbox + [m], done) == Handle(Drain(p, inbox, done), m, done)
    decreases |inbox|
  {
    hide Handle;
    if inbox == [] {
      assert Drain(Handle(p, m, done), [], done) == Handle(p, m, done);
      assert inbox + [m] == [m] && [m][1..] == [];
    } else {
      DrainSnoc(Handle(p, inbox[0], done), inbox[1..], m, done);
      assert (inbox + [m])[1..] == inbox[1..] + [m];
    }
  }

  /** The ready prefix of a queue is found no matter how the queue was fed. */
  lemma {:induction false} PrefixOfConcat(a: seq<Release>, b: seq<Release>, done: set<nat>)
    ensures var k := ReadyPrefix(a, done);
      ReadyPrefix(a + b, done) == k + ReadyPrefix(a[k..] + b, done)
  {
    if a != [] && FenceReady(a[0].fence, done) {
      PrefixOfConcat(a[1..], b, done);
      assert (a + b)[1..] == a[1..] + b;
      var k := ReadyPrefix(a[1..], done);
      assert a[k + 1..] == a[1..][k..];
    }
  }

  /** Retiring early changes nothing: advance, enqueue, advance is enqueue, advance. */
  lemma AdvanceIsIncremental(p: Producer, more: seq<Release>, done: set<nat>)
    ensures var early := AdvanceProducer(p, done);
      AdvanceProducer(early.(releases := early.releases + more), done)
        == AdvanceProducer(p.(releases := p.releases + more), done)
  {
    hide ReadyPrefix, Raise;
    var q := p.releases;
    var k := ReadyPrefix(q, done);
    var rest := q[k..] + more;
    PrefixOfConcat(q, more, done);
    PiecesOfConcat(q, more, k, ReadyPrefix(rest, done), p.consumed);
  }

  lemma PiecesOfConcat(q: seq<Release>, more: seq<Release>, k: nat, j: nat, floor: nat)
    requires k <= |q| && j <= |q| - k + |more|
    ensures var rest := q[k..] + more;
      (q + more)[k + j..] == rest[j..] && Raise(Raise(floor, q[..k]), rest[..j]) == Raise(floor, (q + more)[..k + j])
  {
    hide Raise;
    var rest := q[k..] + more;
    RaiseConcat(floor, q[..k], rest[..j]);
    assert (q + more)[..k + j] == q[..k] + rest[..j];
  }

  /**
   * Reading releases one at a time, retiring after each, ends where queueing them all and retiring once would:
   * a skipped or late fence delays its successors and nothing else.
   */
  lemma {:induction false} DrainRetiresOnce(p: Producer, inbox: seq<ToProducer>, done: set<nat>)
    ensures AdvanceProducer(Drain(p, inbox, done), done)
      == AdvanceProducer(p.(releases := p.releases + Releases(inbox)), done)
    decreases |inbox|
  {
    hide AdvanceProducer;
    if inbox == [] {
      assert p.releases + [] == p.releases;
    } else {
      DrainRetiresOnce(Handle(p, inbox[0], done), inbox[1..], done);
      HandleRetiresOnce(p, inbox[0], Releases(inbox[1..]), done);
      assert p.releases + ReleaseIn(inbox[0]) + Releases(inbox[1..]) == p.releases + Releases(inbox);
    }
  }

  lemma HandleRetiresOnce(p: Producer, m: ToProducer, rest: seq<Release>, done: set<nat>)
    ensures var h := Handle(p, m, done);
      AdvanceProducer(h.(releases := h.releases + rest), done)
        == AdvanceProducer(p.(releases := p.releases + ReleaseIn(m) + rest), done)
  {
    hide AdvanceProducer;
    if m.FrameReleased? {
      AdvanceIsIncremental(p.(releases := p.releases + [m.release]), rest, done);
    } else {
      assert p.releases + [] == p.releases;
    }
  }

  // ---- geometry requests ----------------------------------------------------------------------------

  /** Messages read until the reply, and the reply's effect; a closed link ends the wait unanswered. */
  function Await(p: Producer, inbox: seq<ToProducer>, done: set<nat>): (r: (Producer, seq<ToProducer>, FlResult))
    ensures |r.1| <= |inbox| && r.1 == inbox[|inbox| - |r.1|..]
    decreases |inbox|
  {
    if inbox == [] then (p, [], Disconnected)
    else match inbox[0]
      case FrameReleased(release) => Await(ApplyRelease(p, release, done), inbox[1..], done)
      case RingDesc(generation, images) => (Adopt(p, generation, images), inbox[1..], Ok)
  }

  // ---- the machine's steps --------------------------------------------------------------------------

  /** A call to acquire is a run of the ring: one receive per queued message, then the scan. */
  lemma {:induction false} AcquireIsRun(r: Ring)
    requires ProducerRuns(r)
    ensures Run(r, Receives(|r.toP|) + [Acquire]) == r.(p := Acquired(r.p, r.toP, r.done).0, toP := [])
    decreases |r.toP|
  {
    hide AdvanceProducer, Reserve, ApplyRelease;
    if r.toP == [] {
      assert Receives(0) + [Acquire] == [Acquire];
      assert Run(Apply(r, Acquire), [Acquire][1..]) == Apply(r, Acquire);
    } else {
      var r' := Apply(r, Receive);
      var steps := Receives(|r.toP|) + [Acquire];
      assert steps[1..] == Receives(|r'.toP|) + [Acquire];
      HandleKeepsRunning(r.p, r.toP[0], r.done);
      assert r' == r.(p := Handle(r.p, r.toP[0], r.done), toP := r.toP[1..]);
      AcquireIsRun(r');
    }
  }

  lemma HandleKeepsRunning(p: Producer, m: ToProducer, done: set<nat>)
    ensures Handle(p, m, done).waiting == p.waiting
  {
    hide ReadyPrefix, Raise;
  }

  /** Blocking for the reply is a run of receives that ends the wait. */
  lemma {:induction false} AwaitIsRun(r: Ring)
    requires r.open && r.p.waiting && Await(r.p, r.toP, r.done).2 == Ok
    ensures var (p, rest, _) := Await(r.p, r.toP, r.done);
      !p.waiting && Run(r, Receives(|r.toP| - |rest|)) == r.(p := p, toP := rest)
    decreases |r.toP|
  {
    hide Run, Apply, ApplyRelease;
    if r.toP[0].FrameReleased? {
      ReleaseReceived(r);
      var r' := Apply(r, Receive);
      AwaitIsRun(r');
      RunReceives(r, |r'.toP| - |Await(r'.p, r'.toP, r.done).1| + 1);
    } else {
      ReplyReceived(r);
      RunReceives(r, 1);
      RunReceives(Apply(r, Receive), 0);
    }
  }

  lemma ReleaseReceived(r: Ring)
    requires r.open && r.p.waiting && r.toP != [] && r.toP[0].FrameReleased?
    ensures var r' := Apply(r, Receive);
      r' == r.(p := ApplyRelease(r.p, r.toP[0].release, r.done), toP := r.toP[1..]) && r'.p.waiting
    ensures Await(r.p, r.toP, r.done) == Await(Apply(r, Receive).p, r.toP[1..], r.done)
  {
    hide ApplyRelease;
    ReleaseKeepsWaiting(r.p, r.toP[0].release, r.done);
  }

  lemma ReplyReceived(r: Ring)
    requires r.open && r.p.waiting && r.toP != [] && r.toP[0].RingDesc?
    ensures var (p, rest, _) := Await(r.p, r.toP, r.done); !p.waiting && Apply(r, Receive) == r.(p := p, toP := rest)
    ensures Await(r.p, r.toP, r.done).1 == r.toP[1..]
  {
  }

  lemma ReleaseKeepsWaiting(p: Producer, release: Release, done: set<nat>)
    ensures ApplyRelease(p, release, done).waiting == p.waiting
  {
    hide ReadyPrefix, Raise;
  }

  // ---- the class ------------------------------------------------------------------------------------

  /** Slot and image of a reserved buffer; `image` 0 is no buffer. */
  datatype Buffer = Buffer(slot: nat, image: nat)

  class ProducerChannel {
    var connected: bool
    var generation: nat
    var images: seq<nat>
    var slotSubmitValue: seq<nat>
    var consumedValue: nat
    var readyValue: nat
    var submittingSlot: nat
    var submittingValue: nat
    const sync: SyncFds
    const references: P.BufferReferences
    /** Messages delivered and not yet read, and messages sent. */
    var inbox: seq<ToProducer>
    var outbox: seq<ToConsumer>

    ghost function Repr(): set<object>
      reads this
    {
      {this, sync, references, references.entries, references.counts, references.tokens}
    }

    ghost predicate Valid()
      reads this, sync, references, references.entries, references.counts, references.tokens
    {
      references.Valid() && |slotSubmitValue| == |images|
    }

    ghost function State(): Producer
      reads this, sync, references, references.entries, references.counts, references.tokens
    {
      Producer(generation, images, slotSubmitValue, consumedValue, readyValue, submittingSlot, submittingValue,
               sync.releases, references.live, references.tokens.next, false)
    }

    /** A producer adopting the first ring description of its attachment. */
    constructor (generation: nat, images: seq<nat>, tokens: P.T.TokenSource)
      requires tokens.next >= 1
      ensures Valid() && fresh(Repr() - {tokens}) && references.tokens == tokens
      ensures State() == Attached(generation, images, tokens.next) && connected && inbox == [] && outbox == []
    {
      connected := true;
      this.generation := generation;
      this.images := images;
      slotSubmitValue := seq(|images|, _ => 0);
      consumedValue, readyValue, submittingSlot, submittingValue := 0, 0, NO_SLOT, 0;
      inbox, outbox := [], [];
      sync := new SyncFds();
      references := new P.BufferReferences(tokens);
    }

    method ApplyMessage(release: Release, done: set<nat>)
      requires Valid()
      modifies this`consumedValue, sync
      ensures Valid() && State() == ApplyRelease(old(State()), release, done)
    {
      sync.Push(release);
      consumedValue := sync.Advance(consumedValue, done);
    }

    method DrainMessages(done: set<nat>)
      requires Valid()
      modifies this`consumedValue, this`inbox, sync
      ensures Valid() && inbox == [] && State() == Drain(old(State()), old(inbox), done)
    {
      ghost var start, all, n := State(), inbox, 0;
      while inbox != []
        invariant Valid() && n <= |all| && inbox == all[n..]
        invariant State() == Drain(start, all[..n], done)
        decreases |inbox|
      {
        var m := inbox[0];
        inbox := inbox[1..];
        DrainSnoc(start, all[..n], m, done);
        assert all[..n] + [m] == all[..n + 1];
        if m.FrameReleased? {
          ApplyMessage(m.release, done);
        }
        n := n + 1;
      }
      assert all[..n] == all;
    }

    /** One round of flAcquireBuffer: drain, retire, and reserve the first slot nobody can still read. */
    method AcquireBuffer(done: set<nat>) returns (result: FlResult, out: Buffer)
      requires Valid()
      modifies this`consumedValue, this`inbox, this`slotSubmitValue, sync
      ensures Valid()
      ensures !old(connected) ==> result == Disconnected && State() == old(State()) && inbox == old(inbox)
      ensures old(connected) ==>
        var (p, slot) := Acquired(old(State()), old(inbox), done);
        && State() == p && inbox == []
        && result == (if slot.Some? then Ok else Timeout)
        && (slot.Some? ==> slot.value < |images| && out == Buffer(slot.value, images[slot.value]))
    {
      out := Buffer(0, 0);
      if !connected {
        return Disconnected, out;
      }
      DrainMessages(done);
      consumedValue := sync.Advance(consumedValue, done);
      ghost var a := State();
      assert a == AdvanceProducer(Drain(old(State()), old(inbox), done), done);
      var i := 0;
      while i < |images|
        invariant i <= |images| && Valid() && State() == a && inbox == []
        invariant FirstAvailable(a, 0) == FirstAvailable(a, i)
      {
        if slotSubmitValue[i] <= consumedValue {
          var busy := references.Busy(i);
          if !busy {
            assert FirstAvailable(a, i) == i;
            slotSubmitValue := slotSubmitValue[i := SENTINEL];
            return Ok, Buffer(i, images[i]);
          }
        }
        i := i + 1;
      }
      result := Timeout;
    }

    method CancelBuffer(b: Buffer) returns (result: FlResult)
      requires Valid()
      modifies this`slotSubmitValue
      ensures Valid() && result == CancelResult(old(State()), b.slot, b.image)
        && State() == Cancel(old(State()), b.slot, b.image)
    {
      if b.slot >= |images| || b.image != images[b.slot] || slotSubmitValue[b.slot] != SENTINEL {
        return Invalid;
      }
      if submittingValue != 0 && submittingSlot == b.slot {
        return Busy;
      }
      slotSubmitValue := slotSubmitValue[b.slot := 0];
      result := Ok;
    }

    method BeginSubmit(b: Buffer) returns (result: FlResult, value: nat)
      requires Valid()
      modifies this`submittingSlot, this`submittingValue, this`readyValue
      ensures Valid()
      ensures result == BeginResult(old(State()), b.slot, b.image, connected)
        && State() == Begin(old(State()), b.slot, b.image, connected)
      ensures result == Ok ==> value == submittingValue
    {
      value := 0;
      if b.slot >= |images| || b.image != images[b.slot] || slotSubmitValue[b.slot] != SENTINEL {
        return Invalid, value;
      }
      if !connected {
        return Disconnected, value;
      }
      if submittingValue != 0 {
        return Busy, value;
      }
      if readyValue >= U64_MAX - 1 {
        return Invalid, value;
      }
      submittingSlot := b.slot;
      readyValue := readyValue + 1;
      submittingValue := readyValue;
      result, value := Ok, submittingValue;
    }

    method EndSubmit(b: Buffer, value: nat, ptsNs: int) returns (result: FlResult)
      requires Valid()
      modifies this`slotSubmitValue, this`submittingSlot, this`submittingValue, this`outbox
      ensures Valid()
      ensures result == EndResult(old(State()), b.slot, b.image, value, connected)
      ensures State() == End(old(State()), b.slot, b.image, value, connected)
      ensures outbox == old(outbox) + if result == Ok then [FrameReady(b.slot, value, ptsNs, None)] else []
    {
      if b.slot >= |images| || b.image != images[b.slot] || slotSubmitValue[b.slot] != SENTINEL
        || value == 0 || value != submittingValue || b.slot != submittingSlot
      {
        return Invalid;
      }
      if !connected {
        return Disconnected;
      }
      slotSubmitValue := slotSubmitValue[b.slot := value];
      submittingValue, submittingSlot := 0, NO_SLOT;
      outbox := outbox + [FrameReady(b.slot, value, ptsNs, None)];
      result := Ok;
    }

    method Submit(b: Buffer, ptsNs: int) returns (result: FlResult)
      requires Valid()
      modifies this`slotSubmitValue, this`submittingSlot, this`submittingValue, this`readyValue, this`outbox
      ensures Valid() && result == BeginResult(old(State()), b.slot, b.image, connected)
      ensures result != Ok ==> State() == old(State()) && outbox == old(outbox)
      ensures result == Ok ==>
        var begun := Begin(old(State()), b.slot, b.image, true);
        && State() == End(begun, b.slot, b.image, begun.submittingValue, true)
        && outbox == old(outbox) + [FrameReady(b.slot, begun.submittingValue, ptsNs, None)]
      ensures result == Ok ==> outbox == old(outbox) + [FrameReady(b.slot, readyValue, ptsNs, None)]
    {
      var value;
      result, value := BeginSubmit(b);
      if result == Ok {
        result := EndSubmit(b, value, ptsNs);
      }
    }

    method SubmitSyncFd(b: Buffer, fence: Option<nat>, ptsNs: int) returns (result: FlResult)
      requires Valid()
      modifies this`slotSubmitValue, this`submittingSlot, this`submittingValue, this`readyValue, this`outbox
      ensures Valid()
      ensures result == if b.slot >= |images| || b.image != images[b.slot] then Invalid
                        else if !connected then Disconnected
                        else BeginResult(old(State()), b.slot, b.image, true)
      ensures result != Ok ==> State() == old(State()) && outbox == old(outbox)
      ensures result == Ok ==>
        var begun := Begin(old(State()), b.slot, b.image, true);
        && State() == End(begun, b.slot, b.image, begun.submittingValue, true)
        && outbox == old(outbox) + [FrameReady(b.slot, begun.submittingValue, ptsNs, fence)]
    {
      if b.slot >= |images| || b.image != images[b.slot] {
        return Invalid;
      }
      if !connected {
        return Disconnected;
      }
      var value;
      result, value := BeginSubmit(b);
      if result != Ok {
        return;
      }
      slotSubmitValue := slotSubmitValue[b.slot := value];
      submittingValue, submittingSlot := 0, NO_SLOT;
      outbox := outbox + [FrameReady(b.slot, value, ptsNs, fence)];
    }

    method RetainReference(b: Buffer) returns (result: FlResult, reference: nat)
      requires Valid()
      modifies references, references.entries, references.counts, references.tokens
      ensures Valid()
      ensures result == if Reserved(old(State()), b.slot, b.image)
                        then P.RetainResult(old(references.live), b.slot, old(references.tokens.next)) else Invalid
      ensures result == Ok ==> reference == old(references.tokens.next)
      ensures result == Ok ==>
        State() == old(State()).(pins := old(references.live)[reference := b.slot], nextPin := reference + 1)
      ensures result != Ok ==> State() == old(State())
    {
      reference := 0;
      if b.slot >= |images| || b.image != images[b.slot] || slotSubmitValue[b.slot] != SENTINEL {
        return Invalid, reference;
      }
      result, reference := references.Retain(b.slot);
    }

    method ReleaseReference(reference: nat) returns (result: FlResult)
      requires Valid()
      modifies references, references.entries, references.counts
      ensures Valid() && result == if reference in old(references.live) then Ok else Invalid
      ensures State() == old(State()).(pins := old(references.live) - {reference})
    {
      result := references.Release(reference);
    }

    /** `arriving` is what the link delivers while the call blocks, up to the reply or the end of the link. */
    method RequestGeometry(g: Geometry, arriving: seq<ToProducer>, done: set<nat>) returns (result: FlResult)
      requires Valid()
      modifies this, sync
      ensures Valid() && connected == old(connected)
      ensures var asked := GeometryResult(old(State()), g, old(connected));
        if asked != Ok then result == asked && State() == old(State()) && inbox == old(inbox) && outbox == old(outbox)
        else
          var (p, rest, answer) := Await(old(State()), old(inbox) + arriving, done);
          result == answer && State() == p && inbox == rest && outbox == old(outbox) + [ToConsumer.RequestGeometry(g)]
    {
      if !ValidGeometry(g) {
        return Invalid;
      }
      if !FormatKnown(g.format) {
        return FormatUnsupported;
      }
      if !connected {
        return Disconnected;
      }
      var unpinned := references.Empty();
      if !unpinned {
        return Busy;
      }
      var i := 0;
      while i < |slotSubmitValue|
        invariant i <= |slotSubmitValue| && SENTINEL !in slotSubmitValue[..i]
      {
        if slotSubmitValue[i] == SENTINEL {
          return Busy;
        }
        i := i + 1;
      }
      assert slotSubmitValue[..i] == slotSubmitValue;
      outbox := outbox + [ToConsumer.RequestGeometry(g)];
      inbox := inbox + arriving;
      result := AwaitReply(done);
    }

    method AwaitReply(done: set<nat>) returns (result: FlResult)
      requires Valid()
      modifies this`generation, this`images, this`slotSubmitValue, this`consumedValue, this`readyValue, this`inbox, sync
      ensures Valid() && Await(old(State()), old(inbox), done) == (State(), inbox, result)
    {
      ghost var want := Await(State(), inbox, done);
      while inbox != []
        invariant Valid() && Await(State(), inbox, done) == want
        decreases |inbox|
      {
        var m := inbox[0];
        inbox := inbox[1..];
        match m
        case FrameReleased(release) =>
          ApplyMessage(release, done);
        case RingDesc(newGeneration, newImages) =>
          if newGeneration != generation {
            sync.Clear();
            ImportRing(newGeneration, newImages);
          }
          return Ok;
      }
      result := Disconnected;
    }

    method ImportRing(newGeneration: nat, newImages: seq<nat>)
      requires Valid()
      modifies this`generation, this`images, this`slotSubmitValue, this`consumedValue, this`readyValue
      ensures Valid()
      ensures State() == old(State()).(generation := newGeneration, images := newImages,
        submitValue := seq(|newImages|, _ => 0), consumed := 0, ready := 0)
    {
      images := newImages;
      slotSubmitValue := seq(|newImages|, _ => 0);
      consumedValue, readyValue := 0, 0;
      generation := newGeneration;
    }
  }
}
