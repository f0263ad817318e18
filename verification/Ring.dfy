/**
 * One ring between a producer process and a consumer process, as a two-party step system.
 *
 * The two sockets are FIFO queues of messages, a fence is a boolean that only goes from false to true, and an
 * image is an opaque allocation identity. Each operation of the channel is a function from the state of its
 * side to its result; the classes in ProducerChannel.dfy and ConsumerChannel.dfy compute exactly these.
 */
module Rings {
  import opened Basics
  import opened Base
  import opened SyncFences
  import L = Leases
  import P = BufferPins

  /** Submit value of a reserved slot; never a publishable value. */
  const SENTINEL: nat := U64_MAX

  /** No submit transaction is open. */
  const NO_SLOT: nat := 0xFFFF_FFFF

  datatype Geometry = Geometry(width: nat, height: nat, format: nat)

  const FORMAT_NV12: nat := 2

  /** BGRA8, NV12, RGB10A2 and RGBA8 have a native pixel layout. */
  predicate FormatKnown(format: nat) {
    1 <= format <= 4
  }

  predicate ValidGeometry(g: Geometry) {
    && 0 < g.width <= 8192 && 0 < g.height <= 8192
    && (g.format == FORMAT_NV12 ==> g.width % 2 == 0 && g.height % 2 == 0)
  }

  datatype ToConsumer =
    | FrameReady(slot: nat, ready: nat, ptsNs: int, fence: Option<nat>)
    | RequestGeometry(geometry: Geometry)

  datatype ToProducer =
    | FrameReleased(release: Release)
    | RingDesc(generation: nat, images: seq<nat>)

  // ---- producer side --------------------------------------------------------------------------------

  /** `waiting` is set while a geometry request blocks for its reply. */
  datatype Producer = Producer(
    generation: nat, images: seq<nat>,
    submitValue: seq<nat>, consumed: nat, ready: nat,
    submittingSlot: nat, submittingValue: nat,
    releases: seq<Release>, pins: map<nat, nat>, nextPin: nat, waiting: bool)

  function Attached(generation: nat, images: seq<nat>, nextPin: nat): Producer {
    Producer(generation, images, seq(|images|, _ => 0), 0, 0, NO_SLOT, 0, [], map[], nextPin, false)
  }

  /** Retires the ready prefix of the queued releases. */
  function AdvanceProducer(p: Producer, done: set<nat>): Producer {
    var k := ReadyPrefix(p.releases, done);
    p.(releases := p.releases[k..], consumed := Raise(p.consumed, p.releases[..k]))
  }

  function ApplyRelease(p: Producer, release: Release, done: set<nat>): Producer {
    AdvanceProducer(p.(releases := p.releases + [release]), done)
  }

  /** Everything the consumer promised never to read again, and that no local reference pins. */
  predicate Available(p: Producer, i: nat) {
    i < |p.submitValue| && p.submitValue[i] <= p.consumed && i !in p.pins.Values
  }

  /** Lowest available slot from `i` on, or the pool size. */
  function FirstAvailable(p: Producer, i: nat): (slot: nat)
    requires i <= |p.submitValue|
    ensures i <= slot <= |p.submitValue|
    ensures slot < |p.submitValue| ==> Available(p, slot)
    ensures forall j :: i <= j < slot ==> !Available(p, j)
    decreases |p.submitValue| - i
  {
    if i == |p.submitValue| || Available(p, i) then i else FirstAvailable(p, i + 1)
  }

  /** Scan of an acquire; None is a timeout. */
  function Reserve(p: Producer): (Producer, Option<nat>) {
    var slot := FirstAvailable(p, 0);
    if slot == |p.submitValue| then (p, None) else (p.(submitValue := p.submitValue[slot := SENTINEL]), Some(slot))
  }

  /** A buffer handle names a slot and the image it was reserved with. */
  predicate Reserved(p: Producer, slot: nat, image: nat) {
    slot < |p.images| && slot < |p.submitValue| && image == p.images[slot] && p.submitValue[slot] == SENTINEL
  }

  function CancelResult(p: Producer, slot: nat, image: nat): FlResult {
    if !Reserved(p, slot, image) then Invalid
    else if p.submittingValue != 0 && p.submittingSlot == slot then Busy
    else Ok
  }

  function Cancel(p: Producer, slot: nat, image: nat): Producer {
    if CancelResult(p, slot, image) == Ok then p.(submitValue := p.submitValue[slot := 0]) else p
  }

  function BeginResult(p: Producer, slot: nat, image: nat, connected: bool): FlResult {
    if !Reserved(p, slot, image) then Invalid
    else if !connected then Disconnected
    else if p.submittingValue != 0 then Busy
    else if p.ready >= U64_MAX - 1 then Invalid
    else Ok
  }

  function Begin(p: Producer, slot: nat, image: nat, connected: bool): Producer {
    if BeginResult(p, slot, image, connected) != Ok then p
    else p.(submittingSlot := slot, submittingValue := p.ready + 1, ready := p.ready + 1)
  }

  function EndResult(p: Producer, slot: nat, image: nat, value: nat, connected: bool): FlResult {
    if !Reserved(p, slot, image) || value == 0 || value != p.submittingValue || slot != p.submittingSlot then Invalid
    else if !connected then Disconnected
    else Ok
  }

  function End(p: Producer, slot: nat, image: nat, value: nat, connected: bool): Producer {
    if EndResult(p, slot, image, value, connected) != Ok then p
    else p.(submitValue := p.submitValue[slot := value], submittingValue := 0, submittingSlot := NO_SLOT)
  }

  function GeometryResult(p: Producer, g: Geometry, connected: bool): FlResult {
    if !ValidGeometry(g) then Invalid
    else if !FormatKnown(g.format) then FormatUnsupported
    else if !connected then Disconnected
    else if p.pins != map[] then Busy
    else if SENTINEL in p.submitValue then Busy
    else Ok
  }

  /** A geometry reply: the same generation is a refusal and preserves every outstanding slot. */
  function Adopt(p: Producer, generation: nat, images: seq<nat>): Producer {
    if generation == p.generation then p.(waiting := false)
    else p.(generation := generation, images := images, submitValue := seq(|images|, _ => 0),
            consumed := 0, ready := 0, releases := [], waiting := false)
  }

  // ---- consumer side --------------------------------------------------------------------------------

  /** `held` keeps the last frame handed out; it is being read only while `frameHeld`. */
  datatype Consumer = Consumer(
    generation: nat, images: seq<nat>, geometry: Geometry, externalPool: bool,
    deferRelease: bool, gpuSync: bool,
    hasPending: bool, pending: Frame, pendingFence: Option<nat>, sequence: nat,
    frameHeld: bool, held: Frame, retired: nat, releases: seq<Release>,
    ledger: L.Ledger, nextToken: nat, completions: map<nat, nat>)

  function AdvanceConsumer(c: Consumer, done: set<nat>): Consumer {
    var k := ReadyPrefix(c.releases, done);
    c.(releases := c.releases[k..], retired := Raise(c.retired, c.releases[..k]))
  }

  /** Latest frame wins: an unread pending frame is replaced. */
  function OnFrameReady(c: Consumer, slot: nat, ready: nat, ptsNs: int, fence: Option<nat>): Consumer
    requires slot < |c.images|
  {
    c.(hasPending := true, pending := Frame(slot, c.images[slot], ptsNs, 0, ready), pendingFence := fence,
      sequence := c.sequence + 1)
  }

  /** No frame held, leased, or released with its reads still running. */
  predicate Quiescent(c: Consumer) {
    c.ledger.frames == [] && !c.frameHeld && c.held.ready <= c.retired
  }

  predicate Resizes(c: Consumer, g: Geometry) {
    && !c.externalPool && g.format == c.geometry.format && ValidGeometry(g)
    && (g.width != c.geometry.width || g.height != c.geometry.height)
  }

  /** The timeline of a fresh generation. */
  function Renewed(c: Consumer): Consumer {
    c.(generation := c.generation + 1, hasPending := false, pendingFence := None, held := c.held.(ready := 0),
      retired := 0, releases := [], ledger := L.ResetEpoch(c.ledger))
  }

  function OnGeometry(c: Consumer, g: Geometry, images: seq<nat>, done: set<nat>): Consumer {
    if !Resizes(c, g) then c else ReplacedStorage(c, g, images, done)
  }

  function ReplacedStorage(c: Consumer, g: Geometry, images: seq<nat>, done: set<nat>): Consumer {
    var a := AdvanceConsumer(c, done);
    if !Quiescent(a) then a else Renewed(a).(geometry := g, images := images)
  }

  predicate AttachAccepted(c: Consumer, done: set<nat>) {
    Quiescent(AdvanceConsumer(c, done)) && FenceReady(c.pendingFence, done)
  }

  function OnAttach(c: Consumer, done: set<nat>): Consumer {
    var a := AdvanceConsumer(c, done);
    if AttachAccepted(c, done) then Renewed(a) else a
  }

  predicate CanAcquireFrame(c: Consumer, done: set<nat>) {
    c.hasPending && !c.frameHeld && (c.gpuSync || FenceReady(c.pendingFence, done))
  }

  function AcquireFrame(c: Consumer, done: set<nat>): Consumer {
    if !CanAcquireFrame(c, done) || c.pending.slot >= |c.images| then c
    else
      c.(frameHeld := true, hasPending := false, pendingFence := None,
         held := c.pending.(image := c.images[c.pending.slot], sequence := c.sequence))
  }

  /** Releasing, leasing and querying all insist on the exact held frame. */
  predicate IsHeld(c: Consumer, frame: Frame) {
    c.frameHeld && frame.ready == c.held.ready && frame.slot == c.held.slot
  }

  function ReleaseResult(c: Consumer, frame: Frame): FlResult {
    if frame.slot >= |c.images| then Invalid
    else if c.ledger.frames != [] then Busy
    else if !IsHeld(c, frame) then Invalid
    else Ok
  }

  /** flReleaseSyncFd: the frame's reads end when the fence signals. */
  function ReleaseFrame(c: Consumer, frame: Frame, fence: Option<nat>, done: set<nat>): Consumer {
    if ReleaseResult(c, frame) != Ok then c
    else AdvanceConsumer(c.(releases := c.releases + [Release(frame.ready, fence)]), done).(frameHeld := false)
  }

  function DropResult(c: Consumer, frame: Frame): FlResult {
    if c.ledger.frames != [] then Busy else if !IsHeld(c, frame) then Invalid else Ok
  }

  /** flRelease on a channel that retires storage explicitly: pure bookkeeping. */
  function DropFrame(c: Consumer, frame: Frame): Consumer {
    if DropResult(c, frame) != Ok then c else c.(frameHeld := false)
  }

  function LeaseResult(c: Consumer, frame: Frame): FlResult {
    if !c.deferRelease || c.gpuSync then Invalid
    else if !IsHeld(c, frame) || frame.slot >= |c.images| || frame.image != c.images[frame.slot] then Invalid
    else L.AcquireResult(c.ledger, c.generation, frame, c.nextToken)
  }

  function LeaseFrame(c: Consumer, frame: Frame): Consumer {
    if LeaseResult(c, frame) != Ok then c
    else c.(ledger := L.Acquire(c.ledger, c.generation, frame, c.nextToken), nextToken := c.nextToken + 1,
      frameHeld := false)
  }

  function RetainLease(c: Consumer, t: nat): Consumer {
    if L.RetainResult(c.ledger, t, c.nextToken) != Ok then c
    else c.(ledger := L.Retain(c.ledger, t, c.nextToken), nextToken := c.nextToken + 1)
  }

  function CompleteLease(c: Consumer, t: nat): Consumer {
    c.(ledger := L.Complete(c.ledger, t))
  }

  /** Completion handed to a fence. */
  function DeferLease(c: Consumer, t: nat, fence: nat): Consumer {
    if !L.Live(c.ledger, t, false) || |c.completions| >= L.MAX_READERS then c
    else c.(ledger := L.Defer(c.ledger, t), completions := c.completions[t := fence])
  }

  /** Finishes every deferred reader whose fence has signalled. */
  function PollCompletions(c: Consumer, done: set<nat>): Consumer {
    var finished := set t | t in c.completions && c.completions[t] in done :: t;
    c.(ledger := c.ledger.(readers := c.ledger.readers - finished), completions := c.completions - finished)
  }

  /** Announces and retires the completed prefix; the value announced, 0 for none. */
  ghost function CollectLeases(c: Consumer, done: set<nat>): (Consumer, nat) {
    var q := PollCompletions(c, done);
    var value := L.Retirement(q.ledger);
    if value == 0 then (q, 0) else (q.(retired := value, ledger := L.Retired(q.ledger)), value)
  }

  // ---- the two sides together --------------------------------------------------------------------------

  /** What was submitted with a frame: its time, and the fence its writes complete on. */
  datatype Shot = Shot(ptsNs: int, fence: Option<nat>)

  /** A read of the frame `value` whose end was left to a fence. */
  datatype Deferral = Deferral(value: nat, fence: nat)

  /**
   * `published`, `shots`, `sent` and `deferrals` are histories of the consumer's current generation: the slot of each
   * published value 1, 2, 3, ..., what was submitted with it, every release announced, and every read whose end was
   * left to a fence.
   */
  datatype Ring = Ring(
    p: Producer, c: Consumer, toC: seq<ToConsumer>, toP: seq<ToProducer>,
    done: set<nat>, open: bool, published: seq<nat>, sent: seq<Release>, shots: seq<Shot>, deferrals: seq<Deferral>)

  datatype Step =
    // producer thread
    | Receive
    | Acquire
    | CancelSlot(slot: nat)
    | BeginSubmit(slot: nat)
    | EndSubmit(slot: nat, ptsNs: int)
    | SubmitSync(slot: nat, ptsNs: int, fence: Option<nat>)
    | RetainReference(slot: nat)
    | ReleaseReference(reference: nat)
    | AskGeometry(geometry: Geometry)
    | Close
    // consumer's accept thread
    | Deliver(images: seq<nat>)
    | Attach
    // consumer thread
    | TakeFrame
    | GiveBack(fence: Option<nat>)
    | Drop
    | Lease(frame: Frame)
    | RetainToken(token: nat)
    | CompleteToken(token: nat)
    | DeferToken(token: nat, completion: nat)
    | Collect
    // a GPU completes work
    | SignalFence(signalled: nat)

  /** What a producer does of its own accord. */
  predicate IsProducerStep(step: Step) {
    step.Acquire? || step.CancelSlot? || step.BeginSubmit? || step.EndSubmit? || step.SubmitSync?
    || step.RetainReference? || step.ReleaseReference? || step.AskGeometry?
  }

  function ImageAt(images: seq<nat>, slot: nat): nat {
    if slot < |images| then images[slot] else 0
  }

  predicate ProducerRuns(r: Ring) {
    r.open && !r.p.waiting
  }

  function ReceiveOne(r: Ring): Ring
    requires r.toP != []
  {
    match r.toP[0]
    case FrameReleased(release) => r.(p := ApplyRelease(r.p, release, r.done), toP := r.toP[1..])
    case RingDesc(generation, images) =>
      if r.p.waiting then r.(p := Adopt(r.p, generation, images), toP := r.toP[1..]) else r.(toP := r.toP[1..])
  }

  function Publish(r: Ring, p: Producer, slot: nat, value: nat, ptsNs: int, fence: Option<nat>): Ring {
    r.(p := p, toC := r.toC + [FrameReady(slot, value, ptsNs, fence)], published := r.published + [slot],
      shots := r.shots + [Shot(ptsNs, fence)])
  }

  function DeliverOne(r: Ring, images: seq<nat>): Ring
    requires r.toC != []
  {
    match r.toC[0]
    case FrameReady(slot, ready, ptsNs, fence) =>
      if slot >= |r.c.images| then r.(toC := r.toC[1..], open := false)
      else r.(c := OnFrameReady(r.c, slot, ready, ptsNs, fence), toC := r.toC[1..])
    case RequestGeometry(g) =>
      var c := OnGeometry(r.c, g, images, r.done);
      var replaced := c.generation != r.c.generation;
      r.(c := c, toC := r.toC[1..], toP := r.toP + [RingDesc(c.generation, c.images)],
         published := if replaced then [] else r.published, sent := if replaced then [] else r.sent,
         shots := if replaced then [] else r.shots, deferrals := if replaced then [] else r.deferrals)
  }

  function Announce(r: Ring, c: Consumer, release: Release): Ring {
    r.(c := c, toP := r.toP + [FrameReleased(release)], sent := r.sent + [release])
  }

  /** New storage is as large as the old and made of distinct nonzero allocations. */
  predicate FreshPool(c: Consumer, images: seq<nat>) {
    && |images| == |c.images|
    && (forall i :: 0 <= i < |images| ==> images[i] != 0)
    && (forall i, j :: 0 <= i < j < |images| ==> images[i] != images[j])
  }

  /**
   * One step. A disabled or refused step changes nothing. flSignalConsumedSyncFd is not a step.
   */
  ghost function Apply(r: Ring, step: Step): Ring {
    var p, c := r.p, r.c;
    match step
    case Receive => if r.open && r.toP != [] then ReceiveOne(r) else r
    case Acquire => if ProducerRuns(r) then r.(p := Reserve(AdvanceProducer(p, r.done)).0) else r
    case CancelSlot(slot) => if ProducerRuns(r) then r.(p := Cancel(p, slot, ImageAt(p.images, slot))) else r
    case BeginSubmit(slot) => if ProducerRuns(r) then r.(p := Begin(p, slot, ImageAt(p.images, slot), true)) else r
    case EndSubmit(slot, ptsNs) =>
      var image, value := ImageAt(p.images, slot), p.submittingValue;
      if ProducerRuns(r) && EndResult(p, slot, image, value, true) == Ok
      then Publish(r, End(p, slot, image, value, true), slot, value, ptsNs, None) else r
    case SubmitSync(slot, ptsNs, fence) =>
      var image := ImageAt(p.images, slot);
      if ProducerRuns(r) && BeginResult(p, slot, image, true) == Ok
      then
        var begun := Begin(p, slot, image, true);
        Publish(r, End(begun, slot, image, begun.submittingValue, true), slot, begun.submittingValue, ptsNs, fence)
      else r
    case RetainReference(slot) =>
      if ProducerRuns(r) && Reserved(p, slot, ImageAt(p.images, slot)) && P.RetainResult(p.pins, slot, p.nextPin) == Ok
      then r.(p := p.(pins := p.pins[p.nextPin := slot], nextPin := p.nextPin + 1)) else r
    case ReleaseReference(reference) => r.(p := p.(pins := p.pins - {reference}))
    case AskGeometry(g) =>
      if ProducerRuns(r) && GeometryResult(p, g, true) == Ok
      then r.(p := p.(waiting := true), toC := r.toC + [RequestGeometry(g)]) else r
    case Close => r.(open := false)
    case Deliver(images) => if r.toC != [] && FreshPool(c, images) then DeliverOne(r, images) else r
    case Attach =>
      if r.open then r
      else if !AttachAccepted(c, r.done) then r.(c := OnAttach(c, r.done))
      else
        var c' := OnAttach(c, r.done);
        r.(c := c', p := Attached(c'.generation, c'.images, p.nextPin), toC := [], toP := [], open := true,
          published := [], sent := [], shots := [], deferrals := [])
    case TakeFrame => r.(c := AcquireFrame(c, r.done))
    case GiveBack(fence) =>
      if ReleaseResult(c, c.held) == Ok
      then Announce(r, ReleaseFrame(c, c.held, fence, r.done), Release(c.held.ready, fence)) else r
    case Drop => if c.deferRelease || c.gpuSync then r.(c := DropFrame(c, c.held)) else r
    case Lease(frame) => r.(c := LeaseFrame(c, frame))
    case RetainToken(t) => r.(c := RetainLease(c, t))
    case CompleteToken(t) => r.(c := CompleteLease(c, t))
    case DeferToken(t, fence) =>
      if DeferLease(c, t, fence) == c then r
      else r.(c := DeferLease(c, t, fence), deferrals := r.deferrals + [Deferral(c.ledger.readers[t].value, fence)])
    case Collect =>
      var (c', value) := CollectLeases(c, r.done);
      if value == 0 then r.(c := c') else Announce(r, c', Release(value, None))
    case SignalFence(f) => r.(done := r.done + {f})
  }

  ghost function Run(r: Ring, steps: seq<Step>): Ring
    decreases |steps|
  {
    if steps == [] then r else Run(Apply(r, steps[0]), steps[1..])
  }

  function Receives(n: nat): (steps: seq<Step>)
    ensures |steps| == n
    ensures forall i :: 0 <= i < n ==> steps[i] == Receive
  {
    seq(n, _ => Receive)
  }

  lemma RunReceives(r: Ring, n: nat)
    ensures Run(r, Receives(n)) == if n == 0 then r else Run(Apply(r, Receive), Receives(n - 1))
  {
    hide Apply;
    if n > 0 {
      assert Receives(n)[1..] == Receives(n - 1);
    }
  }

  function Deliveries(images: seq<nat>, n: nat): (steps: seq<Step>)
    ensures |steps| == n && forall i :: 0 <= i < n ==> steps[i] == Deliver(images)
  {
    seq(n, _ => Deliver(images))
  }

  lemma RunDeliveries(r: Ring, images: seq<nat>, n: nat)
    requires n > 0
    ensures Run(r, Deliveries(images, n)) == Run(Apply(r, Deliver(images)), Deliveries(images, n - 1))
  {
    hide Apply;
    assert Deliveries(images, n)[1..] == Deliveries(images, n - 1);
  }

  lemma NoDeliveries(r: Ring, images: seq<nat>)
    ensures Run(r, Deliveries(images, 0)) == r
  {
    assert Deliveries(images, 0) == [];
  }

  /** A channel just created, before any producer attaches. */
  ghost predicate Initial(r: Ring) {
    var c := r.c;
    && !r.open && r.toC == [] && r.toP == [] && r.published == [] && r.sent == [] && r.shots == [] && r.deferrals == []
    && 0 < |c.images| <= MAX_POOL && FreshPool(c, c.images) && ValidGeometry(c.geometry)
      && FormatKnown(c.geometry.format)
    && c.generation > 0 && !c.hasPending && c.pendingFence == None && !c.frameHeld && c.held.ready == 0
    && c.retired == 0 && c.releases == [] && c.ledger == L.EMPTY_LEDGER && c.completions == map[]
      && 1 <= c.nextToken <= U64_MAX
    && r.p == Attached(c.generation, c.images, r.p.nextPin) && 1 <= r.p.nextPin <= U64_MAX
  }
}
