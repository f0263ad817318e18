/** The inductive invariant of a ring: who may still touch which slot, and how far the releases have travelled. */
module RingInvariant {
  import opened Basics
  import opened Base
  import opened SyncFences
  import opened Rings
  import L = Leases

  // ---- frames still ahead of their release --------------------------------------------------------

  /** A published value and the slot it was published on. */
  datatype Item = Item(slot: nat, value: nat)

  function LedgerItems(frames: seq<Frame>): (items: seq<Item>)
    ensures |items| == |frames|
    ensures forall i :: 0 <= i < |items| ==> items[i] == Item(frames[i].slot, frames[i].ready)
  {
    seq(|frames|, i requires 0 <= i < |frames| => Item(frames[i].slot, frames[i].ready))
  }

  function HeldItems(frameHeld: bool, held: Frame): seq<Item> {
    if frameHeld then [Item(held.slot, held.ready)] else []
  }

  function PendingItems(hasPending: bool, pending: Frame): seq<Item> {
    if hasPending then [Item(pending.slot, pending.ready)] else []
  }

  function FlightItem(m: ToConsumer): seq<Item> {
    if m.FrameReady? then [Item(m.slot, m.ready)] else []
  }

  function FlightItems(q: seq<ToConsumer>): seq<Item> {
    if q == [] then [] else FlightItem(q[0]) + FlightItems(q[1..])
  }

  lemma {:induction false} FlightConcat(a: seq<ToConsumer>, b: seq<ToConsumer>)
    ensures FlightItems(a + b) == FlightItems(a) + FlightItems(b)
  {
    if a == [] {
      assert a + b == b;
    } else {
      hide FlightItem;
      FlightConcat(a[1..], b);
      assert (a + b)[1..] == a[1..] + b;
      assert FlightItems(a + b) == FlightItem(a[0]) + FlightItems(a[1..] + b);
      Reassociate(FlightItem(a[0]), FlightItems(a[1..]), FlightItems(b));
    }
  }

  /** Frames the consumer has taken: leased, then held. */
  function Taken(c: Consumer): seq<Item> {
    LedgerItems(c.ledger.frames) + HeldItems(c.frameHeld, c.held)
  }

  /** Frames it has not: pending, then in flight. */
  function Coming(c: Consumer, toC: seq<ToConsumer>): seq<Item> {
    PendingItems(c.hasPending, c.pending) + FlightItems(toC)
  }

  /** Every frame the consumer side may still read, oldest first. */
  function Live(r: Ring): seq<Item> {
    Taken(r.c) + Coming(r.c, r.toC)
  }

  ghost predicate Increasing(items: seq<Item>) {
    forall i, j :: 0 <= i < j < |items| ==> items[i].value < items[j].value
  }

  ghost predicate Tagged(items: seq<Item>, published: seq<nat>) {
    forall i :: 0 <= i < |items| ==>
      1 <= items[i].value <= |published| && published[items[i].value - 1] == items[i].slot
  }

  ghost predicate Within(items: seq<Item>, bound: nat) {
    forall i :: 0 <= i < |items| ==> items[i].value <= bound
  }

  ghost predicate Beyond(items: seq<Item>, bound: nat) {
    forall i :: 0 <= i < |items| ==> items[i].value > bound
  }

  ghost predicate FramesOk(taken: seq<Item>, coming: seq<Item>, held: nat, published: seq<nat>) {
    && Increasing(taken + coming) && Tagged(taken + coming, published)
    && Within(taken, held) && Beyond(coming, held) && held <= |published|
  }

  // ---- releases -----------------------------------------------------------------------------------

  ghost predicate Ascending(sent: seq<Release>) {
    forall i, j :: 0 <= i < j < |sent| ==> sent[i].value < sent[j].value
  }

  ghost predicate Before(sent: seq<Release>, items: seq<Item>) {
    forall i, j :: 0 <= i < |sent| && 0 <= j < |items| ==> sent[i].value < items[j].value
  }

  /** Releases name ever later frames, none of which is still live. */
  ghost predicate SentOk(sent: seq<Release>, live: seq<Item>, held: nat) {
    && Ascending(sent) && Before(sent, live)
    && forall i :: 0 <= i < |sent| ==> 1 <= sent[i].value <= held
  }

  function TopOf(sent: seq<Release>, k: nat): nat
    requires k <= |sent|
  {
    if k == 0 then 0 else sent[k - 1].value
  }

  /** `queue` is what remains of `sent`; the rest completed, in order, and `top` is the last of it. */
  ghost predicate QueueOk(queue: seq<Release>, sent: seq<Release>, top: nat, done: set<nat>) {
    && |queue| <= |sent|
    && sent[|sent| - |queue|..] == queue
    && (forall i :: 0 <= i < |sent| - |queue| ==> FenceReady(sent[i].fence, done))
    && top == TopOf(sent, |sent| - |queue|)
  }

  function ReleaseIn(m: ToProducer): seq<Release> {
    if m.FrameReleased? then [m.release] else []
  }

  function Releases(q: seq<ToProducer>): seq<Release> {
    if q == [] then [] else ReleaseIn(q[0]) + Releases(q[1..])
  }

  lemma {:induction false} ReleasesConcat(a: seq<ToProducer>, b: seq<ToProducer>)
    ensures Releases(a + b) == Releases(a) + Releases(b)
  {
    if a == [] {
      assert a + b == b;
    } else {
      hide ReleaseIn;
      ReleasesConcat(a[1..], b);
      assert (a + b)[1..] == a[1..] + b;
      assert Releases(a + b) == ReleaseIn(a[0]) + Releases(a[1..] + b);
      Reassociate(ReleaseIn(a[0]), Releases(a[1..]), Releases(b));
    }
  }

  // ---- producer slots -----------------------------------------------------------------------------

  /** Every published frame is consumed, or is still the last submit of its slot. */
  ghost predicate SlotsOk(submitValue: seq<nat>, consumed: nat, published: seq<nat>) {
    && (forall i :: 0 <= i < |submitValue| ==> submitValue[i] == SENTINEL || submitValue[i] <= |published|)
    && (forall w :: 0 <= w < |published| ==> published[w] < |submitValue|)
    && (forall w :: 0 <= w < |published| ==> w + 1 <= consumed || submitValue[published[w]] == w + 1)
  }

  ghost predicate SubmitOk(p: Producer, published: nat) {
    && p.ready < SENTINEL
    && (p.submittingValue == 0 ==> p.ready == published)
    && (p.submittingValue != 0 ==>
      p.ready == published + 1 == p.submittingValue && p.submittingSlot < |p.submitValue|
        && p.submitValue[p.submittingSlot] == SENTINEL)
  }

  // ---- consumer -----------------------------------------------------------------------------------

  ghost predicate LedgerOk(c: Consumer) {
    && L.ValidState(L.State(c.ledger, c.nextToken))
    && (c.ledger.frames != [] ==> c.deferRelease && c.ledger.generation == c.generation)
    && Imaged(c.ledger.frames, c.images)
    && L.AllDeferred(c.ledger, c.completions)
  }

  /** Leased frames carry the image of their slot. */
  ghost predicate Imaged(frames: seq<Frame>, images: seq<nat>) {
    forall i :: 0 <= i < |frames| ==> frames[i].slot < |images| && frames[i].image == images[frames[i].slot]
  }

  /** The last frame ever leased in this generation is behind the one held. */
  predicate LedgerBehind(c: Consumer) {
    c.ledger.generation == c.generation ==>
      c.ledger.last <= c.held.ready && (c.frameHeld ==> c.ledger.last < c.held.ready)
  }

  ghost predicate ConsumerOk(c: Consumer) {
    && LedgerOk(c) && LedgerBehind(c) && c.generation > 0
    && 0 < |c.images| <= MAX_POOL && FreshPool(c, c.images)
    && (c.frameHeld ==> c.held.slot < |c.images| && c.held.image == c.images[c.held.slot])
    && FormatKnown(c.geometry.format)
  }

  // ---- geometry requests --------------------------------------------------------------------------

  ghost predicate NoRequest(toC: seq<ToConsumer>) {
    forall i :: 0 <= i < |toC| ==> toC[i].FrameReady?
  }

  ghost predicate NoReply(toP: seq<ToProducer>) {
    forall i :: 0 <= i < |toP| ==> toP[i].FrameReleased?
  }

  ghost predicate Unreserved(p: Producer) {
    SENTINEL !in p.submitValue && p.submittingValue == 0 && p.pins == map[]
  }

  ghost predicate Asked(toC: seq<ToConsumer>, toP: seq<ToProducer>) {
    toC != [] && toC[|toC| - 1].RequestGeometry? && NoRequest(toC[..|toC| - 1]) && NoReply(toP)
  }

  ghost predicate Answered(toC: seq<ToConsumer>, toP: seq<ToProducer>, d: nat, desc: ToProducer) {
    NoRequest(toC) && d < |toP| && toP[d] == desc && desc.RingDesc? && NoReply(toP[..d]) && NoReply(toP[d + 1..])
  }

  ghost predicate SomewhereAnswered(toC: seq<ToConsumer>, toP: seq<ToProducer>, desc: ToProducer) {
    exists d: nat :: Answered(toC, toP, d, desc)
  }

  /** Both sides speak of the same generation. */
  predicate Synced(r: Ring) {
    r.p.generation == r.c.generation
  }

  /** The consumer replaced its storage and the producer has not yet read the reply. */
  ghost predicate Replaced(r: Ring) {
    && r.p.generation < r.c.generation
    && r.toC == [] && r.toP != [] && NoReply(r.toP[..|r.toP| - 1])
    && r.toP[|r.toP| - 1] == RingDesc(r.c.generation, r.c.images)
    && Live(r) == [] && r.published == [] && r.sent == [] && r.c.held.ready == 0
  }

  ghost predicate PhaseOk(r: Ring) {
    if r.p.waiting then
      && Unreserved(r.p)
      && (Synced(r) ==> Asked(r.toC, r.toP) || SomewhereAnswered(r.toC, r.toP, RingDesc(r.c.generation, r.c.images)))
      && (!Synced(r) ==> Replaced(r))
    else
      Synced(r) && NoRequest(r.toC) && NoReply(r.toP)
  }

  ghost predicate SyncedOk(r: Ring) {
    && r.p.images == r.c.images && |r.p.submitValue| == |r.c.images|
    && SlotsOk(r.p.submitValue, r.p.consumed, r.published)
    && SubmitOk(r.p, |r.published|)
    && QueueOk(r.p.releases + Releases(r.toP), r.sent, r.p.consumed, r.done)
  }

  /** The newest of `n` published frames is still live, or the last one ever taken. */
  ghost predicate NewestOk(live: seq<Item>, held: nat, n: nat) {
    n > 0 ==> if live != [] then live[|live| - 1].value == n else held == n
  }

  ghost predicate Inv(r: Ring) {
    && FramesOk(Taken(r.c), Coming(r.c, r.toC), r.c.held.ready, r.published)
    && SentOk(r.sent, Live(r), r.c.held.ready)
    && ConsumerOk(r.c)
    && PhaseOk(r)
    && (Synced(r) ==> SyncedOk(r))
    && NewestOk(Live(r), r.c.held.ready, |r.published|)
  }

  // ---- sequence facts -----------------------------------------------------------------------------

  lemma DropMiddle(a: seq<Item>, m: seq<Item>, b: seq<Item>, held: nat, published: seq<nat>)
    requires FramesOk(a, m + b, held, published)
    ensures FramesOk(a, b, held, published)
  {
    var all, rest := a + (m + b), a + b;
    forall i | 0 <= i < |rest| ensures rest[i] == all[if i < |a| then i else i + |m|] {
    }
    forall i | 0 <= i < |b| ensures b[i] == (m + b)[i + |m|] {
    }
  }

  lemma DropMiddleSent(sent: seq<Release>, a: seq<Item>, m: seq<Item>, b: seq<Item>, held: nat)
    requires SentOk(sent, a + (m + b), held)
    ensures SentOk(sent, a + b, held)
  {
    var all, rest := a + (m + b), a + b;
    forall i | 0 <= i < |rest| ensures rest[i] == all[if i < |a| then i else i + |m|] {
    }
  }

  /** Popping any ready prefix keeps the queue a suffix of what was sent. */
  lemma PopReady(queue: seq<Release>, sent: seq<Release>, top: nat, done: set<nat>, k: nat)
    requires QueueOk(queue, sent, top, done) && Ascending(sent) && k <= |queue|
    requires forall i :: 0 <= i < k ==> FenceReady(queue[i].fence, done)
    ensures QueueOk(queue[k..], sent, Raise(top, queue[..k]), done)
  {
    hide FenceReady, Raise, Ascending;
    var s := |sent| - |queue|;
    assert sent[s..][k..] == sent[s + k..];
    assert forall i :: 0 <= i < |queue| ==> queue[i] == sent[s..][i];
    FrontIncreases(queue, sent, s, k);
    RaiseIncreasing(top, queue[..k]);
  }

  /** The front of a suffix of an ascending list ascends, above what precedes the suffix. */
  lemma FrontIncreases(queue: seq<Release>, sent: seq<Release>, s: nat, k: nat)
    requires s <= |sent| && sent[s..] == queue && Ascending(sent) && k <= |queue|
    ensures forall i, j :: 0 <= i < j < k ==> queue[..k][i].value < queue[..k][j].value
    ensures k > 0 ==> TopOf(sent, s) <= queue[..k][k - 1].value && TopOf(sent, s + k) == queue[..k][k - 1].value
  {
    assert forall i :: 0 <= i < k ==> queue[..k][i] == sent[s + i];
  }

  lemma PushSent(queue: seq<Release>, sent: seq<Release>, top: nat, done: set<nat>, x: Release)
    requires QueueOk(queue, sent, top, done)
    ensures QueueOk(queue + [x], sent + [x], top, done)
  {
    var s := |sent| - |queue|;
    assert (sent + [x])[s..] == sent[s..] + [x];
  }

  lemma MoreDone(queue: seq<Release>, sent: seq<Release>, top: nat, done: set<nat>, done': set<nat>)
    requires QueueOk(queue, sent, top, done) && done <= done'
    ensures QueueOk(queue, sent, top, done')
  {
  }

  lemma AppendFlight(toC: seq<ToConsumer>, m: ToConsumer)
    ensures FlightItems(toC + [m]) == FlightItems(toC) + FlightItem(m)
  {
    FlightConcat(toC, [m]);
    assert FlightItems([]) == [];
    assert [m][1..] == [];
  }

  lemma AppendRelease(toP: seq<ToProducer>, m: ToProducer)
    ensures Releases(toP + [m]) == Releases(toP) + ReleaseIn(m)
  {
    ReleasesConcat(toP, [m]);
    assert Releases([]) == [];
    assert [m][1..] == [];
  }
}
