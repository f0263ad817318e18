/**
 * The read ledger as an abstract queue of leased frames, each pinned by a set of live reader tokens.
 * A deferred reader still pins its frame but answers to nothing except the completion of its fence.
 */
module Leases {
  import opened Basics
  import opened Base

  const MAX_READERS: nat := 256

  /** A live token: the ready value of the frame it pins, and whether its completion was deferred to a fence. */
  datatype Reader = Reader(value: nat, pending: bool)

  datatype Ledger = Ledger(frames: seq<Frame>, readers: map<nat, Reader>, generation: nat, last: nat)

  const EMPTY_LEDGER := Ledger([], map[], 0, 0)

  ghost predicate Valid(l: Ledger) {
    && ValidQueue(l.frames, l.generation, l.last)
    && ValidReaders(l.frames, l.readers)
  }

  /** At most a pool of frames, of one generation, with increasing values and distinct slots. */
  ghost predicate ValidQueue(frames: seq<Frame>, generation: nat, last: nat) {
    && |frames| <= MAX_POOL
    && (frames != [] ==> generation != 0)
    && (forall i :: 0 <= i < |frames| ==> ValidFrame(frames[i]) && frames[i].ready <= last)
    && (forall i, j :: 0 <= i < j < |frames| ==> frames[i].ready < frames[j].ready)
    && (forall i, j :: 0 <= i < j < |frames| ==> frames[i].slot != frames[j].slot)
  }

  /** A bounded table of nonzero tokens, each pinning a queued frame. */
  ghost predicate ValidReaders(frames: seq<Frame>, readers: map<nat, Reader>) {
    && |readers| <= MAX_READERS
    && 0 !in readers
    && (forall t :: t in readers ==> Holds(frames, readers[t].value))
  }

  predicate ValidFrame(f: Frame) {
    f.image != 0 && f.ready != 0 && f.slot < MAX_POOL
  }

  ghost predicate Holds(frames: seq<Frame>, value: nat) {
    exists i :: 0 <= i < |frames| && frames[i].ready == value
  }

  ghost predicate Pinned(readers: map<nat, Reader>, value: nat) {
    exists t :: t in readers && readers[t].value == value
  }

  /** Index of the frame a token pins. */
  ghost function IndexOf(l: Ledger, t: nat): (i: nat)
    requires Valid(l) && t in l.readers
    ensures i < |l.frames| && l.frames[i].ready == l.readers[t].value
  {
    assert Holds(l.frames, l.readers[t].value);
    var i :| 0 <= i < |l.frames| && l.frames[i].ready == l.readers[t].value;
    i
  }

  ghost function FrameOf(l: Ledger, t: nat): Frame
    requires Valid(l) && t in l.readers
  {
    l.frames[IndexOf(l, t)]
  }

  // ---- operations -----------------------------------------------------------------------------

  /** Outcome of registering a reader; `next` is the process-wide token counter. */
  function AddReaderResult(l: Ledger, next: nat): FlResult {
    if |l.readers| >= MAX_READERS then Busy else if next >= U64_MAX then Internal else Ok
  }

  function AcquireResult(l: Ledger, generation: nat, frame: Frame, next: nat): FlResult {
    if generation == 0 || !ValidFrame(frame) then Invalid
    else if |l.frames| == MAX_POOL then Busy
    else if l.generation != generation && l.frames != [] then Busy
    else if l.generation == generation && frame.ready <= l.last then Invalid
    else if exists i :: 0 <= i < |l.frames| && l.frames[i].slot == frame.slot then Busy
    else AddReaderResult(l, next)
  }

  function Acquire(l: Ledger, generation: nat, frame: Frame, next: nat): Ledger {
    if AcquireResult(l, generation, frame, next) != Ok then l
    else Ledger(l.frames + [frame], l.readers[next := Reader(frame.ready, false)], generation, frame.ready)
  }

  function RetainResult(l: Ledger, source: nat, next: nat): FlResult {
    if source in l.readers && !l.readers[source].pending then AddReaderResult(l, next) else Invalid
  }

  function Retain(l: Ledger, source: nat, next: nat): Ledger {
    if RetainResult(l, source, next) != Ok then l
    else l.(readers := l.readers[next := Reader(l.readers[source].value, false)])
  }

  /** Whether a token is live with the given pending mark; every lookup by token asks this. */
  predicate Live(l: Ledger, t: nat, pending: bool) {
    t in l.readers && l.readers[t].pending == pending
  }

  function Complete(l: Ledger, t: nat): Ledger {
    if Live(l, t, false) then l.(readers := l.readers - {t}) else l
  }

  function Defer(l: Ledger, t: nat): Ledger {
    if Live(l, t, false) then l.(readers := l.readers[t := l.readers[t].(pending := true)]) else l
  }

  function FinishDeferred(l: Ledger, t: nat): Ledger {
    if Live(l, t, true) then l.(readers := l.readers - {t}) else l
  }

  function ResetEpoch(l: Ledger): Ledger {
    if l.frames == [] then l.(generation := 0, last := 0) else l
  }

  /** How many leading frames no reader pins any more. */
  ghost function FreePrefix(l: Ledger): (k: nat)
    ensures k <= |l.frames|
    ensures forall i :: 0 <= i < k ==> !Pinned(l.readers, l.frames[i].ready)
    ensures k < |l.frames| ==> Pinned(l.readers, l.frames[k].ready)
  {
    FreePrefixFrom(l, 0)
  }

  ghost function FreePrefixFrom(l: Ledger, from: nat): (k: nat)
    requires from <= |l.frames|
    ensures from <= k <= |l.frames|
    ensures forall i :: from <= i < k ==> !Pinned(l.readers, l.frames[i].ready)
    ensures k < |l.frames| ==> Pinned(l.readers, l.frames[k].ready)
    decreases |l.frames| - from
  {
    if from == |l.frames| || Pinned(l.readers, l.frames[from].ready) then from else FreePrefixFrom(l, from + 1)
  }

  /** The value a backend may announce: the last frame of the completed prefix, 0 for none. */
  ghost function Retirement(l: Ledger): nat {
    var k := FreePrefix(l);
    if k == 0 then 0 else l.frames[k - 1].ready
  }

  /** Acknowledges a retirement after the backend announced it. */
  ghost function Retired(l: Ledger): Ledger {
    l.(frames := l.frames[FreePrefix(l)..])
  }

  // ---- every operation keeps the queue well formed ---------------------------------------------

  datatype Op =
    | OpAcquire(generation: nat, frame: Frame)
    | OpRetain(source: nat)
    | OpComplete(token: nat)
    | OpDefer(token: nat)
    | OpFinish(token: nat)
    | OpRetire
    | OpReset
    | OpElsewhere // another ledger of the process takes a token

  /** A ledger together with the process-wide token counter. */
  datatype State = State(ledger: Ledger, next: nat)

  ghost predicate ValidState(s: State) {
    Valid(s.ledger) && 1 <= s.next <= U64_MAX && Issued(s.ledger.readers, s.next)
  }

  /** Every live token was taken from the counter. */
  ghost predicate Issued(readers: map<nat, Reader>, next: nat) {
    forall t :: t in readers ==> t < next
  }

  ghost function Step(s: State, op: Op): State {
    var l, next := s.ledger, s.next;
    match op
    case OpAcquire(generation, frame) =>
      State(Acquire(l, generation, frame, next), if AcquireResult(l, generation, frame, next) == Ok then next + 1
        else next)
    case OpRetain(source) =>
      State(Retain(l, source, next), if RetainResult(l, source, next) == Ok then next + 1 else next)
    case OpComplete(token) => State(Complete(l, token), next)
    case OpDefer(token) => State(Defer(l, token), next)
    case OpFinish(token) => State(FinishDeferred(l, token), next)
    case OpRetire => State(Retired(l), next)
    case OpReset => State(ResetEpoch(l), next)
    case OpElsewhere => State(l, if next < U64_MAX then next + 1 else next)
  }

  ghost function Run(s: State, ops: seq<Op>): State
    decreases |ops|
  {
    if ops == [] then s else Run(Step(s, ops[0]), ops[1..])
  }

  lemma StillHolds(frames: seq<Frame>, frames': seq<Frame>, v: nat)
    requires frames <= frames' && Holds(frames, v)
    ensures Holds(frames', v)
  {
    var i :| 0 <= i < |frames| && frames[i].ready == v;
    assert frames'[i].ready == v;
  }

  lemma AddReaderKeepsValid(frames: seq<Frame>, readers: map<nat, Reader>, t: nat, r: Reader)
    requires ValidReaders(frames, readers) && |readers| < MAX_READERS && t != 0 && Holds(frames, r.value)
    ensures ValidReaders(frames, readers[t := r])
  {
    var readers' := readers[t := r];
    assert readers'.Keys == readers.Keys + {t};
    assert |readers'.Keys| <= |readers.Keys| + 1;
  }

  lemma MarkReaderKeepsValid(frames: seq<Frame>, readers: map<nat, Reader>, t: nat)
    requires ValidReaders(frames, readers) && t in readers
    ensures ValidReaders(frames, readers[t := readers[t].(pending := true)])
  {
    var readers' := readers[t := readers[t].(pending := true)];
    assert readers'.Keys == readers.Keys;
  }

  lemma DropReaderKeepsValid(frames: seq<Frame>, readers: map<nat, Reader>, t: nat)
    requires ValidReaders(frames, readers)
    ensures ValidReaders(frames, readers - {t})
  {
    var readers' := readers - {t};
    assert readers'.Keys == readers.Keys - {t};
  }

  lemma DropReadersKeepsValid(frames: seq<Frame>, readers: map<nat, Reader>, ts: set<nat>)
    requires ValidReaders(frames, readers)
    ensures ValidReaders(frames, readers - ts)
  {
    var readers' := readers - ts;
    assert readers'.Keys == readers.Keys - ts;
    assert readers'.Keys <= readers.Keys;
    FewerKeys(readers'.Keys, readers.Keys);
  }

  lemma FewerKeys(a: set<nat>, b: set<nat>)
    requires a <= b
    ensures |a| <= |b|
  {
    assert b == a + (b - a);
  }

  lemma GrowKeepsReaders(frames: seq<Frame>, readers: map<nat, Reader>, frames': seq<Frame>)
    requires ValidReaders(frames, readers) && frames <= frames'
    ensures ValidReaders(frames', readers)
  {
    forall t | t in readers ensures Holds(frames', readers[t].value) {
      StillHolds(frames, frames', readers[t].value);
    }
  }

  lemma AcquireKeepsValid(l: Ledger, generation: nat, frame: Frame, next: nat)
    requires Valid(l) && next != 0 && AcquireResult(l, generation, frame, next) == Ok
    ensures Valid(Acquire(l, generation, frame, next))
  {
    hide ValidQueue, ValidReaders;
    var frames := l.frames + [frame];
    GrowKeepsQueue(l, generation, frame, next);
    GrowKeepsReaders(l.frames, l.readers, frames);
    assert frames[|l.frames|].ready == frame.ready;
    AddReaderKeepsValid(frames, l.readers, next, Reader(frame.ready, false));
  }

  /** A frame that passed the checks extends the queue. */
  lemma GrowKeepsQueue(l: Ledger, generation: nat, frame: Frame, next: nat)
    requires ValidQueue(l.frames, l.generation, l.last) && AcquireResult(l, generation, frame, next) == Ok
    ensures ValidQueue(l.frames + [frame], generation, frame.ready)
  {
    hide AddReaderResult;
    var frames := l.frames + [frame];
    assert forall i :: 0 <= i < |frames| ==> frames[i] == if i < |l.frames| then l.frames[i] else frame;
    assert l.frames != [] ==> l.generation == generation && l.last < frame.ready;
  }

  lemma DropKeepsQueue(frames: seq<Frame>, k: nat, generation: nat, last: nat)
    requires ValidQueue(frames, generation, last) && k <= |frames|
    ensures ValidQueue(frames[k..], generation, last)
  {
  }

  lemma DropKeepsReaders(l: Ledger, k: nat)
    requires Valid(l) && k == FreePrefix(l)
    ensures ValidReaders(l.frames[k..], l.readers)
  {
    hide ValidQueue, Pinned;
    forall t | t in l.readers ensures Holds(l.frames[k..], l.readers[t].value) {
      RetirementStopsAtReaders(l, t);
      var i := IndexOf(l, t);
      assert l.frames[k..][i - k].ready == l.readers[t].value;
    }
  }

  lemma RetiredKeepsValid(l: Ledger)
    requires Valid(l)
    ensures Valid(Retired(l))
  {
    hide ValidQueue, ValidReaders, Pinned;
    DropKeepsQueue(l.frames, FreePrefix(l), l.generation, l.last);
    DropKeepsReaders(l, FreePrefix(l));
  }

  lemma AddReaderOk(s: State, r: Reader)
    requires ValidState(s) && AddReaderResult(s.ledger, s.next) == Ok && Holds(s.ledger.frames, r.value)
    ensures ValidState(State(s.ledger.(readers := s.ledger.readers[s.next := r]), s.next + 1))
  {
    AddReaderKeepsValid(s.ledger.frames, s.ledger.readers, s.next, r);
  }

  lemma AcquireOk(s: State, generation: nat, frame: Frame)
    requires ValidState(s) && AcquireResult(s.ledger, generation, frame, s.next) == Ok
    ensures ValidState(State(Acquire(s.ledger, generation, frame, s.next), s.next + 1))
  {
    hide ValidQueue, ValidReaders;
    AcquireKeepsValid(s.ledger, generation, frame, s.next);
  }

  lemma RetainOk(s: State, source: nat)
    requires ValidState(s) && RetainResult(s.ledger, source, s.next) == Ok
    ensures ValidState(State(Retain(s.ledger, source, s.next), s.next + 1))
  {
    hide ValidQueue;
    AddReaderOk(s, Reader(s.ledger.readers[source].value, false));
  }

  lemma ResetOk(l: Ledger)
    requires Valid(l)
    ensures Valid(ResetEpoch(l))
  {
  }

  /** The representation invariant is inductive: increasing values, distinct slots, one generation, live tokens pin. */
  lemma StepKeepsValid(s: State, op: Op)
    requires ValidState(s)
    ensures ValidState(Step(s, op))
  {
    hide ValidQueue, ValidReaders, Pinned, AcquireResult, Acquire;
    var l := s.ledger;
    match op
    case OpAcquire(generation, frame) =>
      if AcquireResult(l, generation, frame, s.next) == Ok {
        AcquireOk(s, generation, frame);
      } else {
        AcquireRefused(l, generation, frame, s.next);
      }
    case OpRetain(source) =>
      if RetainResult(l, source, s.next) == Ok {
        RetainOk(s, source);
      }
    case OpComplete(token) => DropReaderKeepsValid(l.frames, l.readers, token);
    case OpDefer(token) =>
      if Live(l, token, false) {
        MarkReaderKeepsValid(l.frames, l.readers, token);
      }
    case OpFinish(token) => DropReaderKeepsValid(l.frames, l.readers, token);
    case OpRetire => RetiredKeepsValid(l);
    case OpReset => ResetOk(l);
    case OpElsewhere =>
  }

  lemma AcquireRefused(l: Ledger, generation: nat, frame: Frame, next: nat)
    requires AcquireResult(l, generation, frame, next) != Ok
    ensures Acquire(l, generation, frame, next) == l
  {
  }

  // ---- lease stability and prefix retirement over whole runs ------------------------------------

  lemma {:induction false} RunKeepsValid(s: State, ops: seq<Op>)
    requires ValidState(s)
    ensures ValidState(Run(s, ops))
    ensures Run(s, ops).next >= s.next
    decreases |ops|
  {
    hide ValidQueue, ValidReaders, Pinned;
    if ops != [] {
      StepKeepsValid(s, ops[0]);
      RunKeepsValid(Step(s, ops[0]), ops[1..]);
    }
  }

  /** A token that was ever issued and is no longer live never becomes live again. */
  lemma {:induction false} TokensNeverReturn(s: State, ops: seq<Op>, t: nat)
    requires ValidState(s) && t < s.next && t !in s.ledger.readers
    ensures t !in Run(s, ops).ledger.readers
    decreases |ops|
  {
    hide ValidQueue, ValidReaders, Pinned;
    if ops != [] {
      StepKeepsValid(s, ops[0]);
      TokensNeverReturn(Step(s, ops[0]), ops[1..], t);
    }
  }

  /** Two well-formed queues that share the frame a token pins agree on it. */
  lemma SameFrame(l: Ledger, l': Ledger, t: nat, i: nat, j: nat)
    requires Valid(l) && Valid(l') && t in l.readers && t in l'.readers
    requires l.readers[t].value == l'.readers[t].value
    requires i < |l.frames| && j < |l'.frames| && l.frames[i] == l'.frames[j] && l.frames[i].ready == l.readers[t].value
    ensures FrameOf(l', t) == FrameOf(l, t) == l.frames[i]
  {
  }

  lemma StepKeepsReader(s: State, op: Op, t: nat)
    requires t < s.next && t in s.ledger.readers && t in Step(s, op).ledger.readers
    requires s.ledger.frames != []
    ensures Step(s, op).ledger.readers[t].value == s.ledger.readers[t].value
    ensures s.ledger.readers[t].pending ==> Step(s, op).ledger.readers[t].pending
    ensures Step(s, op).ledger.generation == s.ledger.generation
    ensures Advanced(s.ledger, Step(s, op).ledger)
  {
  }

  /** The queue grew at its tail, or lost its completed prefix. */
  ghost predicate Advanced(l: Ledger, l': Ledger) {
    l.frames <= l'.frames || l'.frames == l.frames[FreePrefix(l)..]
  }

  lemma AdvancedKeepsFrame(l: Ledger, l': Ledger, t: nat)
    requires Valid(l) && Valid(l') && t in l.readers && t in l'.readers
    requires l.readers[t].value == l'.readers[t].value && Advanced(l, l')
    ensures FrameOf(l', t) == FrameOf(l, t)
  {
    hide Valid, FrameOf, FreePrefix, Retirement;
    var i := IndexOf(l, t);
    if l.frames <= l'.frames {
      assert l'.frames[i] == l.frames[i];
      SameFrame(l, l', t, i, i);
    } else {
      var k := FreePrefix(l);
      RetirementStopsAtReaders(l, t);
      SharedTail(l.frames, l'.frames, k, i);
      SameFrame(l, l', t, i, i - k);
    }
  }

  lemma SharedTail(frames: seq<Frame>, frames': seq<Frame>, k: nat, i: nat)
    requires k <= i < |frames| && frames' == frames[k..]
    ensures i - k < |frames'| && frames'[i - k] == frames[i]
  {
  }

  lemma StepKeepsLease(s: State, op: Op, t: nat)
    requires ValidState(s) && t in s.ledger.readers && t in Step(s, op).ledger.readers
    requires ValidState(Step(s, op))
    ensures FrameOf(Step(s, op).ledger, t) == FrameOf(s.ledger, t)
    ensures Step(s, op).ledger.generation == s.ledger.generation
    ensures s.ledger.readers[t].pending ==> Step(s, op).ledger.readers[t].pending
  {
    assert s.ledger.frames != [] by {
      var i := IndexOf(s.ledger, t);
    }
    StepKeepsReader(s, op, t);
    AdvancedKeepsFrame(s.ledger, Step(s, op).ledger, t);
  }

  /**
   * Lease stability: whatever happens between two moments at which a token is live, it denotes the frame
   * and generation it was first given, and once deferred it stays deferred.
   */
  lemma {:induction false} LeaseIsStable(s: State, ops: seq<Op>, t: nat)
    requires ValidState(s) && t in s.ledger.readers && t in Run(s, ops).ledger.readers
    ensures ValidState(Run(s, ops))
    ensures FrameOf(Run(s, ops).ledger, t) == FrameOf(s.ledger, t)
    ensures Run(s, ops).ledger.generation == s.ledger.generation
    ensures s.ledger.readers[t].pending ==> Run(s, ops).ledger.readers[t].pending
    decreases |ops|
  {
    hide ValidQueue, ValidReaders, Pinned;
    if ops != [] {
      var s' := Step(s, ops[0]);
      StepKeepsValid(s, ops[0]);
      if t !in s'.ledger.readers {
        TokensNeverReturn(s', ops[1..], t);
      } else {
        StepKeepsLease(s, ops[0], t);
        LeaseIsStable(s', ops[1..], t);
      }
    }
  }

  /** Retirement never reaches a frame that some reader, live or deferred, still pins. */
  lemma RetirementStopsAtReaders(l: Ledger, t: nat)
    requires Valid(l) && t in l.readers
    ensures Retirement(l) < l.readers[t].value
    ensures forall i :: 0 <= i < |l.frames| && l.frames[i].ready == l.readers[t].value ==> FreePrefix(l) <= i
  {
    var i := IndexOf(l, t);
    assert Pinned(l.readers, l.frames[i].ready);
  }

  /** Retirement removes exactly the completed frames that no pinned frame precedes, and no more remain to retire. */
  lemma RetiresMaximalPrefix(l: Ledger)
    requires Valid(l)
    ensures l.frames == l.frames[..FreePrefix(l)] + Retired(l).frames
    ensures forall i :: 0 <= i < |l.frames| ==>
      (l.frames[i].ready <= Retirement(l) <==> forall j :: 0 <= j <= i ==> !Pinned(l.readers, l.frames[j].ready))
    ensures Retired(l).readers == l.readers && Retirement(Retired(l)) == 0
  {
    hide Pinned, ValidReaders, ValidQueue;
    forall i | 0 <= i < |l.frames|
      ensures l.frames[i].ready <= Retirement(l) <==> forall j :: 0 <= j <= i ==> !Pinned(l.readers, l.frames[j].ready)
    {
      FreeUpTo(l, i);
    }
    NothingLeftToRetire(l);
  }

  lemma FreeUpTo(l: Ledger, i: nat)
    requires ValidQueue(l.frames, l.generation, l.last) && i < |l.frames|
    ensures l.frames[i].ready <= Retirement(l) <==> i < FreePrefix(l)
    ensures i < FreePrefix(l) <==> forall j :: 0 <= j <= i ==> !Pinned(l.readers, l.frames[j].ready)
  {
    hide Pinned;
  }

  lemma NothingLeftToRetire(l: Ledger)
    ensures Retirement(Retired(l)) == 0
  {
    hide Pinned;
    if FreePrefix(l) < |l.frames| {
      assert Retired(l).frames[0] == l.frames[FreePrefix(l)];
    }
  }

  // ---- completions left to fences -----------------------------------------------------------------

  /** Every outstanding completion belongs to a deferred reader. */
  ghost predicate AllDeferred(l: Ledger, live: map<nat, nat>) {
    forall t :: t in live ==> Live(l, t, true)
  }

  lemma NewReaderKeepsDeferred(l: Ledger, live: map<nat, nat>, l': Ledger, next: nat)
    requires AllDeferred(l, live) && next !in l.readers
    requires forall t :: t in l.readers && t != next ==> t in l'.readers && l'.readers[t] == l.readers[t]
    ensures AllDeferred(l', live)
  {
  }

  lemma CompleteKeepsDeferred(l: Ledger, live: map<nat, nat>, t: nat)
    requires AllDeferred(l, live)
    ensures AllDeferred(Complete(l, t), live)
  {
  }

  lemma DeferAddsDeferred(l: Ledger, live: map<nat, nat>, t: nat, fence: nat)
    requires AllDeferred(l, live) && Live(l, t, false)
    ensures t !in live && AllDeferred(Defer(l, t), live[t := fence])
  {
  }

  lemma PollDropsDeferred(l: Ledger, live: map<nat, nat>, finished: set<nat>)
    requires AllDeferred(l, live) && finished <= live.Keys
    ensures AllDeferred(l.(readers := l.readers - finished), live - finished)
  {
  }

  lemma FinishDropsDeferred(l: Ledger, live: map<nat, nat>, t: nat)
    requires AllDeferred(l, live) && t in live
    ensures Live(l, t, true) && AllDeferred(FinishDeferred(l, t), live - {t})
  {
  }

  lemma ReadersAloneMatter(l: Ledger, live: map<nat, nat>, l': Ledger)
    requires AllDeferred(l, live) && l'.readers == l.readers
    ensures AllDeferred(l', live)
  {
  }
}
