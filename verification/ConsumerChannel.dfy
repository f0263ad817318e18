/**
 * The consumer end of a channel: a mailbox of one pending frame filled by the accept thread, one held frame, a
 * ledger of leased frames and a table of completion fences. Every method computes the step functions of Ring.dfy.
 */
module ConsumerChannels {
  import opened Basics
  import opened Base
  import opened SyncFences
  import opened Rings
  import R = ReadLedgers
  import L = Leases

  // ---- deferred completions -------------------------------------------------------------------------

  /** A deferred reader and the fence that ends its reads; token 0 marks a free entry. */
  datatype Completion = Completion(token: nat, fence: nat)

  const NO_FRAME := Frame(0, 0, 0, 0, 0)

  const NO_COMPLETION := Completion(0, 0)

  ghost predicate Listed(table: seq<Completion>, t: nat) {
    exists i :: 0 <= i < |table| && table[i].token == t
  }

  ghost predicate TableMatches(table: seq<Completion>, live: map<nat, nat>) {
    && |table| == L.MAX_READERS
    && (forall i :: 0 <= i < |table| && table[i].token != 0 ==>
      table[i].token in live && live[table[i].token] == table[i].fence)
    && (forall i, j :: 0 <= i < j < |table| && table[i].token != 0 ==> table[i].token != table[j].token)
    && (forall t :: t in live ==> t != 0 && Listed(table, t))
  }

  /** The table is full exactly when as many completions are outstanding as it has entries. */
  lemma FullTable(table: seq<Completion>, live: map<nat, nat>)
    requires TableMatches(table, live)
    ensures |live| <= L.MAX_READERS
    ensures |live| == L.MAX_READERS <==> forall i :: 0 <= i < |table| ==> table[i].token != 0
  {
    var readers := seq(|table|, i requires 0 <= i < |table| => R.ReaderRecord(table[i].token, 0, true));
    R.TokenCount(readers);
    forall t | t in live ensures t in R.Tokens(readers) {
      var i :| 0 <= i < |table| && table[i].token == t;
      assert readers[i].token == t;
    }
    assert live.Keys == R.Tokens(readers);
    assert forall i :: 0 <= i < |table| ==> readers[i].token == table[i].token;
  }

  lemma EmptyTable(table: seq<Completion>, l: L.Ledger)
    requires |table| == L.MAX_READERS && forall i :: 0 <= i < |table| ==> table[i] == NO_COMPLETION
    ensures TableMatches(table, map[]) && L.AllDeferred(l, map[])
  {
  }

  lemma AddCompletion(table: seq<Completion>, live: map<nat, nat>, i: nat, t: nat, fence: nat)
    requires TableMatches(table, live) && i < |table| && table[i].token == 0 && t != 0 && t !in live
    ensures TableMatches(table[i := Completion(t, fence)], live[t := fence])
  {
    var table' := table[i := Completion(t, fence)];
    forall u | u in live[t := fence] ensures Listed(table', u) {
      if u == t {
        assert table'[i].token == u;
      } else {
        var j :| 0 <= j < |table| && table[j].token == u;
        assert table'[j].token == u;
      }
    }
  }

  lemma EntryIsOutstanding(table: seq<Completion>, live: map<nat, nat>, i: nat)
    requires TableMatches(table, live) && i < |table| && table[i].token != 0
    ensures table[i].token in live && live[table[i].token] == table[i].fence
  {
  }

  lemma DropCompletion(table: seq<Completion>, live: map<nat, nat>, i: nat)
    requires TableMatches(table, live) && i < |table| && table[i].token != 0
    ensures TableMatches(table[i := NO_COMPLETION], live - {table[i].token})
  {
    var table' := table[i := NO_COMPLETION];
    forall u | u in live - {table[i].token} ensures Listed(table', u) {
      var j :| 0 <= j < |table| && table[j].token == u;
      assert table'[j].token == u;
    }
  }

  /** Tokens among the first `n` entries whose fence has signalled. */
  ghost function FinishedBefore(table: seq<Completion>, n: nat, done: set<nat>): set<nat>
    requires n <= |table|
  {
    set i | 0 <= i < n && table[i].token != 0 && table[i].fence in done :: table[i].token
  }

  lemma FinishedStep(table: seq<Completion>, n: nat, done: set<nat>)
    requires n < |table|
    ensures FinishedBefore(table, n + 1, done) == FinishedBefore(table, n, done) +
      if table[n].token != 0 && table[n].fence in done then {table[n].token} else {}
  {
    assert forall t :: t in FinishedBefore(table, n, done) ==>
      exists i :: 0 <= i < n && table[i].token == t && t != 0 && table[i].fence in done;
    forall t | t in FinishedBefore(table, n, done) ensures t in FinishedBefore(table, n + 1, done) {
    }
  }

  lemma FinishedIsAll(table: seq<Completion>, live: map<nat, nat>, done: set<nat>)
    requires TableMatches(table, live)
    ensures FinishedBefore(table, |table|, done) == set t | t in live && live[t] in done :: t
  {
    forall t | t in live && live[t] in done ensures t in FinishedBefore(table, |table|, done) {
      var i :| 0 <= i < |table| && table[i].token == t;
    }
  }

  // ---- the class ------------------------------------------------------------------------------------

  class ConsumerChannel {
    var generation: nat
    var images: seq<nat>
    var geometry: Geometry
    const externalPool: bool
    const deferRelease: bool
    const gpuSync: bool
    var connected: bool
    var hasPending: bool
    var pending: Frame
    var pendingFence: Option<nat>
    var sequence: nat
    var frameHeld: bool
    var held: Frame
    var retiredValue: nat
    const sync: SyncFds
    const readers: R.ReadLedger
    const completions: array<Completion>
    ghost var outstanding: map<nat, nat>
    /** Messages sent to the producer. */
    var outbox: seq<ToProducer>

    ghost function Repr(): set<object>
      reads this
    {
      {this, sync, readers, readers.frames, readers.readers, readers.tokens, completions}
    }

    ghost predicate Valid()
      reads this, sync, readers, readers.frames, readers.readers, readers.tokens, completions
    {
      && readers.Valid() && completions.Length == L.MAX_READERS
      && TableMatches(completions[..], outstanding) && L.AllDeferred(readers.model, outstanding)
      && (hasPending ==> pending.slot < |images|)
    }

    ghost function State(): Consumer
      reads this, sync, readers, readers.frames, readers.readers, readers.tokens, completions
    {
      Consumer(generation, images, geometry, externalPool, deferRelease, gpuSync, hasPending, pending, pendingFence,
        sequence, frameHeld, held, retiredValue, sync.releases, readers.model, readers.tokens.next, outstanding)
    }

    /** A channel nobody is attached to yet. */
    constructor (generation: nat, images: seq<nat>, geometry: Geometry, externalPool: bool, deferRelease: bool,
        gpuSync: bool, tokens: R.TokenSource)
      requires tokens.next >= 1
      ensures Valid() && fresh(Repr() - {tokens}) && readers.tokens == tokens && !connected && outbox == []
      ensures State() == Consumer(generation, images, geometry, externalPool, deferRelease, gpuSync, false, NO_FRAME,
        None, 0, false, NO_FRAME, 0, [], L.EMPTY_LEDGER, tokens.next, map[])
    {
      hide R.ReadLedger.Valid, TableMatches, L.AllDeferred;
      this.generation, this.images, this.geometry := generation, images, geometry;
      this.externalPool, this.deferRelease, this.gpuSync := externalPool, deferRelease, gpuSync;
      connected, outbox := false, [];
      hasPending, pending, pendingFence, sequence := false, NO_FRAME, None, 0;
      frameHeld, held, retiredValue := false, NO_FRAME, 0;
      sync := new SyncFds();
      readers := new R.ReadLedger(tokens);
      completions := new Completion[L.MAX_READERS](_ => NO_COMPLETION);
      outstanding := map[];
      new;
      EmptyTable(completions[..], readers.model);
    }

    /** Answers the producer, if one is attached. */
    method Send(m: ToProducer)
      modifies this`outbox
      ensures outbox == old(outbox) + if connected then [m] else []
    {
      if connected {
        outbox := outbox + [m];
      }
    }

    /** Retires the ready prefix of the announced releases. */
    method AdvanceReleases(done: set<nat>)
      requires Valid()
      modifies this`retiredValue, sync
      ensures Valid() && State() == AdvanceConsumer(old(State()), done)
    {
      hide R.ReadLedger.Valid, TableMatches, L.AllDeferred, ReadyPrefix, Raise;
      retiredValue := sync.Advance(retiredValue, done);
    }

    method QueueRelease(release: Release, done: set<nat>)
      requires Valid()
      modifies this`retiredValue, sync
      ensures Valid() && State() == AdvanceConsumer(old(State()).(releases := old(sync.releases) + [release]), done)
    {
      hide R.ReadLedger.Valid, TableMatches, L.AllDeferred, AdvanceConsumer;
      sync.Push(release);
      AdvanceReleases(done);
    }

    // -- accept thread

    /** Latest frame wins; an announcement of a slot that does not exist ends the link. */
    method ReceiveFrame(slot: nat, ready: nat, ptsNs: int, fence: Option<nat>)
      requires Valid()
      modifies this`hasPending, this`pending, this`pendingFence, this`sequence, this`connected
      ensures Valid()
      ensures slot < |images| ==>
        State() == OnFrameReady(old(State()), slot, ready, ptsNs, fence) && connected == old(connected)
      ensures slot >= |images| ==> State() == old(State()) && !connected
    {
      hide R.ReadLedger.Valid, TableMatches, L.AllDeferred, ReadyPrefix, Raise;
      if slot >= |images| {
        connected := false;
        return;
      }
      pendingFence := fence;
      hasPending := true;
      pending := Frame(slot, images[slot], ptsNs, 0, ready);
      sequence := sequence + 1;
    }

    /** `newImages` is the storage a reallocation would obtain. The reply is always a ring description. */
    method ReceiveGeometry(g: Geometry, newImages: seq<nat>, done: set<nat>)
      requires Valid()
      modifies this`hasPending, this`pendingFence, this`held, this`retiredValue, this`generation, this`geometry,
        this`images, this`outbox, sync, readers
      ensures Valid() && State() == OnGeometry(old(State()), g, newImages, done)
      ensures outbox == old(outbox) + if connected then [RingDesc(generation, images)] else []
    {
      hide R.ReadLedger.Valid, TableMatches, L.AllDeferred, ReplacedStorage, ValidGeometry;
      if !externalPool && g.format == geometry.format && ValidGeometry(g)
        && (g.width != geometry.width || g.height != geometry.height)
      {
        ReplaceStorage(g, newImages, done);
      }
      ghost var c := State();
      Send(RingDesc(generation, images));
      assert State() == c;
    }

    /** Reallocates unless some frame is held, leased or still being read. */
    method ReplaceStorage(g: Geometry, newImages: seq<nat>, done: set<nat>)
      requires Valid()
      modifies this`hasPending, this`pendingFence, this`held, this`retiredValue, this`generation, this`geometry,
        this`images, sync, readers
      ensures Valid() && State() == ReplacedStorage(old(State()), g, newImages, done)
    {
      hide R.ReadLedger.Valid, TableMatches, L.AllDeferred, AdvanceConsumer, Renewed;
      AdvanceReleases(done);
      ghost var a := State();
      var empty := readers.Empty();
      if empty && !frameHeld && held.ready <= retiredValue {
        Renew();
        assert State() == Renewed(a);
        geometry, images := g, newImages;
      }
    }

    method Renew()
      requires Valid()
      modifies this`hasPending, this`pendingFence, this`held, this`retiredValue, this`generation, sync, readers
      ensures Valid() && State() == Renewed(old(State())) && !hasPending
    {
      hide R.ReadLedger.Valid, TableMatches, L.AllDeferred, ReadyPrefix, Raise;
      hasPending := false;
      pendingFence := None;
      sync.Clear();
      readers.ResetEpoch();
      L.ReadersAloneMatter(old(readers.model), outstanding, readers.model);
      held := held.(ready := 0);
      retiredValue := 0;
      generation := generation + 1;
    }

    /** A producer that passed the handshake asks to attach: busy, or a new generation from value one. */
    method AttachProducer(done: set<nat>) returns (accepted: bool)
      requires Valid()
      modifies this, sync, readers
      ensures Valid() && accepted == AttachAccepted(old(State()), done) && State() == OnAttach(old(State()), done)
      ensures accepted ==> connected && outbox == [RingDesc(generation, images)]
      ensures !accepted ==> connected == old(connected) && outbox == old(outbox)
    {
      hide R.ReadLedger.Valid, TableMatches, L.AllDeferred, AdvanceConsumer, Renewed;
      AdvanceReleases(done);
      ghost var a := State();
      var empty := readers.Empty();
      if !empty || frameHeld || retiredValue < held.ready || !FenceReady(pendingFence, done) {
        return false;
      }
      Renew();
      assert State() == Renewed(a);
      connected := true;
      outbox := [RingDesc(generation, images)];
      assert State() == Renewed(a);
      accepted := true;
    }

    // -- consumer thread

    /** One round of flAcquireFrame. */
    method TakeFrame(done: set<nat>) returns (result: FlResult, out: Frame)
      requires Valid()
      modifies this`frameHeld, this`hasPending, this`pendingFence, this`held
      ensures Valid() && State() == AcquireFrame(old(State()), done)
      ensures result == if CanAcquireFrame(old(State()), done) then Ok else if !connected then Disconnected else Timeout
      ensures result == Ok ==>
        out == held && frameHeld && out.slot == old(pending.slot) && out.ready == old(pending.ready)
    {
      hide R.ReadLedger.Valid, TableMatches, L.AllDeferred, ReadyPrefix, Raise;
      out := held;
      if hasPending && !frameHeld && (gpuSync || FenceReady(pendingFence, done)) {
        pendingFence := None;
        frameHeld := true;
        hasPending := false;
        held := pending.(image := images[pending.slot], sequence := sequence);
        return Ok, held;
      }
      result := if !connected then Disconnected else Timeout;
    }

    method ReleaseSyncFd(frame: Frame, fence: Option<nat>, done: set<nat>) returns (result: FlResult)
      requires Valid()
      modifies this`retiredValue, this`frameHeld, this`outbox, sync
      ensures Valid() && result == ReleaseResult(old(State()), frame)
        && State() == ReleaseFrame(old(State()), frame, fence, done)
      ensures outbox == old(outbox) + if result == Ok && connected then [FrameReleased(Release(frame.ready, fence))]
        else []
    {
      hide R.ReadLedger.Valid, TableMatches, L.AllDeferred, AdvanceConsumer;
      if frame.slot >= |images| {
        return Invalid;
      }
      var empty := readers.Empty();
      if !empty {
        return Busy;
      }
      if !frameHeld || frame.ready != held.ready || frame.slot != held.slot {
        return Invalid;
      }
      QueueRelease(Release(frame.ready, fence), done);
      ghost var c := State();
      frameHeld := false;
      assert State() == c.(frameHeld := false);
      Send(FrameReleased(Release(frame.ready, fence)));
      result := Ok;
    }

    /** flRelease: bookkeeping alone when storage is retired explicitly, otherwise a release without a fence. */
    method ReleaseHeld(frame: Frame, done: set<nat>) returns (result: FlResult)
      requires Valid()
      modifies this`retiredValue, this`frameHeld, this`outbox, sync
      ensures Valid()
      ensures deferRelease || gpuSync ==>
        result == DropResult(old(State()), frame) && State() == DropFrame(old(State()), frame) && outbox == old(outbox)
      ensures !deferRelease && !gpuSync ==>
        result == ReleaseResult(old(State()), frame) && State() == ReleaseFrame(old(State()), frame, None, done)
      ensures !deferRelease && !gpuSync ==>
        outbox == old(outbox) + if result == Ok && connected then [FrameReleased(Release(frame.ready, None))] else []
    {
      hide R.ReadLedger.Valid, TableMatches, L.AllDeferred, ReadyPrefix, Raise;
      if deferRelease || gpuSync {
        var empty := readers.Empty();
        if !empty {
          return Busy;
        }
        if !frameHeld || frame.ready != held.ready || frame.slot != held.slot {
          return Invalid;
        }
        frameHeld := false;
        return Ok;
      }
      result := ReleaseSyncFd(frame, None, done);
    }

    method LeaseHeld(frame: Frame) returns (result: FlResult, t: nat)
      requires Valid()
      modifies this`frameHeld, readers, readers.frames, readers.readers, readers.tokens
      ensures Valid() && result == LeaseResult(old(State()), frame) && State() == LeaseFrame(old(State()), frame)
      ensures result == Ok ==> t == old(readers.tokens.next)
    {
      hide R.ReadLedger.Valid, TableMatches, L.AllDeferred, ReadyPrefix, Raise;
      t := 0;
      if !deferRelease || gpuSync {
        return Invalid, t;
      }
      if !frameHeld || frame.slot != held.slot || frame.ready != held.ready || frame.slot >= |images|
        || frame.image != images[frame.slot] {
        return Invalid, t;
      }
      FreshToken();
      ghost var next := readers.tokens.next;
      result, t := readers.Acquire(generation, frame);
      if result == Ok {
        frameHeld := false;
      }
      L.NewReaderKeepsDeferred(old(readers.model), outstanding, readers.model, next);
    }

    method RetainReadLease(source: nat) returns (result: FlResult, t: nat)
      requires Valid()
      modifies readers, readers.frames, readers.readers, readers.tokens
      ensures Valid() && result == L.RetainResult(old(readers.model), source, old(readers.tokens.next))
      ensures State() == RetainLease(old(State()), source)
      ensures result == Ok ==> t == old(readers.tokens.next)
    {
      hide R.ReadLedger.Valid, TableMatches, L.AllDeferred, ReadyPrefix, Raise;
      FreshToken();
      ghost var next := readers.tokens.next;
      result, t := readers.Retain(source);
      L.NewReaderKeepsDeferred(old(readers.model), outstanding, readers.model, next);
    }

    method CompleteReadLease(t: nat) returns (result: FlResult)
      requires Valid()
      modifies readers, readers.frames, readers.readers
      ensures Valid() && result == (if L.Live(old(readers.model), t, false) then Ok else Invalid)
      ensures State() == CompleteLease(old(State()), t)
    {
      hide R.ReadLedger.Valid, TableMatches, L.AllDeferred, ReadyPrefix, Raise;
      L.CompleteKeepsDeferred(readers.model, outstanding, t);
      result := readers.Complete(t);
    }

    /** The completion is left to a fence: the reader keeps its frame pinned and answers to nothing else. */
    method CompleteReadLeaseSyncFd(t: nat, fence: nat) returns (result: FlResult)
      requires Valid()
      modifies this`outstanding, readers, readers.readers, completions
      ensures Valid() && State() == DeferLease(old(State()), t, fence)
      ensures result == if !L.Live(old(readers.model), t, false) then Invalid
                        else if |old(outstanding)| >= L.MAX_READERS then Busy else Ok
    {
      hide R.ReadLedger.Valid, TableMatches, L.AllDeferred, ReadyPrefix, Raise;
      FullTable(completions[..], outstanding);
      var frame, gen;
      result, frame, gen := readers.Get(t);
      if result != Ok {
        return Invalid;
      }
      var i := 0;
      while i < L.MAX_READERS
        invariant i <= L.MAX_READERS && forall j :: 0 <= j < i ==> completions[j].token != 0
        invariant unchanged(this) && unchanged(readers) && unchanged(readers.readers) && unchanged(completions)
      {
        if completions[i].token == 0 {
          LiveIsNonzero(t);
          L.DeferAddsDeferred(readers.model, outstanding, t, fence);
          AddCompletion(completions[..], outstanding, i, t, fence);
          result := readers.Defer(t);
          completions[i] := Completion(t, fence);
          outstanding := outstanding[t := fence];
          assert completions[..] == old(completions[..])[i := Completion(t, fence)];
          return Ok;
        }
        i := i + 1;
      }
      result := Busy;
    }

    lemma FreshToken()
      requires readers.Valid()
      ensures readers.tokens.next !in readers.model.readers
    {
      R.Summary(readers.Rep(), readers.model, readers.tokens.next);
    }

    lemma LiveIsNonzero(t: nat)
      requires readers.Valid() && t in readers.model.readers
      ensures t != 0
    {
      R.Summary(readers.Rep(), readers.model, readers.tokens.next);
    }

    method PollLeaseCompletions(done: set<nat>)
      requires Valid()
      modifies this`outstanding, readers, readers.frames, readers.readers, completions
      ensures Valid() && State() == PollCompletions(old(State()), done)
    {
      hide R.ReadLedger.Valid, TableMatches, L.AllDeferred, ReadyPrefix, Raise;
      ghost var table, live, model := completions[..], outstanding, readers.model;
      var i := 0;
      while i < L.MAX_READERS
        invariant i <= L.MAX_READERS && Valid() && completions[i..] == table[i..]
        invariant outstanding == live - FinishedBefore(table, i, done)
        invariant readers.model == model.(readers := model.readers - FinishedBefore(table, i, done))
        invariant readers.tokens.next == old(readers.tokens.next)
      {
        FinishedStep(table, i, done);
        assert completions[i] == completions[i..][0] == table[i];
        if completions[i].token != 0 && completions[i].fence in done {
          FinishOne(i);
        }
        i := i + 1;
      }
      FinishedIsAll(table, live, done);
    }

    method FinishOne(i: nat)
      requires Valid() && i < L.MAX_READERS && completions[i].token != 0
      modifies this`outstanding, readers, readers.frames, readers.readers, completions
      ensures Valid() && completions[i + 1..] == old(completions[i + 1..])
      ensures var t := old(completions[i].token);
        outstanding == old(outstanding) - {t}
          && readers.model == old(readers.model).(readers := old(readers.model.readers) - {t})
    {
      hide R.ReadLedger.Valid, TableMatches, L.AllDeferred, ReadyPrefix, Raise;
      var t := completions[i].token;
      EntryIsOutstanding(completions[..], outstanding, i);
      DropCompletion(completions[..], outstanding, i);
      L.FinishDropsDeferred(readers.model, outstanding, t);
      var r := readers.FinishDeferred(t);
      completions[i] := NO_COMPLETION;
      outstanding := outstanding - {t};
      assert completions[..] == old(completions[..])[i := NO_COMPLETION];
    }

    /** Retires the completed prefix of the leased frames: announce, then acknowledge to the ledger. */
    method CollectReadLeases(done: set<nat>) returns (result: FlResult)
      requires Valid()
      modifies this`outstanding, this`retiredValue, this`outbox, readers, readers.frames, readers.readers, completions
      ensures Valid()
      ensures var (c, value) := CollectLeases(old(State()), done);
        && State() == c
        && outbox == old(outbox) + (if value != 0 && connected then [FrameReleased(Release(value, None))] else [])
        && result == (if value != 0 || c.ledger.frames == [] then Ok else Busy)
    {
      hide R.ReadLedger.Valid, TableMatches, L.AllDeferred, ReadyPrefix, Raise;
      PollLeaseCompletions(done);
      var gen, value := readers.Retirement();
      if value == 0 {
        var empty := readers.Empty();
        return if empty then Ok else Busy;
      }
      Send(FrameReleased(Release(value, None)));
      retiredValue := value;
      NothingPrefix(readers.model);
      L.ReadersAloneMatter(readers.model, outstanding, L.Retired(readers.model));
      result := readers.Retired(gen, value);
    }
  }

  lemma NothingPrefix(l: L.Ledger)
    ensures L.Retirement(l) != 0 ==> L.FreePrefix(l) != 0
  {
  }
}
