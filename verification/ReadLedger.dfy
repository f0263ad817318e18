/**
 * The array-backed ledger of a channel: a circular buffer of leased frames and a fixed table of readers.
 * Every operation is proved to act on the abstract queue of module Leases.
 */
module ReadLedgers {
  import opened Basics
  import opened Base
  import L = Leases

  /** The process-wide counter tokens are drawn from; shared by every ledger, never recycled. */
  class TokenSource {
    var next: nat

    constructor ()
      ensures next == 1
    {
      next := 1;
    }

    /** 0 means exhausted: the counter stops instead of wrapping into a stale token. */
    method Take() returns (t: nat)
      modifies this
      ensures old(next) < U64_MAX ==> t == old(next) && next == old(next) + 1
      ensures old(next) >= U64_MAX ==> t == 0 && next == old(next)
    {
      if next < U64_MAX {
        t := next;
        next := next + 1;
      } else {
        t := 0;
      }
    }
  }

  datatype FrameRecord = FrameRecord(frame: Frame, generation: nat, readers: int)
  datatype ReaderRecord = ReaderRecord(token: nat, frame: nat, pending: bool)

  const NO_FRAME := FrameRecord(Frame(0, 0, 0, 0, 0), 0, 0)
  const NO_READER := ReaderRecord(0, 0, false)

  function Weight(r: ReaderRecord, f: nat): nat {
    if r.token != 0 && r.frame == f then 1 else 0
  }

  /** How many of the first `n` table entries pin the frame record `f`. */
  function CountUpTo(table: seq<ReaderRecord>, n: nat, f: nat): nat
    requires n <= |table|
  {
    if n == 0 then 0 else CountUpTo(table, n - 1, f) + Weight(table[n - 1], f)
  }

  function Count(table: seq<ReaderRecord>, f: nat): nat {
    CountUpTo(table, |table|, f)
  }

  lemma {:induction false} CountUpdate(table: seq<ReaderRecord>, n: nat, i: nat, r: ReaderRecord, f: nat)
    requires i < |table| && n <= |table|
    ensures CountUpTo(table[i := r], n, f) == CountUpTo(table, n, f) + if i < n then Weight(r, f) - Weight(table[i], f)
      else 0
  {
    if n > 0 {
      CountUpdate(table, n - 1, i, r, f);
    }
  }

  lemma {:induction false} CountZero(table: seq<ReaderRecord>, n: nat, f: nat)
    requires n <= |table|
    ensures CountUpTo(table, n, f) == 0 <==> forall r :: 0 <= r < n ==> Weight(table[r], f) == 0
  {
    if n > 0 {
      CountZero(table, n - 1, f);
    }
  }

  /** Tokens of a table without repetitions. */
  ghost predicate DistinctTokens(table: seq<ReaderRecord>) {
    forall r, s :: 0 <= r < s < |table| && table[r].token != 0 ==> table[r].token != table[s].token
  }

  ghost function Tokens(table: seq<ReaderRecord>): set<nat> {
    set r | 0 <= r < |table| && table[r].token != 0 :: table[r].token
  }

  /** A table with no free entry holds as many tokens as it has entries; any other holds fewer. */
  lemma {:induction false} TokenCount(table: seq<ReaderRecord>)
    requires DistinctTokens(table)
    ensures |Tokens(table)| <= |table|
    ensures |Tokens(table)| == |table| <==> forall r :: 0 <= r < |table| ==> table[r].token != 0
  {
    if table != [] {
      var m := |table| - 1;
      var rest := table[..m];
      assert forall r :: 0 <= r < m ==> rest[r] == table[r];
      TokenCount(rest);
      var t := table[m].token;
      if t == 0 {
        assert Tokens(table) == Tokens(rest);
      } else {
        assert Tokens(table) == Tokens(rest) + {t};
        assert t !in Tokens(rest);
      }
    }
  }

  /** Circular position of the i-th queued frame, and its inverse. */
  function At(head: nat, i: nat): (p: nat)
    requires head < MAX_POOL && i <= MAX_POOL
    ensures p < MAX_POOL && p == (head + i) % MAX_POOL
    ensures i < MAX_POOL ==> Pos(head, p) == i
  {
    if head + i < MAX_POOL then head + i else head + i - MAX_POOL
  }

  function Pos(head: nat, p: nat): (i: nat)
    requires head < MAX_POOL && p < MAX_POOL
    ensures i < MAX_POOL
  {
    if p >= head then p - head else p + MAX_POOL - head
  }

  lemma PosAt(head: nat, p: nat)
    requires head < MAX_POOL && p < MAX_POOL
    ensures At(head, Pos(head, p)) == p
  {
  }

  /** The arrays and counters of a ledger, as values. */
  datatype Layout = Layout(frames: seq<FrameRecord>, table: seq<ReaderRecord>, head: nat, count: nat, generation: nat,
    last: nat)

  ghost predicate Sized(frames: seq<FrameRecord>, table: seq<ReaderRecord>, head: nat, count: nat) {
    |frames| == MAX_POOL && |table| == L.MAX_READERS && head < MAX_POOL && count <= MAX_POOL
  }

  ghost predicate QueueMatches(frames: seq<FrameRecord>, head: nat, count: nat, generation: nat, queue: seq<Frame>)
    requires |frames| == MAX_POOL && head < MAX_POOL && count <= MAX_POOL
  {
    && |queue| == count
    && forall i :: 0 <= i < count ==>
      frames[At(head, i)].frame == queue[i] && frames[At(head, i)].generation == generation
  }

  /** One used table entry against the abstract readers. */
  ghost predicate EntryMatches(frames: seq<FrameRecord>, head: nat, count: nat, e: ReaderRecord,
      readers: map<nat, L.Reader>, next: nat)
    requires |frames| == MAX_POOL && head < MAX_POOL
  {
    e.token != 0 ==>
      && e.token < next
      && e.frame < MAX_POOL && Pos(head, e.frame) < count
      && e.token in readers
      && readers[e.token] == L.Reader(frames[e.frame].frame.ready, e.pending)
  }

  ghost predicate TableMatches(frames: seq<FrameRecord>, table: seq<ReaderRecord>, head: nat, count: nat,
      readers: map<nat, L.Reader>, next: nat)
    requires |frames| == MAX_POOL && head < MAX_POOL
  {
    && DistinctTokens(table)
    && readers.Keys == Tokens(table)
    && forall r :: 0 <= r < |table| ==> EntryMatches(frames, head, count, table[r], readers, next)
  }

  ghost predicate CountsMatch(frames: seq<FrameRecord>, table: seq<ReaderRecord>, head: nat, count: nat)
    requires |frames| == MAX_POOL && head < MAX_POOL
  {
    forall f :: 0 <= f < MAX_POOL && Pos(head, f) < count ==> frames[f].readers == Count(table, f)
  }

  /** The abstraction relation. */
  ghost predicate Represents(rep: Layout, l: L.Ledger, next: nat) {
    && Sized(rep.frames, rep.table, rep.head, rep.count)
    && l.generation == rep.generation && l.last == rep.last && L.Valid(l)
    && QueueMatches(rep.frames, rep.head, rep.count, rep.generation, l.frames)
    && TableMatches(rep.frames, rep.table, rep.head, rep.count, l.readers, next)
    && CountsMatch(rep.frames, rep.table, rep.head, rep.count)
  }

  // ---- each array update against its abstract operation -----------------------------------------

  lemma FindToken(table: seq<ReaderRecord>, t: nat) returns (r: nat)
    requires t in Tokens(table)
    ensures r < |table| && table[r].token == t && t != 0
  {
    r :| 0 <= r < |table| && table[r].token != 0 && table[r].token == t;
  }

  /** What the relation says without looking into the arrays. */
  lemma Summary(rep: Layout, l: L.Ledger, next: nat)
    requires Represents(rep, l, next)
    ensures |l.frames| == rep.count && 0 !in l.readers && |l.readers| <= L.MAX_READERS
    ensures DistinctTokens(rep.table) && l.readers.Keys == Tokens(rep.table)
    ensures l.frames != [] ==> l.generation != 0
    ensures forall t :: t in l.readers ==> t < next
  {
    forall t | t in l.readers ensures t < next {
      var r := FindToken(rep.table, t);
      assert EntryMatches(rep.frames, rep.head, rep.count, rep.table[r], l.readers, next);
    }
  }

  lemma EntryAt(rep: Layout, l: L.Ledger, next: nat, r: nat)
    requires Represents(rep, l, next) && r < L.MAX_READERS && rep.table[r].token != 0
    ensures var e := rep.table[r];
      && e.token < next && e.token in l.readers && e.frame < MAX_POOL && Pos(rep.head, e.frame) < |l.frames|
      && l.readers[e.token] == L.Reader(l.frames[Pos(rep.head, e.frame)].ready, e.pending)
      && rep.frames[e.frame].frame == l.frames[Pos(rep.head, e.frame)] && rep.frames[e.frame].generation == l.generation
  {
    var e := rep.table[r];
    assert EntryMatches(rep.frames, rep.head, rep.count, e, l.readers, next);
    PosAt(rep.head, e.frame);
  }

  lemma QueuedAt(rep: Layout, l: L.Ledger, next: nat, i: nat)
    requires Represents(rep, l, next) && i < |l.frames|
    ensures rep.frames[At(rep.head, i)].frame == l.frames[i] && rep.frames[At(rep.head, i)].generation == l.generation
  {
  }

  /** A frame record has no readers exactly when no live token pins its frame. */
  lemma UnreadIffUnpinned(rep: Layout, l: L.Ledger, next: nat, i: nat)
    requires Represents(rep, l, next) && i < rep.count
    ensures rep.frames[At(rep.head, i)].readers == 0 <==> !L.Pinned(l.readers, l.frames[i].ready)
    ensures rep.frames[At(rep.head, i)].frame == l.frames[i] && rep.frames[At(rep.head, i)].generation == l.generation
  {
    var f := At(rep.head, i);
    if L.Pinned(l.readers, l.frames[i].ready) {
      PinnedIsRead(rep, l, next, i);
    } else if rep.frames[f].readers != 0 {
      ReadIsPinned(rep, l, next, i);
    }
  }

  lemma ReadIsPinned(rep: Layout, l: L.Ledger, next: nat, i: nat)
    requires Represents(rep, l, next) && i < rep.count && rep.frames[At(rep.head, i)].readers != 0
    ensures L.Pinned(l.readers, l.frames[i].ready)
  {
    var f := At(rep.head, i);
    CountZero(rep.table, |rep.table|, f);
    var r :| 0 <= r < |rep.table| && Weight(rep.table[r], f) != 0;
    EntryAt(rep, l, next, r);
    assert l.readers[rep.table[r].token].value == l.frames[i].ready;
  }

  lemma PinnedIsRead(rep: Layout, l: L.Ledger, next: nat, i: nat)
    requires Represents(rep, l, next) && i < rep.count && L.Pinned(l.readers, l.frames[i].ready)
    ensures rep.frames[At(rep.head, i)].readers != 0
  {
    hide L.ValidReaders, TableMatches, QueueMatches, EntryMatches, Tokens, DistinctTokens;
    Summary(rep, l, next);
    var t :| t in l.readers && l.readers[t].value == l.frames[i].ready;
    var r := FindToken(rep.table, t);
    EntryAt(rep, l, next, r);
    var j := Pos(rep.head, rep.table[r].frame);
    assert l.frames[j].ready == l.frames[i].ready;
    PosAt(rep.head, rep.table[r].frame);
    CountZero(rep.table, |rep.table|, rep.table[r].frame);
    assert Weight(rep.table[r], rep.table[r].frame) == 1;
  }

  /** Only the reader count of a record changes. */
  lemma RecountKeepsQueue(frames: seq<FrameRecord>, head: nat, count: nat, generation: nat, queue: seq<Frame>, f: nat,
      n: int)
    requires |frames| == MAX_POOL && head < MAX_POOL && count <= MAX_POOL && f < MAX_POOL
    requires QueueMatches(frames, head, count, generation, queue)
    ensures QueueMatches(frames[f := frames[f].(readers := n)], head, count, generation, queue)
  {
  }

  lemma RecountKeepsTable(frames: seq<FrameRecord>, table: seq<ReaderRecord>, head: nat, count: nat,
      readers: map<nat, L.Reader>, next: nat, f: nat, n: int)
    requires |frames| == MAX_POOL && head < MAX_POOL && f < MAX_POOL
    requires TableMatches(frames, table, head, count, readers, next)
    ensures TableMatches(frames[f := frames[f].(readers := n)], table, head, count, readers, next)
  {
    var frames' := frames[f := frames[f].(readers := n)];
    forall r | 0 <= r < |table| ensures EntryMatches(frames', head, count, table[r], readers, next) {
      assert EntryMatches(frames, head, count, table[r], readers, next);
    }
  }

  lemma UpdateKeepsCounts(frames: seq<FrameRecord>, table: seq<ReaderRecord>, head: nat, count: nat, r: nat,
      e: ReaderRecord, f: nat)
    requires |frames| == MAX_POOL && head < MAX_POOL && f < MAX_POOL && r < |table|
    requires CountsMatch(frames, table, head, count)
    requires forall g :: g != f ==> Weight(table[r], g) == Weight(e, g)
    ensures CountsMatch(frames[f := frames[f].(readers := frames[f].readers - Weight(table[r], f) + Weight(e, f))],
      table[r := e], head, count)
  {
    forall g | 0 <= g < MAX_POOL && Pos(head, g) < count
      ensures Count(table[r := e], g) == Count(table, g) - Weight(table[r], g) + Weight(e, g) {
      CountUpdate(table, |table|, r, e, g);
    }
  }

  lemma FreeRecordUncounted(frames: seq<FrameRecord>, table: seq<ReaderRecord>, head: nat, count: nat,
      readers: map<nat, L.Reader>, next: nat, f: nat)
    requires |frames| == MAX_POOL && head < MAX_POOL && f < MAX_POOL && count <= Pos(head, f)
    requires TableMatches(frames, table, head, count, readers, next)
    ensures Count(table, f) == 0
  {
    forall r | 0 <= r < |table| ensures Weight(table[r], f) == 0 {
      assert EntryMatches(frames, head, count, table[r], readers, next);
    }
    CountZero(table, |table|, f);
  }

  /** Writing a free record behind the queue leaves everything it stands for unchanged. */
  lemma ScratchRecord(rep: Layout, l: L.Ledger, next: nat, record: FrameRecord)
    requires Represents(rep, l, next) && rep.count < MAX_POOL
    ensures Represents(rep.(frames := rep.frames[At(rep.head, rep.count) := record]), l, next)
    ensures Count(rep.table, At(rep.head, rep.count)) == 0
  {
    var f := At(rep.head, rep.count);
    var frames' := rep.frames[f := record];
    FreeRecordUncounted(rep.frames, rep.table, rep.head, rep.count, l.readers, next, f);
    forall r | 0 <= r < |rep.table| ensures EntryMatches(frames', rep.head, rep.count, rep.table[r], l.readers, next) {
      assert EntryMatches(rep.frames, rep.head, rep.count, rep.table[r], l.readers, next);
    }
    assert QueueMatches(frames', rep.head, rep.count, rep.generation, l.frames);
  }

  /** Queueing a prepared record without readers. */
  lemma PushRecord(rep: Layout, l: L.Ledger, next: nat, generation: nat, frame: Frame)
    requires Represents(rep, l, next) && rep.count < MAX_POOL
    requires rep.frames[At(rep.head, rep.count)] == FrameRecord(frame, generation, 0)
    requires l.frames == [] || l.generation == generation
    requires L.Valid(L.Ledger(l.frames + [frame], l.readers, generation, frame.ready))
    ensures Represents(rep.(count := rep.count + 1, generation := generation, last := frame.ready),
              L.Ledger(l.frames + [frame], l.readers, generation, frame.ready), next)
  {
    var count' := rep.count + 1;
    FreeRecordUncounted(rep.frames, rep.table, rep.head, rep.count, l.readers, next, At(rep.head, rep.count));
    forall r | 0 <= r < |rep.table| ensures EntryMatches(rep.frames, rep.head, count', rep.table[r], l.readers, next) {
      assert EntryMatches(rep.frames, rep.head, rep.count, rep.table[r], l.readers, next);
    }
    PushKeepsQueue(rep.frames, rep.head, rep.count, rep.generation, l.frames, generation, frame);
    forall f | 0 <= f < MAX_POOL && Pos(rep.head, f) < count' ensures rep.frames[f].readers == Count(rep.table, f) {
      PosAt(rep.head, f);
    }
  }

  lemma PushKeepsQueue(frames: seq<FrameRecord>, head: nat, count: nat, generation: nat, queue: seq<Frame>,
      generation': nat, frame: Frame)
    requires |frames| == MAX_POOL && head < MAX_POOL && count < MAX_POOL
    requires QueueMatches(frames, head, count, generation, queue) && (queue == [] || generation == generation')
    requires frames[At(head, count)].frame == frame && frames[At(head, count)].generation == generation'
    ensures QueueMatches(frames, head, count + 1, generation', queue + [frame])
  {
  }

  /** Filling a free entry with a fresh token for the i-th queued frame. */
  lemma AddEntry(rep: Layout, l: L.Ledger, next: nat, i: nat, r: nat)
    requires Represents(rep, l, next) && i < rep.count && next != 0
    requires r < L.MAX_READERS && rep.table[r].token == 0
    requires |l.readers| < L.MAX_READERS
    ensures var f := At(rep.head, i);
      Represents(
        rep.(table := rep.table[r := ReaderRecord(next, f, false)],
             frames := rep.frames[f := rep.frames[f].(readers := rep.frames[f].readers + 1)]),
        l.(readers := l.readers[next := L.Reader(l.frames[i].ready, false)]), next + 1)
  {
    hide L.ValidQueue, L.ValidReaders, QueueMatches, TableMatches, CountsMatch, EntryMatches, CountUpTo, Tokens,
      DistinctTokens;
    Summary(rep, l, next);
    var f := At(rep.head, i);
    var e := ReaderRecord(next, f, false);
    L.AddReaderKeepsValid(l.frames, l.readers, next, L.Reader(l.frames[i].ready, false));
    QueuedAt(rep, l, next, i);
    TableAfterAdd(rep.frames, rep.table, rep.head, rep.count, l.readers, next, r, e);
    RecountKeepsTable(rep.frames, rep.table[r := e], rep.head, rep.count,
      l.readers[next := L.Reader(l.frames[i].ready, false)], next + 1, f, rep.frames[f].readers + 1);
    RecountKeepsQueue(rep.frames, rep.head, rep.count, rep.generation, l.frames, f, rep.frames[f].readers + 1);
    UpdateKeepsCounts(rep.frames, rep.table, rep.head, rep.count, r, e, f);
  }

  lemma TableAfterAdd(frames: seq<FrameRecord>, table: seq<ReaderRecord>, head: nat, count: nat,
      readers: map<nat, L.Reader>, next: nat, r: nat, e: ReaderRecord)
    requires |frames| == MAX_POOL && head < MAX_POOL && r < |table| && table[r].token == 0
    requires TableMatches(frames, table, head, count, readers, next)
    requires e.token == next != 0 && !e.pending && e.frame < MAX_POOL && Pos(head, e.frame) < count
    ensures TableMatches(frames, table[r := e], head, count,
      readers[next := L.Reader(frames[e.frame].frame.ready, false)], next + 1)
  {
    var table' := table[r := e];
    var readers' := readers[next := L.Reader(frames[e.frame].frame.ready, false)];
    forall s | 0 <= s < |table|
      ensures EntryMatches(frames, head, count, table'[s], readers', next + 1) && table[s].token != next
    {
      assert EntryMatches(frames, head, count, table[s], readers, next);
    }
    TokensAfterAdd(table, r, e);
    assert DistinctTokens(table');
  }

  lemma TokensAfterAdd(table: seq<ReaderRecord>, r: nat, e: ReaderRecord)
    requires r < |table| && table[r].token == 0 && e.token != 0
    ensures Tokens(table[r := e]) == Tokens(table) + {e.token}
  {
    var table' := table[r := e];
    forall t | t in Tokens(table) ensures t in Tokens(table') {
      var s := FindToken(table, t);
      assert table'[s].token == t;
    }
    assert table'[r].token == e.token;
  }

  /** Clearing a used entry. */
  lemma DropEntry(rep: Layout, l: L.Ledger, next: nat, r: nat)
    requires Represents(rep, l, next) && r < L.MAX_READERS && rep.table[r].token != 0
    ensures var f := rep.table[r].frame;
      f < MAX_POOL && Represents(
        rep.(table := rep.table[r := NO_READER],
             frames := rep.frames[f := rep.frames[f].(readers := rep.frames[f].readers - 1)]),
        l.(readers := l.readers - {rep.table[r].token}), next)
  {
    hide L.ValidQueue, L.ValidReaders, QueueMatches, TableMatches, CountsMatch, EntryMatches, CountUpTo, Tokens,
      DistinctTokens;
    Summary(rep, l, next);
    EntryAt(rep, l, next, r);
    var f, t := rep.table[r].frame, rep.table[r].token;
    L.DropReaderKeepsValid(l.frames, l.readers, t);
    TableAfterDrop(rep.frames, rep.table, rep.head, rep.count, l.readers, next, r);
    RecountKeepsTable(rep.frames, rep.table[r := NO_READER], rep.head, rep.count, l.readers - {t}, next, f,
      rep.frames[f].readers - 1);
    RecountKeepsQueue(rep.frames, rep.head, rep.count, rep.generation, l.frames, f, rep.frames[f].readers - 1);
    UpdateKeepsCounts(rep.frames, rep.table, rep.head, rep.count, r, NO_READER, f);
  }

  lemma TableAfterDrop(frames: seq<FrameRecord>, table: seq<ReaderRecord>, head: nat, count: nat,
      readers: map<nat, L.Reader>, next: nat, r: nat)
    requires |frames| == MAX_POOL && head < MAX_POOL && r < |table| && table[r].token != 0
    requires TableMatches(frames, table, head, count, readers, next)
    ensures TableMatches(frames, table[r := NO_READER], head, count, readers - {table[r].token}, next)
  {
    var table' := table[r := NO_READER];
    TokensAfterDrop(table, r);
    forall s | 0 <= s < |table| ensures EntryMatches(frames, head, count, table'[s], readers - {table[r].token}, next) {
      assert EntryMatches(frames, head, count, table[s], readers, next);
    }
  }

  lemma TokensAfterDrop(table: seq<ReaderRecord>, r: nat)
    requires r < |table| && table[r].token != 0 && DistinctTokens(table)
    ensures Tokens(table[r := NO_READER]) == Tokens(table) - {table[r].token}
    ensures DistinctTokens(table[r := NO_READER])
  {
    var table' := table[r := NO_READER];
    forall t | t in Tokens(table) && t != table[r].token ensures t in Tokens(table') {
      var s := FindToken(table, t);
      assert table'[s].token == t;
    }
    forall t | t in Tokens(table') ensures t in Tokens(table) && t != table[r].token {
      var s := FindToken(table', t);
      assert table[s].token == t;
    }
  }

  /** Marking a used entry as deferred. */
  lemma MarkEntry(rep: Layout, l: L.Ledger, next: nat, r: nat)
    requires Represents(rep, l, next) && r < L.MAX_READERS && rep.table[r].token != 0
    ensures rep.table[r].token in l.readers
    ensures var t := rep.table[r].token;
      Represents(rep.(table := rep.table[r := rep.table[r].(pending := true)]),
        l.(readers := l.readers[t := l.readers[t].(pending := true)]), next)
  {
    hide L.ValidQueue, L.ValidReaders, QueueMatches, TableMatches, EntryMatches;
    Summary(rep, l, next);
    EntryAt(rep, l, next, r);
    L.MarkReaderKeepsValid(l.frames, l.readers, rep.table[r].token);
    TableAfterMark(rep.frames, rep.table, rep.head, rep.count, l.readers, next, r);
    forall f | 0 <= f < MAX_POOL && Pos(rep.head, f) < rep.count
      ensures Count(rep.table[r := rep.table[r].(pending := true)], f) == Count(rep.table, f) {
      CountUpdate(rep.table, |rep.table|, r, rep.table[r].(pending := true), f);
    }
  }

  lemma TableAfterMark(frames: seq<FrameRecord>, table: seq<ReaderRecord>, head: nat, count: nat,
      readers: map<nat, L.Reader>, next: nat, r: nat)
    requires |frames| == MAX_POOL && head < MAX_POOL && r < |table| && table[r].token != 0
    requires TableMatches(frames, table, head, count, readers, next) && table[r].token in readers
    ensures var t := table[r].token;
      TableMatches(frames, table[r := table[r].(pending := true)], head, count,
        readers[t := readers[t].(pending := true)], next)
  {
    var t := table[r].token;
    var table' := table[r := table[r].(pending := true)];
    forall s | 0 <= s < |table|
      ensures EntryMatches(frames, head, count, table'[s], readers[t := readers[t].(pending := true)], next) {
      assert EntryMatches(frames, head, count, table[s], readers, next);
    }
    forall u | u in Tokens(table) ensures u in Tokens(table') {
      var s := FindToken(table, u);
      assert table'[s].token == u;
    }
    forall u | u in Tokens(table') ensures u in Tokens(table) {
      var s := FindToken(table', u);
      assert table[s].token == u;
    }
  }

  /** Popping an unread front record. */
  lemma PopRecord(rep: Layout, l: L.Ledger, next: nat)
    requires Represents(rep, l, next) && rep.count > 0 && !L.Pinned(l.readers, l.frames[0].ready)
    ensures Represents(
      rep.(frames := rep.frames[rep.head := NO_FRAME], head := (rep.head + 1) % MAX_POOL, count := rep.count - 1),
      l.(frames := l.frames[1..]), next)
  {
    hide L.ValidQueue, L.ValidReaders, QueueMatches, CountUpTo;
    Summary(rep, l, next);
    var frames', head', count' := rep.frames[rep.head := NO_FRAME], (rep.head + 1) % MAX_POOL, rep.count - 1;
    L.DropKeepsQueue(l.frames, 1, l.generation, l.last);
    PopKeepsReaders(l);
    PopKeepsQueue(rep.frames, rep.head, rep.count, rep.generation, l.frames);
    forall r | 0 <= r < |rep.table| ensures EntryMatches(frames', head', count', rep.table[r], l.readers, next) {
      assert EntryMatches(rep.frames, rep.head, rep.count, rep.table[r], l.readers, next);
      if rep.table[r].token != 0 {
        EntryAt(rep, l, next, r);
        assert rep.table[r].frame != rep.head;
      }
    }
    assert CountsMatch(frames', rep.table, head', count');
  }

  lemma PopKeepsQueue(frames: seq<FrameRecord>, head: nat, count: nat, generation: nat, queue: seq<Frame>)
    requires |frames| == MAX_POOL && head < MAX_POOL && 0 < count <= MAX_POOL
    requires QueueMatches(frames, head, count, generation, queue)
    ensures QueueMatches(frames[head := NO_FRAME], (head + 1) % MAX_POOL, count - 1, generation, queue[1..])
  {
    var head' := (head + 1) % MAX_POOL;
    forall i | 0 <= i < count - 1 ensures At(head', i) == At(head, i + 1) {
    }
  }

  lemma PopKeepsReaders(l: L.Ledger)
    requires L.Valid(l) && l.frames != [] && !L.Pinned(l.readers, l.frames[0].ready)
    ensures L.ValidReaders(l.frames[1..], l.readers)
  {
    forall t | t in l.readers ensures L.Holds(l.frames[1..], l.readers[t].value) {
      var i := L.IndexOf(l, t);
      assert i != 0;
      assert l.frames[1..][i - 1].ready == l.readers[t].value;
    }
  }

  // ---- the class ----------------------------------------------------------------------------------

  class ReadLedger {
    const frames: array<FrameRecord>
    const readers: array<ReaderRecord>
    const tokens: TokenSource
    var head: nat
    var count: nat
    var generation: nat
    var lastValue: nat
    /** What the arrays stand for. */
    ghost var model: L.Ledger

    ghost function Rep(): Layout
      reads this, frames, readers
    {
      Layout(frames[..], readers[..], head, count, generation, lastValue)
    }

    ghost predicate Valid()
      reads this, frames, readers, tokens
    {
      tokens.next >= 1 && Represents(Rep(), model, tokens.next)
    }

    constructor (tokens: TokenSource)
      requires tokens.next >= 1
      ensures Valid() && fresh(frames) && fresh(readers) && this.tokens == tokens
      ensures model == L.EMPTY_LEDGER
    {
      frames := new FrameRecord[MAX_POOL](_ => NO_FRAME);
      readers := new ReaderRecord[L.MAX_READERS](_ => NO_READER);
      this.tokens := tokens;
      head, count, generation, lastValue := 0, 0, 0, 0;
      model := L.EMPTY_LEDGER;
      new;
      assert Tokens(readers[..]) == {};
    }

    method Empty() returns (b: bool)
      requires Valid()
      ensures b <==> model.frames == []
    {
      b := count == 0;
    }

    method ResetEpoch()
      requires Valid()
      modifies this
      ensures Valid() && model == L.ResetEpoch(old(model))
    {
      if count == 0 {
        generation, lastValue := 0, 0;
        model := L.ResetEpoch(model);
        assert TableMatches(frames[..], readers[..], head, count, model.readers, tokens.next);
      }
    }

    /** Index of the entry carrying a nonzero token with the given pending mark, or the table size. */
    method Find(t: nat, pending: bool) returns (r: nat)
      requires Valid()
      ensures r <= L.MAX_READERS
      ensures r < L.MAX_READERS <==> L.Live(model, t, pending)
      ensures r < L.MAX_READERS ==> readers[r].token == t && t != 0 && readers[r].pending == pending
    {
      hide L.ValidQueue, L.ValidReaders, QueueMatches, TableMatches, CountsMatch, EntryMatches, CountUpTo, Tokens,
        DistinctTokens;
      Summary(Rep(), model, tokens.next);
      ghost var rep := Rep();
      if t == 0 {
        return L.MAX_READERS;
      }
      r := 0;
      while r < L.MAX_READERS
        invariant r <= L.MAX_READERS
        invariant forall s :: 0 <= s < r ==> readers[s].token != t || readers[s].pending != pending
      {
        if readers[r].token == t && readers[r].pending == pending {
          EntryAt(rep, model, tokens.next, r);
          return;
        }
        r := r + 1;
      }
      if t in model.readers {
        var s := FindToken(rep.table, t);
        EntryAt(rep, model, tokens.next, s);
      }
    }

    /** Registers one more reader of the i-th queued frame. */
    method AddReader(ghost i: nat, f: nat) returns (result: FlResult, t: nat)
      requires Valid() && i < count && f == At(head, i)
      modifies this, frames, readers, tokens
      ensures Valid() && head == old(head) && count == old(count)
      ensures generation == old(generation) && lastValue == old(lastValue)
      ensures result == L.AddReaderResult(old(model), old(tokens.next))
      ensures result == Ok ==> t == old(tokens.next) && tokens.next == t + 1
      ensures result == Ok ==>
        model == old(model).(readers := old(model).readers[t := L.Reader(old(model).frames[i].ready, false)])
      ensures result != Ok ==> model == old(model) && tokens.next == old(tokens.next) && Rep() == old(Rep())
    {
      hide L.ValidQueue, L.ValidReaders, QueueMatches, TableMatches, CountsMatch, EntryMatches, CountUpTo, Tokens,
        DistinctTokens;
      Summary(Rep(), model, tokens.next);
      ghost var rep := Rep();
      TokenCount(rep.table);
      var r := 0;
      while r < L.MAX_READERS
        invariant r <= L.MAX_READERS
        invariant forall s :: 0 <= s < r ==> readers[s].token != 0
      {
        if readers[r].token == 0 {
          t := tokens.Take();
          if t == 0 {
            return Internal, 0;
          }
          AddEntry(rep, model, t, i, r);
          readers[r] := ReaderRecord(t, f, false);
          frames[f] := frames[f].(readers := frames[f].readers + 1);
          model := model.(readers := model.readers[t := L.Reader(model.frames[i].ready, false)]);
          return Ok, t;
        }
        r := r + 1;
      }
      return Busy, 0;
    }

    method Acquire(gen: nat, frame: Frame) returns (result: FlResult, t: nat)
      requires Valid()
      modifies this, frames, readers, tokens
      ensures Valid()
      ensures result == L.AcquireResult(old(model), gen, frame, old(tokens.next))
      ensures model == L.Acquire(old(model), gen, frame, old(tokens.next))
      ensures result == Ok ==> t == old(tokens.next) && tokens.next == t + 1
      ensures result != Ok ==> tokens.next == old(tokens.next)
    {
      hide L.ValidQueue, L.ValidReaders, QueueMatches, TableMatches, CountsMatch, EntryMatches, CountUpTo, Tokens,
        DistinctTokens;
      Summary(Rep(), model, tokens.next);
      if gen == 0 || frame.image == 0 || frame.ready == 0 || frame.slot >= MAX_POOL {
        return Invalid, 0;
      }
      if count == MAX_POOL {
        return Busy, 0;
      }
      if generation != gen {
        if count != 0 {
          return Busy, 0;
        }
      } else if frame.ready <= lastValue {
        return Invalid, 0;
      }
      var taken := SlotQueued(frame.slot);
      if taken {
        return Busy, 0;
      }
      result, t := PushAndRead(gen, frame);
    }

    method SlotQueued(slot: nat) returns (taken: bool)
      requires Valid()
      ensures taken <==> exists i :: 0 <= i < |model.frames| && model.frames[i].slot == slot
    {
      hide L.ValidQueue, L.ValidReaders, QueueMatches, TableMatches, CountsMatch, EntryMatches, CountUpTo, Tokens,
        DistinctTokens;
      Summary(Rep(), model, tokens.next);
      var i := 0;
      while i < count
        invariant i <= count
        invariant forall j :: 0 <= j < i ==> model.frames[j].slot != slot
      {
        QueuedAt(Rep(), model, tokens.next, i);
        if frames[(head + i) % MAX_POOL].frame.slot == slot {
          assert model.frames[i].slot == slot;
          return true;
        }
        i := i + 1;
      }
      taken := false;
    }

    /** The tail of Acquire: the record is written first and taken back when no reader can be registered. */
    method PushAndRead(gen: nat, frame: Frame) returns (result: FlResult, t: nat)
      requires Valid() && count < MAX_POOL
      requires L.AcquireResult(model, gen, frame, tokens.next) == L.AddReaderResult(model, tokens.next)
      requires gen != 0 && L.ValidFrame(frame) && (model.frames == [] || model.generation == gen)
      requires model.frames != [] ==> frame.ready > model.last
      requires forall j :: 0 <= j < |model.frames| ==> model.frames[j].slot != frame.slot
      modifies this, frames, readers, tokens
      ensures Valid()
      ensures result == L.AddReaderResult(old(model), old(tokens.next))
      ensures model == L.Acquire(old(model), gen, frame, old(tokens.next))
      ensures result == Ok ==> t == old(tokens.next) && tokens.next == t + 1
      ensures result != Ok ==> tokens.next == old(tokens.next)
    {
      hide L.ValidQueue, L.ValidReaders, QueueMatches, TableMatches, CountsMatch, EntryMatches, CountUpTo, Tokens,
        DistinctTokens, L.AcquireResult, L.Valid;
      Summary(Rep(), model, tokens.next);
      AcquireGrants(model, gen, frame, tokens.next);
      ghost var before, rep := model, Rep();
      var oldGeneration, oldLast := generation, lastValue;
      var f := Push(gen, frame);
      result, t := AddReader(count - 1, f);
      if result != Ok {
        frames[f] := NO_FRAME;
        generation, lastValue, count := oldGeneration, oldLast, count - 1;
        model := before;
        assert Rep() == rep.(frames := rep.frames[f := NO_FRAME]);
        ScratchRecord(rep, model, tokens.next, NO_FRAME);
      }
    }

    /** Writes the record behind the queue and extends the queue over it. */
    method Push(gen: nat, frame: Frame) returns (f: nat)
      requires Valid() && count < MAX_POOL
      requires gen != 0 && L.ValidFrame(frame) && (model.frames == [] || model.generation == gen)
      requires model.frames != [] ==> frame.ready > model.last
      requires forall j :: 0 <= j < |model.frames| ==> model.frames[j].slot != frame.slot
      modifies this, frames
      ensures Valid() && model == L.Ledger(old(model).frames + [frame], old(model).readers, gen, frame.ready)
      ensures f == At(head, old(count)) && head == old(head) && count == old(count) + 1
      ensures Rep() == Layout(old(frames[..])[f := FrameRecord(frame, gen, 0)], old(readers[..]), head, count, gen,
        frame.ready)
    {
      hide L.ValidQueue, L.ValidReaders, QueueMatches, TableMatches, CountsMatch, EntryMatches, CountUpTo, Tokens,
        DistinctTokens, L.Valid;
      f := (head + count) % MAX_POOL;
      ghost var before, rep := model, Rep();
      Summary(rep, model, tokens.next);
      ScratchRecord(rep, model, tokens.next, FrameRecord(frame, gen, 0));
      frames[f] := FrameRecord(frame, gen, 0);
      ghost var scratch := Rep();
      assert scratch == rep.(frames := rep.frames[f := FrameRecord(frame, gen, 0)]);
      PushKeepsValid(model, gen, frame);
      PushRecord(scratch, model, tokens.next, gen, frame);
      generation, lastValue, count := gen, frame.ready, count + 1;
      model := L.Ledger(before.frames + [frame], before.readers, gen, frame.ready);
      assert Rep() == scratch.(count := rep.count + 1, generation := gen, last := frame.ready);
    }

    method Retain(source: nat) returns (result: FlResult, t: nat)
      requires Valid()
      modifies this, frames, readers, tokens
      ensures Valid()
      ensures result == L.RetainResult(old(model), source, old(tokens.next))
      ensures model == L.Retain(old(model), source, old(tokens.next))
      ensures result == Ok ==> t == old(tokens.next) && tokens.next == t + 1
      ensures result != Ok ==> tokens.next == old(tokens.next)
    {
      hide L.ValidQueue, L.ValidReaders, QueueMatches, TableMatches, CountsMatch, EntryMatches, CountUpTo, Tokens,
        DistinctTokens;
      Summary(Rep(), model, tokens.next);
      var r := Find(source, false);
      if r == L.MAX_READERS {
        return Invalid, 0;
      }
      EntryAt(Rep(), model, tokens.next, r);
      PosAt(head, readers[r].frame);
      result, t := AddReader(Pos(head, readers[r].frame), readers[r].frame);
    }

    /** The frame and generation a live token was issued for. */
    method Get(t: nat) returns (result: FlResult, frame: Frame, gen: nat)
      requires Valid()
      ensures result == (if L.Live(model, t, false) then Ok else Invalid)
      ensures result == Ok ==> frame == L.FrameOf(model, t) && gen == model.generation
    {
      hide L.ValidQueue, L.ValidReaders, QueueMatches, TableMatches, CountsMatch, EntryMatches, CountUpTo, Tokens,
        DistinctTokens;
      Summary(Rep(), model, tokens.next);
      frame, gen := NO_FRAME.frame, 0;
      var r := Find(t, false);
      if r == L.MAX_READERS {
        return Invalid, frame, gen;
      }
      EntryAt(Rep(), model, tokens.next, r);
      ghost var i := Pos(head, readers[r].frame);
      L.SameFrame(model, model, t, i, i);
      frame, gen := frames[readers[r].frame].frame, frames[readers[r].frame].generation;
      result := Ok;
    }

    method Complete(t: nat) returns (result: FlResult)
      requires Valid()
      modifies this, frames, readers
      ensures Valid() && model == L.Complete(old(model), t)
      ensures result == (if L.Live(old(model), t, false) then Ok else Invalid)
    {
      hide L.ValidQueue, L.ValidReaders, QueueMatches, TableMatches, CountsMatch, EntryMatches, CountUpTo, Tokens,
        DistinctTokens;
      var r := Find(t, false);
      if r == L.MAX_READERS {
        return Invalid;
      }
      Release(r);
      result := Ok;
    }

    method FinishDeferred(t: nat) returns (result: FlResult)
      requires Valid()
      modifies this, frames, readers
      ensures Valid() && model == L.FinishDeferred(old(model), t)
      ensures result == (if L.Live(old(model), t, true) then Ok else Invalid)
    {
      hide L.ValidQueue, L.ValidReaders, QueueMatches, TableMatches, CountsMatch, EntryMatches, CountUpTo, Tokens,
        DistinctTokens;
      var r := Find(t, true);
      if r == L.MAX_READERS {
        return Invalid;
      }
      Release(r);
      result := Ok;
    }

    /** Uncounts and clears one table entry. */
    method Release(r: nat)
      requires Valid() && r < L.MAX_READERS && readers[r].token != 0
      modifies this, frames, readers
      ensures Valid()
      ensures model == old(model).(readers := old(model).readers - {old(readers[r].token)})
    {
      hide L.ValidQueue, L.ValidReaders, QueueMatches, TableMatches, CountsMatch, EntryMatches, CountUpTo, Tokens,
        DistinctTokens;
      ghost var rep := Rep();
      DropEntry(rep, model, tokens.next, r);
      var f := readers[r].frame;
      model := model.(readers := model.readers - {readers[r].token});
      frames[f] := frames[f].(readers := frames[f].readers - 1);
      readers[r] := NO_READER;
      assert Rep()
        == rep.(table := rep.table[r := NO_READER],
        frames := rep.frames[f := rep.frames[f].(readers := rep.frames[f].readers - 1)]);
    }

    method Defer(t: nat) returns (result: FlResult)
      requires Valid()
      modifies this, readers
      ensures Valid() && model == L.Defer(old(model), t)
      ensures result == (if L.Live(old(model), t, false) then Ok else Invalid)
    {
      hide L.ValidQueue, L.ValidReaders, QueueMatches, TableMatches, CountsMatch, EntryMatches, CountUpTo, Tokens,
        DistinctTokens;
      var r := Find(t, false);
      if r == L.MAX_READERS {
        return Invalid;
      }
      MarkEntry(Rep(), model, tokens.next, r);
      model := L.Defer(model, t);
      readers[r] := readers[r].(pending := true);
      result := Ok;
    }

    /** The completed prefix ready to be announced; generation and value 0 when there is none. */
    method Retirement() returns (gen: nat, value: nat)
      requires Valid()
      ensures value == L.Retirement(model)
      ensures gen == if L.FreePrefix(model) == 0 then 0 else model.generation
    {
      hide L.ValidQueue, L.ValidReaders, QueueMatches, TableMatches, CountsMatch, EntryMatches, CountUpTo, Tokens,
        DistinctTokens;
      Summary(Rep(), model, tokens.next);
      gen, value := 0, 0;
      var i := 0;
      while i < count
        invariant i <= count
        invariant forall j :: 0 <= j < i ==> !L.Pinned(model.readers, model.frames[j].ready)
        invariant value == (if i == 0 then 0 else model.frames[i - 1].ready)
        invariant gen == if i == 0 then 0 else generation
      {
        UnreadIffUnpinned(Rep(), model, tokens.next, i);
        if frames[(head + i) % MAX_POOL].readers != 0 {
          break;
        }
        gen, value := frames[(head + i) % MAX_POOL].generation, frames[(head + i) % MAX_POOL].frame.ready;
        i := i + 1;
      }
      PrefixIs(model, i);
    }

    /** Acknowledges a retirement; a stale or foreign one changes nothing. */
    method Retired(gen: nat, value: nat) returns (result: FlResult)
      requires Valid()
      modifies this, frames
      ensures Valid()
      ensures result == Ok <==> value != 0 && value == L.Retirement(old(model)) && gen == old(model).generation
      ensures result == Ok || result == Invalid
      ensures model == if result == Ok then L.Retired(old(model)) else old(model)
    {
      hide L.ValidQueue, L.ValidReaders, QueueMatches, TableMatches, CountsMatch, EntryMatches, CountUpTo, Tokens,
        DistinctTokens;
      Summary(Rep(), model, tokens.next);
      var readyGeneration, ready := Retirement();
      if value == 0 || value != ready || gen != readyGeneration {
        return Invalid;
      }
      PopFree(value, L.FreePrefix(model));
      result := Ok;
    }

    /** Pops every unread record up to a value from the front. */
    method PopFree(value: nat, ghost k: nat)
      requires Valid() && k == L.FreePrefix(model)
      requires value == L.Retirement(model)
      modifies this, frames
      ensures Valid() && model == L.Retired(old(model))
    {
      hide L.ValidQueue, L.ValidReaders, QueueMatches, TableMatches, CountsMatch, EntryMatches, CountUpTo, Tokens,
        DistinctTokens;
      ghost var before := model;
      ghost var popped := 0;
      Summary(Rep(), model, tokens.next);
      while count > 0
        invariant Valid() && popped <= k
        invariant model == before.(frames := before.frames[popped..])
        invariant count == |before.frames| - popped
        decreases count
      {
        UnreadIffUnpinned(Rep(), model, tokens.next, 0);
        FreeFront(before, popped);
        assert model.frames[0] == before.frames[popped];
        if frames[head].readers != 0 || frames[head].frame.ready > value {
          break;
        }
        PopRecord(Rep(), model, tokens.next);
        ghost var rep := Rep();
        frames[head] := NO_FRAME;
        head := (head + 1) % MAX_POOL;
        count := count - 1;
        model := model.(frames := model.frames[1..]);
        assert Rep() == rep.(frames := rep.frames[rep.head := NO_FRAME], head := (rep.head + 1) % MAX_POOL,
          count := rep.count - 1);
        popped := popped + 1;
      }
    }
  }

  /** Past its checks, Acquire queues the frame and registers its first reader. */
  lemma AcquireGrants(l: L.Ledger, generation: nat, frame: Frame, next: nat)
    requires L.AcquireResult(l, generation, frame, next) == L.AddReaderResult(l, next)
    ensures L.AddReaderResult(l, next) != Ok ==> L.Acquire(l, generation, frame, next) == l
    ensures var granted := L.Ledger(l.frames + [frame], l.readers[next := L.Reader(frame.ready, false)], generation,
      frame.ready);
      L.AddReaderResult(l, next) == Ok ==> L.Acquire(l, generation, frame, next) == granted
  {
  }

  /** A frame is past the free prefix exactly when it is pinned or newer than the retirement. */
  lemma FreeFront(l: L.Ledger, i: nat)
    requires L.Valid(l) && i < |l.frames| && i <= L.FreePrefix(l)
    ensures i < L.FreePrefix(l) <==> !L.Pinned(l.readers, l.frames[i].ready) && l.frames[i].ready <= L.Retirement(l)
  {
    L.RetiresMaximalPrefix(l);
  }

  lemma PrefixIs(l: L.Ledger, k: nat)
    requires k <= |l.frames|
    requires forall j :: 0 <= j < k ==> !L.Pinned(l.readers, l.frames[j].ready)
    requires k < |l.frames| ==> L.Pinned(l.readers, l.frames[k].ready)
    ensures L.FreePrefix(l) == k
  {
    PrefixFromIs(l, 0, k);
  }

  lemma {:induction false} PrefixFromIs(l: L.Ledger, from: nat, k: nat)
    requires from <= k <= |l.frames|
    requires forall j :: from <= j < k ==> !L.Pinned(l.readers, l.frames[j].ready)
    requires k < |l.frames| ==> L.Pinned(l.readers, l.frames[k].ready)
    ensures L.FreePrefixFrom(l, from) == k
    decreases k - from
  {
    if from < k {
      PrefixFromIs(l, from + 1, k);
    }
  }

  lemma PushKeepsValid(l: L.Ledger, generation: nat, frame: Frame)
    requires L.Valid(l) && |l.frames| < MAX_POOL && generation != 0 && L.ValidFrame(frame)
    requires l.frames != [] ==> frame.ready > l.last
    requires forall j :: 0 <= j < |l.frames| ==> l.frames[j].slot != frame.slot
    ensures L.Valid(L.Ledger(l.frames + [frame], l.readers, generation, frame.ready))
  {
    forall t | t in l.readers ensures L.Holds(l.frames + [frame], l.readers[t].value) {
      L.StillHolds(l.frames, l.frames + [frame], l.readers[t].value);
    }
  }
}
