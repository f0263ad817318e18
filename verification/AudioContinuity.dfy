/** The receiving end: every PCM block must start exactly where the sample clock says. */
module AudioTimelines {
  import opened Basics
  import opened Quotients
  import opened SampleClock

  /**
   * `media` is the segment running time of the block, `base` the time its playback counts from, 0 for none yet;
   * `observed` says that the observer, if there is one, did not fail on the block.
   */
  datatype Block = Block(media: nat, bytes: nat, duration: nat, base: nat, observed: bool)

  datatype Timeline = Timeline(rate: nat, channels: nat, samplesEnd: nat, origin: nat, blocks: nat, invalid: bool)

  /** 16-bit samples of every channel. */
  function FrameBytes(t: Timeline): nat {
    2 * t.channels
  }

  predicate Configured(t: Timeline) {
    RateKnown(t.rate) && t.channels > 0
  }

  function Count(t: Timeline, b: Block): nat
    requires t.channels > 0
  {
    Div(b.bytes, FrameBytes(t))
  }

  /** A whole number of sample frames. */
  predicate Aligned(t: Timeline, b: Block)
    requires t.channels > 0
  {
    Times(Count(t, b), FrameBytes(t)) == b.bytes
  }

  function Fresh(rate: nat, channels: nat): Timeline {
    Timeline(rate, channels, 0, NO_TIME, 0, false)
  }

  function Anchored(t: Timeline, b: Block): Timeline {
    if t.samplesEnd == 0 && t.origin == NO_TIME then t.(origin := b.media) else t
  }

  /** The checks of one block against an anchored timeline; sample indices are 64-bit. */
  predicate Continues(t: Timeline, b: Block)
    requires Configured(t)
  {
    var count := Count(t, b);
    var last := (t.samplesEnd + count) % U64_LIMIT;
    var (r, expected) := SampleOffset(t.samplesEnd, t.rate);
    var (r', next) := SampleOffset(last, t.rate);
    && t.origin != NO_TIME && Aligned(t, b) && r.Ok? && r'.Ok?
    && next <= NO_TIME - 1 - t.origin && b.media == (t.origin + expected) % U64_LIMIT
    && b.duration == (next - expected) % U64_LIMIT
    && b.observed && (b.base != 0 ==> b.media <= NO_TIME - 1 - b.base)
  }

  function Tracked(t: Timeline, b: Block): (u: Timeline)
    requires Configured(t)
    ensures u.rate == t.rate && u.channels == t.channels
  {
    hide Continues;
    if b.media >= NO_TIME then t.(invalid := true)
    else
      var a := Anchored(t, b);
      if t.invalid || !Continues(a, b) then a.(invalid := true)
      else a.(samplesEnd := (a.samplesEnd + Count(a, b)) % U64_LIMIT, blocks := a.blocks + 1)
  }

  function TrackedAll(t: Timeline, bs: seq<Block>): (u: Timeline)
    requires Configured(t)
    ensures u.rate == t.rate && u.channels == t.channels
    decreases |bs|
  {
    hide Tracked;
    if bs == [] then t else Tracked(TrackedAll(t, bs[..|bs| - 1]), bs[|bs| - 1])
  }

  class AudioTimeline {
    const rate: nat
    const channels: nat
    var samplesEnd: nat
    var originNs: nat
    var blocks: nat
    var invalid: bool

    ghost function State(): Timeline
      reads this
    {
      Timeline(rate, channels, samplesEnd, originNs, blocks, invalid)
    }

    constructor (rate: nat, channels: nat)
      ensures State() == Fresh(rate, channels)
    {
      this.rate, this.channels := rate, channels;
      samplesEnd, originNs, blocks, invalid := 0, NO_TIME, 0, false;
    }

    /** Passes a block on, or drops it and everything after it. */
    method Track(b: Block) returns (passed: bool)
      requires Configured(State())
      modifies this
      ensures State() == Tracked(old(State()), b) && passed == !invalid
    {
      hide SampleOffset, Div, Times;
      if b.media >= NO_TIME {
        invalid := true;
        return false;
      }
      var first, count := samplesEnd, Div(b.bytes, 2 * channels);
      if first == 0 && originNs == NO_TIME {
        originNs := b.media;
      }
      var (r, expected) := SampleOffset(first, rate);
      var (r', next) := SampleOffset((first + count) % U64_LIMIT, rate);
      if originNs == NO_TIME || Times(count, 2 * channels) != b.bytes || !r.Ok? || !r'.Ok?
        || next > NO_TIME - 1 - originNs
        || b.media != (originNs + expected) % U64_LIMIT || b.duration != (next - expected) % U64_LIMIT
      {
        invalid := true;
      }
      if invalid {
        return false;
      }
      if !b.observed {
        invalid := true;
        return false;
      }
      if b.base != 0 && b.media > NO_TIME - 1 - b.base {
        invalid := true;
        return false;
      }
      samplesEnd := (first + count) % U64_LIMIT;
      blocks := blocks + 1;
      passed := true;
    }
  }

  // ---- whole streams --------------------------------------------------------------------------------

  function Samples(frame: nat, bs: seq<Block>): nat
    requires frame > 0
  {
    if bs == [] then 0 else Samples(frame, bs[..|bs| - 1]) + Div(bs[|bs| - 1].bytes, frame)
  }

  function Durations(bs: seq<Block>): nat {
    if bs == [] then 0 else Durations(bs[..|bs| - 1]) + bs[|bs| - 1].duration
  }

  /** Bytes are counted in 64 bits. */
  ghost predicate Sized(bs: seq<Block>) {
    forall k :: 0 <= k < |bs| ==> bs[k].bytes < U64_LIMIT
  }

  /** One accepted block: exact position, exact duration, no wrap-around anywhere. */
  lemma AcceptedBlock(t: Timeline, b: Block)
    requires Configured(t) && b.bytes < U64_LIMIT && Continues(t, b)
    ensures var n := t.samplesEnd + Count(t, b);
      && n < U64_LIMIT && Aligned(t, b) && t.origin < NO_TIME
      && Floor(t.samplesEnd, t.rate) <= Floor(n, t.rate) <= NO_TIME - 1 - t.origin
      && b.media == t.origin + Floor(t.samplesEnd, t.rate)
      && b.duration == Floor(n, t.rate) - Floor(t.samplesEnd, t.rate)
  {
    hide Floor, SampleOffset, Div, Times;
    var n := t.samplesEnd + Count(t, b);
    SampleOffsetExact(t.samplesEnd, t.rate);
    NoWrap(t.samplesEnd, t.rate);
    HalfSize(b.bytes, t.channels);
    SampleOffsetExact(n, t.rate);
    FloorMonotone(t.samplesEnd, n, t.rate);
    assert n % U64_LIMIT == n;
  }

  lemma HalfSize(bytes: nat, channels: nat)
    requires channels > 0
    ensures 2 * Div(bytes, 2 * channels) <= bytes
  {
    hide Times, Div;
    var q := Div(bytes, 2 * channels);
    Commute(q, 2 * channels);
    Order(2, 2 * channels, q);
    Twice(q);
  }

  lemma Twice(q: nat)
    ensures Times(2, q) == 2 * q
  {
  }

  lemma {:induction false} InvalidIsSticky(t: Timeline, bs: seq<Block>, k: nat)
    requires Configured(t) && k <= |bs| && TrackedAll(t, bs[..k]).invalid
    ensures TrackedAll(t, bs).invalid
    decreases |bs| - k
  {
    hide Continues;
    if k < |bs| {
      assert bs[..k + 1][..k] == bs[..k];
      InvalidIsSticky(t, bs, k + 1);
    } else {
      assert bs[..k] == bs;
    }
  }

  lemma PrefixAccepted(t: Timeline, bs: seq<Block>, k: nat)
    requires Configured(t) && k < |bs| && !TrackedAll(t, bs).invalid
    ensures !TrackedAll(t, bs[..k]).invalid && !Tracked(TrackedAll(t, bs[..k]), bs[k]).invalid
  {
    hide Tracked;
    if TrackedAll(t, bs[..k]).invalid {
      InvalidIsSticky(t, bs, k);
    }
    if TrackedAll(t, bs[..k + 1]).invalid {
      InvalidIsSticky(t, bs, k + 1);
    }
    assert bs[..k + 1][..k] == bs[..k];
  }

  lemma FreshIs(rate: nat, channels: nat)
    ensures Fresh(rate, channels).rate == rate && Fresh(rate, channels).channels == channels
  {
  }

  /** What accepting one block does. */
  lemma TrackedOne(t: Timeline, b: Block)
    requires Configured(t) && b.bytes < U64_LIMIT && !t.invalid && !Tracked(t, b).invalid
    ensures var a := Anchored(t, b);
      && b.media < NO_TIME && t.samplesEnd + Count(t, b) < U64_LIMIT
      && Tracked(t, b) == a.(samplesEnd := t.samplesEnd + Count(t, b), blocks := t.blocks + 1)
  {
    hide Continues, Div, Floor;
    AcceptedBlock(Anchored(t, b), b);
  }

  /** Where the timeline stands after any accepted stream. */
  lemma {:induction false} StandsAt(rate: nat, channels: nat, bs: seq<Block>)
    requires RateKnown(rate) && channels > 0 && Sized(bs)
    requires !TrackedAll(Fresh(rate, channels), bs).invalid
    ensures var t := TrackedAll(Fresh(rate, channels), bs);
      && t.blocks == |bs| && t.samplesEnd == Samples(2 * channels, bs) < U64_LIMIT
      && (bs == [] ==> t.origin == NO_TIME) && (bs != [] ==> t.origin == bs[0].media < NO_TIME)
    decreases |bs|
  {
    hide Tracked, Div;
    if bs != [] {
      var n := |bs| - 1;
      assert bs[..n + 1] == bs;
      PrefixAccepted(Fresh(rate, channels), bs, n);
      StandsAt(rate, channels, bs[..n]);
      TrackedOne(TrackedAll(Fresh(rate, channels), bs[..n]), bs[n]);
      assert bs[..n] != [] ==> bs[..n][0] == bs[0];
    }
  }

  /** The whole stream up to block `k` was accepted, and so was block `k`. */
  lemma AcceptedAt(rate: nat, channels: nat, bs: seq<Block>, k: nat)
    requires RateKnown(rate) && channels > 0 && Sized(bs) && k < |bs|
    requires !TrackedAll(Fresh(rate, channels), bs).invalid
    ensures var before, after := Samples(2 * channels, bs[..k]), Samples(2 * channels, bs[..k + 1]);
      && before <= after && Floor(before, rate) <= Floor(after, rate)
      && bs[k].media == bs[0].media + Floor(before, rate)
      && bs[k].duration == Floor(after, rate) - Floor(before, rate)
  {
    hide Continues, Div, Floor, Times, TrackedAll, Fresh;
    var start := Fresh(rate, channels);
    FreshIs(rate, channels);
    var t := TrackedAll(start, bs[..k]);
    PrefixAccepted(start, bs, k);
    StandsAt(rate, channels, bs[..k]);
    assert bs[..k + 1][..k] == bs[..k];
    AcceptedBlock(Anchored(t, bs[k]), bs[k]);
    if k == 0 {
      ZeroFloor(rate);
    } else {
      assert bs[..k][0] == bs[0];
    }
  }

  lemma ZeroFloor(rate: nat)
    requires rate > 0
    ensures Floor(0, rate) == 0
  {
    hide Div, Times;
    ZeroTimes(SECOND);
    ZeroTimes(rate);
    QuotientIs(0, rate, 0);
  }

  /**
   * Drift-free playback: in every accepted stream each block starts exactly where its predecessor ended, at the
   * floor of its sample index, and the durations add up to the floor of the total, whatever the block sizes.
   */
  lemma {:induction false} ExactlyContiguous(rate: nat, channels: nat, bs: seq<Block>)
    requires RateKnown(rate) && channels > 0 && Sized(bs)
    requires !TrackedAll(Fresh(rate, channels), bs).invalid
    ensures forall k :: 0 <= k < |bs| ==> bs[k].media == bs[0].media + Floor(Samples(2 * channels, bs[..k]), rate)
    ensures forall k :: 0 < k < |bs| ==> bs[k].media == bs[k - 1].media + bs[k - 1].duration
    ensures Durations(bs) == Floor(Samples(2 * channels, bs), rate)
    decreases |bs|
  {
    hide Continues, Floor, Samples, Tracked;
    forall k | 0 <= k < |bs| ensures bs[k].media == bs[0].media + Floor(Samples(2 * channels, bs[..k]), rate) {
      AcceptedAt(rate, channels, bs, k);
    }
    forall k | 0 < k < |bs| ensures bs[k].media == bs[k - 1].media + bs[k - 1].duration {
      AcceptedAt(rate, channels, bs, k - 1);
      AcceptedAt(rate, channels, bs, k);
    }
    DurationsAddUp(rate, channels, bs);
  }

  lemma {:induction false} DurationsAddUp(rate: nat, channels: nat, bs: seq<Block>)
    requires RateKnown(rate) && channels > 0 && Sized(bs)
    requires !TrackedAll(Fresh(rate, channels), bs).invalid
    ensures Durations(bs) == Floor(Samples(2 * channels, bs), rate)
    decreases |bs|
  {
    hide Continues, Floor, Tracked;
    if bs == [] {
      ZeroFloor(rate);
    } else {
      var n := |bs| - 1;
      assert bs[..n + 1] == bs;
      if TrackedAll(Fresh(rate, channels), bs[..n]).invalid {
        InvalidIsSticky(Fresh(rate, channels), bs, n);
      }
      DurationsAddUp(rate, channels, bs[..n]);
      AcceptedAt(rate, channels, bs, n);
    }
  }

  // ---- exactly what is accepted -----------------------------------------------------------------------

  /** Block `k` of a stream against the exact sample clock that starts with the first block. */
  predicate OnTime(rate: nat, channels: nat, bs: seq<Block>, k: nat)
    requires rate > 0 && channels > 0 && k < |bs|
  {
    var before, after := Samples(2 * channels, bs[..k]), Samples(2 * channels, bs[..k + 1]);
    && Floor(before, rate) <= Floor(after, rate) <= I64_MAX && bs[0].media + Floor(after, rate) < NO_TIME
    && bs[k].media == bs[0].media + Floor(before, rate) && bs[k].duration == Floor(after, rate) - Floor(before, rate)
    && Times(Div(bs[k].bytes, 2 * channels), 2 * channels) == bs[k].bytes
    && bs[k].observed && (bs[k].base != 0 ==> bs[k].media + bs[k].base < NO_TIME)
  }

  /** The checks of one block, without their 64-bit arithmetic. */
  lemma ContinuesExactly(t: Timeline, b: Block)
    requires Configured(t) && b.bytes < U64_LIMIT && t.origin <= NO_TIME && t.samplesEnd <= I64_MAX
    ensures Continues(t, b) <==>
      var n := t.samplesEnd + Count(t, b);
      && t.origin != NO_TIME && Aligned(t, b)
      && Floor(t.samplesEnd, t.rate) <= Floor(n, t.rate) <= I64_MAX && t.origin + Floor(n, t.rate) < NO_TIME
      && b.media == t.origin + Floor(t.samplesEnd, t.rate)
      && b.duration == Floor(n, t.rate) - Floor(t.samplesEnd, t.rate)
      && b.observed && (b.base != 0 ==> b.media + b.base < NO_TIME)
  {
    hide Floor, SampleOffset, Div, Times;
    var n := t.samplesEnd + Count(t, b);
    HalfSize(b.bytes, t.channels);
    assert n % U64_LIMIT == n;
    SampleOffsetExact(t.samplesEnd, t.rate);
    SampleOffsetExact(n, t.rate);
    FloorMonotone(t.samplesEnd, n, t.rate);
  }

  lemma NextExactly(rate: nat, channels: nat, bs: seq<Block>, k: nat)
    requires RateKnown(rate) && channels > 0 && Sized(bs) && k < |bs|
    requires !TrackedAll(Fresh(rate, channels), bs[..k]).invalid
    ensures !Tracked(TrackedAll(Fresh(rate, channels), bs[..k]), bs[k]).invalid <==> OnTime(rate, channels, bs, k)
  {
    hide Continues, Floor, Div, Times, TrackedAll, Fresh, Samples;
    FreshIs(rate, channels);
    var t := TrackedAll(Fresh(rate, channels), bs[..k]);
    StandsAt(rate, channels, bs[..k]);
    AcceptedRange(rate, channels, bs[..k]);
    SamplesSnoc(2 * channels, bs, k);
    ZeroFloor(rate);
    assert k > 0 ==> bs[..k][0] == bs[0];
    assert k == 0 ==> bs[..k] == [] && t.samplesEnd == 0 by {
      NoSamples(2 * channels);
    }
    if bs[k].media < NO_TIME {
      ContinuesExactly(Anchored(t, bs[k]), bs[k]);
    }
  }

  lemma NoSamples(frame: nat)
    requires frame > 0
    ensures Samples(frame, []) == 0
  {
  }

  lemma SamplesSnoc(frame: nat, bs: seq<Block>, k: nat)
    requires frame > 0 && k < |bs|
    ensures Samples(frame, bs[..k + 1]) == Samples(frame, bs[..k]) + Div(bs[k].bytes, frame)
  {
    assert bs[..k + 1][..k] == bs[..k];
  }

  /** The sample count of an accepted stream has a representable time. */
  lemma AcceptedRange(rate: nat, channels: nat, bs: seq<Block>)
    requires RateKnown(rate) && channels > 0 && Sized(bs) && !TrackedAll(Fresh(rate, channels), bs).invalid
    ensures Samples(2 * channels, bs) <= I64_MAX
  {
    hide Continues, Floor, Div, Times, Tracked, Fresh;
    if bs == [] {
      NoSamples(2 * channels);
    } else {
      var n := |bs| - 1;
      assert bs[..n + 1] == bs;
      FreshIs(rate, channels);
      PrefixAccepted(Fresh(rate, channels), bs, n);
      RangeOfLast(rate, channels, bs);
    }
  }

  lemma RangeOfLast(rate: nat, channels: nat, bs: seq<Block>)
    requires RateKnown(rate) && channels > 0 && Sized(bs) && bs != []
    requires var t := TrackedAll(Fresh(rate, channels), bs[..|bs| - 1]);
      !t.invalid && !Tracked(t, bs[|bs| - 1]).invalid
    ensures Samples(2 * channels, bs) <= I64_MAX
  {
    hide Floor, Div, Times, TrackedAll, Fresh;
    var n := |bs| - 1;
    FreshIs(rate, channels);
    var t := TrackedAll(Fresh(rate, channels), bs[..n]);
    StandsAt(rate, channels, bs[..n]);
    SamplesSnoc(2 * channels, bs, n);
    assert bs[..n + 1] == bs;
    TrackedOne(t, bs[n]);
    var last := t.samplesEnd + Count(t, bs[n]);
    SampleOffsetExact(last, rate);
    NoWrap(last, rate);
  }

  /**
   * A stream is passed on if and only if every block is on time: it starts exactly where the samples before it end,
   * lasts exactly its own samples, is whole, observed without failure and playable without overflow.
   */
  lemma {:induction false} AcceptsExactly(rate: nat, channels: nat, bs: seq<Block>)
    requires RateKnown(rate) && channels > 0 && Sized(bs)
    ensures !TrackedAll(Fresh(rate, channels), bs).invalid <==>
      forall k :: 0 <= k < |bs| ==> OnTime(rate, channels, bs, k)
    decreases |bs|
  {
    hide Tracked, OnTime;
    if bs == [] {
      FreshIs(rate, channels);
    } else {
      var n := |bs| - 1;
      AcceptsExactly(rate, channels, bs[..n]);
      forall k | 0 <= k < n ensures OnTime(rate, channels, bs[..n], k) <==> OnTime(rate, channels, bs, k) {
        SameTime(rate, channels, bs, n, k);
      }
      if TrackedAll(Fresh(rate, channels), bs[..n]).invalid {
        InvalidIsSticky(Fresh(rate, channels), bs, n);
      } else {
        NextExactly(rate, channels, bs, n);
      }
    }
  }

  lemma SameTime(rate: nat, channels: nat, bs: seq<Block>, n: nat, k: nat)
    requires rate > 0 && channels > 0 && k < n <= |bs|
    ensures OnTime(rate, channels, bs[..n], k) <==> OnTime(rate, channels, bs, k)
  {
    hide Floor, Times, Div, Samples;
    assert bs[..n][..k] == bs[..k] && bs[..n][..k + 1] == bs[..k + 1];
  }
}

/** The sending end: PCM may arrive with timestamps rounded by a nanosecond, never with a drift. */
module AudioSinks {
  import opened Basics
  import opened Quotients
  import opened SampleClock

  /**
   * Upstream data in stream order; times are segment running times, at most the largest signed 64-bit value or none.
   * `dtsOutside` says that the decoding time lies outside the segment.
   */
  datatype Item =
    | Pcm(running: nat, duration: nat, size: nat, discont: bool, dtsOutside: bool)
    | Gap(running: nat, duration: nat)
    | Flush

  datatype Sink = Sink(
    rate: nat, frame: nat, budget: nat,
    samples: nat, origin: nat, total: nat, blocks: nat, bytes: nat, failed: bool)

  predicate Configured(s: Sink) {
    RateKnown(s.rate) && s.frame > 0
  }

  function Distance(a: nat, b: nat): nat {
    if a > b then a - b else b - a
  }

  function Reject(s: Sink): Sink {
    s.(failed := true)
  }

  /** A discontinuity forgets the anchor; the next block sets it. */
  function Anchor(s: Sink, item: Item): Sink
    requires item.Pcm?
  {
    var t := if item.discont then s.(samples := 0, origin := NO_TIME) else s;
    if t.origin == NO_TIME then t.(origin := item.running) else t
  }

  predicate Timed(item: Item)
    requires item.Pcm?
  {
    item.running <= I64_MAX && item.duration < NO_TIME && item.duration <= NO_TIME - 1 - item.running
  }

  predicate Sized(s: Sink, item: Item)
    requires s.frame > 0 && item.Pcm?
  {
    0 < item.size <= s.budget && Times(Div(item.size, s.frame), s.frame) == item.size
  }

  /** Position and duration within one nanosecond of the sample clock counted from the anchor. */
  predicate Continues(s: Sink, item: Item)
    requires Configured(s) && item.Pcm?
  {
    var count := Div(item.size, s.frame);
    var (r, first) := SampleOffset(s.samples, s.rate);
    var (r', end) := SampleOffset(s.samples + count, s.rate);
    && count <= U64_MAX - s.samples && r.Ok? && r'.Ok? && first <= NO_TIME - 1 - s.origin
    && Distance(item.running, s.origin + first) <= 1
    && end >= first && Distance(item.duration, end - first) <= 1
  }

  /** A well-formed block behind its anchor is counted or refused. */
  function Counting(s: Sink, item: Item, ready: bool): (t: Sink)
    requires Configured(s) && item.Pcm?
    ensures t.rate == s.rate && t.frame == s.frame
  {
    if !Continues(s, item) || !ready || item.dtsOutside then Reject(s)
    else
      var count := Div(item.size, s.frame);
      s.(samples := s.samples + count, total := s.total + count, blocks := s.blocks + 1, bytes := s.bytes + item.size)
  }

  /** `ready` is the coordinator's answer to the wait for all tracks. */
  function Inspected(s: Sink, item: Item, ready: bool): (t: Sink)
    requires Configured(s)
    ensures t.rate == s.rate && t.frame == s.frame
  {
    if s.failed then s
    else match item
      case Gap(running, duration) =>
        if running > I64_MAX || duration >= NO_TIME || duration > I64_MAX - running then Reject(s)
        else s.(samples := 0, origin := running + duration)
      case Flush => Reject(s)
      case Pcm(_, _, _, _, _) =>
        if !Timed(item) || !Sized(s, item) then Reject(s) else Counting(Anchor(s, item), item, ready)
  }

  function InspectedAll(s: Sink, items: seq<Item>): (t: Sink)
    requires Configured(s)
    ensures t.rate == s.rate && t.frame == s.frame
    decreases |items|
  {
    if items == [] then s else Inspected(InspectedAll(s, items[..|items| - 1]), items[|items| - 1], true)
  }

  class AudioSink {
    const rate: nat
    const frame: nat
    const budget: nat
    var samples: nat
    var origin: nat
    var total: nat
    var blocks: nat
    var bytes: nat
    var failed: bool

    ghost function State(): Sink
      reads this
    {
      Sink(rate, frame, budget, samples, origin, total, blocks, bytes, failed)
    }

    /** The budget is the queue's worth of whole sample frames. */
    constructor (rate: nat, frame: nat, queueMs: nat)
      ensures State() == New(rate, frame, Budget(rate, queueMs, frame))
    {
      this.rate, this.frame := rate, frame;
      budget := Budget(rate, queueMs, frame);
      samples, origin, total, blocks, bytes, failed := 0, NO_TIME, 0, 0, 0, false;
    }

    method Inspect(item: Item, ready: bool) returns (passed: bool)
      requires Configured(State())
      modifies this
      ensures State() == Inspected(old(State()), item, ready)
      ensures passed == (!failed || (item.Flush? && !old(failed)))
    {
      hide SampleOffset, Div, Times, Counting, Continues;
      if failed {
        return false;
      }
      match item
      case Gap(running, duration) =>
        if running > I64_MAX || duration >= NO_TIME || duration > I64_MAX - running {
          failed := true;
          return false;
        }
        samples, origin := 0, running + duration;
        passed := true;
      case Flush =>
        failed := true;
        passed := true;
      case Pcm(running, duration, size, discont, dtsOutside) =>
        if running > I64_MAX || duration >= NO_TIME || duration > NO_TIME - 1 - running
          || size == 0 || Times(Div(size, frame), frame) != size || size > budget
        {
          failed := true;
          return false;
        }
        if discont {
          samples, origin := 0, NO_TIME;
        }
        if origin == NO_TIME {
          origin := running;
        }
        passed := Count(item, ready);
    }

    /** A well-formed block against the sample clock, its anchor being set. */
    method Count(item: Item, ready: bool) returns (passed: bool)
      requires Configured(State()) && !failed && item.Pcm?
      modifies this`samples, this`total, this`blocks, this`bytes, this`failed
      ensures State() == Counting(old(State()), item, ready) && passed == !failed
    {
      hide SampleOffset, Div, Times;
      var count := Div(item.size, frame);
      var (r, first) := SampleOffset(samples, rate);
      var (r', end) := SampleOffset(samples + count, rate);
      if count > U64_MAX - samples || !r.Ok? || !r'.Ok? || first > NO_TIME - 1 - origin
        || Distance(item.running, origin + first) > 1 || end < first || Distance(item.duration, end - first) > 1
        || !ready || item.dtsOutside
      {
        failed := true;
        return false;
      }
      samples, total, blocks, bytes := samples + count, total + count, blocks + 1, bytes + item.size;
      passed := true;
    }
  }

  // ---- no accumulation ------------------------------------------------------------------------------

  /** Blocks that follow an anchor without discontinuity or gap. */
  ghost predicate Unbroken(items: seq<Item>) {
    forall k :: 0 <= k < |items| ==> items[k].Pcm? && !items[k].discont
  }

  function Samples(frame: nat, items: seq<Item>): nat
    requires frame > 0 && forall k :: 0 <= k < |items| ==> items[k].Pcm?
  {
    if items == [] then 0 else Samples(frame, items[..|items| - 1]) + Div(items[|items| - 1].size, frame)
  }

  lemma AcceptedBlock(s: Sink, item: Item)
    requires Configured(s) && item.Pcm? && Continues(s, item)
    ensures var n := s.samples + Div(item.size, s.frame);
      && Distance(item.running, s.origin + Floor(s.samples, s.rate)) <= 1
      && Floor(s.samples, s.rate) <= Floor(n, s.rate)
      && Distance(item.duration, Floor(n, s.rate) - Floor(s.samples, s.rate)) <= 1
  {
    hide SampleOffset, Floor, Div;
    var n := s.samples + Div(item.size, s.frame);
    SampleOffsetExact(s.samples, s.rate);
    SampleOffsetExact(n, s.rate);
    FloorMonotone(s.samples, n, s.rate);
  }

  lemma {:induction false} FailureIsSticky(s: Sink, items: seq<Item>, k: nat)
    requires Configured(s) && k <= |items| && InspectedAll(s, items[..k]).failed
    ensures InspectedAll(s, items).failed
    decreases |items| - k
  {
    hide Continues, Timed, Sized;
    if k < |items| {
      assert items[..k + 1][..k] == items[..k];
      FailureIsSticky(s, items, k + 1);
    } else {
      assert items[..k] == items;
    }
  }

  /** The anchor and the sample count after any accepted unbroken run. */
  lemma {:induction false} KeepsAnchor(s: Sink, items: seq<Item>)
    requires Configured(s) && s.origin != NO_TIME && Unbroken(items) && !InspectedAll(s, items).failed
    ensures var t := InspectedAll(s, items); t.origin == s.origin && t.samples == s.samples + Samples(s.frame, items)
    decreases |items|
  {
    hide Continues, Timed, Sized, Div;
    if items != [] {
      var n := |items| - 1;
      if !InspectedAll(s, items[..n]).failed {
        KeepsAnchor(s, items[..n]);
      }
    }
  }

  /** Behind one anchor any two blocks are as far apart as the sample clock says, give or take two nanoseconds. */
  lemma KeepsDistance(s: Sink, items: seq<Item>, i: nat, j: nat)
    requires Configured(s) && s.origin != NO_TIME && Unbroken(items) && !InspectedAll(s, items).failed
      && i <= j < |items|
    ensures var si, sj := s.samples + Samples(s.frame, items[..i]), s.samples + Samples(s.frame, items[..j]);
      && Distance(items[i].running, s.origin + Floor(si, s.rate)) <= 1
      && Distance(items[j].running, s.origin + Floor(sj, s.rate)) <= 1
      && Distance(items[j].running + Floor(si, s.rate), items[i].running + Floor(sj, s.rate)) <= 2
  {
    hide Floor, Samples, InspectedAll;
    AcceptedAt(s, items, i);
    AcceptedAt(s, items, j);
  }

  lemma AcceptedAt(s: Sink, items: seq<Item>, k: nat)
    requires Configured(s) && s.origin != NO_TIME && Unbroken(items) && !InspectedAll(s, items).failed && k < |items|
    ensures Distance(items[k].running, s.origin + Floor(s.samples + Samples(s.frame, items[..k]), s.rate)) <= 1
  {
    hide Continues, Timed, Sized, Div, Floor, InspectedAll, Samples;
    var t := InspectedAll(s, items[..k]);
    PrefixAccepted(s, items, k);
    KeepsAnchor(s, items[..k]);
    AcceptedBlock(t, items[k]);
  }

  lemma PrefixAccepted(s: Sink, items: seq<Item>, k: nat)
    requires Configured(s) && k < |items| && !InspectedAll(s, items).failed
    ensures !InspectedAll(s, items[..k]).failed && !Inspected(InspectedAll(s, items[..k]), items[k], true).failed
  {
    hide Inspected;
    if InspectedAll(s, items[..k]).failed {
      FailureIsSticky(s, items, k);
    }
    if InspectedAll(s, items[..k + 1]).failed {
      FailureIsSticky(s, items, k + 1);
    }
    assert items[..k + 1][..k] == items[..k];
  }

  // ---- from a new sink, over any stream -------------------------------------------------------------

  /** A GAP or a discontinuity starts the count of samples anew. */
  predicate IsAnchor(item: Item) {
    !item.Pcm? || item.discont
  }

  /** Where the latest anchor of a stream is; the first item is one in any case. */
  function AnchorIndex(items: seq<Item>): (a: nat)
    requires items != []
    ensures a < |items| && (a == 0 || IsAnchor(items[a]))
    ensures forall m :: a < m < |items| ==> items[m].Pcm? && !items[m].discont
  {
    var n := |items| - 1;
    if n == 0 || IsAnchor(items[n]) then n else AnchorIndex(items[..n])
  }

  /** The time counted from: the end of a GAP, the start of a block. */
  function AnchorTime(items: seq<Item>): nat
    requires items != []
  {
    var anchor := items[AnchorIndex(items)];
    match anchor
    case Gap(running, duration) => running + duration
    case Pcm(running, _, _, _, _) => running
    case Flush => 0
  }

  /** The blocks counted: those behind a GAP, or from the anchoring block on. */
  function Counted(items: seq<Item>): (blocks: seq<Item>)
    requires items != []
    ensures forall k :: 0 <= k < |blocks| ==> blocks[k].Pcm?
  {
    var a := AnchorIndex(items);
    if items[a].Pcm? then items[a..] else items[a + 1..]
  }

  /** A sink before any data. */
  function New(rate: nat, frame: nat, budget: nat): Sink {
    Sink(rate, frame, budget, 0, NO_TIME, 0, 0, 0, false)
  }

  /** What the sink keeps after any accepted stream. */
  lemma {:induction false} StandsAt(rate: nat, frame: nat, budget: nat, items: seq<Item>)
    requires RateKnown(rate) && frame > 0 && items != [] && !InspectedAll(New(rate, frame, budget), items).failed
    ensures var t := InspectedAll(New(rate, frame, budget), items);
      t.origin == AnchorTime(items) < NO_TIME && t.samples == Samples(frame, Counted(items))
    decreases |items|
  {
    hide Continues, Timed, Sized, Div, SampleOffset, InspectedAll;
    var n := |items| - 1;
    var s, item := New(rate, frame, budget), items[n];
    PrefixAccepted(s, items, n);
    LastInspected(s, items);
    if n > 0 {
      StandsAt(rate, frame, budget, items[..n]);
    } else {
      NothingInspected(s, items[..n]);
    }
    if !item.Pcm? {
      assert Counted(items) == [];
      GapInspected(InspectedAll(s, items[..n]), item);
    } else {
      CountedSnoc(frame, items);
      BlockInspected(InspectedAll(s, items[..n]), item);
    }
  }

  lemma LastInspected(s: Sink, items: seq<Item>)
    requires Configured(s) && items != []
    ensures InspectedAll(s, items) == Inspected(InspectedAll(s, items[..|items| - 1]), items[|items| - 1], true)
  {
    hide Inspected;
  }

  lemma NothingInspected(s: Sink, items: seq<Item>)
    requires Configured(s) && items == []
    ensures InspectedAll(s, items) == s
  {
    hide Inspected;
  }

  lemma GapInspected(s: Sink, item: Item)
    requires Configured(s) && !item.Pcm? && !s.failed && !Inspected(s, item, true).failed
    ensures item.Gap?
    ensures var t := Inspected(s, item, true); t.samples == 0 && t.origin == item.running + item.duration < NO_TIME
  {
  }

  lemma BlockInspected(s: Sink, item: Item)
    requires Configured(s) && item.Pcm? && !s.failed && !Inspected(s, item, true).failed
    ensures var a, t := Anchor(s, item), Inspected(s, item, true);
      Continues(a, item) && t.origin == a.origin && t.samples == a.samples + Div(item.size, s.frame)
        && item.running < NO_TIME
  {
    hide Continues, Sized, Div;
  }

  /** A block joins those counted from its anchor, or anchors itself. */
  lemma CountedSnoc(frame: nat, items: seq<Item>)
    requires frame > 0 && items != [] && items[|items| - 1].Pcm?
    ensures var n := |items| - 1;
      var blocks, first := Counted(items), n == 0 || items[n].discont;
      && blocks != [] && blocks[|blocks| - 1] == items[n]
      && blocks[..|blocks| - 1] == (if first then [] else Counted(items[..n]))
      && AnchorTime(items) == (if first then items[n].running else AnchorTime(items[..n]))
      && Samples(frame, blocks) == Samples(frame, blocks[..|blocks| - 1]) + Div(items[n].size, frame)
  {
    hide Div;
    var n := |items| - 1;
    if n > 0 && !items[n].discont {
      var a := AnchorIndex(items[..n]);
      assert AnchorIndex(items) == a && items[..n][a] == items[a];
      assert items[a + 1..][..n - a - 1] == items[..n][a + 1..];
      assert items[a..][..n - a] == items[..n][a..];
    }
  }

  /**
   * The tolerance never accumulates: in every accepted stream, whatever discontinuities and GAPs it has, each block
   * starts within one nanosecond of its latest anchor plus the time of the samples counted since, and lasts within
   * one nanosecond of what its own samples take.
   */
  lemma NeverAccumulates(rate: nat, frame: nat, budget: nat, items: seq<Item>, k: nat)
    requires RateKnown(rate) && frame > 0 && !InspectedAll(New(rate, frame, budget), items).failed
    requires k < |items| && items[k].Pcm?
    ensures var upTo := items[..k + 1];
      var blocks := Counted(upTo);
      && blocks != [] && blocks[|blocks| - 1] == items[k]
      && var before, after := Samples(frame, blocks[..|blocks| - 1]), Samples(frame, blocks);
         && Distance(items[k].running, AnchorTime(upTo) + Floor(before, rate)) <= 1
         && Floor(before, rate) <= Floor(after, rate)
         && Distance(items[k].duration, Floor(after, rate) - Floor(before, rate)) <= 1
  {
    hide Continues, Timed, Sized, Div, Floor, Samples, Inspected, InspectedAll, Counted, AnchorTime, Distance;
    var s, upTo, item := New(rate, frame, budget), items[..k + 1], items[k];
    PrefixAccepted(s, items, k);
    assert upTo[..k] == items[..k] && upTo[k] == item;
    CountedSnoc(frame, upTo);
    var t := InspectedAll(s, items[..k]);
    if k > 0 {
      StandsAt(rate, frame, budget, items[..k]);
    } else {
      NothingInspected(s, items[..k]);
    }
    BlockInspected(t, item);
    NoSamples(frame);
    AcceptedBlock(Anchor(t, item), item);
  }

  lemma NoSamples(frame: nat)
    requires frame > 0
    ensures Samples(frame, []) == 0
  {
  }

  // ---- exactly what is accepted -----------------------------------------------------------------------

  /** A block against the exact sample clock: `before` samples were counted from the anchor, `after` with this one. */
  predicate OnClock(item: Item, origin: nat, before: nat, after: nat, rate: nat)
    requires item.Pcm? && rate > 0
  {
    && after <= U64_MAX && Floor(before, rate) <= Floor(after, rate) <= I64_MAX
    && origin + Floor(before, rate) < NO_TIME
    && Distance(item.running, origin + Floor(before, rate)) <= 1
    && Distance(item.duration, Floor(after, rate) - Floor(before, rate)) <= 1
  }

  lemma ContinuesExactly(s: Sink, item: Item)
    requires Configured(s) && item.Pcm? && s.origin <= NO_TIME
    ensures Continues(s, item) <==>
      OnClock(item, s.origin, s.samples, s.samples + Div(item.size, s.frame), s.rate)
  {
    hide SampleOffset, Floor, Div;
    var n := s.samples + Div(item.size, s.frame);
    SampleOffsetExact(s.samples, s.rate);
    SampleOffsetExact(n, s.rate);
    FloorMonotone(s.samples, n, s.rate);
  }

  /** A block that can be timed and sized at all: a whole number of sample frames within the budget. */
  ghost predicate WellFormedBlock(item: Item, frame: nat, budget: nat)
    requires item.Pcm?
  {
    && item.running <= I64_MAX && item.duration < NO_TIME && item.running + item.duration < NO_TIME
    && 0 < item.size <= budget && (exists n: nat {:trigger Times(n, frame)} :: Times(n, frame) == item.size)
    && !item.dtsOutside
  }

  lemma WholeFrames(size: nat, frame: nat)
    requires frame > 0
    ensures Times(Div(size, frame), frame) == size <==>
      exists n: nat {:trigger Times(n, frame)} :: Times(n, frame) == size
  {
    hide Times, Div;
    if n: nat :| Times(n, frame) == size {
      QuotientIs(size, frame, n);
    }
  }

  /** What item `k` of a stream has to be, given everything before it. */
  ghost predicate Fits(rate: nat, frame: nat, budget: nat, items: seq<Item>, k: nat)
    requires rate > 0 && frame > 0 && k < |items|
  {
    match items[k]
    case Flush => false
    case Gap(running, duration) => running <= I64_MAX && duration < NO_TIME && running + duration <= I64_MAX
    case Pcm(_, _, _, _, _) =>
      var upTo := items[..k + 1];
      var blocks := Counted(upTo);
      && WellFormedBlock(items[k], frame, budget) && blocks != []
      && OnClock(items[k], AnchorTime(upTo), Samples(frame, blocks[..|blocks| - 1]), Samples(frame, blocks), rate)
  }

  lemma GapExactly(s: Sink, item: Item)
    requires Configured(s) && item.Gap? && !s.failed
    ensures !Inspected(s, item, true).failed <==>
      item.running <= I64_MAX && item.duration < NO_TIME && item.running + item.duration <= I64_MAX
  {
  }

  lemma BlockExactly(s: Sink, item: Item, ready: bool)
    requires Configured(s) && item.Pcm? && !s.failed && s.origin <= NO_TIME
    ensures var a := Anchor(s, item);
      !Inspected(s, item, ready).failed <==>
        && ready && WellFormedBlock(item, s.frame, s.budget)
        && OnClock(item, a.origin, a.samples, a.samples + Div(item.size, s.frame), s.rate)
  {
    hide Continues, OnClock, Times, Div;
    WholeFrames(item.size, s.frame);
    if item.running <= I64_MAX {
      ContinuesExactly(Anchor(s, item), item);
    }
  }

  /** One more item after an accepted stream. */
  lemma NextExactly(rate: nat, frame: nat, budget: nat, items: seq<Item>, k: nat)
    requires RateKnown(rate) && frame > 0 && k < |items|
    requires !InspectedAll(New(rate, frame, budget), items[..k]).failed
    ensures !Inspected(InspectedAll(New(rate, frame, budget), items[..k]), items[k], true).failed <==>
      Fits(rate, frame, budget, items, k)
  {
    hide Inspected, InspectedAll, WellFormedBlock, OnClock, Counted, AnchorTime, Samples, Div;
    var s, upTo, item := New(rate, frame, budget), items[..k + 1], items[k];
    var t := InspectedAll(s, items[..k]);
    BudgetStays(s, items[..k]);
    if k > 0 {
      StandsAt(rate, frame, budget, items[..k]);
    } else {
      NothingInspected(s, items[..k]);
    }
    match item
    case Flush => FlushFails(t, item);
    case Gap(_, _) => GapExactly(t, item);
    case Pcm(_, _, _, _, _) =>
      assert upTo[..k] == items[..k] && upTo[k] == item;
      CountedSnoc(frame, upTo);
      NoSamples(frame);
      BlockExactly(t, item, true);
  }

  lemma FlushFails(s: Sink, item: Item)
    requires Configured(s) && item.Flush?
    ensures Inspected(s, item, true).failed
  {
  }

  lemma {:induction false} BudgetStays(s: Sink, items: seq<Item>)
    requires Configured(s)
    ensures InspectedAll(s, items).budget == s.budget
    decreases |items|
  {
    hide Continues, Timed, Sized, Div;
    if items != [] {
      BudgetStays(s, items[..|items| - 1]);
    }
  }

  /**
   * A stream is accepted if and only if every item fits: GAPs in range, no flush, and each block well formed and within
   * one nanosecond of the sample clock counted from its latest anchor, in position and in duration.
   */
  lemma {:induction false} AcceptsExactly(rate: nat, frame: nat, budget: nat, items: seq<Item>)
    requires RateKnown(rate) && frame > 0
    ensures !InspectedAll(New(rate, frame, budget), items).failed <==>
      forall k :: 0 <= k < |items| ==> Fits(rate, frame, budget, items, k)
    decreases |items|
  {
    hide Inspected, InspectedAll, Fits;
    var s := New(rate, frame, budget);
    if items == [] {
      NothingInspected(s, items);
    } else {
      var n := |items| - 1;
      AcceptsExactly(rate, frame, budget, items[..n]);
      LastInspected(s, items);
      forall k | 0 <= k < n
        ensures Fits(rate, frame, budget, items[..n], k) <==> Fits(rate, frame, budget, items, k) {
        SameFit(rate, frame, budget, items, n, k);
      }
      if InspectedAll(s, items[..n]).failed {
        assert items[..n] == items[..|items| - 1];
        FailureIsSticky(s, items, n);
      } else {
        NextExactly(rate, frame, budget, items, n);
      }
    }
  }

  lemma SameFit(rate: nat, frame: nat, budget: nat, items: seq<Item>, n: nat, k: nat)
    requires rate > 0 && frame > 0 && k < n <= |items|
    ensures Fits(rate, frame, budget, items[..n], k) <==> Fits(rate, frame, budget, items, k)
  {
    hide OnClock, WellFormedBlock, Counted, AnchorTime, Samples;
    assert items[..n][..k + 1] == items[..k + 1];
  }

  // ---- the terminal accounting ------------------------------------------------------------------------

  function Blocks(items: seq<Item>): nat {
    if items == [] then 0 else Blocks(items[..|items| - 1]) + if items[|items| - 1].Pcm? then 1 else 0
  }

  function Bytes(items: seq<Item>): nat {
    if items == [] then 0
    else Bytes(items[..|items| - 1]) + if items[|items| - 1].Pcm? then items[|items| - 1].size else 0
  }

  /** Whatever anchors the stream has, the totals count every block and byte accepted. */
  lemma {:induction false} TotalsAreExact(rate: nat, frame: nat, budget: nat, items: seq<Item>)
    requires RateKnown(rate) && frame > 0 && !InspectedAll(New(rate, frame, budget), items).failed
    ensures var t := InspectedAll(New(rate, frame, budget), items);
      t.blocks == Blocks(items) && t.bytes == Bytes(items) && Times(t.total, frame) == Bytes(items)
    decreases |items|
  {
    hide Continues, Timed, Times, Div;
    if items == [] {
      ZeroTimes(frame);
    } else {
      var n := |items| - 1;
      var s := New(rate, frame, budget);
      PrefixAccepted(s, items, n);
      TotalsAreExact(rate, frame, budget, items[..n]);
      var t := InspectedAll(s, items[..n]);
      if items[n].Pcm? {
        Distribute(t.total, Div(items[n].size, frame), frame);
      }
    }
  }
}
