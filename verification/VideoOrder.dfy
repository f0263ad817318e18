/**
 * Exactly when the source keeps the order of GAPs and frames: when the buffers rendered have pairwise different
 * running times. A barrier names a time only, so the barrier of a dropped buffer passes for that of a later one.
 */
module VideoOrder {
  import opened Basics
  import opened VideoEvents

  /** The running times of the buffers the sink is given. */
  function RenderTimes(steps: seq<Step>): seq<nat> {
    if steps == [] then [] else TimeOf(steps[0]) + RenderTimes(steps[1..])
  }

  function TimeOf(step: Step): seq<nat> {
    if step.Render? then [step.pts] else []
  }

  predicate Distinct(times: seq<nat>) {
    forall i, j :: 0 <= i < j < |times| ==> times[i] != times[j]
  }

  /** What left the source follows the sink's order, completely so at EOS. */
  ghost predicate Ordered(s: State) {
    s.source.out <= Log(s.history) && (s.source.status == Eos ==> s.source.out == Log(s.history))
  }

  lemma {:induction false} TimesConcat(a: seq<Step>, b: seq<Step>)
    ensures RenderTimes(a + b) == RenderTimes(a) + RenderTimes(b)
    decreases |a|
  {
    if a == [] {
      assert a + b == b;
    } else {
      hide TimeOf;
      TimesConcat(a[1..], b);
      assert (a + b)[1..] == a[1..] + b;
      assert RenderTimes(a + b) == TimeOf(a[0]) + RenderTimes(a[1..] + b);
      Reassociate(TimeOf(a[0]), RenderTimes(a[1..]), RenderTimes(b));
    }
  }

  // ---- distinct times suffice -----------------------------------------------------------------------

  lemma {:induction false} RenderIsTimed(steps: seq<Step>, i: nat) returns (k: nat)
    requires i < |steps| && steps[i].Render?
    ensures k < |RenderTimes(steps)| && RenderTimes(steps)[k] == steps[i].pts
    ensures k == |RenderTimes(steps[..i])|
  {
    assert steps == steps[..i] + steps[i..];
    TimesConcat(steps[..i], steps[i..]);
    k := |RenderTimes(steps[..i])|;
  }

  lemma DistinctSteps(steps: seq<Step>)
    requires Distinct(RenderTimes(steps))
    ensures DistinctRenders(steps)
  {
    hide RenderTimes;
    forall i, j | 0 <= i < j < |steps| && steps[i].Render? && steps[j].Render? ensures steps[i].pts != steps[j].pts {
      var k := RenderIsTimed(steps, i);
      var l := RenderIsTimed(steps, j);
      EarlierRender(steps, i, j);
    }
  }

  lemma EarlierRender(steps: seq<Step>, i: nat, j: nat)
    requires i < j < |steps| && steps[i].Render?
    ensures |RenderTimes(steps[..i])| < |RenderTimes(steps[..j])|
  {
    assert steps[..j] == steps[..i] + steps[i..j];
    TimesConcat(steps[..i], steps[i..j]);
  }

  // ---- a repeated time does not ---------------------------------------------------------------------

  /** Buffers the ring has no room for. */
  function Drops(times: seq<nat>): (steps: seq<Step>)
    ensures |steps| == |times|
    ensures forall i :: 0 <= i < |steps| ==> steps[i] == Render(times[i], false, false)
  {
    seq(|times|, i requires 0 <= i < |times| => Render(times[i], false, false))
  }

  function Barriers(times: seq<nat>): (h: seq<Did>)
    ensures |h| == |times|
    ensures forall i :: 0 <= i < |h| ==> h[i] == DidBarrier(times[i])
  {
    seq(|times|, i requires 0 <= i < |times| => DidBarrier(times[i]))
  }

  lemma {:induction false} DropTimes(times: seq<nat>)
    ensures RenderTimes(Drops(times)) == times
  {
    if times != [] {
      assert Drops(times)[1..] == Drops(times[1..]);
      DropTimes(times[1..]);
    }
  }

  lemma {:induction false} BarriersOnly(times: seq<nat>)
    ensures Log(Barriers(times)) == [] && |Events(Barriers(times))| == |times|
    ensures forall i :: 0 <= i < |times| ==> Events(Barriers(times))[i] == BarrierEvent(times[i])
  {
    if times != [] {
      var n := |times| - 1;
      assert Barriers(times)[..n] == Barriers(times[..n]);
      BarriersOnly(times[..n]);
    }
  }

  /** A sink that has submitted nothing sends a barrier for every buffer it drops. */
  lemma {:induction false} DropAll(s: State, times: seq<nat>)
    requires s.source.status == Running && !s.sink.ended && s.sink.frames == 0
    ensures Run(s, Drops(times)) == s.(
      sink := s.sink.(gapPending := s.sink.gapPending || times != []),
      history := s.history + Barriers(times), eventWire := s.eventWire + Events(Barriers(times)))
    decreases |times|
  {
    hide Events, Frames;
    if times == [] {
      NoItems();
      assert Barriers(times) == [] && s.history + [] == s.history && s.eventWire + [] == s.eventWire;
    } else {
      var t, rest := times[0], times[1..];
      assert Drops(times)[1..] == Drops(rest);
      var items := [DidBarrier(t)];
      assert RenderedItems(s.sink, t, false, false) == items;
      Singles(DidBarrier(t));
      var s' := Apply(s, Render(t, false, false));
      assert s' == s.(sink := s.sink.(gapPending := true), history := s.history + items, eventWire := s.eventWire
        + Events(items)) by {
        assert s.frameWire + [] == s.frameWire;
      }
      DropAll(s', rest);
      assert Barriers(times) == items + Barriers(rest);
      EventsSplit(items, Barriers(rest));
      Reassociate(s.history, items, Barriers(rest));
      Reassociate(s.eventWire, Events(items), Events(Barriers(rest)));
    }
  }

  /** Whatever the sink drops, the log and the source stay. */
  lemma {:induction false} DropsAddNothing(s: State, times: seq<nat>)
    requires s.source.status == Running
    ensures Run(s, Drops(times)).source == s.source && Log(Run(s, Drops(times)).history) == Log(s.history)
    decreases |times|
  {
    hide Log;
    if times != [] {
      var step := Drops(times)[0];
      assert Drops(times)[1..] == Drops(times[1..]);
      DropAddsNothing(s, times[0]);
      DropsAddNothing(Apply(s, step), times[1..]);
    }
  }

  lemma DropAddsNothing(s: State, t: nat)
    requires s.source.status == Running
    ensures var s' := Apply(s, Render(t, false, false)); s'.source == s.source && Log(s'.history) == Log(s.history)
  {
    hide Log, Events, Frames;
    var items := RenderedItems(s.sink, t, false, false);
    NoItems();
    Singles(DidBarrier(t));
    LogSplit(s.history, items);
    assert items == [] || items == [DidBarrier(t)];
  }

  /** Reading one event and receiving it, `n` times. */
  function Reads(n: nat): seq<Step> {
    if n == 0 then [] else [ReadEvent, ReceiveEvent(None)] + Reads(n - 1)
  }

  lemma {:induction false} ReadTimes(n: nat)
    ensures RenderTimes(Reads(n)) == []
  {
    if n > 0 {
      ReadTimes(n - 1);
      TimesConcat([ReadEvent, ReceiveEvent(None)], Reads(n - 1));
      assert [ReadEvent, ReceiveEvent(None)][1..] == [ReceiveEvent(None)];
    }
  }

  /** The first barrier of the awaited time ends the wait; those before it are skipped. */
  lemma {:induction false} FirstBarrier(s: State, f: VFrame, n: nat)
    requires s.source.status == Running && s.source.phase == AwaitBarrier(f) && s.queue == [] && n < |s.eventWire|
    requires forall i :: 0 <= i < n ==> s.eventWire[i].BarrierEvent? && s.eventWire[i].pts != f.pts
    requires s.eventWire[n] == BarrierEvent(f.pts)
    ensures Run(s, Reads(n + 1)) == s.(eventWire := s.eventWire[n + 1..], source := Accept(s.source, f))
    decreases n
  {
    hide Apply;
    RunTwo(s, ReadEvent, ReceiveEvent(None));
    RunConcat(s, [ReadEvent, ReceiveEvent(None)], Reads(n));
    ReadOne(s, f);
    if n > 0 {
      var s' := s.(eventWire := s.eventWire[1..]);
      FirstBarrier(s', f, n - 1);
      assert s'.eventWire[n..] == s.eventWire[n + 1..];
    }
  }

  lemma ReadOne(s: State, f: VFrame)
    requires s.source.status == Running && s.source.phase == AwaitBarrier(f) && s.queue == []
    requires s.eventWire != [] && s.eventWire[0].BarrierEvent?
    ensures Apply(Apply(s, ReadEvent), ReceiveEvent(None)) ==
      s.(eventWire := s.eventWire[1..], source := if s.eventWire[0].pts == f.pts then Accept(s.source, f) else s.source)
  {
  }

  lemma {:induction false} RunTwo(s: State, a: Step, b: Step)
    ensures Run(s, [a, b]) == Apply(Apply(s, a), b)
  {
    hide Apply;
    assert [a, b][1..] == [b] && [b][1..] == [];
    assert Run(Apply(s, a), [b]) == Run(Apply(Apply(s, a), b), []);
  }

  /** A GAP and then the only buffer submitted, sent by a sink that had dropped all before; the source takes it. */
  function Submission(g: nat, d: nat, t: nat): seq<Step> {
    [Gap(g, d), Render(t, false, true)] + [DeliverFrame, TakeFrame]
  }

  function Sent(h: seq<Did>, g: nat, d: nat, t: nat): seq<Did> {
    h + [DidGap(g, d)] + [DidBarrier(t), DidFrame(VFrame(t, true))]
  }

  lemma SubmitLast(s: State, g: nat, d: nat, t: nat)
    requires s == START.(sink := s.sink, history := s.history, eventWire := s.eventWire)
    requires !s.sink.ended && s.sink.frames == 0 && d > 0
    ensures var u := Run(s, Submission(g, d, t));
      && u.history == Sent(s.history, g, d, t) && u.queue == [] && s.eventWire <= u.eventWire
      && u.source == START.source.(sequence := 1, phase := AwaitBarrier(VFrame(t, true)))
  {
    hide Apply, Run, Events, Frames;
    RunConcat(s, [Gap(g, d), Render(t, false, true)], [DeliverFrame, TakeFrame]);
    RunTwo(s, Gap(g, d), Render(t, false, true));
    SubmitAfterGap(s, g, d, t);
    var v := Apply(Apply(s, Gap(g, d)), Render(t, false, true));
    RunTwo(v, DeliverFrame, TakeFrame);
    TakeOnly(v, VFrame(t, true));
  }

  lemma SubmitAfterGap(s: State, g: nat, d: nat, t: nat)
    requires s == START.(sink := s.sink, history := s.history, eventWire := s.eventWire)
    requires !s.sink.ended && s.sink.frames == 0 && d > 0
    ensures var v := Apply(Apply(s, Gap(g, d)), Render(t, false, true));
      && v.history == Sent(s.history, g, d, t) && v.frameWire == [VFrame(t, true)] && s.eventWire <= v.eventWire
      && v == START.(sink := v.sink, history := v.history, frameWire := v.frameWire, eventWire := v.eventWire)
  {
    hide Events, Frames;
    var f := DidFrame(VFrame(t, true));
    Singles(DidGap(g, d));
    Singles(DidBarrier(t));
    Singles(f);
    FramesSplit([DidBarrier(t)], [f]);
    var w := Apply(s, Gap(g, d));
    assert w == s.(sink := s.sink.(gapPending := true), history := s.history + [DidGap(g, d)], eventWire := s.eventWire
      + [GapEvent(g, d)]);
    assert RenderedItems(w.sink, t, false, true) == [DidBarrier(t)] + [f];
    assert [DidBarrier(t)] + [f] == [DidBarrier(t), f];
  }

  lemma TakeOnly(v: State, f: VFrame)
    requires v == START.(sink := v.sink, history := v.history, frameWire := [f], eventWire := v.eventWire) && f.discont
    ensures var u := Apply(Apply(v, DeliverFrame), TakeFrame);
      && u.history == v.history && u.queue == [] && u.eventWire == v.eventWire
      && u.source == START.source.(sequence := 1, phase := AwaitBarrier(f))
  {
  }

  lemma SentLog(times: seq<nat>, g: nat, d: nat, t: nat)
    ensures Log(Sent(Barriers(times), g, d, t)) == [OutGap(g, d), OutFrame(t)]
  {
    hide Log;
    var b, f := DidBarrier(t), DidFrame(VFrame(t, true));
    BarriersOnly(times);
    Singles(DidGap(g, d));
    Singles(b);
    Singles(f);
    assert [b, f] == [b] + [f];
    LogSplit([b], [f]);
    LogSplit(Barriers(times), [DidGap(g, d)]);
    LogSplit(Barriers(times) + [DidGap(g, d)], [b, f]);
  }

  /** The first place a value occurs. */
  function FirstOf(times: seq<nat>, t: nat): (k: nat)
    requires t in times
    ensures k < |times| && times[k] == t && forall i :: 0 <= i < k ==> times[i] != t
  {
    if times[0] == t then 0 else 1 + FirstOf(times[1..], t)
  }

  /** Drop some buffers, submit another of a time dropped before behind a GAP, and let the source push it. */
  function Twin(dropped: seq<nat>, t: nat, g: nat, d: nat): seq<Step>
    requires t in dropped
  {
    Drops(dropped) + Submission(g, d, t) + (Reads(FirstOf(dropped, t) + 1) + [PushBuffer(None)])
  }

  /** The same with the second of two buffers of one time, all others dropped. */
  function SwapSteps(times: seq<nat>, j: nat, g: nat, d: nat): seq<Step>
    requires j < |times| && times[j] in times[..j]
  {
    Twin(times[..j], times[j], g, d) + Drops(times[j + 1..])
  }

  lemma TwinTimes(dropped: seq<nat>, t: nat, g: nat, d: nat)
    requires t in dropped
    ensures RenderTimes(Twin(dropped, t, g, d)) == dropped + [t]
  {
    hide RenderTimes, Reads, Drops, Submission;
    var a, b, n := Drops(dropped), Submission(g, d, t), FirstOf(dropped, t) + 1;
    TimesConcat(a + b, Reads(n) + [PushBuffer(None)]);
    TimesConcat(a, b);
    TimesConcat(Reads(n), [PushBuffer(None)]);
    ReadTimes(n);
    DropTimes(dropped);
    SubmissionTimes(g, d, t);
  }

  lemma SwapTimes(times: seq<nat>, j: nat, g: nat, d: nat)
    requires j < |times| && times[j] in times[..j]
    ensures RenderTimes(SwapSteps(times, j, g, d)) == times
  {
    hide RenderTimes, Twin, Drops;
    TimesConcat(Twin(times[..j], times[j], g, d), Drops(times[j + 1..]));
    TwinTimes(times[..j], times[j], g, d);
    DropTimes(times[j + 1..]);
    assert times == times[..j] + [times[j]] + times[j + 1..];
  }

  lemma SubmissionTimes(g: nat, d: nat, t: nat)
    ensures RenderTimes(Submission(g, d, t)) == [t] && RenderTimes([PushBuffer(None)]) == []
  {
    TimesConcat([Gap(g, d)], [Render(t, false, true)]);
    TimesConcat([DeliverFrame], [TakeFrame]);
    assert [Gap(g, d), Render(t, false, true)] == [Gap(g, d)] + [Render(t, false, true)];
    assert [DeliverFrame, TakeFrame] == [DeliverFrame] + [TakeFrame];
    TimesConcat([Gap(g, d), Render(t, false, true)], [DeliverFrame, TakeFrame]);
  }

  ghost predicate Barred(wire: seq<Event>, times: seq<nat>) {
    |times| <= |wire| && forall i :: 0 <= i < |times| ==> wire[i] == BarrierEvent(times[i])
  }

  lemma Dropped(times: seq<nat>)
    ensures var s := Run(START, Drops(times));
      && s == START.(sink := s.sink, history := Barriers(times), eventWire := s.eventWire)
      && !s.sink.ended && s.sink.frames == 0 && Barred(s.eventWire, times)
  {
    hide Run, Events, Drops, Apply, Barriers;
    DropAll(START, times);
    BarriersOnly(times);
  }

  lemma TwinWaits(dropped: seq<nat>, t: nat, g: nat, d: nat)
    requires d > 0
    ensures var s := Run(START, Drops(dropped) + Submission(g, d, t));
      && s.source == START.source.(sequence := 1, phase := AwaitBarrier(VFrame(t, true))) && s.queue == []
      && Barred(s.eventWire, dropped) && Log(s.history) == [OutGap(g, d), OutFrame(t)]
  {
    hide Run, Log, Submission, Sent, Drops, Apply, Barriers;
    RunConcat(START, Drops(dropped), Submission(g, d, t));
    Dropped(dropped);
    SubmitLast(Run(START, Drops(dropped)), g, d, t);
    SentLog(dropped, g, d, t);
  }

  lemma TwinSwaps(dropped: seq<nat>, t: nat, g: nat, d: nat)
    requires t in dropped && d > 0
    ensures var s := Run(START, Twin(dropped, t, g, d));
      s.source.status == Running && s.source.out == [OutFrame(t)] && Log(s.history) == [OutGap(g, d), OutFrame(t)]
  {
    hide Run, Log, Reads, Submission, Drops, Apply;
    var a, n := Drops(dropped) + Submission(g, d, t), FirstOf(dropped, t);
    RunConcat(START, a, Reads(n + 1) + [PushBuffer(None)]);
    TwinWaits(dropped, t, g, d);
    PushTwin(Run(START, a), VFrame(t, true), n);
  }

  lemma PushTwin(s: State, f: VFrame, n: nat)
    requires s.source == START.source.(sequence := 1, phase := AwaitBarrier(f)) && s.queue == [] && n < |s.eventWire|
    requires forall i :: 0 <= i < n ==> s.eventWire[i].BarrierEvent? && s.eventWire[i].pts != f.pts
    requires s.eventWire[n] == BarrierEvent(f.pts)
    ensures var u := Run(s, Reads(n + 1) + [PushBuffer(None)]);
      u.source.status == Running && u.source.out == [OutFrame(f.pts)] && u.history == s.history
  {
    hide Run, Reads, Apply;
    RunConcat(s, Reads(n + 1), [PushBuffer(None)]);
    FirstBarrier(s, f, n);
    PushOnly(Run(s, Reads(n + 1)), f);
  }

  /**
   * Two buffers with one running time can swap a GAP and a frame, whatever the times, the GAP and the buffers around
   * them: the frame leaves on the barrier of its dropped twin, before a GAP that precedes it.
   */
  lemma EqualTimesMaySwap(times: seq<nat>, j: nat, g: nat, d: nat)
    requires j < |times| && times[j] in times[..j] && d > 0
    ensures RenderTimes(SwapSteps(times, j, g, d)) == times
    ensures var s := Run(START, SwapSteps(times, j, g, d));
      && s.source.status == Running && s.source.out == [OutFrame(times[j])]
      && Log(s.history) == [OutGap(g, d), OutFrame(times[j])]
  {
    hide Run, Log, RenderTimes, Twin, Drops, Apply;
    SwapTimes(times, j, g, d);
    var steps, rest := Twin(times[..j], times[j], g, d), times[j + 1..];
    RunConcat(START, steps, Drops(rest));
    TwinSwaps(times[..j], times[j], g, d);
    DropsAddNothing(Run(START, steps), rest);
  }

  lemma PushOnly(s: State, f: VFrame)
    requires s.source.status == Running && s.source.out == [] && s.source.gaps == [] && s.source.delivery == Some(f)
    ensures var u := Run(s, [PushBuffer(None)]);
      u.source.status == Running && u.source.out == [OutFrame(f.pts)] && u.history == s.history
  {
    assert [PushBuffer(None)][1..] == [];
    assert Run(s, [PushBuffer(None)]) == Run(Apply(s, PushBuffer(None)), []);
  }

  /** The shortest instance: both buffers at time 7. */
  lemma TwinsSwap() returns (steps: seq<Step>)
    ensures RenderTimes(steps) == [7, 7] && !Ordered(Run(START, steps))
  {
    hide Run, Log, RenderTimes;
    var times: seq<nat> := [7, 7];
    assert times[..1] == [7];
    EqualTimesMaySwap(times, 1, 8, 1);
    steps := SwapSteps(times, 1, 8, 1);
    SwapIsDisorder(8, 1, 7);
  }

  lemma SwapIsDisorder(g: nat, d: nat, t: nat)
    ensures !([OutFrame(t)] <= [OutGap(g, d), OutFrame(t)])
  {
    assert [OutFrame(t)][0] != [OutGap(g, d), OutFrame(t)][0];
  }

  /**
   * The order theorem and its converse, over what the sink is given: every run over buffers of these times keeps the
   * order of GAPs and frames if and only if the times are pairwise different.
   */
  lemma OrderExactlyForDistinctTimes(times: seq<nat>)
    ensures (forall steps :: RenderTimes(steps) == times ==> Ordered(Run(START, steps))) <==> Distinct(times)
  {
    hide Run, Log, RenderTimes;
    if Distinct(times) {
      forall steps | RenderTimes(steps) == times ensures Ordered(Run(START, steps)) {
        DistinctSteps(steps);
        OrderForDistinctTimes(steps);
      }
    } else {
      var i, j :| 0 <= i < j < |times| && times[i] == times[j];
      assert times[..j][i] == times[j];
      EqualTimesMaySwap(times, j, 0, 1);
      SwapIsDisorder(0, 1, times[j]);
      assert !Ordered(Run(START, SwapSteps(times, j, 0, 1)));
    }
  }
}
