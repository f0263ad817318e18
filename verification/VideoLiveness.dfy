/**
 * When the video source reaches its end: from every running state in which nothing was lost, the sink has ended and
 * no more than 32 GAPs in a row await one frame, the source can finish with everything pushed; from no other.
 */
module VideoLiveness {
  import opened Basics
  import opened VideoEvents
  import O = VideoOrder

  // ---- GAPs in a row --------------------------------------------------------------------------------

  /** GAPs since the last frame. */
  function TrailingGaps(out: seq<Out>): nat {
    if out == [] || out[|out| - 1].OutFrame? then 0 else 1 + TrailingGaps(out[..|out| - 1])
  }

  /** Never more GAPs since the last frame than the source can collect. */
  ghost predicate Spaced(out: seq<Out>) {
    forall j :: 0 <= j <= |out| ==> TrailingGaps(out[..j]) <= QUEUE_LIMIT
  }

  lemma {:induction false} TrailingOf(out: seq<Out>, gaps: seq<Out>)
    requires (out == [] || out[|out| - 1].OutFrame?) && GapsOnly(gaps)
    ensures TrailingGaps(out + gaps) == |gaps|
    decreases |gaps|
  {
    if gaps == [] {
      assert out + gaps == out;
    } else {
      var n := |gaps| - 1;
      TrailingOf(out, gaps[..n]);
      assert (out + gaps)[..|out + gaps| - 1] == out + gaps[..n];
    }
  }

  lemma SpacedPrefix(a: seq<Out>, b: seq<Out>)
    requires Spaced(b) && a <= b
    ensures Spaced(a)
  {
    hide TrailingGaps;
    forall j | 0 <= j <= |a| ensures TrailingGaps(a[..j]) <= QUEUE_LIMIT {
      assert a[..j] == b[..j];
    }
  }

  lemma SpacedMore(out: seq<Out>, x: Out)
    requires Spaced(out) && TrailingGaps(out + [x]) <= QUEUE_LIMIT
    ensures Spaced(out + [x])
  {
    hide TrailingGaps;
    forall j | 0 <= j <= |out + [x]| ensures TrailingGaps((out + [x])[..j]) <= QUEUE_LIMIT {
      if j <= |out| {
        assert (out + [x])[..j] == out[..j];
      } else {
        assert (out + [x])[..j] == out + [x];
      }
    }
  }

  // ---- what the source knows of itself --------------------------------------------------------------

  /** The time of the last of `n` frames, -1 for none. */
  function LastTime(all: seq<VFrame>, n: nat): int
    requires n <= |all|
  {
    if n == 0 then -1 else all[n - 1].pts
  }

  /** The accounting of frames accepted, and, while nothing is lost, of frames announced. */
  ghost predicate CountsOk(s: State) {
    var all, r := Frames(s.history), s.source;
    && r.frames <= |all| && r.lastPts == LastTime(all, r.frames)
    && (r.phase.AwaitBarrier? && r.status != Failed ==> r.frames < |all| && r.phase.frame.pts == all[r.frames].pts)
    && (r.phase.AwaitEnd? ==> r.phase.pts == EndPts(s.sink.lastPts))
    && (!s.lost && r.status == Running ==> s.arrivals == r.sequence + if s.mailbox.Some? then 1 else 0)
  }

  /** Everything pushed ends in a frame, and what is pushed or collected is spaced. */
  ghost predicate GapsOk(r: Source) {
    r.status == Running ==>
      && (r.out == [] || r.out[|r.out| - 1].OutFrame?)
      && GapsOnly(r.gaps) && |r.gaps| <= QUEUE_LIMIT && Spaced(r.out + r.gaps)
  }

  lemma RecordKeepsCounts(s: State, sink: Sink, items: seq<Did>)
    requires CountsOk(s) && (s.source.phase.AwaitEnd? ==> sink.lastPts == s.sink.lastPts)
    ensures CountsOk(Record(s, sink, items))
  {
    hide Frames, Events;
    FramesSplit(s.history, items);
  }

  lemma SinkKeepsCounts(s: State, step: Step)
    requires CountsOk(s) && FramesOk(s) && s.source.status == Running && (step.Render? || step.Gap? || step.End?)
    ensures CountsOk(Apply(s, step))
  {
    hide Events, Frames, FramesIn, PtsOf, CountsOk, RenderedItems, TransitOk, HandOk;
    if !s.sink.ended {
      match step
      case Render(pts, flagged, submitted) =>
        RecordKeepsCounts(s, Rendered(s.sink, pts, flagged, submitted), RenderedItems(s.sink, pts, flagged, submitted));
      case Gap(pts, duration) =>
        if duration == 0 {
          FailKeepsCounts(s);
        } else {
          RecordKeepsCounts(s, s.sink.(gapPending := true), [DidGap(pts, duration)]);
        }
      case End => RecordKeepsCounts(s, s.sink.(ended := true), [DidEnd(s.sink.frames, s.sink.lastPts)]);
    }
  }

  lemma FailKeepsCounts(s: State)
    requires CountsOk(s)
    ensures CountsOk(Fail(s))
  {
    hide Frames;
  }

  lemma TransitKeepsCounts(s: State, step: Step)
    requires CountsOk(s) && FramesOk(s) && s.source.status == Running
    requires step.DeliverFrame? || step.ReadEvent? || step.LearnEnd? || step.ExpireFrame? || step.GiveUp?
    ensures CountsOk(Apply(s, step))
  {
    hide Frames, Events, FramesIn, PtsOf, HandOk, SentOk, EndOk;
  }

  lemma TakeKeepsCounts(s: State)
    requires CountsOk(s) && FramesOk(s) && s.source.status == Running
    ensures CountsOk(Apply(s, TakeFrame))
  {
    hide Frames, Events, FramesIn, PtsOf, SentOk, EndOk;
  }

  lemma ReceiveKeepsCounts(s: State, refused: Option<nat>)
    requires CountsOk(s) && FramesOk(s) && s.source.status == Running
    ensures CountsOk(Apply(s, ReceiveEvent(refused)))
  {
    hide Frames, Events, FramesIn, PtsOf, SentOk, TransitOk, HandOk;
  }

  lemma PushKeepsCounts(s: State, step: Step)
    requires CountsOk(s) && FramesOk(s) && s.source.status == Running && (step.PushBuffer? || step.StartEnd?)
    ensures CountsOk(Apply(s, step))
  {
    hide Frames, Events, FramesIn, PtsOf, SentOk, TransitOk, HandOk;
  }

  lemma StepKeepsCounts(s: State, step: Step)
    requires CountsOk(s) && FramesOk(s)
    ensures CountsOk(Apply(s, step))
  {
    hide CountsOk, FramesOk;
    if s.source.status == Running {
      match step
      case Render(_, _, _) => SinkKeepsCounts(s, step);
      case Gap(_, _) => SinkKeepsCounts(s, step);
      case End => SinkKeepsCounts(s, step);
      case TakeFrame => TakeKeepsCounts(s);
      case ReceiveEvent(refused) => ReceiveKeepsCounts(s, refused);
      case PushBuffer(_) => PushKeepsCounts(s, step);
      case StartEnd => PushKeepsCounts(s, step);
      case _ => TransitKeepsCounts(s, step);
    }
  }

  lemma ReceiveKeepsGaps(r: Source, e: Event, refused: Option<nat>)
    requires GapsOk(r) && r.status == Running
    ensures GapsOk(Receive(r, e, refused))
  {
    hide Spaced, TrailingGaps;
    if e.GapEvent? && |r.gaps| < QUEUE_LIMIT {
      var g := OutGap(e.pts, e.duration);
      TrailingOf(r.out, r.gaps + [g]);
      Reassociate(r.out, r.gaps, [g]);
      SpacedMore(r.out + r.gaps, g);
    }
  }

  lemma PushKeepsGaps(r: Source, refused: Option<nat>)
    requires GapsOk(r) && r.status == Running && r.delivery.Some?
    ensures GapsOk(Push(r, refused))
  {
    hide Spaced;
    if !Refuses(r, refused) {
      SpacedMore(r.out + r.gaps, OutFrame(r.delivery.value.pts));
      assert Push(r, refused).out + [] == r.out + r.gaps + [OutFrame(r.delivery.value.pts)];
    }
  }

  lemma StepKeepsGaps(s: State, step: Step)
    requires GapsOk(s.source)
    ensures GapsOk(Apply(s, step).source)
  {
    hide GapsOk, Receive, Push, Events, Frames, RenderedItems, Rendered;
    if s.source.status == Running {
      match step
      case ReceiveEvent(refused) =>
        if s.source.phase != Idle && s.queue != [] {
          ReceiveKeepsGaps(s.source, s.queue[0], refused);
        }
      case PushBuffer(refused) =>
        if s.source.delivery.Some? {
          PushKeepsGaps(s.source, refused);
        }
      case _ => OthersKeepGaps(s, step);
    }
  }

  lemma OthersKeepGaps(s: State, step: Step)
    requires GapsOk(s.source) && !step.ReceiveEvent? && !step.PushBuffer? && s.source.status == Running
    ensures GapsOk(Apply(s, step).source)
  {
    hide Spaced, Events, Frames, RenderedItems, Rendered;
  }

  // ---- where a run stands ---------------------------------------------------------------------------

  /** Everything known of a state reached from the start: the source merged the first `m` things the sink did. */
  ghost predicate Known(s: State, m: nat) {
    OrderOk(s, m) && FramesOk(s) && CountsOk(s) && GapsOk(s.source) && OutInOrder(s)
  }

  lemma StepKnown(s: State, m: nat, step: Step) returns (m': nat)
    requires Known(s, m) && DistinctBarriers(s.history)
    ensures Known(Apply(s, step), m')
  {
    hide OrderOk, FramesOk, CountsOk, GapsOk, OutInOrder, DistinctBarriers, Apply;
    StepKeepsFrames(s, step);
    StepKeepsCounts(s, step);
    StepKeepsGaps(s, step);
    m' := StepInOrder(s, m, step);
    StepOutInOrder(s, m, step, m');
  }

  lemma {:induction false} RunKnown(s: State, m: nat, steps: seq<Step>) returns (m': nat)
    requires Known(s, m) && DistinctBarriers(Run(s, steps).history)
    ensures Known(Run(s, steps), m')
    decreases |steps|
  {
    hide Known, Apply, DistinctBarriers;
    m' := m;
    if steps != [] {
      HistoryGrows(s, steps);
      PrefixDistinct(s.history, Run(s, steps).history);
      var k := StepKnown(s, m, steps[0]);
      m' := RunKnown(Apply(s, steps[0]), k, steps[1..]);
    }
  }

  lemma StartKnown()
    ensures Known(START, 0)
  {
    StartFrames();
    StartInOrder();
    NoItems();
  }

  // ---- one step further -----------------------------------------------------------------------------

  /** What the source and its transport do when nothing goes wrong. */
  predicate IsSourceStep(step: Step) {
    match step
    case DeliverFrame => true
    case ReadEvent => true
    case LearnEnd => true
    case TakeFrame => true
    case ReceiveEvent(refused) => refused == None
    case PushBuffer(refused) => refused == None
    case StartEnd => true
    case _ => false
  }

  ghost predicate SourceOnly(steps: seq<Step>) {
    forall i :: 0 <= i < |steps| ==> IsSourceStep(steps[i])
  }

  lemma SourceStepLeavesSink(s: State, step: Step)
    requires IsSourceStep(step)
    ensures Apply(s, step).history == s.history && Apply(s, step).sink == s.sink
  {
    hide Take, Receive, Push, CheckEnd;
  }

  /** A running state from which the source can go on to the end. */
  ghost predicate Going(s: State, m: nat) {
    && s.source.status == Running && Known(s, m) && !s.lost && s.sink.ended
    && DistinctBarriers(s.history) && Spaced(Log(s.history))
  }

  /** Frames to take, events to receive, and how far the source is with what it has. */
  function Rank(r: Source): nat {
    if r.delivery.Some? then 2 else if r.phase == Idle then 1 else 0
  }

  lemma OneStep(s: State, m: nat, step: Step) returns (m': nat)
    requires Going(s, m) && IsSourceStep(step)
    requires var u := Apply(s, step); u.source.status == Running && !u.lost
    ensures Going(Apply(s, step), m') && Apply(s, step).history == s.history
  {
    hide Known, DistinctBarriers, Spaced, Apply, Log;
    m' := StepKnown(s, m, step);
    SourceStepLeavesSink(s, step);
  }

  /** The buffer in hand is pushed. */
  lemma PushGoes(s: State, m: nat) returns (m': nat)
    requires Going(s, m) && s.source.delivery.Some?
    ensures var u := Apply(s, PushBuffer(None));
      && Going(u, m') && u.history == s.history && u.queue == s.queue && u.eventWire == s.eventWire
      && u.source.sequence == s.source.sequence && Rank(u.source) < Rank(s.source)
  {
    hide Known, DistinctBarriers, Spaced, Log;
    DeliveryIsIdle(s, m);
    m' := OneStep(s, m, PushBuffer(None));
  }

  lemma DeliveryIsIdle(s: State, m: nat)
    requires Known(s, m) && s.source.delivery.Some?
    ensures s.source.phase == Idle
  {
    hide OrderOk, SentOk, TransitOk, EndOk, CountsOk, GapsOk, OutInOrder, FramesIn, PtsOf, Frames;
  }

  /** An idle source takes the next frame, which nothing has replaced. */
  lemma TakeGoes(s: State, m: nat) returns (steps: seq<Step>, m': nat)
    requires Going(s, m) && Idling(s) && s.source.sequence < |Frames(s.history)|
    ensures SourceOnly(steps)
    ensures var u := Run(s, steps);
      && Going(u, m') && u.history == s.history && u.queue == s.queue && u.eventWire == s.eventWire
      && u.source.sequence == s.source.sequence + 1
  {
    hide Known, DistinctBarriers, Spaced, Log, Frames, Run;
    FrameWaits(s, m);
    if s.mailbox.Some? {
      steps := [TakeFrame];
      m' := OneStep(s, m, TakeFrame);
      RunOne(s, TakeFrame);
    } else {
      steps := [DeliverFrame, TakeFrame];
      var k := OneStep(s, m, DeliverFrame);
      m' := OneStep(Apply(s, DeliverFrame), k, TakeFrame);
      O.RunTwo(s, DeliverFrame, TakeFrame);
    }
  }

  lemma RunOne(s: State, step: Step)
    ensures Run(s, [step]) == Apply(s, step)
  {
    hide Apply;
    assert [step][1..] == [];
    assert Run(s, [step]) == Run(Apply(s, step), []);
  }

  lemma FrameWaits(s: State, m: nat)
    requires Going(s, m) && s.source.sequence < |Frames(s.history)|
    ensures s.mailbox.Some? ==> s.arrivals == s.source.sequence + 1
    ensures s.mailbox == None ==> s.arrivals == s.source.sequence && s.frameWire != []
  {
    hide OrderOk, SentOk, HandOk, EndOk, GapsOk, OutInOrder, DistinctBarriers, Spaced, Log, Frames, LastTime;
  }

  /** With every frame taken the accounting agrees, and the source awaits the end record. */
  lemma EndGoes(s: State, m: nat) returns (m': nat)
    requires Going(s, m) && Idling(s) && s.source.sequence >= |Frames(s.history)|
    ensures var u := Run(s, [LearnEnd, StartEnd]);
      && Going(u, m') && u.history == s.history && u.queue == s.queue && u.eventWire == s.eventWire
      && u.source.sequence == s.source.sequence && Rank(u.source) < Rank(s.source)
  {
    hide Known, DistinctBarriers, Spaced, Log, Frames, Run;
    AccountingAgrees(s, m);
    var k := OneStep(s, m, LearnEnd);
    m' := OneStep(Apply(s, LearnEnd), k, StartEnd);
    O.RunTwo(s, LearnEnd, StartEnd);
  }

  lemma AccountingAgrees(s: State, m: nat)
    requires Going(s, m) && Idling(s) && s.source.sequence >= |Frames(s.history)|
    ensures s.source.frames == s.sink.frames && s.source.lastPts == s.sink.lastPts
  {
    hide OrderOk, TransitOk, EndOk, GapsOk, OutInOrder, DistinctBarriers, Spaced, Log, Frames, FramesIn, PtsOf;
  }

  // -- a wait goes on

  /** There is an event to receive. */
  lemma EventWaits(s: State, m: nat)
    requires Going(s, m) && s.source.phase != Idle
    ensures m < |s.history| && s.queue + s.eventWire != [] && !s.history[m].DidFrame?
  {
    hide FramesOk, CountsOk, GapsOk, OutInOrder, DistinctBarriers, Spaced, Log, Frames, Events, WellMarked;
    var h := s.history;
    NothingElse(s, m);
    if s.source.phase.AwaitBarrier? {
      WaitingAhead(h, s.source, m);
      var i: nat :| Ahead(h, m, s.source.phase.frame, i);
      InsideHistory(h, m, s.source.phase.frame, i);
      NotYetThere(h, m, s.source.phase.frame, i);
    } else {
      EndIsAhead(s, m);
    }
    Cut(h, m);
    OneEvent(h[m], h, m);
  }

  lemma NothingElse(s: State, m: nat)
    requires Going(s, m)
    ensures MergedTo(s.history, s.source, m) && Events(s.history[m..]) == s.queue + s.eventWire
      && SinkOk(s.sink, s.history)
  {
    hide MergedTo, SinkOk, FramesOk, CountsOk, GapsOk, OutInOrder, DistinctBarriers, Spaced, Log, Events;
  }

  lemma NotYetThere(h: seq<Did>, m: nat, f: VFrame, i: nat)
    requires Ahead(h, m, f, i)
    ensures !h[m].DidFrame?
  {
  }

  lemma EndIsAhead(s: State, m: nat)
    requires Going(s, m) && s.source.phase.AwaitEnd?
    ensures m < |s.history| && NoFrames(s.history, m, |s.history|)
    ensures s.history[|s.history| - 1] == DidEnd(s.sink.frames, s.sink.lastPts)
  {
    hide CountsOk, GapsOk, OutInOrder, DistinctBarriers, Spaced, Log, Frames, Events, WellMarked, FramesIn, PtsOf,
      TransitOk, AheadSomewhere;
    NoMoreFrames(s.history, m);
  }

  lemma OneEvent(d: Did, h: seq<Did>, m: nat)
    requires m < |h| && h[m] == d && !d.DidFrame?
    ensures |EventOf(d)| == 1 && Events(h[m..]) != []
  {
    hide Events, Frames, Log;
    Cut(h, m);
  }

  /** Whatever comes next, the source does not fail on it. */
  lemma ReceiveIsFine(s: State, m: nat)
    requires Going(s, m) && s.source.phase != Idle && s.queue != []
    ensures Receive(s.source, s.queue[0], None).status != Failed
  {
    hide FramesOk, CountsOk, GapsOk, OutInOrder, DistinctBarriers, Spaced, Log, Frames, Events, MergedTo, SinkOk;
    var h, r := s.history, s.source;
    EventWaits(s, m);
    NothingElse(s, m);
    NextEvent(h, m, s.queue, s.eventWire);
    if h[m].DidGap? {
      RoomForGap(s, m);
    } else if h[m].DidEnd? {
      EndMatches(s, m);
    }
  }

  lemma RoomForGap(s: State, m: nat)
    requires Going(s, m) && m < |s.history| && s.history[m].DidGap? && s.source.phase != Idle
    ensures |s.source.gaps| < QUEUE_LIMIT
  {
    hide CountsOk, OutInOrder, DistinctBarriers, Frames, Events, AheadSomewhere, SinkOk, FramesIn, PtsOf, SentOk,
      TransitOk, EndOk, TrailingGaps;
    var h, r, g := s.history, s.source, OutGap(s.history[m].pts, s.history[m].duration);
    assert r.delivery == None;
    Cut(h, m);
    assert r.out + r.gaps + [] == r.out + r.gaps;
    Reassociate(r.out, r.gaps, [g]);
    TrailingOf(r.out, r.gaps + [g]);
    LogGrows(h[..m + 1], h);
    SpacedPrefix(Log(h[..m + 1]), Log(h));
    assert Log(h[..m + 1])[..|Log(h[..m + 1])|] == Log(h[..m + 1]);
  }

  /** An end record comes only when it is awaited, and is the one awaited. */
  lemma EndMatches(s: State, m: nat)
    requires Going(s, m) && m < |s.history| && s.history[m].DidEnd? && s.source.phase != Idle
    ensures s.source.phase.AwaitEnd? && EventOf(s.history[m]) == [EndEvent(s.sink.frames, s.source.phase.pts)]
  {
    hide GapsOk, OutInOrder, Spaced, Log, Frames, Events, FramesIn, PtsOf, TransitOk, HandOk, SentOk, DistinctBarriers;
    assert !s.source.phase.AwaitBarrier?;
    assert m == |s.history| - 1;
  }

  lemma ReceiveGoes(s: State, m: nat) returns (steps: seq<Step>, m': nat)
    requires Going(s, m) && s.source.phase != Idle
    ensures SourceOnly(steps)
    ensures var u := Run(s, steps);
      && (Going(u, m') || (u.source.status == Eos && Known(u, m'))) && u.history == s.history
      && |u.queue| + |u.eventWire| < |s.queue| + |s.eventWire| && u.source.sequence == s.source.sequence
  {
    hide Known, DistinctBarriers, Spaced, Log, Frames, Run;
    EventWaits(s, m);
    if s.queue != [] {
      steps := [ReceiveEvent(None)];
      m' := ReceiveQueued(s, m);
      RunOne(s, ReceiveEvent(None));
    } else {
      steps := [ReadEvent, ReceiveEvent(None)];
      var k := OneStep(s, m, ReadEvent);
      m' := ReceiveQueued(Apply(s, ReadEvent), k);
      O.RunTwo(s, ReadEvent, ReceiveEvent(None));
    }
  }

  lemma ReceiveQueued(s: State, m: nat) returns (m': nat)
    requires Going(s, m) && s.source.phase != Idle && s.queue != []
    ensures var u := Apply(s, ReceiveEvent(None));
      && (Going(u, m') || (u.source.status == Eos && Known(u, m'))) && u.history == s.history
      && |u.queue| + 1 == |s.queue| && u.eventWire == s.eventWire && u.source.sequence == s.source.sequence
  {
    hide Known, DistinctBarriers, Spaced, Log, Frames;
    ReceiveIsFine(s, m);
    if Apply(s, ReceiveEvent(None)).source.status == Running {
      m' := OneStep(s, m, ReceiveEvent(None));
    } else {
      m' := StepKnown(s, m, ReceiveEvent(None));
    }
  }

  // ---- to the end -----------------------------------------------------------------------------------

  lemma {:induction false} GoesToEnd(s: State, m: nat) returns (steps: seq<Step>, m': nat)
    requires Going(s, m)
    ensures SourceOnly(steps)
    ensures var u := Run(s, steps); u.source.status == Eos && u.history == s.history && Known(u, m')
    decreases |Frames(s.history)| - s.source.sequence, |s.queue| + |s.eventWire|, Rank(s.source)
  {
    hide Going, Known, Apply, Run, Frames;
    var first, k;
    if s.source.delivery.Some? {
      first := [PushBuffer(None)];
      k := PushGoes(s, m);
      RunOne(s, PushBuffer(None));
    } else if s.source.phase != Idle {
      first, k := ReceiveGoes(s, m);
    } else {
      RunningNow(s, m);
      if s.source.sequence < |Frames(s.history)| {
        first, k := TakeGoes(s, m);
      } else {
        first := [LearnEnd, StartEnd];
        k := EndGoes(s, m);
      }
    }
    var u := Run(s, first);
    if !Going(u, k) {
      steps, m' := first, k;
    } else {
      var rest;
      rest, m' := GoesToEnd(u, k);
      RunConcat(s, first, rest);
      steps := first + rest;
    }
  }

  lemma RunningNow(s: State, m: nat)
    requires Going(s, m)
    ensures s.source.status == Running
  {
    hide Known, DistinctBarriers, Spaced, Log;
  }

  // ---- exactly when ---------------------------------------------------------------------------------

  /** Some run of the source and its transport alone, in which no GAP is refused, ends in EOS. */
  ghost predicate CanFinish(s: State) {
    exists more :: SourceOnly(more) && Run(s, more).source.status == Eos
  }

  lemma {:induction false} SourceRunLeavesSink(s: State, steps: seq<Step>)
    requires SourceOnly(steps)
    ensures Run(s, steps).history == s.history && Run(s, steps).sink == s.sink
    decreases |steps|
  {
    hide Apply;
    if steps != [] {
      assert forall i :: 0 <= i < |steps[1..]| ==> steps[1..][i] == steps[i + 1];
      SourceStepLeavesSink(s, steps[0]);
      SourceRunLeavesSink(Apply(s, steps[0]), steps[1..]);
    }
  }

  /** A source at its end was given everything. */
  lemma EndIsWhole(s: State)
    requires FramesOk(s) && s.source.status == Eos
    ensures s.sink.ended && !s.lost
  {
    hide Frames, FramesIn, PtsOf;
  }

  /** A source at its end had room for every GAP. */
  ghost predicate RoomForAll(r: Source) {
    r.status == Eos ==> Spaced(r.out)
  }

  lemma ReceiveHadRoom(r: Source, e: Event, refused: Option<nat>)
    requires GapsOk(r) && r.status == Running
    ensures RoomForAll(Receive(r, e, refused))
  {
    hide Spaced;
  }

  lemma StepHadRoom(s: State, step: Step)
    requires GapsOk(s.source) && RoomForAll(s.source)
    ensures RoomForAll(Apply(s, step).source)
  {
    hide GapsOk, Spaced, Receive, Events, Frames, RenderedItems, Rendered;
    if step.ReceiveEvent? && s.source.status == Running && s.source.phase != Idle && s.queue != [] {
      ReceiveHadRoom(s.source, s.queue[0], step.refused);
    }
  }

  lemma {:induction false} RunHadRoom(s: State, steps: seq<Step>)
    requires GapsOk(s.source) && RoomForAll(s.source)
    ensures RoomForAll(Run(s, steps).source)
    decreases |steps|
  {
    hide GapsOk, RoomForAll, Apply;
    if steps != [] {
      StepKeepsGaps(s, steps[0]);
      StepHadRoom(s, steps[0]);
      RunHadRoom(Apply(s, steps[0]), steps[1..]);
    }
  }

  /**
   * Exactly when the source can reach EOS from a state reached by a run with distinct running times that has not
   * failed: nothing was lost, the sink has ended, and never more than 32 GAPs in a row await one frame. It then pushes
   * everything, in the sink's order.
   */
  lemma FinishesExactly(steps: seq<Step>)
    requires DistinctBarriers(Run(START, steps).history) && Run(START, steps).source.status == Running
    ensures var s := Run(START, steps); CanFinish(s) <==> !s.lost && s.sink.ended && Spaced(Log(s.history))
    ensures var s := Run(START, steps);
      forall more :: SourceOnly(more) && Run(s, more).source.status == Eos ==>
        Run(s, more).source.out == Log(s.history)
  {
    hide Known, Run, Log, Spaced, DistinctBarriers, SourceOnly, FramesOk, GapsOk;
    StartKnown();
    var m := RunKnown(START, 0, steps);
    var s := Run(START, steps);
    forall more | SourceOnly(more) && Run(s, more).source.status == Eos
      ensures Run(s, more).source.out == Log(s.history) && !s.lost && s.sink.ended && Spaced(Log(s.history))
    {
      EndOfRun(steps, more);
    }
    if !s.lost && s.sink.ended && Spaced(Log(s.history)) {
      var more, k := GoesToEnd(s, m);
    }
  }

  lemma EndOfRun(steps: seq<Step>, more: seq<Step>)
    requires SourceOnly(more) && DistinctBarriers(Run(START, steps).history)
    requires Run(Run(START, steps), more).source.status == Eos
    ensures var s := Run(START, steps);
      && Run(s, more).source.out == Log(s.history) && !s.lost && s.sink.ended && Spaced(Log(s.history))
  {
    hide Run, Log, Spaced, DistinctBarriers, SourceOnly, FramesOk, GapsOk;
    var s := Run(START, steps);
    SourceRunLeavesSink(s, more);
    RunConcat(START, steps, more);
    OrderPreserved(steps + more);
    StartGaps();
    RunHadRoom(START, steps + more);
    StartFrames();
    RunKeepsFrames(START, steps + more);
    EndIsWhole(Run(s, more));
    if s.lost {
      LostStays(s, more);
    }
  }

  lemma StartGaps()
    ensures GapsOk(START.source)
  {
  }

  // ---- every stream has such a run ------------------------------------------------------------------

  predicate IsSinkStep(step: Step) {
    step.Render? || (step.Gap? && step.duration > 0)
  }

  /**
   * For every finite stream of buffers with pairwise different running times and nonempty GAPs, of which no more than
   * 32 in a row precede a submitted buffer or the end, some run takes the sink through it and the source to EOS with
   * exactly the sink's GAPs and submitted buffers pushed, in order.
   */
  lemma EveryStreamFinishes(stream: seq<Step>) returns (more: seq<Step>)
    requires (forall i :: 0 <= i < |stream| ==> IsSinkStep(stream[i])) && DistinctRenders(stream)
    requires Spaced(Log(Run(START, stream + [End]).history))
    ensures SourceOnly(more)
    ensures var s := Run(START, (stream + [End]) + more);
      && s.source.status == Eos && s.history == Run(START, stream + [End]).history && s.source.out == Log(s.history)
  {
    hide Run, Log, Spaced, SourceOnly, DistinctBarriers, Known;
    var steps := stream + [End];
    SinkRunLeavesSource(START, stream);
    RunConcat(START, stream, [End]);
    RunOne(Run(START, stream), End);
    StartDistinct(stream);
    DistinctTimesSuffice(START, steps);
    StartKnown();
    var m := RunKnown(START, 0, steps);
    var k;
    more, k := GoesToEnd(Run(START, steps), m);
    RunConcat(START, steps, more);
    FinishesExactly(steps);
  }

  lemma StartDistinct(stream: seq<Step>)
    requires DistinctRenders(stream)
    ensures DistinctBarriers(START.history) && DistinctRenders(stream + [End])
      && NotYet(START.history, stream + [End])
  {
    assert forall i :: 0 <= i < |stream| ==> (stream + [End])[i] == stream[i];
  }

  lemma {:induction false} SinkRunLeavesSource(s: State, steps: seq<Step>)
    requires (forall i :: 0 <= i < |steps| ==> IsSinkStep(steps[i])) && s.source.status == Running && !s.lost
      && !s.sink.ended
    ensures var u := Run(s, steps); u.source == s.source && !u.lost && !u.sink.ended
    decreases |steps|
  {
    hide Events, Frames;
    if steps != [] {
      assert forall i :: 0 <= i < |steps[1..]| ==> steps[1..][i] == steps[i + 1];
      assert IsSinkStep(steps[0]);
      SinkRunLeavesSource(Apply(s, steps[0]), steps[1..]);
    }
  }

  // ---- a stream that has none -----------------------------------------------------------------------

  function ManyGaps(n: nat): (stream: seq<Step>)
    ensures |stream| == n && forall i :: 0 <= i < n ==> stream[i] == Gap(i, 1)
  {
    seq(n, i requires 0 <= i < n => Gap(i, 1))
  }

  lemma {:induction false} GapsLogged(n: nat)
    ensures var s := Run(START, ManyGaps(n));
      !s.sink.ended && GapsOnly(Log(s.history)) && |Log(s.history)| == n
  {
    hide Run, Log, GapsOnly;
    if n == 0 {
      NoneLogged();
    } else {
      GapsLogged(n - 1);
      assert ManyGaps(n) == ManyGaps(n - 1) + [Gap(n - 1, 1)];
      RunConcat(START, ManyGaps(n - 1), [Gap(n - 1, 1)]);
      RunOne(Run(START, ManyGaps(n - 1)), Gap(n - 1, 1));
      SinkRunLeavesSource(START, ManyGaps(n - 1));
      GapLogged(Run(START, ManyGaps(n - 1)), n - 1);
    }
  }

  lemma NoneLogged()
    ensures Run(START, ManyGaps(0)) == START && Log(START.history) == [] && GapsOnly([])
  {
  }

  lemma GapLogged(s: State, pts: nat)
    requires !s.sink.ended && s.source.status == Running && GapsOnly(Log(s.history))
    ensures var s' := Apply(s, Gap(pts, 1));
      !s'.sink.ended && GapsOnly(Log(s'.history)) && |Log(s'.history)| == |Log(s.history)| + 1
  {
    hide Events, Frames;
    var h := s.history + [DidGap(pts, 1)];
    assert Apply(s, Gap(pts, 1)).history == h && h[..|h| - 1] == s.history;
    assert Log(h) == Log(s.history) + [OutGap(pts, 1)];
  }

  /** A sink that sends more than 32 GAPs in a row and ends: nothing was lost, and the source cannot reach EOS. */
  lemma TooManyGaps(n: nat)
    requires n > 32
    ensures var s := Run(START, ManyGaps(n) + [End]);
      !s.lost && s.sink.ended && s.source.status == Running && DistinctBarriers(s.history) && !CanFinish(s)
  {
    hide Run, Log, Events, Frames, CanFinish, DistinctBarriers;
    var stream := ManyGaps(n);
    var a := Run(START, stream);
    GapsLogged(n);
    SinkRunLeavesSource(START, stream);
    RunConcat(START, stream, [End]);
    RunOne(a, End);
    StartDistinct(stream);
    DistinctTimesSuffice(START, stream + [End]);
    LogSplit(a.history, [DidEnd(a.sink.frames, a.sink.lastPts)]);
    EndLogsNothing(a.sink.frames, a.sink.lastPts);
    var log := Log(Run(START, stream + [End]).history);
    assert log == Log(a.history) + [] == Log(a.history);
    TrailingOf([], log);
    assert [] + log == log && log[..n] == log;
    assert !Spaced(log);
    FinishesExactly(stream + [End]);
  }

  lemma EndLogsNothing(frames: nat, pts: int)
    ensures Log([DidEnd(frames, pts)]) == []
  {
  }
}
