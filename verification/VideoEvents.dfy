/**
 * Coordinated video: frames travel through a mailbox that keeps only the newest, GAPs and barriers through an
 * ordered event stream. The source merges the two, or reports an error.
 *
 * Times are running times before the receiver's clock mapping, which shifts them all alike.
 */
module VideoEvents {
  import opened Basics

  const QUEUE_LIMIT: nat := 32

  datatype Event =
    | GapEvent(pts: nat, duration: nat)
    | BarrierEvent(pts: nat)
    | EndEvent(frames: nat, pts: nat)

  /** `discont` asks the source to wait for the frame's barrier. */
  datatype VFrame = VFrame(pts: nat, discont: bool)

  /** What leaves the source, and what the sink was given. */
  datatype Out = OutGap(pts: nat, duration: nat) | OutFrame(pts: nat)

  /** Everything the sink did, in order. */
  datatype Did = DidGap(pts: nat, duration: nat) | DidBarrier(pts: nat) | DidFrame(frame: VFrame)
    | DidEnd(frames: nat, lastPts: int)

  // ---- the sink -------------------------------------------------------------------------------------

  datatype Sink = Sink(frames: nat, lastPts: int, gapPending: bool, ended: bool)

  predicate MarksDiscont(s: Sink, flagged: bool) {
    s.gapPending || s.frames == 0 || flagged
  }

  /** A rendered buffer: a barrier if it is discontinuous, then a frame unless the ring had no room. */
  function Rendered(s: Sink, pts: nat, flagged: bool, submitted: bool): Sink {
    var marked := if MarksDiscont(s, flagged) then s.(gapPending := true) else s;
    if submitted then marked.(frames := s.frames + 1, lastPts := pts, gapPending := false) else marked
  }

  function RenderedItems(s: Sink, pts: nat, flagged: bool, submitted: bool): seq<Did> {
    var mark := MarksDiscont(s, flagged);
    (if mark then [DidBarrier(pts)] else []) + (if submitted then [DidFrame(VFrame(pts, mark))] else [])
  }

  function EndPts(lastPts: int): nat {
    if lastPts < 0 then 0 else lastPts
  }

  function EventOf(d: Did): seq<Event> {
    match d
    case DidGap(pts, duration) => [GapEvent(pts, duration)]
    case DidBarrier(pts) => [BarrierEvent(pts)]
    case DidFrame(_) => []
    case DidEnd(frames, lastPts) => [EndEvent(frames, EndPts(lastPts))]
  }

  function FrameOf(d: Did): seq<VFrame> {
    if d.DidFrame? then [d.frame] else []
  }

  function LogOf(d: Did): seq<Out> {
    match d
    case DidGap(pts, duration) => [OutGap(pts, duration)]
    case DidFrame(f) => [OutFrame(f.pts)]
    case _ => []
  }

  function Events(h: seq<Did>): seq<Event> {
    if h == [] then [] else Events(h[..|h| - 1]) + EventOf(h[|h| - 1])
  }

  function Frames(h: seq<Did>): seq<VFrame> {
    if h == [] then [] else Frames(h[..|h| - 1]) + FrameOf(h[|h| - 1])
  }

  /** The sink's GAPs and submitted frames in order. */
  function Log(h: seq<Did>): seq<Out> {
    if h == [] then [] else Log(h[..|h| - 1]) + LogOf(h[|h| - 1])
  }

  // ---- the source -----------------------------------------------------------------------------------

  datatype Phase = Idle | AwaitBarrier(frame: VFrame) | AwaitEnd(pts: nat)

  datatype Status = Running | Eos | Failed

  /** `delivery` is the buffer created and not yet pushed; GAPs collected meanwhile go out before it. */
  datatype Source = Source(
    sequence: nat, frames: nat, lastPts: int, gaps: seq<Out>, delivery: Option<VFrame>, phase: Phase, status: Status,
      out: seq<Out>)

  function Accept(r: Source, f: VFrame): Source {
    r.(frames := r.frames + 1, lastPts := f.pts, delivery := Some(f), phase := Idle)
  }

  /** A frame from the mailbox; its sequence number tells whether one before it was replaced or expired. */
  function Take(r: Source, f: VFrame, sequence: nat): Source {
    if sequence != r.sequence + 1 then r.(status := Failed)
    else if f.discont then r.(sequence := sequence, phase := AwaitBarrier(f))
    else Accept(r.(sequence := sequence), f)
  }

  /** The dispatch of a collected GAP fails; `refused` is the first one to fail, if any does. */
  predicate Refuses(r: Source, refused: Option<nat>) {
    refused.Some? && refused.value < |r.gaps|
  }

  /** The GAPs before it are out already, it and all that follows stay. */
  function Broken(r: Source, n: nat): Source
    requires n <= |r.gaps|
  {
    r.(out := r.out + r.gaps[..n], status := Failed)
  }

  /** One event while waiting for a barrier or for the end. */
  function Receive(r: Source, e: Event, refused: Option<nat>): Source {
    if e.GapEvent? then
      (if |r.gaps| >= QUEUE_LIMIT then r.(status := Failed) else r.(gaps := r.gaps + [OutGap(e.pts, e.duration)]))
    else if r.phase.AwaitBarrier? && e == BarrierEvent(r.phase.frame.pts) then Accept(r, r.phase.frame)
    else if r.phase.AwaitEnd? && e.EndEvent? && e.pts == r.phase.pts then
      (if Refuses(r, refused) then Broken(r, refused.value)
       else r.(out := r.out + r.gaps, gaps := [], phase := Idle, status := Eos))
    else if !e.BarrierEvent? then r.(status := Failed)
    else r
  }

  /** The pad probe: GAPs first, then the buffer, which is dropped if a GAP was refused. */
  function Push(r: Source, refused: Option<nat>): Source
    requires r.delivery.Some?
  {
    if Refuses(r, refused) then Broken(r, refused.value)
    else r.(out := r.out + r.gaps + [OutFrame(r.delivery.value.pts)], gaps := [], delivery := None)
  }

  /** The terminal accounting is known and enough frames arrived. */
  function CheckEnd(r: Source, frames: nat, lastPts: int): Source {
    if r.frames < frames then r
    else if r.frames != frames || r.lastPts != lastPts then r.(status := Failed)
    else r.(phase := AwaitEnd(EndPts(lastPts)))
  }

  // ---- the machine ----------------------------------------------------------------------------------

  /** `lost` remembers that a frame was replaced in the mailbox or expired; `history` is everything the sink did. */
  datatype State = State(
    sink: Sink, history: seq<Did>,
    frameWire: seq<VFrame>, mailbox: Option<VFrame>, arrivals: nat, lost: bool,
    eventWire: seq<Event>, queue: seq<Event>, known: Option<(nat, int)>,
    source: Source)

  datatype Step =
    | Render(pts: nat, flagged: bool, submitted: bool)
    | Gap(pts: nat, duration: nat)
    | End
    | DeliverFrame
    | ReadEvent
    | LearnEnd
    | TakeFrame
    | ExpireFrame
    | ReceiveEvent(refused: Option<nat>)
    | PushBuffer(refused: Option<nat>)
    | StartEnd
    | GiveUp

  predicate Idling(s: State) {
    s.source.status == Running && s.source.phase == Idle && s.source.delivery == None
  }

  function Record(s: State, sink: Sink, items: seq<Did>): State {
    s.(sink := sink, history := s.history + items, eventWire := s.eventWire + Events(items), frameWire := s.frameWire
      + Frames(items))
  }

  function Fail(s: State): State {
    s.(source := s.source.(status := Failed))
  }

  function Apply(s: State, step: Step): State {
    if s.source.status != Running then s
    else match step
      case Render(pts, flagged, submitted) =>
        if s.sink.ended then s
        else Record(s, Rendered(s.sink, pts, flagged, submitted), RenderedItems(s.sink, pts, flagged, submitted))
      case Gap(pts, duration) =>
        if s.sink.ended then s
        else if duration == 0 then Fail(s)
        else Record(s, s.sink.(gapPending := true), [DidGap(pts, duration)])
      case End =>
        if s.sink.ended then s
        else Record(s, s.sink.(ended := true), [DidEnd(s.sink.frames, s.sink.lastPts)])
      case DeliverFrame =>
        if s.frameWire == [] then s
        else s.(frameWire := s.frameWire[1..], mailbox := Some(s.frameWire[0]), arrivals := s.arrivals + 1,
                lost := s.lost || s.mailbox.Some?)
      case ReadEvent =>
        if s.eventWire == [] then s
        else if |s.queue| >= QUEUE_LIMIT then Fail(s)
        else s.(eventWire := s.eventWire[1..], queue := s.queue + [s.eventWire[0]])
      case LearnEnd => if s.sink.ended then s.(known := Some((s.sink.frames, s.sink.lastPts))) else s
      case TakeFrame =>
        if !Idling(s) || s.mailbox == None then s
        else s.(mailbox := None, source := Take(s.source, s.mailbox.value, s.arrivals))
      case ExpireFrame => if !Idling(s) || s.mailbox == None then s else s.(mailbox := None, lost := true)
      case ReceiveEvent(refused) =>
        if s.source.phase == Idle || s.queue == [] then s
        else s.(queue := s.queue[1..], source := Receive(s.source, s.queue[0], refused))
      case PushBuffer(refused) => if s.source.delivery.Some? then s.(source := Push(s.source, refused)) else s
      case StartEnd =>
        if !Idling(s) || s.known == None then s else s.(source := CheckEnd(s.source, s.known.value.0, s.known.value.1))
      case GiveUp => Fail(s)
  }

  function Run(s: State, steps: seq<Step>): State
    decreases |steps|
  {
    if steps == [] then s else Run(Apply(s, steps[0]), steps[1..])
  }

  const START := State(
    Sink(0, -1, false, false), [], [], None, 0, false, [], [], None, Source(0, 0, -1, [], None, Idle, Running, []))

  // ---- lists ----------------------------------------------------------------------------------------

  lemma Splits(a: seq<Did>, b: seq<Did>)
    ensures Events(a + b) == Events(a) + Events(b)
    ensures Frames(a + b) == Frames(a) + Frames(b)
    ensures Log(a + b) == Log(a) + Log(b)
  {
    hide Events, Frames, Log;
    EventsSplit(a, b);
    FramesSplit(a, b);
    LogSplit(a, b);
  }

  lemma {:induction false} EventsSplit(a: seq<Did>, b: seq<Did>)
    ensures Events(a + b) == Events(a) + Events(b)
    decreases |b|
  {
    hide EventOf;
    if b == [] {
      assert a + b == a;
    } else {
      var n := |b| - 1;
      EventsSplit(a, b[..n]);
      assert (a + b)[..|a + b| - 1] == a + b[..n];
      Reassociate(Events(a), Events(b[..n]), EventOf(b[n]));
    }
  }

  lemma {:induction false} FramesSplit(a: seq<Did>, b: seq<Did>)
    ensures Frames(a + b) == Frames(a) + Frames(b)
    decreases |b|
  {
    hide FrameOf;
    if b == [] {
      assert a + b == a;
    } else {
      var n := |b| - 1;
      FramesSplit(a, b[..n]);
      assert (a + b)[..|a + b| - 1] == a + b[..n];
      Reassociate(Frames(a), Frames(b[..n]), FrameOf(b[n]));
    }
  }

  lemma {:induction false} LogSplit(a: seq<Did>, b: seq<Did>)
    ensures Log(a + b) == Log(a) + Log(b)
    decreases |b|
  {
    hide LogOf;
    if b == [] {
      assert a + b == a;
    } else {
      var n := |b| - 1;
      LogSplit(a, b[..n]);
      assert (a + b)[..|a + b| - 1] == a + b[..n];
      Reassociate(Log(a), Log(b[..n]), LogOf(b[n]));
    }
  }

  lemma Singles(d: Did)
    ensures Events([d]) == EventOf(d) && Frames([d]) == FrameOf(d) && Log([d]) == LogOf(d)
  {
    hide EventOf, FrameOf, LogOf;
    assert [d][..0] == [];
    assert Events([]) == [] && Frames([]) == [] && Log([]) == [];
  }

  // ---- nothing is lost silently ---------------------------------------------------------------------

  /** The frames among what left the source. */
  function FramesIn(out: seq<Out>): seq<nat> {
    if out == [] then [] else FramesIn(out[..|out| - 1]) + (if out[|out| - 1].OutFrame? then [out[|out| - 1].pts]
      else [])
  }

  function PtsOf(fs: seq<VFrame>): (ps: seq<nat>)
    ensures |ps| == |fs| && forall i :: 0 <= i < |fs| ==> ps[i] == fs[i].pts
  {
    seq(|fs|, i requires 0 <= i < |fs| => fs[i].pts)
  }

  /** Frames taken but not yet out. */
  function InHand(r: Source): seq<VFrame> {
    if r.delivery.Some? then [r.delivery.value] else if r.phase.AwaitBarrier? then [r.phase.frame] else []
  }

  ghost predicate GapsOnly(gaps: seq<Out>) {
    forall i :: 0 <= i < |gaps| ==> gaps[i].OutGap?
  }

  /** The sink's accounting. */
  ghost predicate SentOk(sink: Sink, all: seq<VFrame>) {
    sink.frames == |all| && sink.lastPts == if all == [] then -1 else all[|all| - 1].pts
  }

  /** Frames on the wire and in the mailbox; a frame lost is one the source can never reach again. */
  ghost predicate TransitOk(all: seq<VFrame>, arrivals: nat, wire: seq<VFrame>, mailbox: Option<VFrame>, sequence: nat,
      lost: bool) {
    && sequence <= arrivals <= |all| && all[arrivals..] == wire
    && (mailbox.Some? ==> sequence < arrivals && mailbox.value == all[arrivals - 1])
    && (lost ==> sequence < arrivals && (mailbox.Some? ==> sequence + 1 < arrivals))
  }

  /** Frames pushed and in hand are the first ones the sink submitted. */
  ghost predicate HandOk(all: seq<VFrame>, r: Source) {
    && r.sequence <= |all| && GapsOnly(r.gaps)
    && (r.status != Failed ==> FramesIn(r.out) + PtsOf(InHand(r)) == PtsOf(all[..r.sequence]))
    && r.frames + (if r.phase.AwaitBarrier? then 1 else 0) == r.sequence
    && (r.delivery.Some? ==> r.phase == Idle)
  }

  ghost predicate EndOk(sink: Sink, known: Option<(nat, int)>, r: Source) {
    && (known.Some? ==> sink.ended && known.value == (sink.frames, sink.lastPts))
    && (r.phase.AwaitEnd? || r.status == Eos ==>
      sink.ended && r.frames == sink.frames && r.delivery == None && !r.phase.AwaitBarrier?)
  }

  /** Who has which frame of the sink's. */
  ghost predicate FramesOk(s: State) {
    && SentOk(s.sink, Frames(s.history))
    && TransitOk(Frames(s.history), s.arrivals, s.frameWire, s.mailbox, s.source.sequence, s.lost)
    && HandOk(Frames(s.history), s.source)
    && EndOk(s.sink, s.known, s.source)
  }

  lemma {:induction false} FramesInConcat(a: seq<Out>, b: seq<Out>)
    ensures FramesIn(a + b) == FramesIn(a) + FramesIn(b)
    decreases |b|
  {
    if b == [] {
      assert a + b == a;
    } else {
      FramesInConcat(a, b[..|b| - 1]);
      assert (a + b)[..|a + b| - 1] == a + b[..|b| - 1];
    }
  }

  lemma {:induction false} NoFramesInGaps(gaps: seq<Out>)
    requires GapsOnly(gaps)
    ensures FramesIn(gaps) == []
  {
    if gaps != [] {
      NoFramesInGaps(gaps[..|gaps| - 1]);
    }
  }

  lemma PushedFrames(out: seq<Out>, gaps: seq<Out>, pts: nat)
    requires GapsOnly(gaps)
    ensures FramesIn(out + gaps) == FramesIn(out) && FramesIn(out + gaps + [OutFrame(pts)]) == FramesIn(out) + [pts]
  {
    FramesInConcat(out, gaps);
    NoFramesInGaps(gaps);
    FramesInConcat(out + gaps, [OutFrame(pts)]);
    assert [OutFrame(pts)][..0] == [] && FramesIn([]) == [];
  }

  lemma PtsOfConcat(a: seq<VFrame>, b: seq<VFrame>)
    ensures PtsOf(a + b) == PtsOf(a) + PtsOf(b)
  {
  }

  /** Recording what the sink did only adds frames to the wire. */
  lemma RecordKeepsFrames(s: State, sink: Sink, items: seq<Did>)
    requires FramesOk(s) && s.source.status == Running && !s.sink.ended
    requires sink.frames == s.sink.frames + |Frames(items)|
    requires sink.lastPts == (if Frames(items) == [] then s.sink.lastPts else Frames(items)[|Frames(items)| - 1].pts)
    ensures FramesOk(Record(s, sink, items))
  {
    hide TransitOk, HandOk, Frames, Events;
    FramesSplit(s.history, items);
    var all, more := Frames(s.history), Frames(items);
    GrowTransit(all, more, s.arrivals, s.frameWire, s.mailbox, s.source.sequence, s.lost);
    GrowHand(all, more, s.source);
  }

  lemma GrowTransit(all: seq<VFrame>, more: seq<VFrame>, arrivals: nat, wire: seq<VFrame>, mailbox: Option<VFrame>,
      sequence: nat, lost: bool)
    requires TransitOk(all, arrivals, wire, mailbox, sequence, lost)
    ensures TransitOk(all + more, arrivals, wire + more, mailbox, sequence, lost)
  {
    assert (all + more)[arrivals..] == all[arrivals..] + more;
  }

  lemma GrowHand(all: seq<VFrame>, more: seq<VFrame>, r: Source)
    requires HandOk(all, r)
    ensures HandOk(all + more, r)
  {
    hide FramesIn, PtsOf;
    assert (all + more)[..r.sequence] == all[..r.sequence];
  }

  lemma SinkKeepsFrames(s: State, step: Step)
    requires FramesOk(s) && s.source.status == Running && (step.Render? || step.Gap? || step.End?)
    ensures FramesOk(Apply(s, step))
  {
    hide FramesOk, Events, Frames;
    if !s.sink.ended {
      match step
      case Render(pts, flagged, submitted) =>
        RenderedFrames(s.sink, pts, flagged, submitted);
        RecordKeepsFrames(s, Rendered(s.sink, pts, flagged, submitted), RenderedItems(s.sink, pts, flagged, submitted));
      case Gap(pts, duration) =>
        if duration == 0 {
          FailKeepsFrames(s);
        } else {
          Singles(DidGap(pts, duration));
          RecordKeepsFrames(s, s.sink.(gapPending := true), [DidGap(pts, duration)]);
        }
      case End =>
        var d := DidEnd(s.sink.frames, s.sink.lastPts);
        Singles(d);
        RecordKeepsFrames(s, s.sink.(ended := true), [d]);
    }
  }

  lemma FailKeepsFrames(s: State)
    requires FramesOk(s) && s.source.status == Running
    ensures FramesOk(Fail(s))
  {
    hide TransitOk, FramesIn, PtsOf, Frames;
  }

  lemma RenderedFrames(s: Sink, pts: nat, flagged: bool, submitted: bool)
    ensures Frames(RenderedItems(s, pts, flagged, submitted)) == if submitted
      then [VFrame(pts, MarksDiscont(s, flagged))] else []
  {
    hide Frames;
    var mark := MarksDiscont(s, flagged);
    var b, f := DidBarrier(pts), DidFrame(VFrame(pts, mark));
    Singles(b);
    Singles(f);
    NoItems();
    Splits([b], [f]);
    assert [b] + [] == [b] && [] + [f] == [f];
    assert !mark && !submitted ==> RenderedItems(s, pts, flagged, submitted) == [];
  }

  lemma NoItems()
    ensures Frames([]) == [] && Events([]) == [] && Log([]) == []
  {
  }

  lemma TransitKeepsFrames(s: State, step: Step)
    requires FramesOk(s) && s.source.status == Running
    requires step.DeliverFrame? || step.ReadEvent? || step.LearnEnd? || step.ExpireFrame? || step.GiveUp?
    ensures FramesOk(Apply(s, step))
  {
    hide FramesIn, PtsOf, Frames, Events, SentOk;
    if step.DeliverFrame? && s.frameWire != [] {
      DeliverTransit(Frames(s.history), s.arrivals, s.frameWire, s.mailbox, s.source.sequence, s.lost);
    }
  }

  lemma DeliverTransit(all: seq<VFrame>, arrivals: nat, wire: seq<VFrame>, mailbox: Option<VFrame>, sequence: nat,
      lost: bool)
    requires TransitOk(all, arrivals, wire, mailbox, sequence, lost) && wire != []
    ensures TransitOk(all, arrivals + 1, wire[1..], Some(wire[0]), sequence, lost || mailbox.Some?)
  {
    assert all[arrivals] == all[arrivals..][0];
    assert all[arrivals + 1..] == all[arrivals..][1..];
  }

  lemma TakeKeepsFrames(s: State)
    requires FramesOk(s) && s.source.status == Running
    ensures FramesOk(Apply(s, TakeFrame))
  {
    hide FramesIn, PtsOf, Frames, Events;
    if Idling(s) && s.mailbox.Some? && s.arrivals == s.source.sequence + 1 {
      var all, n := Frames(s.history), s.source.sequence;
      assert all[..n + 1] == all[..n] + [all[n]];
      PtsOfConcat(all[..n], [all[n]]);
      PtsOfConcat([], [all[n]]);
      assert InHand(s.source) == [];
      NoPts();
    }
  }

  lemma NoPts()
    ensures PtsOf([]) == []
  {
  }

  lemma ReceiveKeepsFrames(s: State, refused: Option<nat>)
    requires FramesOk(s) && s.source.status == Running
    ensures FramesOk(Apply(s, ReceiveEvent(refused)))
  {
    hide FramesIn, Frames, Events, PtsOf, TransitOk, SentOk;
    PushedFrames(s.source.out, s.source.gaps, 0);
  }

  lemma PushKeepsFrames(s: State, refused: Option<nat>)
    requires FramesOk(s) && s.source.status == Running
    ensures FramesOk(Apply(s, PushBuffer(refused)))
  {
    hide FramesIn, Frames, Events, TransitOk, SentOk;
    var r := s.source;
    if r.delivery.Some? {
      PushedFrames(r.out, r.gaps, r.delivery.value.pts);
      assert PtsOf([r.delivery.value]) == [r.delivery.value.pts];
      NoPts();
    }
  }

  lemma StartEndKeepsFrames(s: State)
    requires FramesOk(s) && s.source.status == Running
    ensures FramesOk(Apply(s, StartEnd))
  {
    hide FramesIn, Frames, Events, PtsOf, TransitOk;
  }

  lemma StepKeepsFrames(s: State, step: Step)
    requires FramesOk(s)
    ensures FramesOk(Apply(s, step))
  {
    hide FramesOk;
    if s.source.status == Running {
      match step
      case Render(_, _, _) => SinkKeepsFrames(s, step);
      case Gap(_, _) => SinkKeepsFrames(s, step);
      case End => SinkKeepsFrames(s, step);
      case TakeFrame => TakeKeepsFrames(s);
      case ReceiveEvent(refused) => ReceiveKeepsFrames(s, refused);
      case PushBuffer(refused) => PushKeepsFrames(s, refused);
      case StartEnd => StartEndKeepsFrames(s);
      case _ => TransitKeepsFrames(s, step);
    }
  }

  lemma {:induction false} RunKeepsFrames(s: State, steps: seq<Step>)
    requires FramesOk(s)
    ensures FramesOk(Run(s, steps))
    decreases |steps|
  {
    hide FramesOk, Apply;
    if steps != [] {
      StepKeepsFrames(s, steps[0]);
      RunKeepsFrames(Apply(s, steps[0]), steps[1..]);
    }
  }

  lemma StartFrames()
    ensures FramesOk(START)
  {
    NoItems();
  }

  /**
   * Lossless or error: a source that returns EOS has pushed every frame the sink submitted, once each and in order,
   * and no frame was ever replaced in the mailbox or expired.
   */
  lemma LosslessOrError(steps: seq<Step>)
    requires Run(START, steps).source.status == Eos
    ensures var s := Run(START, steps); FramesIn(s.source.out) == PtsOf(Frames(s.history)) && !s.lost
  {
    hide Run, FramesIn, Frames, PtsOf;
    StartFrames();
    RunKeepsFrames(START, steps);
    var s := Run(START, steps);
    var all := Frames(s.history);
    assert all[..s.source.sequence] == all;
    NoPts();
    assert FramesIn(s.source.out) + [] == FramesIn(s.source.out);
  }

  lemma {:induction false} LostStays(s: State, steps: seq<Step>)
    requires s.lost
    ensures Run(s, steps).lost
    decreases |steps|
  {
    if steps != [] {
      LostStays(Apply(s, steps[0]), steps[1..]);
    }
  }

  lemma {:induction false} RunConcat(s: State, a: seq<Step>, b: seq<Step>)
    ensures Run(s, a + b) == Run(Run(s, a), b)
    decreases |a|
  {
    hide Apply;
    if a == [] {
      assert a + b == b;
    } else {
      assert (a + b)[1..] == a[1..] + b;
      RunConcat(Apply(s, a[0]), a[1..], b);
    }
  }

  /** Once a frame was replaced or expired no continuation of the run ends in EOS. */
  lemma ReplacementNeverEnds(steps: seq<Step>, more: seq<Step>)
    requires Run(START, steps).lost
    ensures Run(START, steps + more).source.status != Eos
  {
    hide Run;
    RunConcat(START, steps, more);
    LostStays(Run(START, steps), more);
    if Run(START, steps + more).source.status == Eos {
      LosslessOrError(steps + more);
    }
  }

  // ---- the order of GAPs and frames -----------------------------------------------------------------

  /** A discontinuous frame follows its own barrier, any other follows a frame, and the end comes last. */
  ghost predicate WellMarked(h: seq<Did>) {
    && (forall k :: 0 <= k < |h| && h[k].DidFrame? ==>
      k > 0 && if h[k].frame.discont then h[k - 1] == DidBarrier(h[k].frame.pts) else h[k - 1].DidFrame?)
    && (forall k :: 0 <= k < |h| - 1 ==> !h[k].DidEnd?)
  }

  ghost predicate SinkOk(s: Sink, h: seq<Did>) {
    && WellMarked(h)
    && (s.frames > 0 && !s.gapPending && !s.ended ==> h != [] && h[|h| - 1].DidFrame?)
    && (!s.ended ==> h == [] || !h[|h| - 1].DidEnd?)
    && (s.ended ==> h != [] && h[|h| - 1] == DidEnd(s.frames, s.lastPts))
  }

  ghost predicate NoFrames(h: seq<Did>, from: nat, to: nat) {
    to <= |h| && forall k :: from <= k < to ==> !h[k].DidFrame?
  }

  /** The frame in hand is the next one, its barrier still ahead. */
  ghost predicate Ahead(h: seq<Did>, m: nat, f: VFrame, i: nat) {
    m < i < |h| && h[i] == DidFrame(f) && f.discont && NoFrames(h, m, i)
  }

  ghost predicate AheadSomewhere(h: seq<Did>, m: nat, f: VFrame) {
    exists i: nat :: Ahead(h, m, f, i)
  }

  function Delivered(r: Source): seq<Out> {
    if r.delivery.Some? then [OutFrame(r.delivery.value.pts)] else []
  }

  /** The source has merged exactly the first `m` things the sink did. */
  ghost predicate MergedTo(h: seq<Did>, r: Source, m: nat) {
    && m <= |h| && (forall k :: 0 <= k < m ==> !h[k].DidEnd?)
    && |Frames(h[..m])| == r.frames
    && r.out + r.gaps + Delivered(r) == Log(h[..m])
    && (r.phase == Idle ==> m == 0 || h[m - 1].DidFrame?)
    && (r.phase == Idle && r.delivery == None ==> r.gaps == [])
    && (r.phase.AwaitBarrier? ==> AheadSomewhere(h, m, r.phase.frame))
  }

  ghost predicate OrderOk(s: State, m: nat) {
    && SinkOk(s.sink, s.history)
    && (s.source.status == Running ==>
          MergedTo(s.history, s.source, m) && Events(s.history[m..]) == s.queue + s.eventWire)
    && (s.source.status == Eos ==> s.source.out == Log(s.history))
  }

  /** No two barriers share a running time; distinct frame times make it so. */
  ghost predicate DistinctBarriers(h: seq<Did>) {
    forall i, j :: 0 <= i < j < |h| && h[i].DidBarrier? && h[j].DidBarrier? ==> h[i].pts != h[j].pts
  }

  lemma Cut(h: seq<Did>, m: nat)
    requires m < |h|
    ensures h[..m + 1] == h[..m] + [h[m]] && h[m..] == [h[m]] + h[m + 1..]
    ensures Frames(h[..m + 1]) == Frames(h[..m]) + FrameOf(h[m]) && Log(h[..m + 1]) == Log(h[..m]) + LogOf(h[m])
    ensures Events(h[m..]) == EventOf(h[m]) + Events(h[m + 1..])
  {
    hide Frames, Log, Events;
    Singles(h[m]);
    FramesSplit(h[..m], [h[m]]);
    LogSplit(h[..m], [h[m]]);
    EventsSplit([h[m]], h[m + 1..]);
    assert h[..m + 1] == h[..m] + [h[m]] && h[m..] == [h[m]] + h[m + 1..];
  }

  lemma FramesStep(h: seq<Did>, m: nat)
    requires m < |h|
    ensures |Frames(h[..m + 1])| == |Frames(h[..m])| + (if h[m].DidFrame? then 1 else 0)
      && |Frames(h[..m + 1])| <= |Frames(h)|
  {
    hide Frames, Log, Events;
    Cut(h, m);
    FramesSplit(h[..m + 1], h[m + 1..]);
    assert h == h[..m + 1] + h[m + 1..];
  }

  lemma FrameHere(h: seq<Did>, m: nat)
    requires m < |h| && h[m].DidFrame?
    ensures |Frames(h[..m])| < |Frames(h)| && Frames(h)[|Frames(h[..m])|] == h[m].frame
  {
    hide Frames, Log, Events;
    Cut(h, m);
    FramesSplit(h[..m + 1], h[m + 1..]);
    assert h == h[..m + 1] + h[m + 1..];
  }

  /** Where the next frame sits. */
  lemma {:induction false} NextFrame(h: seq<Did>, m: nat) returns (i: nat)
    requires m <= |h| && |Frames(h[..m])| < |Frames(h)|
    ensures m <= i < |h| && NoFrames(h, m, i) && h[i] == DidFrame(Frames(h)[|Frames(h[..m])|])
    decreases |h| - m
  {
    hide Frames;
    assert h[..|h|] == h;
    FramesStep(h, m);
    if h[m].DidFrame? {
      FrameHere(h, m);
      i := m;
    } else {
      i := NextFrame(h, m + 1);
    }
  }

  lemma {:induction false} NoMoreFrames(h: seq<Did>, m: nat)
    requires m <= |h| && |Frames(h[..m])| == |Frames(h)|
    ensures NoFrames(h, m, |h|)
    decreases |h| - m
  {
    hide Frames;
    if m < |h| {
      FramesStep(h, m);
      NoMoreFrames(h, m + 1);
    }
  }

  // -- the sink

  lemma RenderKeepsSink(s: Sink, h: seq<Did>, pts: nat, flagged: bool, submitted: bool)
    requires SinkOk(s, h) && !s.ended
    ensures SinkOk(Rendered(s, pts, flagged, submitted), h + RenderedItems(s, pts, flagged, submitted))
  {
    var mark := MarksDiscont(s, flagged);
    var items := RenderedItems(s, pts, flagged, submitted);
    var h' := h + items;
    assert forall k :: 0 <= k < |h| ==> h'[k] == h[k];
    if mark && submitted {
      assert items == [DidBarrier(pts), DidFrame(VFrame(pts, true))];
    } else if mark {
      assert items == [DidBarrier(pts)];
    } else if submitted {
      assert items == [DidFrame(VFrame(pts, false))];
    } else {
      assert h' == h;
    }
  }

  lemma AppendKeepsSink(s: Sink, h: seq<Did>, s': Sink, d: Did)
    requires SinkOk(s, h) && !s.ended
    requires (d.DidGap? && s' == s.(gapPending := true))
      || (d == DidEnd(s.frames, s.lastPts) && s' == s.(ended := true))
    ensures SinkOk(s', h + [d])
  {
  }

  lemma GrowMerged(h: seq<Did>, more: seq<Did>, r: Source, m: nat)
    requires MergedTo(h, r, m)
    ensures MergedTo(h + more, r, m) && Events((h + more)[m..]) == Events(h[m..]) + Events(more)
  {
    hide Frames, Log, Events;
    assert (h + more)[..m] == h[..m] && (h + more)[m..] == h[m..] + more;
    EventsSplit(h[m..], more);
    if r.phase.AwaitBarrier? {
      var i: nat :| Ahead(h, m, r.phase.frame, i);
      assert Ahead(h + more, m, r.phase.frame, i);
    }
  }

  lemma RecordInOrder(s: State, m: nat, sink: Sink, items: seq<Did>)
    requires OrderOk(s, m) && s.source.status == Running && SinkOk(sink, s.history + items)
    ensures OrderOk(Record(s, sink, items), m)
  {
    hide MergedTo, SinkOk, Events, Frames, Log;
    GrowMerged(s.history, items, s.source, m);
    Reassociate(s.queue, s.eventWire, Events(items));
  }

  lemma SinkInOrder(s: State, m: nat, step: Step)
    requires OrderOk(s, m) && s.source.status == Running && (step.Render? || step.Gap? || step.End?)
    ensures OrderOk(Apply(s, step), m)
  {
    hide MergedTo, SinkOk, Events, Frames, Log, Rendered, RenderedItems;
    if !s.sink.ended {
      match step
      case Render(pts, flagged, submitted) =>
        RenderKeepsSink(s.sink, s.history, pts, flagged, submitted);
        RecordInOrder(s, m, Rendered(s.sink, pts, flagged, submitted), RenderedItems(s.sink, pts, flagged, submitted));
      case Gap(pts, duration) =>
        if duration != 0 {
          AppendKeepsSink(s.sink, s.history, s.sink.(gapPending := true), DidGap(pts, duration));
          RecordInOrder(s, m, s.sink.(gapPending := true), [DidGap(pts, duration)]);
        }
      case End =>
        var d := DidEnd(s.sink.frames, s.sink.lastPts);
        AppendKeepsSink(s.sink, s.history, s.sink.(ended := true), d);
        RecordInOrder(s, m, s.sink.(ended := true), [d]);
    }
  }

  lemma TransitInOrder(s: State, m: nat, step: Step)
    requires OrderOk(s, m) && s.source.status == Running
    requires step.DeliverFrame? || step.ReadEvent? || step.LearnEnd? || step.ExpireFrame? || step.GiveUp?
    ensures OrderOk(Apply(s, step), m)
  {
    hide MergedTo, SinkOk, Events, Frames, Log;
    if step.ReadEvent? && s.eventWire != [] && |s.queue| < QUEUE_LIMIT {
      assert s.queue + [s.eventWire[0]] + s.eventWire[1..] == s.queue + s.eventWire;
    }
  }

  // -- the source

  /** A frame without a barrier of its own comes right after the last merged one, any other later. */
  lemma FrameAfterFrame(h: seq<Did>, m: nat, i: nat)
    requires WellMarked(h) && m <= i < |h| && h[i].DidFrame? && NoFrames(h, m, i) && (m == 0 || h[m - 1].DidFrame?)
    ensures if h[i].frame.discont then m < i else m == i
  {
    assert i > 0 && if h[i].frame.discont then h[i - 1].DidBarrier? else h[i - 1].DidFrame?;
  }

  lemma TakeInOrder(s: State, m: nat) returns (m': nat)
    requires OrderOk(s, m) && FramesOk(s) && s.source.status == Running
    ensures OrderOk(Apply(s, TakeFrame), m')
  {
    hide Frames, Log, Events, HandOk, SentOk, EndOk, WellMarked;
    m' := m;
    var h, r := s.history, s.source;
    if Idling(s) && s.mailbox.Some? && s.arrivals == r.sequence + 1 {
      InHandNothing(s);
      var f := s.mailbox.value;
      var i := NextFrame(h, m);
      FrameAfterFrame(h, m, i);
      if f.discont {
        assert Ahead(h, m, f, i);
      } else {
        Cut(h, m);
        m' := m + 1;
        assert r.out + [] + [OutFrame(f.pts)] == r.out + [] + [] + [OutFrame(f.pts)];
      }
    }
  }

  lemma InHandNothing(s: State)
    requires FramesOk(s) && s.source.phase == Idle
    ensures s.source.frames == s.source.sequence
  {
    hide Frames, FramesIn, PtsOf, TransitOk;
  }

  lemma PushInOrder(s: State, m: nat, step: Step)
    requires OrderOk(s, m) && FramesOk(s) && s.source.status == Running && (step.PushBuffer? || step.StartEnd?)
    ensures OrderOk(Apply(s, step), m)
  {
    hide Frames, Log, Events, FramesIn, PtsOf, SinkOk;
    var r := s.source;
    if step.PushBuffer? && r.delivery.Some? && !Refuses(r, step.refused) {
      assert r.out + r.gaps + [OutFrame(r.delivery.value.pts)] + [] + [] == r.out + r.gaps + Delivered(r);
    }
  }

  /** A further thing the sink did that is not a frame: a GAP is collected, a barrier of another frame is skipped. */
  lemma SkipInOrder(h: seq<Did>, r: Source, m: nat, r': Source)
    requires MergedTo(h, r, m) && m < |h| && !h[m].DidFrame? && !h[m].DidEnd? && r.delivery == None && r.phase != Idle
    requires r' == r.(gaps := r.gaps + LogOf(h[m]))
    requires r.phase.AwaitBarrier? ==> AheadSomewhere(h, m + 1, r.phase.frame)
    ensures MergedTo(h, r', m + 1)
  {
    hide Frames, Log, Events;
    Cut(h, m);
    assert r.out + (r.gaps + LogOf(h[m])) + [] == r.out + r.gaps + [] + LogOf(h[m]);
  }

  lemma HeadIs(e: Event, rest: seq<Event>, d: seq<Event>, tail: seq<Event>)
    requires [e] + rest == d + tail && |d| == 1
    ensures d == [e] && tail == rest
  {
    assert ([e] + rest)[0] == e && (d + tail)[0] == d[0];
    assert ([e] + rest)[1..] == rest && (d + tail)[1..] == tail;
  }

  /** The next event received is the next thing the sink did, unless that was a frame. */
  lemma NextEvent(h: seq<Did>, m: nat, queue: seq<Event>, wire: seq<Event>)
    requires m < |h| && !h[m].DidFrame? && queue != [] && Events(h[m..]) == queue + wire
    ensures EventOf(h[m]) == [queue[0]] && Events(h[m + 1..]) == queue[1..] + wire
  {
    hide Events, Frames, Log;
    Cut(h, m);
    assert queue + wire == [queue[0]] + (queue[1..] + wire);
    HeadIs(queue[0], queue[1..] + wire, EventOf(h[m]), Events(h[m + 1..]));
  }

  lemma EventsRemain(h: seq<Did>, m: nat, queue: seq<Event>, wire: seq<Event>)
    requires m <= |h| && queue != [] && Events(h[m..]) == queue + wire
    ensures m < |h|
  {
    NoItems();
    assert |queue + wire| > 0;
  }

  /** The frame's own barrier: everything before it is merged, the frame follows. */
  lemma OwnBarrier(h: seq<Did>, r: Source, m: nat)
    requires MergedTo(h, r, m) && r.phase.AwaitBarrier? && r.delivery == None && m + 1 < |h|
    requires h[m].DidBarrier? && h[m + 1] == DidFrame(r.phase.frame)
    ensures MergedTo(h, Accept(r, r.phase.frame), m + 2) && Events(h[m + 1..]) == Events(h[m + 2..])
  {
    hide Frames, Log, Events, AheadSomewhere;
    Cut(h, m);
    Cut(h, m + 1);
    var f := r.phase.frame;
    assert r.out + r.gaps + [] + [] + [OutFrame(f.pts)] == r.out + r.gaps + [OutFrame(f.pts)];
    assert [] + Events(h[m + 2..]) == Events(h[m + 2..]);
  }

  /** With distinct barriers, a barrier of the frame's time is the frame's own. */
  lemma WhichBarrier(h: seq<Did>, m: nat, f: VFrame, i: nat)
    requires WellMarked(h) && DistinctBarriers(h) && Ahead(h, m, f, i)
    ensures !h[m].DidFrame? && !h[m].DidEnd?
    ensures h[m] == DidBarrier(f.pts) ==> i == m + 1
    ensures h[m] != DidBarrier(f.pts) ==> Ahead(h, m + 1, f, i)
  {
    assert h[i - 1] == DidBarrier(f.pts);
  }

  lemma BarrierInOrder(s: State, m: nat, refused: Option<nat>) returns (m': nat)
    requires OrderOk(s, m) && FramesOk(s) && s.source.status == Running && s.source.phase.AwaitBarrier? && s.queue != []
    requires DistinctBarriers(s.history)
    ensures OrderOk(Apply(s, ReceiveEvent(refused)), m')
  {
    hide Frames, Log, Events, FramesIn, PtsOf, TransitOk, SentOk, EndOk, WellMarked, MergedTo, Ahead, DistinctBarriers;
    var h, r := s.history, s.source;
    var f := r.phase.frame;
    WaitingAhead(h, r, m);
    var i: nat :| Ahead(h, m, f, i);
    InsideHistory(h, m, f, i);
    WhichBarrier(h, m, f, i);
    NextEvent(h, m, s.queue, s.eventWire);
    if h[m] == DidBarrier(f.pts) {
      m' := m + 2;
      OwnBarrier(h, r, m);
    } else {
      m' := m + 1;
      if |r.gaps| < QUEUE_LIMIT || h[m].DidBarrier? {
        SkipInOrder(h, r, m, r.(gaps := r.gaps + LogOf(h[m])));
        assert r.gaps + [] == r.gaps;
      }
    }
  }

  lemma WaitingAhead(h: seq<Did>, r: Source, m: nat)
    requires MergedTo(h, r, m) && r.phase.AwaitBarrier?
    ensures AheadSomewhere(h, m, r.phase.frame)
  {
    hide Frames, Log;
  }

  lemma InsideHistory(h: seq<Did>, m: nat, f: VFrame, i: nat)
    requires Ahead(h, m, f, i)
    ensures m + 1 < |h| && h[i] == DidFrame(f) && m < i < |h|
  {
  }

  lemma EndInOrder(s: State, m: nat, refused: Option<nat>) returns (m': nat)
    requires OrderOk(s, m) && FramesOk(s) && s.source.status == Running && s.source.phase.AwaitEnd? && s.queue != []
    ensures OrderOk(Apply(s, ReceiveEvent(refused)), m')
  {
    hide Frames, Log, Events, FramesIn, PtsOf, TransitOk, AheadSomewhere;
    var h, r := s.history, s.source;
    NoMoreFrames(h, m);
    EventsRemain(h, m, s.queue, s.eventWire);
    NextEvent(h, m, s.queue, s.eventWire);
    m' := m + 1;
    if h[m].DidEnd? {
      assert m + 1 == |h|;
      Cut(h, m);
      assert h[..m + 1] == h;
      assert r.out + r.gaps + [] + [] == r.out + r.gaps;
    } else if |r.gaps| < QUEUE_LIMIT || h[m].DidBarrier? {
      SkipInOrder(h, r, m, r.(gaps := r.gaps + LogOf(h[m])));
      assert r.gaps + [] == r.gaps;
    }
  }

  // -- whole runs

  lemma {:induction false} HistoryGrows(s: State, steps: seq<Step>)
    ensures s.history <= Run(s, steps).history
    decreases |steps|
  {
    if steps != [] {
      HistoryGrows(Apply(s, steps[0]), steps[1..]);
    }
  }

  lemma StepInOrder(s: State, m: nat, step: Step) returns (m': nat)
    requires OrderOk(s, m) && FramesOk(s) && DistinctBarriers(s.history)
    ensures OrderOk(Apply(s, step), m')
  {
    hide OrderOk, FramesOk, DistinctBarriers;
    m' := m;
    if s.source.status == Running {
      match step
      case Render(_, _, _) => SinkInOrder(s, m, step);
      case Gap(_, _) => SinkInOrder(s, m, step);
      case End => SinkInOrder(s, m, step);
      case TakeFrame => m' := TakeInOrder(s, m);
      case PushBuffer(_) => PushInOrder(s, m, step);
      case StartEnd => PushInOrder(s, m, step);
      case ReceiveEvent(refused) =>
        if s.queue != [] {
          if s.source.phase.AwaitBarrier? {
            m' := BarrierInOrder(s, m, refused);
          } else if s.source.phase.AwaitEnd? {
            m' := EndInOrder(s, m, refused);
          }
        }
      case _ => TransitInOrder(s, m, step);
    }
  }

  /** What left the source is a prefix of what the sink did. */
  ghost predicate OutInOrder(s: State) {
    s.source.out <= Log(s.history)
  }

  lemma LogGrows(a: seq<Did>, b: seq<Did>)
    requires a <= b
    ensures Log(a) <= Log(b)
  {
    hide Log;
    LogSplit(a, b[|a|..]);
    assert b == a + b[|a|..];
  }

  lemma MergedIsPrefix(s: State, m: nat)
    requires OrderOk(s, m) && s.source.status == Running
    ensures s.source.out + s.source.gaps <= Log(s.history)
  {
    hide Log, Events, Frames, SinkOk, AheadSomewhere;
    LogGrows(s.history[..m], s.history);
  }

  /** A step that fails has at most begun to dispatch the collected GAPs. */
  lemma FailingStep(s: State, step: Step)
    requires s.source.status == Running && Apply(s, step).source.status == Failed
    ensures var s' := Apply(s, step); s.history <= s'.history && s'.source.out <= s.source.out + s.source.gaps
  {
    hide Events, Frames, Rendered, RenderedItems;
  }

  lemma PrefixOf(a: seq<Out>, b: seq<Out>, c: seq<Out>)
    requires a <= b <= c
    ensures a <= c
  {
  }

  lemma StepOutInOrder(s: State, m: nat, step: Step, m': nat)
    requires OrderOk(s, m) && OutInOrder(s) && OrderOk(Apply(s, step), m')
    ensures OutInOrder(Apply(s, step))
  {
    hide Log, MergedTo, SinkOk, Apply, Events;
    var s' := Apply(s, step);
    if s.source.status != Running {
      StoppedStays(s, step);
    } else if s'.source.status == Running {
      MergedIsPrefix(s', m');
    } else if s'.source.status == Failed {
      FailingStep(s, step);
      MergedIsPrefix(s, m);
      LogGrows(s.history, s'.history);
      PrefixOf(s'.source.out, s.source.out + s.source.gaps, Log(s.history));
      PrefixOf(s'.source.out, Log(s.history), Log(s'.history));
    }
  }

  lemma StoppedStays(s: State, step: Step)
    requires s.source.status != Running
    ensures Apply(s, step) == s
  {
  }

  lemma {:induction false} RunInOrder(s: State, m: nat, steps: seq<Step>) returns (m': nat)
    requires OrderOk(s, m) && FramesOk(s) && OutInOrder(s) && DistinctBarriers(Run(s, steps).history)
    ensures OrderOk(Run(s, steps), m') && OutInOrder(Run(s, steps))
    decreases |steps|
  {
    hide OrderOk, FramesOk, OutInOrder, Apply, DistinctBarriers;
    m' := m;
    if steps != [] {
      HistoryGrows(s, steps);
      PrefixDistinct(s.history, Run(s, steps).history);
      StepKeepsFrames(s, steps[0]);
      var k := StepInOrder(s, m, steps[0]);
      StepOutInOrder(s, m, steps[0], k);
      m' := RunInOrder(Apply(s, steps[0]), k, steps[1..]);
    }
  }

  lemma PrefixDistinct(a: seq<Did>, b: seq<Did>)
    requires a <= b && DistinctBarriers(b)
    ensures DistinctBarriers(a)
  {
  }

  /**
   * End-to-end order. With distinct running times, in every run, failed ones included, what left the source is a prefix
   * of the sink's GAPs and submitted frames in their order, and at EOS it is all of them, even when barriers of
   * dropped frames stayed in the event queue.
   */
  lemma OrderPreserved(steps: seq<Step>)
    requires DistinctBarriers(Run(START, steps).history)
    ensures var s := Run(START, steps);
      s.source.out <= Log(s.history) && (s.source.status == Eos ==> s.source.out == Log(s.history))
  {
    hide Run, FramesOk, Log, Events, Frames;
    StartFrames();
    StartInOrder();
    var m := RunInOrder(START, 0, steps);
  }

  lemma StartInOrder()
    ensures OrderOk(START, 0)
  {
    NoItems();
    assert START.history[0..] == [];
  }

  // -- distinct frame times are enough

  ghost predicate DistinctRenders(steps: seq<Step>) {
    forall i, j :: 0 <= i < j < |steps| && steps[i].Render? && steps[j].Render? ==> steps[i].pts != steps[j].pts
  }

  ghost predicate NotYet(h: seq<Did>, steps: seq<Step>) {
    forall i, j :: 0 <= i < |h| && h[i].DidBarrier? && 0 <= j < |steps| && steps[j].Render? ==> h[i].pts != steps[j].pts
  }

  lemma StepBarriers(s: State, steps: seq<Step>)
    requires steps != [] && DistinctBarriers(s.history) && DistinctRenders(steps) && NotYet(s.history, steps)
    ensures DistinctBarriers(Apply(s, steps[0]).history) && NotYet(Apply(s, steps[0]).history, steps[1..])
  {
    hide Events, Frames;
    var h, h' := s.history, Apply(s, steps[0]).history;
    assert h <= h' && forall i :: |h| <= i < |h'| && h'[i].DidBarrier? ==>
      i == |h| && steps[0].Render? && h'[i].pts == steps[0].pts;
    forall i, j | 0 <= i < |h'| && h'[i].DidBarrier? && 0 <= j < |steps| - 1 && steps[1..][j].Render?
      ensures h'[i].pts != steps[1..][j].pts {
      assert steps[1..][j] == steps[j + 1];
    }
  }

  lemma {:induction false} DistinctTimesSuffice(s: State, steps: seq<Step>)
    requires DistinctBarriers(s.history) && DistinctRenders(steps) && NotYet(s.history, steps)
    ensures DistinctBarriers(Run(s, steps).history)
    decreases |steps|
  {
    hide Apply;
    if steps != [] {
      StepBarriers(s, steps);
      DistinctTimesSuffice(Apply(s, steps[0]), steps[1..]);
    }
  }

  /** The order theorem in terms of what the sink is given: buffers with pairwise different running times. */
  lemma OrderForDistinctTimes(steps: seq<Step>)
    requires DistinctRenders(steps)
    ensures var s := Run(START, steps);
      s.source.out <= Log(s.history) && (s.source.status == Eos ==> s.source.out == Log(s.history))
  {
    hide Run, Log;
    DistinctTimesSuffice(START, steps);
    OrderPreserved(steps);
  }
}
