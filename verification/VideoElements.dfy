/** The video sink, the event channel and the video source as the elements run them. */
module VideoElements {
  import opened Basics
  import opened VideoEvents

  /** The producer's side of the accounting. */
  class VideoSink {
    var sessionFrames: nat
    var sessionLastPts: int
    var sessionGapPending: bool
    var ended: bool

    ghost function State(): Sink
      reads this
    {
      Sink(sessionFrames, sessionLastPts, sessionGapPending, ended)
    }

    constructor ()
      ensures State() == START.sink
    {
      sessionFrames, sessionLastPts, sessionGapPending, ended := 0, -1, false, false;
    }

    /** `room` says whether the ring takes the frame. The barrier is sent before it is known. */
    method RenderBuffer(pts: nat, flagged: bool, room: bool) returns (sent: seq<Event>, frame: Option<VFrame>)
      modifies this
      ensures State() == Rendered(old(State()), pts, flagged, room)
      ensures var items := RenderedItems(old(State()), pts, flagged, room);
        sent == Events(items) && Frames(items) == if frame.Some? then [frame.value] else []
    {
      hide Events, Frames;
      var mark := sessionGapPending || sessionFrames == 0 || flagged;
      sent, frame := [], None;
      if mark {
        sent := [BarrierEvent(pts)];
        sessionGapPending := true;
      }
      if room {
        frame := Some(VFrame(pts, mark));
        sessionFrames := sessionFrames + 1;
        sessionLastPts := pts;
        sessionGapPending := false;
      }
      RenderedEvents(old(State()), pts, flagged, room);
      RenderedFrames(old(State()), pts, flagged, room);
    }

    method SendGap(pts: nat, duration: nat) returns (sent: seq<Event>)
      modifies this`sessionGapPending
      ensures duration == 0 ==> sent == [] && State() == old(State())
      ensures duration != 0 ==> sent == Events([DidGap(pts, duration)]) && State() == old(State()).(gapPending := true)
    {
      sent := [];
      if duration != 0 {
        Singles(DidGap(pts, duration));
        sent := [GapEvent(pts, duration)];
        sessionGapPending := true;
      }
    }

    method SendEnd() returns (sent: seq<Event>)
      modifies this`ended
      ensures sent == Events([DidEnd(sessionFrames, sessionLastPts)]) && State() == old(State()).(ended := true)
    {
      Singles(DidEnd(sessionFrames, sessionLastPts));
      sent := [EndEvent(sessionFrames, if sessionLastPts < 0 then 0 else sessionLastPts)];
      ended := true;
    }
  }

  lemma RenderedEvents(s: Sink, pts: nat, flagged: bool, submitted: bool)
    ensures Events(RenderedItems(s, pts, flagged, submitted)) == if MarksDiscont(s, flagged) then [BarrierEvent(pts)]
      else []
  {
    hide Events;
    var mark := MarksDiscont(s, flagged);
    var b, f := DidBarrier(pts), DidFrame(VFrame(pts, mark));
    Singles(b);
    Singles(f);
    NoItems();
    EventsSplit([b], [f]);
    assert [b] + [] == [b] && [] + [f] == [f];
    assert !mark && !submitted ==> RenderedItems(s, pts, flagged, submitted) == [];
  }

  /** The bounded queue the reader thread fills and the source drains. */
  class EventChannel {
    var events: seq<Event>
    var failed: bool

    constructor ()
      ensures events == [] && !failed
    {
      events, failed := [], false;
    }

    /** One record off the wire; a full queue breaks the stream. On the machine this is the step ReadEvent. */
    method Enqueue(e: Event, ghost s: State)
      requires !failed && s.source.status == Running && s.queue == events && s.eventWire != [] && s.eventWire[0] == e
      modifies this
      ensures var t := Apply(s, ReadEvent);
        t == s.(eventWire := t.eventWire, queue := events, source := s.source.(status := if failed then Failed
          else Running))
      ensures failed == (old(failed) || |old(events)| >= QUEUE_LIMIT)
      ensures events == if |old(events)| >= QUEUE_LIMIT then old(events) else old(events) + [e]
    {
      if |events| >= QUEUE_LIMIT {
        failed := true;
        return;
      }
      events := events + [e];
    }

    method Dequeue() returns (e: Option<Event>)
      modifies this`events
      ensures old(events) == [] ==> e == None && events == []
      ensures old(events) != [] ==> e == Some(old(events)[0]) && events == old(events)[1..]
    {
      e := None;
      if events != [] {
        e := Some(events[0]);
        events := events[1..];
      }
    }

    /** The first queued end record, left in place. */
    method PeekEnd() returns (e: Option<Event>)
      ensures e == None <==> forall i :: 0 <= i < |events| ==> !events[i].EndEvent?
      ensures e.Some? ==> exists i :: 0 <= i < |events| && events[i] == e.value && e.value.EndEvent? && forall k ::
        0 <= k < i ==> !events[k].EndEvent?
    {
      e := None;
      var i := 0;
      while i < |events|
        invariant i <= |events| && e == None && forall k :: 0 <= k < i ==> !events[k].EndEvent?
      {
        if events[i].EndEvent? {
          return Some(events[i]);
        }
        i := i + 1;
      }
    }
  }

  /** Events received until the wait is over or nothing is queued. */
  function Drained(r: Source, queue: seq<Event>, refused: Option<nat>): (Source, seq<Event>)
    decreases |queue|
  {
    if r.phase == Idle || r.status != Running || queue == [] then (r, queue)
      else Drained(Receive(r, queue[0], refused), queue[1..], refused)
  }

  function ReceiveSteps(n: nat, refused: Option<nat>): (steps: seq<Step>)
    ensures |steps| == n && forall i :: 0 <= i < n ==> steps[i] == ReceiveEvent(refused)
  {
    seq(n, _ => ReceiveEvent(refused))
  }

  /** Draining the queue is a run of the machine. */
  lemma {:induction false} DrainedIsRun(s: State, refused: Option<nat>)
    requires s.source.status == Running
    ensures var (r, rest) := Drained(s.source, s.queue, refused);
      Run(s, ReceiveSteps(|s.queue|, refused)) == s.(source := r, queue := rest)
    decreases |s.queue|
  {
    hide Receive;
    if s.source.phase == Idle || s.queue == [] {
      Stuck(s, |s.queue|, refused);
    } else {
      var t := Apply(s, ReceiveEvent(refused));
      assert ReceiveSteps(|s.queue|, refused)[1..] == ReceiveSteps(|t.queue|, refused);
      if t.source.status == Running {
        DrainedIsRun(t, refused);
      } else {
        Stuck(t, |t.queue|, refused);
      }
    }
  }

  lemma {:induction false} Stuck(s: State, n: nat, refused: Option<nat>)
    requires s.source.status != Running || s.source.phase == Idle || s.queue == []
    ensures Run(s, ReceiveSteps(n, refused)) == s
  {
    if n > 0 {
      assert ReceiveSteps(n, refused)[1..] == ReceiveSteps(n - 1, refused);
      Stuck(s, n - 1, refused);
    }
  }

  /** The consumer's side. `pushed` is what went downstream. */
  class VideoSource {
    var sessionSequence: nat
    var sessionFrames: nat
    var sessionLastPts: int
    const pendingGaps: array<Out>
    var pendingGapCount: nat
    var pendingDelivery: Option<VFrame>
    var phase: Phase
    var status: Status
    var pushed: seq<Out>

    ghost predicate Valid()
      reads this
    {
      pendingGaps.Length == QUEUE_LIMIT && pendingGapCount <= QUEUE_LIMIT
    }

    ghost function State(): Source
      reads this, pendingGaps
      requires Valid()
    {
      Source(sessionSequence, sessionFrames, sessionLastPts, pendingGaps[..pendingGapCount], pendingDelivery, phase,
        status, pushed)
    }

    constructor ()
      ensures Valid() && fresh(pendingGaps) && State() == START.source
    {
      sessionSequence, sessionFrames, sessionLastPts := 0, 0, -1;
      pendingGaps := new Out[QUEUE_LIMIT](_ => OutGap(0, 0));
      pendingGapCount, pendingDelivery, phase, status, pushed := 0, None, Idle, Running, [];
    }

    method Deliver(f: VFrame)
      requires Valid()
      modifies this`sessionFrames, this`sessionLastPts, this`pendingDelivery, this`phase
      ensures Valid() && State() == Accept(old(State()), f)
    {
      sessionFrames := sessionFrames + 1;
      sessionLastPts := f.pts;
      pendingDelivery := Some(f);
      phase := Idle;
    }

    /** A frame acquired from the ring under its sequence number. */
    method AcceptFrame(f: VFrame, sequence: nat)
      requires Valid()
      modifies this
      ensures Valid() && State() == Take(old(State()), f, sequence)
    {
      if sequence != sessionSequence + 1 {
        status := Failed;
        return;
      }
      sessionSequence := sequence;
      if f.discont {
        phase := AwaitBarrier(f);
      } else {
        Deliver(f);
      }
    }

    /** srcVideoEvents: collects GAPs and skips foreign barriers until the awaited event. */
    method AwaitEvents(channel: EventChannel, refused: Option<nat>)
      requires Valid() && status == Running && phase != Idle
      modifies this, pendingGaps, channel
      ensures Valid() && (State(), channel.events) == Drained(old(State()), old(channel.events), refused)
    {
      ghost var want := Drained(State(), channel.events, refused);
      while phase != Idle && status == Running && channel.events != []
        invariant Valid() && Drained(State(), channel.events, refused) == want
        decreases |channel.events|
      {
        var e := channel.Dequeue();
        Handle(e.value, refused);
      }
    }

    method Handle(e: Event, refused: Option<nat>)
      requires Valid() && status == Running && phase != Idle
      modifies this, pendingGaps
      ensures Valid() && State() == Receive(old(State()), e, refused)
    {
      match e
      case GapEvent(pts, duration) =>
        if pendingGapCount >= QUEUE_LIMIT {
          status := Failed;
        } else {
          pendingGaps[pendingGapCount] := OutGap(pts, duration);
          pendingGapCount := pendingGapCount + 1;
        }
      case BarrierEvent(pts) =>
        if phase.AwaitBarrier? && pts == phase.frame.pts {
          Deliver(phase.frame);
        }
      case EndEvent(_, pts) =>
        if phase.AwaitEnd? && pts == phase.pts {
          var ok := EmitGaps(refused);
          if ok {
            phase := Idle;
            status := Eos;
          } else {
            status := Failed;
          }
        } else {
          status := Failed;
        }
    }

    /**
     * srcEmitGaps: collected GAPs leave in order. Mapping or pushing the one at `refused` fails: those before it are
     * out, and all stay collected.
     */
    method EmitGaps(refused: Option<nat>) returns (ok: bool)
      requires Valid()
      modifies this`pushed, this`pendingGapCount
      ensures Valid() && ok == !Refuses(old(State()), refused)
      ensures ok ==> pendingGapCount == 0 && pushed == old(pushed) + old(pendingGaps[..pendingGapCount])
      ensures !ok ==>
        pendingGapCount == old(pendingGapCount)
          && pushed == old(pushed) + old(pendingGaps[..pendingGapCount])[..refused.value]
    {
      var i := 0;
      while i < pendingGapCount
        invariant i <= pendingGapCount == old(pendingGapCount) && pushed == old(pushed) + pendingGaps[..i]
        invariant refused.Some? ==> i <= refused.value
      {
        if refused == Some(i) {
          assert pendingGaps[..pendingGapCount][..i] == pendingGaps[..i];
          return false;
        }
        pushed := pushed + [pendingGaps[i]];
        i := i + 1;
      }
      pendingGapCount := 0;
      ok := true;
    }

    /** The pad probe on a buffer that would leave: it is dropped, and the source fails, if a GAP could not. */
    method PushProbe(refused: Option<nat>) returns (dropped: bool)
      requires Valid() && pendingDelivery.Some?
      modifies this`pushed, this`pendingGapCount, this`pendingDelivery, this`status
      ensures Valid() && State() == Push(old(State()), refused) && dropped == Refuses(old(State()), refused)
    {
      var ok := EmitGaps(refused);
      if !ok {
        status := Failed;
        return true;
      }
      pushed := pushed + [OutFrame(pendingDelivery.value.pts)];
      pendingDelivery := None;
      dropped := false;
    }

    method NoteEnd(frames: nat, lastPts: int)
      requires Valid() && phase == Idle
      modifies this`phase, this`status
      ensures Valid() && State() == CheckEnd(old(State()), frames, lastPts)
    {
      if sessionFrames >= frames {
        if sessionFrames != frames || sessionLastPts != lastPts {
          status := Failed;
        } else {
          phase := AwaitEnd(if lastPts < 0 then 0 else lastPts);
        }
      }
    }
  }
}
