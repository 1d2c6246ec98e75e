/** The Control API's event-stream handler: what it writes for events and heartbeats. */
module EventWriter {
  import opened Text
  import opened Json

  datatype Frame = Event(event: Value) | Heartbeat

  predicate Internal(event: Value) {
    Get(event, "visibility") == Str("internal")
  }

  /** The block a frame writes, without the blank line that ends it. */
  function Block(frame: Frame): string {
    match frame
    case Event(event) => "data: " + Stringify(event)
    case Heartbeat => ": heartbeat"
  }

  predicate Silent(frame: Frame) {
    frame.Event? && Internal(frame.event)
  }

  function FrameText(frame: Frame): string {
    if Silent(frame) then "" else Block(frame) + "\n\n"
  }

  function StreamText(frames: seq<Frame>): string {
    if frames == [] then "" else FrameText(frames[0]) + StreamText(frames[1..])
  }

  /** The events a stream of frames makes public, in order. */
  function Visible(frames: seq<Frame>): seq<Value> {
    if frames == [] then []
    else if frames[0].Event? && !Internal(frames[0].event) then [frames[0].event] + Visible(frames[1..])
    else Visible(frames[1..])
  }

  lemma {:induction false} StreamTextAppend(a: seq<Frame>, b: seq<Frame>)
    ensures StreamText(a + b) == StreamText(a) + StreamText(b)
    decreases |a|
  {
    if a == [] {
      assert a + b == b;
    } else {
      StreamTextAppend(a[1..], b);
      HeadAndRest(a, b);
      StreamTextStep(a[0], a[1..] + b);
      StreamTextStep(a[0], a[1..]);
      Associative(FrameText(a[0]), StreamText(a[1..]), StreamText(b));
    }
  }

  lemma StreamTextStep(frame: Frame, frames: seq<Frame>)
    ensures StreamText([frame] + frames) == FrameText(frame) + StreamText(frames)
  {
    assert ([frame] + frames)[1..] == frames;
  }

  lemma {:induction false} VisibleAppend(a: seq<Frame>, b: seq<Frame>)
    ensures Visible(a + b) == Visible(a) + Visible(b)
    decreases |a|
  {
    if a == [] {
      assert a + b == b;
    } else {
      VisibleAppend(a[1..], b);
      HeadAndRest(a, b);
      VisibleStep(a[0], a[1..] + b);
      VisibleStep(a[0], a[1..]);
      Associative(Visible([a[0]]), Visible(a[1..]), Visible(b));
    }
  }

  lemma VisibleStep(frame: Frame, frames: seq<Frame>)
    ensures Visible([frame] + frames) == Visible([frame]) + Visible(frames)
  {
    assert ([frame] + frames)[1..] == frames;
  }

  /** One open response: everything sent so far, in the order it was sent. */
  class EventStream {
    var written: string
    ghost var frames: seq<Frame>

    ghost predicate Valid()
      reads this
    {
      written == StreamText(frames)
    }

    constructor ()
      ensures Valid() && frames == []
    {
      written, frames := "", [];
    }

    method Send(event: Value)
      requires Valid()
      modifies this
      ensures Valid() && frames == old(frames) + [Event(event)]
      ensures written == old(written) + if Get(event, "visibility") == Str("internal") then ""
                                        else "data: " + Stringify(event) + "\n\n"
    {
      StreamTextAppend(frames, [Event(event)]);
      assert StreamText([Event(event)]) == FrameText(Event(event)) + "";
      frames := frames + [Event(event)];
      if Internal(event) {
        return;
      }
      written := written + ("data: " + Stringify(event) + "\n\n");
    }

    method Beat()
      requires Valid()
      modifies this
      ensures Valid() && frames == old(frames) + [Heartbeat]
      ensures written == old(written) + ": heartbeat\n\n"
    {
      StreamTextAppend(frames, [Heartbeat]);
      assert StreamText([Heartbeat]) == FrameText(Heartbeat) + "";
      frames := frames + [Heartbeat];
      written := written + ": heartbeat\n\n";
    }

    /** The replay loop of the handler: stored events first, in order. */
    method Replay(events: seq<Value>)
      requires Valid()
      modifies this
      ensures Valid() && frames == old(frames) + EventFrames(events)
    {
      for i := 0 to |events|
        invariant Valid() && frames == old(frames) + EventFrames(events[..i])
      {
        Send(events[i]);
        assert EventFrames(events[..i + 1]) == EventFrames(events[..i]) + [Event(events[i])];
      }
      assert events[..|events|] == events;
    }
  }

  function EventFrames(events: seq<Value>): (r: seq<Frame>)
    ensures |r| == |events| && forall i :: 0 <= i < |r| ==> r[i] == Event(events[i])
  {
    seq(|events|, i requires 0 <= i < |events| => Event(events[i]))
  }
}
