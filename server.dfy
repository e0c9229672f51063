/**
 * One client of the shot server. `detect_shots` runs the tracker over the
 * camera's frames and writes a line to the client's socket for each shot;
 * `send_corners` writes the corner announcement. The socket is modelled by
 * `sent`, the messages written so far, in order; the camera and OpenCV by
 * the list of frames, each the contours found in it.
 */
module Server {
  import opened Wrappers
  import opened Wire
  import opened Tracking

  /** The lines written for the given shot positions, one each, in order. */
  function EventLines(ps: seq<Point>): seq<string>
  {
    seq(|ps|, i requires 0 <= i < |ps| => EventLine(ps[i].x, ps[i].y))
  }

  /** Writing the lines for `a` and then for `b` writes the lines for `a + b`. */
  lemma EventLinesAppend(sent: seq<string>, a: seq<Point>, b: seq<Point>)
    ensures (sent + EventLines(a)) + EventLines(b) == sent + EventLines(a + b)
  {
    assert EventLines(a + b) == EventLines(a) + EventLines(b);
  }

  /** Writing the line for a shot, if there is one, extends the lines written. */
  lemma EventLinesStep(sent: seq<string>, a: seq<Point>, e: Option<Point>)
    ensures sent + EventLines(a) + (if e.Some? then [EventLine(e.value.x, e.value.y)] else [])
         == sent + EventLines(a + EventSeq(e))
  {
  }

  /** Every line written parses back to the position it was written for. */
  lemma EventLinesParse(ps: seq<Point>)
    ensures |EventLines(ps)| == |ps|
    ensures forall i :: 0 <= i < |ps| ==> ParseEventLine(EventLines(ps)[i]) == Some((ps[i].x, ps[i].y))
  {
    forall i | 0 <= i < |ps|
      ensures ParseEventLine(EventLines(ps)[i]) == Some((ps[i].x, ps[i].y))
    {
      EventLineRoundTrip(ps[i].x, ps[i].y);
    }
  }

  /** All frames' contours, frame after frame. */
  function Flatten(frames: seq<seq<Contour>>): seq<Contour>
    decreases |frames|
  {
    if |frames| == 0 then []
    else Flatten(frames[..|frames| - 1]) + frames[|frames| - 1]
  }

  class Session {
    /** What has been written to the client socket, in order. */
    var sent: seq<string>
    /** `prev_center` of `detect_shots`. */
    var prevCenter: Option<Point>
    /** `prev_velocity` of `detect_shots`. */
    var prevVelocity: Option<real>
    /** `np.sqrt` on the integers it is given. */
    const sqrt: nat -> real

    function Memos(): TrackState
      reads this
    {
      TrackState(prevCenter, prevVelocity)
    }

    /** A freshly accepted client: nothing written, no memos. */
    constructor (sqrt: nat -> real)
      ensures this.sqrt == sqrt
      ensures sent == [] && Memos() == Initial
    {
      this.sqrt := sqrt;
      sent := [];
      prevCenter, prevVelocity := None, None;
    }

    /** `send_corners`: writes the corner announcement for a frame of the given size. */
    method SendCorners(frameWidth: int, frameHeight: int)
      modifies this
      ensures sent == old(sent) + [CornersMessage(frameWidth, frameHeight)]
      ensures Memos() == old(Memos())
    {
      var corners := [(0, 0), (frameWidth, 0), (frameWidth, frameHeight), (0, frameHeight)];
      var cornersText := Join(PairTexts(corners), ',');
      sent := sent + ["CORNERS:" + cornersText + "\n"];
    }

    /** The body of the contour loop: one contour through the tracker. */
    method ObserveContour(contour: Contour)
      modifies this
      ensures var step := Observe(old(Memos()), contour, VelocityChangeThreshold, sqrt);
              Memos() == step.next
              && sent == old(sent) + (if step.event.Some? then [EventLine(step.event.value.x, step.event.value.y)] else [])
    {
      if contour.area > MinArea {
        var center := Centroid(contour);
        if prevCenter.Some? {
          var dx := center.x - prevCenter.value.x;
          var dy := center.y - prevCenter.value.y;
          var velocity := Speed(sqrt, dx, dy);
          if prevVelocity.Some? {
            var velocityChange := Abs(velocity - prevVelocity.value);
            if velocityChange > VelocityChangeThreshold {
              sent := sent + [EventLine(center.x, center.y)];
            }
          }
          prevVelocity := Some(velocity);
        }
        prevCenter := Some(center);
      }
    }

    /** The loop over one frame's contours. */
    method ProcessContours(contours: seq<Contour>)
      modifies this
      ensures Memos() == Feed(old(Memos()), contours, VelocityChangeThreshold, sqrt).next
      ensures sent == old(sent) + EventLines(Feed(old(Memos()), contours, VelocityChangeThreshold, sqrt).events)
    {
      ghost var start := Memos();
      ghost var run := Run(start, []);
      for i := 0 to |contours|
        invariant run == Feed(start, contours[..i], VelocityChangeThreshold, sqrt)
        invariant Memos() == run.next && sent == old(sent) + EventLines(run.events)
      {
        ghost var step := Observe(Memos(), contours[i], VelocityChangeThreshold, sqrt);
        EventLinesStep(old(sent), run.events, step.event);
        ObserveContour(contours[i]);
        FeedSnoc(start, contours[..i], contours[i], VelocityChangeThreshold, sqrt);
        assert contours[..i + 1] == contours[..i] + [contours[i]];
        run := Run(step.next, run.events + EventSeq(step.event));
      }
      assert contours[..|contours|] == contours;
    }

    /** `detect_shots`: both memos start empty, then every frame is processed in turn. */
    method DetectShots(frames: seq<seq<Contour>>)
      modifies this
      ensures var run := Feed(Initial, Flatten(frames), VelocityChangeThreshold, sqrt);
              Memos() == run.next && sent == old(sent) + EventLines(run.events)
      ensures NeverNegative(sqrt) ==> (prevVelocity.Some? ==> prevVelocity.value >= 0.0)
    {
      prevCenter, prevVelocity := None, None;
      ghost var run := Run(Initial, []);
      var i := 0;
      while i < |frames|
        invariant 0 <= i <= |frames|
        invariant run == Feed(Initial, Flatten(frames[..i]), VelocityChangeThreshold, sqrt)
        invariant Memos() == run.next && sent == old(sent) + EventLines(run.events)
      {
        ghost var frame := Feed(run.next, frames[i], VelocityChangeThreshold, sqrt);
        ProcessContours(frames[i]);
        FeedAppend(Initial, Flatten(frames[..i]), frames[i], VelocityChangeThreshold, sqrt);
        EventLinesAppend(old(sent), run.events, frame.events);
        assert frames[..i + 1][..i] == frames[..i];
        run := Run(frame.next, run.events + frame.events);
        i := i + 1;
      }
      assert frames[..|frames|] == frames;
      assert NeverNegative(sqrt) ==> (prevVelocity.Some? ==> prevVelocity.value >= 0.0) by {
        if NeverNegative(sqrt) {
          FeedVelocityNonNegative(Initial, Flatten(frames), VelocityChangeThreshold, sqrt);
        }
      }
    }
  }

  /**
   * `handle_client` for a camera that yields the given frames: what the
   * client receives is one line per shot of the sliding-window description,
   * each parsing back to a qualifying centroid from the third on.
   */
  method HandleClient(frames: seq<seq<Contour>>, sqrt: nat -> real) returns (transcript: seq<string>)
    ensures var q := Centroids(Flatten(frames));
            transcript == EventLines(WindowEvents(q, VelocityChangeThreshold, sqrt))
    ensures var q := Centroids(Flatten(frames));
            forall i :: 0 <= i < |transcript| ==>
              ParseEventLine(transcript[i]).Some?
              && Point(ParseEventLine(transcript[i]).value.0, ParseEventLine(transcript[i]).value.1) in q[2..]
  {
    var session := new Session(sqrt);
    session.DetectShots(frames);
    transcript := session.sent;
    var cs := Flatten(frames);
    FeedFromInitial(cs, VelocityChangeThreshold, sqrt);
    var events := WindowEvents(Centroids(cs), VelocityChangeThreshold, sqrt);
    EventLinesParse(events);
    WindowEventsAreLater(Centroids(cs), VelocityChangeThreshold, sqrt);
    forall i | 0 <= i < |transcript|
      ensures ParseEventLine(transcript[i]).Some?
      ensures Point(ParseEventLine(transcript[i]).value.0, ParseEventLine(transcript[i]).value.1) in Centroids(cs)[2..]
    {
      assert events[i] in events;
    }
  }
}
