/**
 * The piano roll itself (`PianoRoll` and `PianoRollRect`): one lane object per
 * button, each holding the queue of markers it draws, updated in place once
 * per frame.
 */
module PianoRolls {
  import opened Controller
  import opened Graphics
  import opened Layout
  import opened Timeline
  import Skin

  /** One lane: its fixed left edge and the markers currently on screen, oldest first. */
  class PianoRollRect {
    const x: real
    var positions: seq<Rect>

    /** An empty lane at `x`. */
    constructor (x: real)
      ensures this.x == x && positions == []
    {
      this.x := x;
      positions := [];
    }

    /** Appends one marker for a press: at the lane's x, at mid-screen, `rectWidth` wide, one unit high. */
    method Add(windowHeight: real, rectWidth: real)
      modifies this
      ensures positions == old(positions) + [NewMarker(x, windowHeight, rectWidth)]
    {
      positions := positions + [Rect(x, windowHeight / 2.0, rectWidth, 1.0)];
    }

    /** One tick: every marker one unit down, then the front one removed if it is past the window's bottom edge. */
    method Update(windowHeight: real)
      modifies this
      ensures positions == Tick(old(positions), windowHeight)
    {
      var i := 0;
      while i < |positions|
        invariant i <= |positions| == |old(positions)|
        invariant forall k :: 0 <= k < i ==> positions[k] == Shift(old(positions)[k])
        invariant forall k :: i <= k < |positions| ==> positions[k] == old(positions)[k]
      {
        positions := positions[i := positions[i].(y := positions[i].y + 1.0)];
        i := i + 1;
      }
      AdvanceIsPointwise(old(positions));
      assert positions == Advance(old(positions));
      if |positions| > 0 && positions[0].y > windowHeight {
        positions := positions[1..];
      }
    }
  }

  /** The piano roll: the marker width and one lane per button. */
  class PianoRoll {
    const rectWidth: real
    const xPositions: map<Pressed, PianoRollRect>

    /** Every button has a lane of its own. */
    predicate LanesDistinct()
    {
      && (forall b: Pressed :: b in xPositions)
      && (forall a: Pressed, b: Pressed :: a != b ==> xPositions[a] != xPositions[b])
    }

    /** Every button has a lane of its own, and every lane's markers sit in it. */
    ghost predicate Valid()
      reads xPositions.Values
    {
      && LanesDistinct()
      && (forall b: Pressed :: InLane(xPositions[b].positions, xPositions[b].x, rectWidth))
    }

    /** The markers of button `b`'s lane. */
    ghost function Markers(b: Pressed): seq<Rect>
      reads xPositions.Values
      requires b in xPositions
    {
      xPositions[b].positions
    }

    /** Lays the twelve lanes out over the background's width, all empty. */
    constructor (background: Skin.Theme)
      ensures Valid()
      ensures rectWidth == RectWidth(background.width)
      ensures forall b: Pressed :: xPositions[b].x == LaneX(background.width, b) && xPositions[b].positions == []
      ensures forall b: Pressed :: fresh(xPositions[b])
    {
      var sectionWidth := SectionWidth(background.width);
      var extraWidth := ExtraWidth(background.width);
      var insidePadding := InsidePadding;
      var rectWidth := sectionWidth - insidePadding * 2.0;
      var leftPadding := extraWidth / 2.0;

      LaneOrderIsPermutation();
      var xPositions: map<Pressed, PianoRollRect> := map[];
      for i := 0 to |LaneOrder|
        invariant forall b: Pressed :: b in xPositions <==> LaneIndex(b) < i
        invariant forall b: Pressed :: b in xPositions ==>
          xPositions[b].x == LaneXAt(background.width, LaneIndex(b)) && xPositions[b].positions == []
        invariant forall a: Pressed, b: Pressed :: a in xPositions && b in xPositions && a != b ==> xPositions[a] != xPositions[b]
        invariant forall b: Pressed :: b in xPositions ==> fresh(xPositions[b])
      {
        var x := if i == 0 then leftPadding + insidePadding else xPositions[LaneOrder[i - 1]].x + sectionWidth;
        assert x == LaneXAt(background.width, i);
        var lane := new PianoRollRect(x);
        xPositions := xPositions[LaneOrder[i] := lane];
      }

      this.rectWidth := rectWidth;
      this.xPositions := xPositions;
    }

    /**
     * One frame: every lane ticks (advance, then evict at most its front
     * marker), then each press in `events`, duplicates included, adds one
     * marker to its button's lane. Only the window height is used.
     */
    method Update(windowSize: (real, real), events: seq<Pressed>)
      requires Valid()
      modifies xPositions.Values
      ensures Valid()
      ensures forall b: Pressed ::
        Markers(b) == LaneAfterUpdate(old(Markers(b)), xPositions[b].x, rectWidth, windowSize.1, multiset(events)[b])
      ensures forall b: Pressed ::
        Settled(old(Markers(b)), windowSize.1) ==> Settled(Markers(b), windowSize.1)
    {
      var windowHeight := windowSize.1;
      TickLanes(windowHeight);
      AdmitPresses(windowHeight, events);
      forall b: Pressed ensures Count(events, b) == multiset(events)[b] {
        CountIsMultiplicity(events, b);
      }

      forall b: Pressed
        ensures InLane(Markers(b), xPositions[b].x, rectWidth)
        ensures Settled(old(Markers(b)), windowHeight) ==> Settled(Markers(b), windowHeight)
      {
        LaneAfterUpdateInLane(old(Markers(b)), xPositions[b].x, rectWidth, windowHeight, multiset(events)[b]);
        if Settled(old(Markers(b)), windowHeight) {
          LaneAfterUpdateSettled(old(Markers(b)), xPositions[b].x, rectWidth, windowHeight, multiset(events)[b]);
        }
      }
    }

    /** The first loop of `update`: every lane ticks once. */
    method TickLanes(windowHeight: real)
      requires LanesDistinct()
      modifies xPositions.Values
      ensures forall b: Pressed :: Markers(b) == Tick(old(Markers(b)), windowHeight)
    {
      LaneOrderIsPermutation();
      for i := 0 to |LaneOrder|
        invariant forall b: Pressed ::
          Markers(b) == if LaneIndex(b) < i then Tick(old(Markers(b)), windowHeight) else old(Markers(b))
      {
        xPositions[LaneOrder[i]].Update(windowHeight);
      }
    }

    /** The second loop of `update`: each press appends one marker to its button's lane. */
    method AdmitPresses(windowHeight: real, events: seq<Pressed>)
      requires LanesDistinct()
      modifies xPositions.Values
      ensures forall b: Pressed ::
        Markers(b) == old(Markers(b)) + Repeat(NewMarker(xPositions[b].x, windowHeight, rectWidth), Count(events, b))
    {
      for i := 0 to |events|
        invariant forall b: Pressed ::
          Markers(b) == old(Markers(b)) + Repeat(NewMarker(xPositions[b].x, windowHeight, rectWidth), Count(events[..i], b))
      {
        var e := events[i];
        xPositions[e].Add(windowHeight, rectWidth);
        PressCountStep(events, i);
        forall b: Pressed
          ensures Markers(b) == old(Markers(b))
                                + Repeat(NewMarker(xPositions[b].x, windowHeight, rectWidth), Count(events[..i + 1], b))
        {
          if b == e {
            RepeatOneMore(old(Markers(e)), NewMarker(xPositions[e].x, windowHeight, rectWidth), Count(events[..i], e));
          }
        }
      }
      assert events[..|events|] == events;
    }
  }
}
