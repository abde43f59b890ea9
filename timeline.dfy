/**
 * The press timeline of one lane, as values: what one tick of
 * `PianoRollRect::update` and the admissions of `PianoRoll::update` do to the
 * lane's queue of markers. The classes in module PianoRolls are proved to
 * follow these functions.
 */
module Timeline {
  import opened Graphics

  /** One tick's movement of a marker: one unit down the screen. */
  function Shift(r: Rect): Rect
  {
    r.(y := r.y + 1.0)
  }

  /** Every marker of the queue moved one unit down, in the same order. */
  function Advance(rs: seq<Rect>): (r: seq<Rect>)
    ensures |r| == |rs|
  {
    if rs == [] then [] else [Shift(rs[0])] + Advance(rs[1..])
  }

  /** Removal of the front marker alone, and only when it is below the window's bottom edge. */
  function Evict(rs: seq<Rect>, windowHeight: real): seq<Rect>
  {
    if |rs| > 0 && rs[0].y > windowHeight then rs[1..] else rs
  }

  /** One tick of a lane: advance every marker, then evict at most the front one. */
  function Tick(rs: seq<Rect>, windowHeight: real): seq<Rect>
  {
    Evict(Advance(rs), windowHeight)
  }

  /** The marker a press creates: at the lane's x, at mid-screen, as wide as the lane, one unit high. */
  function NewMarker(x: real, windowHeight: real, rectWidth: real): Rect
  {
    Rect(x, windowHeight / 2.0, rectWidth, 1.0)
  }

  /** `n` copies of the same marker. */
  function Repeat(r: Rect, n: nat): (rs: seq<Rect>)
    ensures |rs| == n
  {
    if n == 0 then [] else Repeat(r, n - 1) + [r]
  }

  /** A lane after one `PianoRoll::update`: one tick, then one new marker per press of the lane's button. */
  function LaneAfterUpdate(rs: seq<Rect>, x: real, rectWidth: real, windowHeight: real, presses: nat): seq<Rect>
  {
    Tick(rs, windowHeight) + Repeat(NewMarker(x, windowHeight, rectWidth), presses)
  }

  /** A lane after successive updates with the same window height, `presses[t]` presses at tick `t`. */
  function Replay(rs: seq<Rect>, x: real, rectWidth: real, windowHeight: real, presses: seq<nat>): seq<Rect>
    decreases |presses|
  {
    if presses == [] then rs
    else Replay(LaneAfterUpdate(rs, x, rectWidth, windowHeight, presses[0]), x, rectWidth, windowHeight, presses[1..])
  }

  /** A lane after `n` ticks without presses. */
  function Ticks(rs: seq<Rect>, windowHeight: real, n: nat): seq<Rect>
    decreases n
  {
    if n == 0 then rs else Ticks(Tick(rs, windowHeight), windowHeight, n - 1)
  }

  /** Every marker of the lane sits in the lane: its x, the marker width, unit height. */
  ghost predicate InLane(rs: seq<Rect>, x: real, rectWidth: real)
  {
    forall k :: 0 <= k < |rs| ==> rs[k].x == x && rs[k].w == rectWidth && rs[k].h == 1.0
  }

  /** Markers are ordered oldest first (non-increasing y) and none is above mid-screen. */
  ghost predicate Settled(rs: seq<Rect>, windowHeight: real)
  {
    && (forall i, j :: 0 <= i < j < |rs| ==> rs[j].y <= rs[i].y)
    && (forall k :: 0 <= k < |rs| ==> rs[k].y >= windowHeight / 2.0)
  }

  /** Advancing moves the `k`-th marker by one unit and nothing else. */
  lemma {:induction false} AdvanceAt(rs: seq<Rect>, k: nat)
    requires k < |rs|
    ensures Advance(rs)[k] == rs[k].(y := rs[k].y + 1.0)
  {
    if k > 0 {
      AdvanceAt(rs[1..], k - 1);
    }
  }

  /** Advancing is the same as moving every marker by one, element for element. */
  lemma AdvanceIsPointwise(rs: seq<Rect>)
    ensures forall k :: 0 <= k < |rs| ==> Advance(rs)[k] == Shift(rs[k])
  {
    forall k | 0 <= k < |rs| ensures Advance(rs)[k] == Shift(rs[k]) {
      AdvanceAt(rs, k);
    }
  }

  /**
   * One tick moves every marker down by exactly one, and removes at most one
   * marker: the front one, exactly when its moved y is below the window's
   * bottom edge. The rest keep their order, x, width and height.
   */
  lemma TickShape(rs: seq<Rect>, windowHeight: real)
    ensures var t := Tick(rs, windowHeight);
      if |rs| > 0 && rs[0].y + 1.0 > windowHeight then
        |t| == |rs| - 1 && forall k :: 0 <= k < |t| ==> t[k] == rs[k + 1].(y := rs[k + 1].y + 1.0)
      else
        |t| == |rs| && forall k :: 0 <= k < |t| ==> t[k] == rs[k].(y := rs[k].y + 1.0)
  {
    AdvanceIsPointwise(rs);
  }

  /** An update keeps the ticked lane as a prefix and appends exactly one mid-screen marker per press. */
  lemma LaneAfterUpdateShape(rs: seq<Rect>, x: real, rectWidth: real, windowHeight: real, presses: nat)
    ensures var u := LaneAfterUpdate(rs, x, rectWidth, windowHeight, presses);
      && |u| == |Tick(rs, windowHeight)| + presses
      && u[..|Tick(rs, windowHeight)|] == Tick(rs, windowHeight)
      && forall k :: |Tick(rs, windowHeight)| <= k < |u| ==>
           u[k] == Rect(x, windowHeight / 2.0, rectWidth, 1.0)
  {
    var t := Tick(rs, windowHeight);
    var m := NewMarker(x, windowHeight, rectWidth);
    var u := LaneAfterUpdate(rs, x, rectWidth, windowHeight, presses);
    assert u[..|t|] == t;
    forall k | |t| <= k < |u| ensures u[k] == m {
      RepeatAt(m, presses, k - |t|);
    }
  }

  /** How often `x` occurs in `s`, counted from the back. */
  function Count<T(==)>(s: seq<T>, x: T): nat
  {
    if s == [] then 0 else Count(s[..|s| - 1], x) + (if s[|s| - 1] == x then 1 else 0)
  }

  /** `Count` is the multiplicity of `x` in `s`. */
  lemma {:induction false} CountIsMultiplicity<T>(s: seq<T>, x: T)
    ensures Count(s, x) == multiset(s)[x]
  {
    if s != [] {
      CountIsMultiplicity(s[..|s| - 1], x);
      assert s == s[..|s| - 1] + [s[|s| - 1]];
    }
  }

  /** Counting one more event of a prefix. */
  lemma PressCountStep<T>(events: seq<T>, i: nat)
    requires i < |events|
    ensures forall b :: Count(events[..i + 1], b) == Count(events[..i], b) + (if b == events[i] then 1 else 0)
  {
    assert events[..i + 1][..i] == events[..i];
  }

  /** Appending one more copy to a run of copies. */
  lemma RepeatOneMore(prefix: seq<Rect>, r: Rect, n: nat)
    ensures prefix + Repeat(r, n) + [r] == prefix + Repeat(r, n + 1)
  {
  }

  /** Every element of `Repeat(r, n)` is `r`. */
  lemma {:induction false} RepeatAt(r: Rect, n: nat, k: nat)
    requires k < n
    ensures Repeat(r, n)[k] == r
  {
    if k < n - 1 {
      RepeatAt(r, n - 1, k);
    }
  }

  /** A tick keeps every marker in its lane. */
  lemma TickInLane(rs: seq<Rect>, x: real, rectWidth: real, windowHeight: real)
    requires InLane(rs, x, rectWidth)
    ensures InLane(Tick(rs, windowHeight), x, rectWidth)
  {
    TickShape(rs, windowHeight);
  }

  /** An update keeps every marker in its lane. */
  lemma LaneAfterUpdateInLane(rs: seq<Rect>, x: real, rectWidth: real, windowHeight: real, presses: nat)
    requires InLane(rs, x, rectWidth)
    ensures InLane(LaneAfterUpdate(rs, x, rectWidth, windowHeight, presses), x, rectWidth)
  {
    TickInLane(rs, x, rectWidth, windowHeight);
    LaneAfterUpdateShape(rs, x, rectWidth, windowHeight, presses);
  }

  /** A tick with the same window height keeps a lane settled; its markers then all lie strictly below mid-screen. */
  lemma TickSettled(rs: seq<Rect>, windowHeight: real)
    requires Settled(rs, windowHeight)
    ensures Settled(Tick(rs, windowHeight), windowHeight)
    ensures forall k :: 0 <= k < |Tick(rs, windowHeight)| ==> Tick(rs, windowHeight)[k].y > windowHeight / 2.0
  {
    TickShape(rs, windowHeight);
  }

  /** An update with the same window height keeps a lane settled: markers born at the back are the youngest. */
  lemma LaneAfterUpdateSettled(rs: seq<Rect>, x: real, rectWidth: real, windowHeight: real, presses: nat)
    requires Settled(rs, windowHeight)
    ensures Settled(LaneAfterUpdate(rs, x, rectWidth, windowHeight, presses), windowHeight)
  {
    TickSettled(rs, windowHeight);
    LaneAfterUpdateShape(rs, x, rectWidth, windowHeight, presses);
  }

  /** Markers at least one unit apart, oldest first: no two were born on the same tick. */
  ghost predicate Spaced(rs: seq<Rect>)
  {
    forall i, j :: 0 <= i < j < |rs| ==> rs[j].y + 1.0 <= rs[i].y
  }

  /** No marker is past the window's bottom edge. */
  ghost predicate OnScreen(rs: seq<Rect>, windowHeight: real)
  {
    forall k :: 0 <= k < |rs| ==> rs[k].y <= windowHeight
  }

  /**
   * When markers are spaced, eviction is on time: a tick removes the front
   * marker exactly on the tick it passes the bottom edge, and no other marker
   * is past the edge then.
   */
  lemma SpacedTickOnTime(rs: seq<Rect>, windowHeight: real)
    requires Spaced(rs) && OnScreen(rs, windowHeight)
    ensures Spaced(Tick(rs, windowHeight)) && OnScreen(Tick(rs, windowHeight), windowHeight)
  {
    TickShape(rs, windowHeight);
  }

  /**
   * With a fixed, non-negative window height and at most one press per
   * update, a settled lane stays spaced and on screen: a new marker is born a
   * full unit above every ticked one.
   */
  lemma LaneAfterUpdateSpaced(rs: seq<Rect>, x: real, rectWidth: real, windowHeight: real, presses: nat)
    requires windowHeight >= 0.0 && presses <= 1
    requires Settled(rs, windowHeight) && Spaced(rs) && OnScreen(rs, windowHeight)
    ensures Spaced(LaneAfterUpdate(rs, x, rectWidth, windowHeight, presses))
    ensures OnScreen(LaneAfterUpdate(rs, x, rectWidth, windowHeight, presses), windowHeight)
  {
    var t := Tick(rs, windowHeight);
    var u := LaneAfterUpdate(rs, x, rectWidth, windowHeight, presses);
    SpacedTickOnTime(rs, windowHeight);
    TickShape(rs, windowHeight);
    LaneAfterUpdateShape(rs, x, rectWidth, windowHeight, presses);
    forall i, j | 0 <= i < j < |u| ensures u[j].y + 1.0 <= u[i].y {
      if j >= |t| {
        assert u[i].y >= windowHeight / 2.0 + 1.0;
      }
    }
  }

  /**
   * With window height 100, one press on an empty lane gives one marker at
   * y = 50; it is at y = 100 after 50 more ticks and gone after 51.
   */
  lemma PressScenario(x: real, rectWidth: real)
    ensures LaneAfterUpdate([], x, rectWidth, 100.0, 1) == [Rect(x, 50.0, rectWidth, 1.0)]
    ensures Ticks([Rect(x, 50.0, rectWidth, 1.0)], 100.0, 1) == [Rect(x, 51.0, rectWidth, 1.0)]
    ensures Ticks([Rect(x, 50.0, rectWidth, 1.0)], 100.0, 50) == [Rect(x, 100.0, rectWidth, 1.0)]
    ensures Ticks([Rect(x, 50.0, rectWidth, 1.0)], 100.0, 51) == []
  {
    var m := Rect(x, 50.0, rectWidth, 1.0);
    assert Repeat(m, 1) == [m];
    LoneMarkerLifetime(m, 100.0, 1);
    LoneMarkerLifetime(m, 100.0, 50);
  }

  /** Starting from a settled lane (an empty one is), any run of updates with a constant window height leaves it settled and in its lane. */
  lemma {:induction false} ReplaySettled(rs: seq<Rect>, x: real, rectWidth: real, windowHeight: real, presses: seq<nat>)
    requires Settled(rs, windowHeight) && InLane(rs, x, rectWidth)
    ensures Settled(Replay(rs, x, rectWidth, windowHeight, presses), windowHeight)
    ensures InLane(Replay(rs, x, rectWidth, windowHeight, presses), x, rectWidth)
    decreases |presses|
  {
    if presses != [] {
      LaneAfterUpdateSettled(rs, x, rectWidth, windowHeight, presses[0]);
      LaneAfterUpdateInLane(rs, x, rectWidth, windowHeight, presses[0]);
      ReplaySettled(LaneAfterUpdate(rs, x, rectWidth, windowHeight, presses[0]), x, rectWidth, windowHeight, presses[1..]);
    }
  }

  /**
   * A marker alone in its lane moves one unit per tick and stays while it is
   * within the window; on the first tick that takes it past the bottom edge it
   * is removed.
   */
  lemma {:induction false} LoneMarkerLifetime(r: Rect, windowHeight: real, n: nat)
    requires r.y + n as real <= windowHeight
    ensures Ticks([r], windowHeight, n) == [r.(y := r.y + n as real)]
    ensures r.y + n as real + 1.0 > windowHeight ==> Ticks([r], windowHeight, n + 1) == []
  {
    if n > 0 {
      LoneMarkerLifetime(r, windowHeight, n - 1);
      TicksLast([r], windowHeight, n - 1);
      var s := r.(y := r.y + (n - 1) as real);
      assert Tick([s], windowHeight) == [Shift(s)];
    }
    TicksLast([r], windowHeight, n);
    var s := r.(y := r.y + n as real);
    assert Advance([s]) == [Shift(s)];
  }

  /** `n + 1` ticks are `n` ticks followed by one more. */
  lemma {:induction false} TicksLast(rs: seq<Rect>, windowHeight: real, n: nat)
    ensures Ticks(rs, windowHeight, n + 1) == Tick(Ticks(rs, windowHeight, n), windowHeight)
    decreases n
  {
    if n > 0 {
      TicksLast(Tick(rs, windowHeight), windowHeight, n - 1);
    }
  }

  /**
   * A resize also delays eviction: after presses at heights 100 and 1000, a
   * tick back at height 100 keeps the marker at 501 because only the front
   * one, at 52, is checked.
   */
  lemma ResizeLeavesMarkerBelowWindow(x: real, rectWidth: real)
    ensures var first := LaneAfterUpdate([], x, rectWidth, 100.0, 1);
      var second := LaneAfterUpdate(first, x, rectWidth, 1000.0, 1);
      Tick(second, 100.0) == [Rect(x, 52.0, rectWidth, 1.0), Rect(x, 501.0, rectWidth, 1.0)]
  {
    var a := Rect(x, 50.0, rectWidth, 1.0);
    var b := Rect(x, 500.0, rectWidth, 1.0);
    assert Repeat(a, 1) == [a];
    assert Repeat(b, 1) == [b];
    assert Advance([a]) == [Shift(a)];
    assert Advance([Shift(a), b]) == [Shift(Shift(a)), Shift(b)];
  }

  /** While the front marker of two stays within the window, ticks only move both down. */
  lemma {:induction false} FrontWithinKeepsBoth(a: Rect, b: Rect, windowHeight: real, n: nat)
    requires a.y + n as real <= windowHeight
    ensures Ticks([a, b], windowHeight, n) == [a.(y := a.y + n as real), b.(y := b.y + n as real)]
  {
    if n > 0 {
      FrontWithinKeepsBoth(a, b, windowHeight, n - 1);
      TicksLast([a, b], windowHeight, n - 1);
      var a', b' := a.(y := a.y + (n - 1) as real), b.(y := b.y + (n - 1) as real);
      assert Advance([a', b']) == [Shift(a'), Shift(b')];
    }
  }

  /**
   * A window that grows also breaks eviction: a marker born at height 20 sits
   * at 10, so a press at height 100 lands behind it at 50, out of oldest-first
   * order. Fifty-one ticks later the younger marker is at 101, past the edge,
   * and stays, because only the front one, at 62, is checked.
   */
  lemma GrowLeavesMarkerBelowWindow(x: real, rectWidth: real)
    ensures var first := LaneAfterUpdate([], x, rectWidth, 20.0, 1);
      var second := LaneAfterUpdate(first, x, rectWidth, 100.0, 1);
      && second == [Rect(x, 11.0, rectWidth, 1.0), Rect(x, 50.0, rectWidth, 1.0)]
      && Ticks(second, 100.0, 51) == [Rect(x, 62.0, rectWidth, 1.0), Rect(x, 101.0, rectWidth, 1.0)]
  {
    var a := Rect(x, 10.0, rectWidth, 1.0);
    var b := Rect(x, 50.0, rectWidth, 1.0);
    assert Repeat(a, 1) == [a];
    assert Repeat(b, 1) == [b];
    assert Advance([a]) == [Shift(a)];
    FrontWithinKeepsBoth(Shift(a), b, 100.0, 51);
  }

  /**
   * Two markers pressed on the same tick reach the bottom edge together, but a
   * tick removes only the front one: the other stays in the queue below the
   * window.
   */
  lemma SingleEvictionLeavesMarkerBelowWindow(x: real, rectWidth: real)
    ensures var m := Rect(x, 100.0, rectWidth, 1.0);
      var t := Tick([m, m], 100.0);
      |t| == 1 && t[0].y == 101.0 > 100.0
  {
    var m := Rect(x, 100.0, rectWidth, 1.0);
    TickShape([m, m], 100.0);
  }
}
