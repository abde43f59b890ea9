/**
 * Lane geometry of the piano roll (`PianoRoll::new`): the background width is
 * cut into twelve sections, one per button, and each button's marker lane
 * starts a fixed inside padding into its section.
 */
module Layout {
  import opened Controller

  /** Padding kept free on each side of a marker inside its section. */
  const InsidePadding: real := 5.0

  /** Number of sections the background width is split into. */
  const Sections: nat := 12

  /** The left-to-right order of the lanes. */
  const LaneOrder: seq<Pressed> := [Left, Up, Down, Right, L, Select, Start, R, Y, B, X, A]

  /** Position of a button's lane in `LaneOrder`. */
  function LaneIndex(b: Pressed): (i: nat)
    ensures i < |LaneOrder| && LaneOrder[i] == b
  {
    match b
    case Left => 0
    case Up => 1
    case Down => 2
    case Right => 3
    case L => 4
    case Select => 5
    case Start => 6
    case R => 7
    case Y => 8
    case B => 9
    case X => 10
    case A => 11
  }

  /** Every button has exactly one lane: the order lists twelve distinct buttons. */
  lemma LaneOrderIsPermutation()
    ensures |LaneOrder| == Sections
    ensures forall i, j :: 0 <= i < j < |LaneOrder| ==> LaneOrder[i] != LaneOrder[j]
    ensures forall i :: 0 <= i < |LaneOrder| ==> LaneIndex(LaneOrder[i]) == i
  {
    forall i | 0 <= i < |LaneOrder| ensures LaneIndex(LaneOrder[i]) == i {
      assert LaneOrder[LaneIndex(LaneOrder[i])] == LaneOrder[i];
    }
  }

  /** Rust's `f32::round`: to the nearest integer, halves away from zero. */
  function Round(x: real): (r: int)
    ensures x - 0.5 <= r as real <= x + 0.5
    ensures x >= 0.0 ==> r >= 0 && x - 0.5 < r as real
    ensures x < 0.0 ==> r <= 0 && r as real < x + 0.5
  {
    if x >= 0.0 then (x + 0.5).Floor else -((-x + 0.5).Floor)
  }

  /** Truncation of a real toward zero. */
  function Trunc(x: real): (r: int)
    ensures x >= 0.0 ==> r as real <= x < r as real + 1.0
    ensures x < 0.0 ==> r as real - 1.0 < x <= r as real
  {
    if x >= 0.0 then x.Floor else -((-x).Floor)
  }

  /**
   * Rust's `%` on `f32`: the remainder of a division truncated toward zero.
   * The dividend less the remainder is a whole multiple of the divisor, and
   * the remainder has the dividend's sign and is smaller than the divisor.
   */
  function FRem(x: real, y: real): (r: real)
    requires y > 0.0
    ensures ((x - r) / y).Floor as real == (x - r) / y
    ensures x >= 0.0 ==> 0.0 <= r < y
    ensures x < 0.0 ==> -y < r <= 0.0
  {
    TruncatedRemainderBounds(x, y);
    x - y * (Trunc(x / y) as real)
  }

  /**
   * The truncated remainder leaves a whole multiple of the divisor and lies
   * strictly within one divisor of zero, on the dividend's side.
   */
  lemma TruncatedRemainderBounds(x: real, y: real)
    requires y > 0.0
    ensures var t := Trunc(x / y) as real; (x - (x - y * t)) / y == t
    ensures x >= 0.0 ==> 0.0 <= x - y * (Trunc(x / y) as real) < y
    ensures x < 0.0 ==> -y < x - y * (Trunc(x / y) as real) <= 0.0
  {
    var q := x / y;
    var t := Trunc(q) as real;
    assert x == q * y;
    if x >= 0.0 {
      ScaledBetween(x, y, q, t, t + 1.0);
    } else {
      ScaledBetween(x, y, q, t - 1.0, t);
    }
  }

  /** If `x = q * y` with `y` positive and `lo <= q <= hi`, then `x` lies between `lo * y` and `hi * y`, strictly where `q` does. */
  lemma ScaledBetween(x: real, y: real, q: real, lo: real, hi: real)
    requires y > 0.0 && x == q * y && lo <= q <= hi
    ensures y * lo <= x <= y * hi
    ensures lo < q ==> y * lo < x
    ensures q < hi ==> x < y * hi
  {
    ScaleMonotonic(lo, q, y);
    ScaleMonotonic(q, hi, y);
  }

  /** Multiplying by a positive factor keeps order. */
  lemma ScaleMonotonic(a: real, b: real, y: real)
    requires y > 0.0
    ensures a <= b ==> a * y <= b * y
    ensures a < b ==> a * y < b * y
  {
  }

  /** `section_width`: the width reserved for one button, `round(W / 12)`. */
  function SectionWidth(width: nat): real
  {
    Round(width as real / Sections as real) as real
  }

  /** `extra_width`: what is left over after the division, `round(W % 12)`. */
  function ExtraWidth(width: nat): real
  {
    Round(FRem(width as real, Sections as real)) as real
  }

  /** `rect_width`: the marker width, the section width less the padding on both sides. */
  function RectWidth(width: nat): real
  {
    SectionWidth(width) - InsidePadding * 2.0
  }

  /** `left_padding`: half the leftover width, so the sections sit centred. */
  function LeftPadding(width: nat): real
  {
    ExtraWidth(width) / 2.0
  }

  /**
   * Left edge of the `i`-th lane in `LaneOrder`, as `PianoRoll::new` computes it:
   * the first lane after the left and inside paddings, every next one a
   * section width to the right of the one before.
   */
  function LaneXAt(width: nat, i: nat): real
  {
    if i == 0 then LeftPadding(width) + InsidePadding
    else LaneXAt(width, i - 1) + SectionWidth(width)
  }

  /** Left edge of button `b`'s lane. */
  function LaneX(width: nat, b: Pressed): real
  {
    LaneXAt(width, LaneIndex(b))
  }

  /** Dividing a natural number by twelve and flooring is integer division. */
  lemma FloorOfTwelfth(n: nat)
    ensures (n as real / 12.0).Floor == n / 12
  {
    var q, r := n / 12, n % 12;
    assert n == 12 * q + r;
    assert n as real == 12.0 * (q as real) + r as real;
    assert n as real / 12.0 == q as real + r as real / 12.0;
  }

  /** The section width is `W / 12` rounded, i.e. `(W + 6) / 12` in integer division. */
  lemma SectionWidthIsRoundedDivision(width: nat)
    ensures SectionWidth(width) == ((width + 6) / 12) as real
  {
    assert width as real / 12.0 + 0.5 == (width + 6) as real / 12.0;
    FloorOfTwelfth(width + 6);
  }

  /** The leftover width is exactly `W mod 12`, so the left padding is `(W mod 12) / 2`, at most 5.5. */
  lemma ExtraWidthIsRemainder(width: nat)
    ensures ExtraWidth(width) == (width % 12) as real
    ensures LeftPadding(width) == (width % 12) as real / 2.0
    ensures 0.0 <= LeftPadding(width) <= 5.5
  {
    FloorOfTwelfth(width);
    var q, r := width / 12, width % 12;
    assert width == 12 * q + r;
    assert FRem(width as real, 12.0) == r as real;
    assert (r as real + 0.5).Floor == r;
  }

  /** Closed form of the lane positions: lane `i` sits `i` section widths right of the first. */
  lemma {:induction false} LaneXClosedForm(width: nat, i: nat)
    ensures LaneXAt(width, i) == LeftPadding(width) + InsidePadding + (i as real) * SectionWidth(width)
  {
    if i > 0 {
      LaneXClosedForm(width, i - 1);
      assert (i as real) * SectionWidth(width) == ((i - 1) as real) * SectionWidth(width) + SectionWidth(width);
    }
  }

  /** The first lane (Left) starts at `left_padding + 5`, so never left of the inside padding. */
  lemma FirstLane(width: nat)
    ensures LaneX(width, Left) == (width % 12) as real / 2.0 + InsidePadding
    ensures LaneX(width, Left) >= InsidePadding
  {
    ExtraWidthIsRemainder(width);
  }

  /** Each lane after the first is exactly one section width right of its predecessor in `LaneOrder`. */
  lemma NextLane(width: nat, i: nat)
    requires i + 1 < |LaneOrder|
    ensures LaneX(width, LaneOrder[i + 1]) == LaneX(width, LaneOrder[i]) + SectionWidth(width)
  {
    LaneOrderIsPermutation();
  }

  /** Lanes further along the order are at least a section width further right, when sections are positive. */
  lemma {:induction false} LaneXAtGap(width: nat, i: nat, j: nat)
    requires SectionWidth(width) > 0.0
    requires i < j
    ensures LaneXAt(width, i) + SectionWidth(width) <= LaneXAt(width, j)
  {
    if j > i + 1 {
      LaneXAtGap(width, i, j - 1);
    }
  }

  /** The section width is positive exactly when the background is at least 6 pixels wide. */
  lemma SectionWidthPositive(width: nat)
    ensures SectionWidth(width) > 0.0 <==> width >= 6
  {
    SectionWidthIsRoundedDivision(width);
  }

  /** The marker width is positive only from 126 pixels on; below that `rect_width` is zero or negative. */
  lemma RectWidthPositive(width: nat)
    ensures RectWidth(width) > 0.0 <==> width >= 126
    ensures RectWidth(width) < 0.0 <==> width < 114
  {
    SectionWidthIsRoundedDivision(width);
  }

  /**
   * When sections have positive width, lanes strictly increase along `LaneOrder`
   * and neighbouring marker rectangles never overlap: a marker is narrower than
   * its section.
   */
  lemma LanesDoNotOverlap(width: nat, a: Pressed, b: Pressed)
    requires width >= 6
    requires LaneIndex(a) < LaneIndex(b)
    ensures LaneX(width, a) < LaneX(width, b)
    ensures LaneX(width, a) + RectWidth(width) < LaneX(width, b)
  {
    SectionWidthPositive(width);
    LaneXAtGap(width, LaneIndex(a), LaneIndex(b));
  }

  /** No right-edge bound: at width 130 the last lane (A) starts at 131, right of the background. */
  lemma LastLanePastRightEdge()
    ensures SectionWidth(130) == 11.0 && LeftPadding(130) == 5.0
    ensures LaneX(130, A) == 131.0 > 130 as real
  {
    SectionWidthIsRoundedDivision(130);
    ExtraWidthIsRemainder(130);
    LaneXClosedForm(130, 11);
  }

  /** At width 240 sections are 20 wide, markers 10 wide and the first lane is at 5; at 120 markers are 0 wide. */
  lemma WidthExamples()
    ensures SectionWidth(240) == 20.0 && RectWidth(240) == 10.0 && LaneX(240, Left) == 5.0
    ensures SectionWidth(120) == 10.0 && RectWidth(120) == 0.0
  {
    SectionWidthIsRoundedDivision(240);
    SectionWidthIsRoundedDivision(120);
    ExtraWidthIsRemainder(240);
  }
}
