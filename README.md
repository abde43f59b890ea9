# Piano roll of controller presses: a Dafny model

This project models the piano-roll engine of `src/skins.rs` in an SNES input
display. The background image is split into twelve equal sections, one per
controller button. Each button gets one marker lane at a fixed x position.
Each lane keeps a queue of press markers. Every frame, the markers move one
unit down the screen. At most the front (oldest) marker is dropped once it has
passed the window's bottom edge. Then each press reported for that frame adds
a new marker at mid-screen.

Modules, one per component:

- `Controller`: the `Pressed` enumeration of the twelve buttons.
- `Graphics`: the `Rect` handed to the renderer (`x`, `y`, `w`, `h`).
- `Layout`: the lane geometry of `PianoRoll::new` as functions. It covers
  Rust's `f32::round` (halves away from zero), the truncated `%` on `f32`,
  section width, leftover width, marker width, left padding and the lane
  positions, plus the lemmas about them.
- `Timeline`: one lane's queue as a value. `Tick` is one call of
  `PianoRollRect::update`. `LaneAfterUpdate` is one lane's part of
  `PianoRoll::update`. `Replay` is a run of frames with a fixed window height.
  Lemmas state the properties of these functions.
- `PianoRolls`: the two classes, which update state in place.
  `PianoRollRect` holds a fixed `x` and a `positions: seq<Rect>` queue.
  `Add` and `Update` change the queue in place; `Update` raises each `y` in a
  loop. `PianoRoll` holds `rectWidth` and a map from every button to its own
  `PianoRollRect`. Its constructor lays the lanes out. Its `Update` ticks every
  lane, then admits one marker per entry of `events`. Each method is proved
  against the `Timeline` functions.
- `Skin`: `Theme` and `Button` without their images. It also holds the
  button-name match of `Button::new`, `parse_backgrounds` (first matching
  theme) and `parse_buttons` (a later duplicate replaces an earlier one), the
  last two as loops.

Widths are image pixel counts (`nat`). Positions are `real`. The rounding and
remainder of `PianoRoll::new` are written out exactly. With these, the section
width is `(W + 6) / 12`, the leftover is `W mod 12`, and the left padding may
be a half.

The code behaves as follows, which a reader may not expect:

- `PianoRoll::update` takes a slice of presses, not a set. A button listed
  twice in one frame gets two markers.
- Eviction removes at most one marker per lane per tick, and only the front
  marker is checked. Eviction comes late in three ways. Two markers born in
  the same frame pass the bottom edge together, and one of them stays below
  the window for another tick (`SingleEvictionLeavesMarkerBelowWindow`). A
  window that shrinks leaves younger markers past the new edge behind an
  older one that is still inside it (`ResizeLeavesMarkerBelowWindow`). A
  window that grows puts new markers at its new mid-screen, below older ones
  born higher up. The lane is then out of oldest-first order, and a younger
  marker can pass the edge behind an older one still inside it
  (`GrowLeavesMarkerBelowWindow`). In the last two cases the stale markers
  stay until they reach the front.
- The oldest-first y order holds only for a fixed window height
  (`TickSettled`, `ReplaySettled`). With a fixed, non-negative window height
  and at most one press per lane per frame, a settled lane (every y at least
  half the window height) that starts spaced (markers at least one unit
  apart) and on screen stays so. Each marker is then removed on exactly the
  tick it passes the edge (`SpacedTickOnTime`, `LaneAfterUpdateSpaced`,
  `LoneMarkerLifetime`).
- `rect_width` is `section_width - 10` and is not clamped. It is zero from
  width 114 to 125 and negative below 114 (`RectWidthPositive`). So markers have a
  positive width, and sit visibly apart, only from width 126. Lanes strictly
  increase left to right from width 6 (`LanesDoNotOverlap`). Below 6 the
  section width rounds to 0 and all twelve lanes share one x.

The source builds the lane map with twelve inserts written out one by one.
Each lane's x is the previous lane's x plus the section width. The constructor
here does the same inserts in a loop over the fixed order `LaneOrder`. The
source iterates a `HashMap` in `PianoRoll::update`, so its lane order is
unspecified. The model ticks the lanes in `LaneOrder`. Lanes are distinct
objects, so the order does not affect the result. The frame's two loops are
the helper methods `TickLanes` and `AdmitPresses`.

## Model

| member | source | states |
|---|---|---|
| `Layout.LaneIndex` | src/skins.rs:216-264 | each button's lane has one place in the fixed left-to-right order Left, Up, Down, Right, L, Select, Start, R, Y, B, X, A |
| `Layout.LaneOrderIsPermutation` | src/skins.rs:216-264 | the lane order lists all twelve buttons, each exactly once, so every button has exactly one lane |
| `Layout.Round` | src/skins.rs:210-211 | `f32::round`: the result is within one half of the input, and ties go away from zero |
| `Layout.FRem` | src/skins.rs:211 | `%` on `f32` truncates: the dividend less the remainder is a whole multiple of the divisor, and the remainder has the dividend's sign and lies strictly within one divisor of zero |
| `Layout.SectionWidth` | src/skins.rs:210 | `section_width`, `round(W / 12)`; its integer form is `SectionWidthIsRoundedDivision` |
| `Layout.ExtraWidth` | src/skins.rs:211 | `extra_width`, `round(W % 12)`; it equals `W mod 12` by `ExtraWidthIsRemainder` |
| `Layout.RectWidth` | src/skins.rs:212-213 | `rect_width`, the section width less twice the inside padding of 5; its sign is `RectWidthPositive` |
| `Layout.LeftPadding` | src/skins.rs:214 | `left_padding`, half the leftover width; it lies in [0, 5.5] by `ExtraWidthIsRemainder` |
| `Layout.LaneXAt` | src/skins.rs:216-264 | the chained x of the `i`-th insert; its closed form is `LaneXClosedForm` |
| `Layout.LaneX` | src/skins.rs:216-264 | the x given to each button's lane; `FirstLane`, `NextLane` and `LanesDoNotOverlap` state its layout |
| `Layout.SectionWidthIsRoundedDivision` | src/skins.rs:210 | `section_width = round(W / 12)` equals `(W + 6) / 12` in integer division |
| `Layout.ExtraWidthIsRemainder` | src/skins.rs:211-214 | `extra_width` is exactly `W mod 12`, and `left_padding` is half of it, between 0 and 5.5 |
| `Layout.LaneXClosedForm` | src/skins.rs:217-264 | lane `i` in the order starts at `left_padding + 5 + i * section_width` |
| `Layout.FirstLane` | src/skins.rs:212-220 | the Left lane starts at `(W mod 12) / 2 + 5`, never left of the inside padding |
| `Layout.NextLane` | src/skins.rs:221-264 | each lane starts exactly one section width right of the one before it in the order |
| `Layout.LaneXAtGap` | src/skins.rs:217-264 | when sections have positive width, a later lane starts at least one section width right of an earlier one |
| `Layout.SectionWidthPositive` | src/skins.rs:210 | the section width is positive exactly when the width is at least 6 |
| `Layout.RectWidthPositive` | src/skins.rs:212-213 | `rect_width = section_width - 10` is positive exactly from width 126 and negative exactly below 114 |
| `Layout.LanesDoNotOverlap` | src/skins.rs:213-264 | for width at least 6, lanes strictly increase along the order and a marker ends before the next lane begins |
| `Layout.LastLanePastRightEdge` | src/skins.rs:210-264 | at width 130 the section width is 11, the left padding is 5 and the A lane starts at 131, past the right edge |
| `Layout.WidthExamples` | src/skins.rs:210-220 | width 240 gives sections of 20, markers 10 wide and a first lane at 5; width 120 gives markers 0 wide |
| `Timeline.Evict` | src/skins.rs:311-314 | removes the front marker alone, and only when it is past the window's bottom edge; `TickShape` states the result |
| `Timeline.Tick` | src/skins.rs:306-314 | one `PianoRollRect::update`: advance, then evict; `TickShape` gives its exact result |
| `Timeline.NewMarker` | src/skins.rs:297-304 | the marker `add` pushes; `LaneAfterUpdateShape` and `RepeatAt` state where each added marker sits |
| `Timeline.LaneAfterUpdate` | src/skins.rs:272-281 | one lane's part of a frame: a tick, then one new marker per press; `LaneAfterUpdateShape` states the result |
| `Timeline.Advance` | src/skins.rs:307-309 | advancing keeps the number of markers |
| `Timeline.AdvanceAt` | src/skins.rs:307-309 | advancing raises the `k`-th marker's y by exactly 1 and leaves its x, width and height as they were |
| `Timeline.AdvanceIsPointwise` | src/skins.rs:307-309 | advancing moves every marker, in place, by one unit |
| `Timeline.TickShape` | src/skins.rs:306-314 | a tick raises every y by 1, then removes only the front marker, and only when its new y exceeds the window height; the rest keep their order, x, width and height |
| `Timeline.LaneAfterUpdateShape` | src/skins.rs:272-281 | a frame leaves the ticked lane as a prefix and appends one marker per press, each at the lane's x, y = half the window height, the marker width, height 1 |
| `Timeline.CountIsMultiplicity` | src/skins.rs:277-280 | the presses counted for a lane are the number of times its button occurs in `events` |
| `Timeline.RepeatAt` | src/skins.rs:277-280 | each marker added by a run of presses is the same new marker |
| `Timeline.TickInLane` | src/skins.rs:298-309 | a tick keeps every marker at its lane's x, width and unit height |
| `Timeline.LaneAfterUpdateInLane` | src/skins.rs:272-304 | a frame keeps every marker at its lane's x, width and unit height |
| `Timeline.TickSettled` | src/skins.rs:306-314 | with a fixed window height a tick keeps the lane ordered oldest first, and every marker lies strictly below mid-screen |
| `Timeline.LaneAfterUpdateSettled` | src/skins.rs:272-281 | with a fixed window height a frame keeps the lane in non-increasing y order with every y at least half the window height |
| `Timeline.ReplaySettled` | src/skins.rs:272-316 | any run of frames with a fixed window height, starting from an empty or settled lane, leaves the lane settled and every marker in its lane |
| `Timeline.SpacedTickOnTime` | src/skins.rs:306-314 | when markers are at least one unit apart and none is past the edge, a tick keeps both: the front marker is removed on exactly the tick it passes the edge |
| `Timeline.LaneAfterUpdateSpaced` | src/skins.rs:272-314 | with a fixed, non-negative window height and at most one press per frame, a settled lane stays spaced and on screen after a frame |
| `Timeline.LoneMarkerLifetime` | src/skins.rs:306-314 | a marker alone in its lane moves one unit per tick, stays while within the window, and is removed on the first tick that takes it past the bottom edge |
| `Timeline.PressScenario` | src/skins.rs:272-314 | with window height 100, one press on an empty lane gives a marker at y 50, at 51 one tick later, at 100 after 50 ticks and gone after 51 |
| `Timeline.ResizeLeavesMarkerBelowWindow` | src/skins.rs:272-314 | with one press at window height 100 and one at 1000, a tick back at height 100 leaves markers at 52 and 501: the one past the edge stays because only the front one is checked |
| `Timeline.FrontWithinKeepsBoth` | src/skins.rs:306-314 | while the front of two markers stays within the window, each tick moves both down by one and removes neither |
| `Timeline.GrowLeavesMarkerBelowWindow` | src/skins.rs:272-314 | presses at heights 20 then 100 give markers at 11 and 50, out of oldest-first order; 51 ticks at height 100 leave them at 62 and 101, the one past the edge kept because only the front one is checked |
| `Timeline.SingleEvictionLeavesMarkerBelowWindow` | src/skins.rs:311-314 | two markers at the bottom edge: one tick removes only one, and the other stays below the window |
| `PianoRolls.PianoRollRect.constructor` | src/skins.rs:290-295 | a new lane has the given x and no markers |
| `PianoRolls.PianoRollRect.Add` | src/skins.rs:297-304 | the queue gains exactly one marker at its back, with the lane's x, y = half the window height, the given width and height 1; earlier markers are unchanged |
| `PianoRolls.PianoRollRect.Update` | src/skins.rs:306-316 | the queue becomes exactly one tick of its old contents; the lane's x is unchanged |
| `PianoRolls.PianoRoll.constructor` | src/skins.rs:209-270 | every button has its own newly created lane, at `LaneX` for the background width, with no markers; the marker width is `section_width - 10` |
| `PianoRolls.PianoRoll.Update` | src/skins.rs:272-281 | each lane is ticked and then gets one mid-screen marker per occurrence of its button in `events`; a lane not named only ticks; lanes stay in place, and a lane settled for this window height stays settled |
| `PianoRolls.PianoRoll.TickLanes` | src/skins.rs:273-275 | every lane's queue becomes one tick of its old contents |
| `PianoRolls.PianoRoll.AdmitPresses` | src/skins.rs:277-280 | every lane gains, at its back, one new marker per occurrence of its button in `events`; the lookup never fails because every button has a lane |
| `Skin.PressedFromName` | src/skins.rs:153-167 | the button a name attribute denotes, `None` where the code panics; `PressedFromNameInverse` states it is exact |
| `Skin.PressedFromNameInverse` | src/skins.rs:153-167 | the name match accepts exactly the twelve lower-case button names, each for its own button |
| `Skin.NewButton` | src/skins.rs:142-174 | a button overlay exists exactly for a known name, and it carries that button and the rectangle at the given position with the image's size |
| `Skin.ParseBackgrounds` | src/skins.rs:89-98 | `None` exactly when no background has the requested theme; otherwise the first background with that theme |
| `Skin.ParseButtons` | src/skins.rs:100-106 | the table's keys are exactly the listed button names, and each maps to the last button listed under that name |

## Left out

- Reading the skin XML (`get_layout`, `parse_attributes`, the reader loop). It goes through an XML library that is not modelled.
- Files and paths: `load_file` and the path joins in `Skin::new`, `Theme::new` and `Button::new`.
- Image decoding and the graphics `Context`. A `Theme` or `Button` keeps only its image's pixel width and height, given as natural numbers.
- `Button::new`'s parsing of the `x` and `y` attributes as `f32`. `NewButton` takes them as already parsed reals.
- The unknown-name `panic!` in `Button::new`. It is modelled as `None`.
- `Theme::new`'s lower-casing of the theme name. It is a library string operation, so `Theme.theme` is taken as already lower-cased.
- `Skin::new`. It only composes the parts above and calls `unwrap` on the background lookup, which panics when no theme matches.
- `dbg!` output in `parse_backgrounds` and `PianoRollRect::update`.
- IEEE `f32` arithmetic. Positions are exact reals. The values involved are whole pixel counts, halves and +1 steps, which `f32` holds exactly at screen sizes.
- Drawing the markers. That belongs to the host frame loop.
