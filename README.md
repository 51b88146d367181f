# tinytimer core, modelled in Dafny

A model of the deterministic core of the tinytimer firmware, a work/break
countdown timer for a microcontroller with a 320x240 colour display. The
firmware is written in Rust. The model covers five parts:

- **Animation slot engine** (`animations.dfy`, `scenes.dfy`). A pool of
  `MAX_ANIMATIONS` = 6 slots, each `Empty` or a cursor move. A cursor move
  walks a rectangle along a precomputed line path, counting frames with
  `FrameData`. `SceneManager.play_next` advances every occupied slot once
  per frame tick and frees the slots whose animation is used up. There is
  also a 30-frame sprite player.
- **UI element rules** (`scenes.dfy`). How a digit element and a clickable
  element react to the four UI actions: changing a `u8` digit or value, or
  moving the scene's cursor.
- **Session clocks and notices** (`clock_util.dfy`). The session state, the
  notices that set the state or adjust the displayed clock, and the 100 ms
  ticking loops of the work, break and single clocks.
- **Clock offset arithmetic** (`time_util.dfy`). The displayed time is the
  monotonic instant plus a calibration offset, counted in whole
  milliseconds.
- **Screen regions** (`draw_panels.dfy`). The four fixed rectangles that
  split the screen, and the panel constructors.

`geometry.dfy` holds the graphics-library primitives the core uses: points,
sizes, rectangles, `with_corners`, top-left-anchored resizing, and the
`i32 as u32` cast. `prelude.dfy` holds the integer widths and the panic
outcomes. A Rust panic is modelled as an `Err`/`Panic` result naming the
fault. A precondition is never used to rule out an input the code would
panic on.

`CursorMove` and `Animation` are `Copy` values that the pool stores by
value. So `get_frame(&mut self)` on them is a function that returns the
frame together with the updated value. The pool then writes that value into
its array slot in place. Objects whose fields change in place are classes:
`SceneManager`, `SceneData`, `DigitsElement`, `ClickableElement`,
`AnimatedSprite`, `Time`, `SingleClock` and `DoubleTimerSession`.

Two defects show up when the code is modelled as written. Both are listed
under "## Findings". The corrected behaviour is what the rest of the model
uses.

## Model

| member | source | states |
|---|---|---|
| `Animations.DefaultAnimationState` | src/animations.rs:11-17 | the default pool has exactly `MAX_ANIMATIONS` slots, all `Empty` |
| `Animations.Animation.GetFrame` | src/animations.rs:30-36 | an `Empty` slot yields an `Empty` frame and stays `Empty`; an occupied slot draws exactly when its frame data shows frames left, each drawn frame advances the frame index by one and keeps the frame count, and an `Empty` frame leaves the animation unchanged; validity is preserved |
| `Animations.Animation.FrameDataOf` | src/animations.rs:38-48 | `Empty` reports `{0, 0}`, a cursor reports its own frame data, and a valid animation's index never exceeds its count |
| `Animations.Initialize` | src/animations.rs:73-89 | stores start and end, the counter is 0 of as many frames as the path has points (so the cursor is valid with `|path|` frames left), and the cursor rectangle is exactly `with_corners(origin, start)`, so it contains both the origin and `start` |
| `Animations.CursorMove.GetFrameAsWritten` | src/animations.rs:91-106 | as written: while frames remain it reports `Empty` and changes nothing; with the counter at or past the end of the path, the `nth(..).unwrap()` panics; a rectangle comes out only when the count is below the path length, which `initialize` never produces |
| `Animations.AsWrittenNeverDraws` | src/animations.rs:92-96 | on every valid cursor the as-written step never yields a rectangle: it reports `Empty` before the end and panics at the end |
| `Animations.AsWrittenFreshCursorIsDropped` | src/animations.rs:73-106 | a fresh cursor on a one-point path, which the corrected step draws once, reports `Empty` on its first as-written call |
| `Animations.CursorMove.Advance` | src/animations.rs:94-103 | the drawing branch moves the counter up by one, resizes the cursor to path point `frame_index` keeping its top-left corner, and returns the updated cursor rectangle as the frame |
| `Animations.CursorMove.GetFrame` | src/animations.rs:91-106 | corrected step: draws exactly while `frame_index < frame_count`; the drawn frame is the updated cursor rectangle, sized to the current path point, with one frame fewer left; otherwise it reports `Empty` and changes nothing; validity is preserved |
| `Animations.PlayCursor` | src/animations.rs:91-106 | `k` successive steps yield `k` frames and leave a valid cursor with the same path and frame count |
| `Animations.CursorPlaysRemainingFrames` | src/animations.rs:91-106 | a cursor with `n` frames left draws exactly `n` rectangles, one per remaining path point in path order, then reports `Empty` on call `n + 1` with its counter at the frame count |
| `Animations.AnimatedSprite.New` | src/animations.rs:115-120 | a new sprite stores the frame table, starts at index 0 and has played nothing |
| `Animations.AnimatedSprite.GetFrame` | src/animations.rs:122-126 | returns the frame at the index and advances; past the 30th frame it panics and changes nothing; the frames handed out so far are always `frames[..frame_index]`, so `k` calls after `new` yield `frames[0..k]` in order |
| `Geometry.WithCorners` | src/animations.rs:74 | the rectangle spanned by two corners contains both corners, and contains exactly the points between them on each axis |
| `Geometry.ResizedTopLeft` | src/animations.rs:100 | resizing with the top-left anchor keeps that corner and takes the new size, so the result covers exactly the new width by height points from the corner, whatever the old size was |
| `Geometry.AsU32` | src/animations.rs:98-99 | the `as u32` cast keeps non-negative coordinates and wraps negative ones by 2^32 |
| `Scenes.SceneManager.Default` | src/scenes.rs:41-49 | not animating, all six pool slots `Empty`, the default scene `ConfigTaro` with the cursor on element 0 and all ten elements text boxes |
| `Scenes.SlotStep` | src/scenes.rs:57-76 | what one tick does to one slot: an `Empty` slot stays `Empty` with an `Empty` frame; an occupied slot reports its animation's frame, is reset to `Empty` exactly when that frame is `Empty`, and otherwise keeps the stepped animation; validity is preserved |
| `Scenes.SlotTicks` | src/scenes.rs:52-81 | `k` ticks of one slot yield `k` frames and leave a valid slot; a free slot remains free |
| `Scenes.FreeSlotStaysFree` | src/scenes.rs:59-61 | every tick on a free slot reports `Empty` and leaves it free |
| `Scenes.SlotLifetime` | src/scenes.rs:62-76 | a slot holding a cursor with `n` frames left reports the `n` path rectangles on the next `n` ticks and still holds the animation; it reports `Empty` on tick `n + 1` and is freed, and every later tick is a no-op |
| `Scenes.VecSet` | src/scenes.rs:69-74 | an indexed write to a `heapless::Vec` succeeds exactly when the index is below the current length, and then replaces that one element; otherwise it panics |
| `Scenes.IntoArrayUnwrap` | src/scenes.rs:80 | `into_array().unwrap()` succeeds exactly when the vector holds all `MAX_ANIMATIONS` frames, and otherwise panics |
| `Scenes.SceneManager.PlayNextAsWritten` | src/scenes.rs:52-81 | as written, every call panics: with all slots free the final conversion fails with the pool untouched; when the first occupied slot holds a valid cursor with frames left, its frame write is out of bounds and the slot has just been freed; when that cursor is at its end, `nth(..).unwrap()` panics first and the slot is unchanged; free slots stay free, every slot after the first occupied one is untouched, and the scene and `playing_animation` never change |
| `Scenes.SceneManager.PlayNext` | src/scenes.rs:52-81 | corrected: each of the six slots takes exactly one `SlotStep` in place, and its frame is reported at the slot's index; the pool stays valid; the scene and `playing_animation` are unchanged |
| `Scenes.SceneData.Default` | src/scenes.rs:90-100 | the `ConfigTaro` scene with the cursor on element 0 and all ten elements text boxes |
| `Scenes.DigitBack` | src/scenes.rs:117-122 | `MoveBack` never underflows: it lowers every digit from 1 up by exactly one and takes 0 to 8, so a digit in 0..9 ends at most 8 |
| `Scenes.DigitNext` | src/scenes.rs:123-128 | `MoveNext` overflows exactly at 255; it takes 9 to 1 and raises every other value below 255 by exactly one, so a digit in 0..9 ends in 1..9 |
| `Scenes.DigitMovesInverse` | src/scenes.rs:117-128 | `MoveNext` undoes `MoveBack` on 1..9, and `MoveBack` undoes `MoveNext` on 0..8; at the wrap-around they do not undo each other (0 goes back to 8 and forward to 9; 9 goes forward to 1 and back to 0) |
| `Scenes.DigitsElement.HandleAction` | src/scenes.rs:115-136 | the moves change only the digit and leave the cursor; `Select` and `Back` set the scene cursor to the next or previous element and leave the digit; a digit in 0..9 stays in 0..9 without panicking; nothing else changes |
| `Scenes.ValueAfterSelect` | src/clickable.rs:24-26 | `Select` adds exactly one, and panics on overflow exactly when the value is 255 |
| `Scenes.ClickableElement.HandleAction` | src/clickable.rs:16-31 | `MoveBack` and `Back` have the same effect (cursor to the previous element), `MoveNext` moves the cursor to the next element, and none of the three touches the value; `Select` adds one to the value and leaves the cursor, or panics at 255; position and neighbours never change |
| `ClockUtil.DefaultSessionState` | src/clock_util.rs:30-36 | the default session state is `Working` |
| `ClockUtil.SingleClock.New` | src/clock_util.rs:15-19 | a new clock has counted nothing |
| `ClockUtil.SingleClock.RunClock` | src/clock_util.rs:21-27 | each loop iteration adds exactly 100 ms: after `n` periods the count grew by `n` x 100 ms |
| `ClockUtil.DoubleTimerSession.New` | src/clock_util.rs:71-83 | both clocks at zero, state `Paused` |
| `ClockUtil.DoubleTimerSession.RunWorkClock` | src/clock_util.rs:85-93 | the state becomes `Working` and stays so throughout, the work clock gains 100 ms per iteration, and the break clock is untouched |
| `ClockUtil.DoubleTimerSession.RunBreakClock` | src/clock_util.rs:95-103 | the state becomes `Break` and stays so throughout (the loop body never changes it), the break clock gains 100 ms per iteration, and the work clock is untouched |
| `ClockUtil.SessionNotice.Effect` | src/clock_util.rs:111-121 | `SetState(s)` sets the state to `s` and leaves the offset; `AdjustTimer(d)` leaves the state and moves the offset by `d`'s whole milliseconds |
| `ClockUtil.SessionNotice.Apply` | src/clock_util.rs:111-121 | applying a notice writes through the clock and returns the state, exactly as `Effect` describes, and keeps the clock's whole-millisecond invariant |
| `ClockUtil.SetStateIdempotent` | src/clock_util.rs:117-119 | setting a state twice equals setting it once, and a later state change overrides an earlier one |
| `ClockUtil.AdjustTimerComposes` | src/clock_util.rs:114-116 | two timer adjustments equal one by their summed milliseconds, in either order; a zero adjustment of a whole-millisecond offset is a no-op |
| `ClockUtil.NoticesOfDifferentKindsCommute` | src/clock_util.rs:112-121 | a state change and a timer adjustment commute |
| `TimeUtil.FromMillis` | src/time_util.rs:28-29 | converting milliseconds to a duration is exact: `as_millis` gives them back, and the result is a whole number of milliseconds |
| `TimeUtil.WholeMillisRoundTrip` | src/time_util.rs:28-29 | a whole-millisecond duration survives `from_millis(as_millis(d))` |
| `TimeUtil.OffsetAfterAdd` | src/time_util.rs:26-31 | the new offset is the old offset's milliseconds plus the added duration's milliseconds, and it is a whole number of milliseconds |
| `TimeUtil.OffsetAddZeroAndMonotone` | src/time_util.rs:26-31 | adding zero leaves a whole-millisecond offset unchanged, and adding never decreases it |
| `TimeUtil.OffsetAddsCompose` | src/time_util.rs:26-31 | two successive adds equal one add of the summed milliseconds, and their order does not matter |
| `TimeUtil.OffsetDropsSubMillis` | src/time_util.rs:28-29 | sub-millisecond ticks of both operands are dropped |
| `TimeUtil.Time.Default` | src/time_util.rs:10-16 | the default offset is 0 ms |
| `TimeUtil.Time.Now` | src/time_util.rs:20-23 | the reading is the instant's milliseconds plus the offset's milliseconds, a whole number of milliseconds; it only reads the offset |
| `TimeUtil.Time.AddAssign` | src/time_util.rs:26-31 | the offset becomes `OffsetAfterAdd(old offset, rhs)` and stays a whole number of milliseconds |
| `TimeUtil.NowMonotone` | src/time_util.rs:20-23 | for a fixed offset, the reading never goes backwards as the instant advances; between whole-millisecond instants it moves by exactly the elapsed time |
| `DrawPanels.GetRect` | src/draw_panels.rs:16-31 | every region lies inside the 320x240 screen, and exactly `Top` and `Middle` span its full width |
| `DrawPanels.RegionAt` | src/draw_panels.rs:16-31 | an independent layout: a point gets a region exactly when it is on the screen |
| `DrawPanels.RegionsTileScreen` | src/draw_panels.rs:16-31 | a point lies in a region's rectangle exactly when `RegionAt` names that region |
| `DrawPanels.RegionsDisjointAndCover` | src/draw_panels.rs:16-31 | distinct regions share no pixel, every screen pixel lies in some region, and the four areas add up to 320 x 240 = 76800 |
| `DrawPanels.LayoutPanels` | src/tft.rs:93-109 | the driver's four layout rectangles lie inside the screen: two full-width bands stacked from the top edge, then two halves side by side down to the bottom edge, with areas summing to the screen's |
| `DrawPanels.GetRectAgreesWithLayout` | src/tft.rs:93-102 | the region lookup equals, region by region, the layout rectangles the display driver builds |
| `DrawPanels.DefaultPanel` | src/draw_panels.rs:36-42 | the default panel covers the whole 320x240 screen at the origin and carries no payload |
| `DrawPanels.FromTime` | src/draw_panels.rs:44-49 | the panel is addressed to the position's region, which lies inside the default frame, and carries the 20 time bytes unchanged |

## Findings

| source | as written | input that shows it | evidently intended | confidence | as-written member | corrected member |
|---|---|---|---|---|---|---|
| src/animations.rs:93 | `CursorMove::get_frame` draws only when `frame_index >= frame_count` | any freshly initialised cursor: on a one-point path the first call returns `Empty` with nothing changed, so the pool frees the slot at once; a cursor whose counter reaches the end panics in `nth(frame_index).unwrap()` | draw while `frame_index < frame_count`, then report `Empty` | not executed; high | `Animations.CursorMove.GetFrameAsWritten` (with `Animations.AsWrittenNeverDraws`, `Animations.AsWrittenFreshCursorIsDropped`) | `Animations.CursorMove.GetFrame` (with `Animations.CursorPlaysRemainingFrames`) |
| src/scenes.rs:53 | `play_next` builds `frames` with `Vec::new()` (length 0), writes `frames[index]` (lines 69, 74) and finishes with `into_array().unwrap()` (line 80) | any pool: with all six slots free, `into_array` fails on a vector of length 0; with an occupied slot, the first indexed write is out of bounds | a buffer of six `Empty` frames, overwritten at the index of each occupied slot | not executed; high | `Scenes.SceneManager.PlayNextAsWritten` | `Scenes.SceneManager.PlayNext` (with `Scenes.SlotLifetime`) |

## Left out

- The firmware's `Time` holds only a calibration offset, and nothing in it inserts into the animation pool; the model covers what the source implements.
- `SessionState::execute` and `execute_working` (src/clock_util.rs:39-55) have no behaviour: one is `todo!()` and the other has an empty body. `device_loop` (src/clock_util.rs:124-125) is incomplete. The `Spawner` and the `Channel` alias are executor plumbing.
- `DoubleTimerSession::new` declares a `Result` but builds the struct directly (src/clock_util.rs:75-76). It is modelled as the infallible constructor the body describes. Its display handle and spawner fields are left out.
- The `ticker.next().await` suspension points are abstracted. Each loop is run for a given number of iterations (`periods`), standing for the point at which its task is dropped.
- `Line::points` (Bresenham) is not modelled. The path is an opaque point sequence fixed at construction, and its length is the frame count. `Rectangle::with_corners` and `resized(_, TopLeft)` are modelled by their meaning in the graphics library.
- In-place update of a `CursorMove` is captured at the pool level only. The cursor is a `Copy` value held by value in a slot, so its step is a function on values. The pool writes the result back into its array.
- A panic is modelled as an `Err`/`Panic` result, with the state as it stood when the panic happened. Halting the device is not modelled.
- `TimeUtil.Time.AddAssign`: does not model the overflow panic of `u64` tick arithmetic in `Duration::from_millis`. Durations are unbounded naturals because the overflow needs hundreds of millennia of offset.
- `ClockUtil.SingleClock.RunClock`: does not model the overflow of `Duration + Duration`. The same holds for `ClockUtil.DoubleTimerSession.RunWorkClock` and `ClockUtil.DoubleTimerSession.RunBreakClock`.
- `Animations.CursorMove.GetFrame`: does not model `usize` overflow of `frame_index`. The index stays below the path length.
- `Scenes.ValueAfterSelect` and `Scenes.DigitNext`: the `u8` `+= 1` (src/clickable.rs:25, src/scenes.rs:127) is modelled as it behaves with overflow checks on, as in a debug build, where 255 + 1 panics. A build with overflow checks off, the usual release profile for this target, wraps 255 to 0 instead. The model does not state that wrapping behaviour.
- `Geometry.WithCorners`: the size is an unbounded natural, not a `u32`. Only the `as u32` cast of path coordinates needs the width, and `Geometry.AsU32` models it.
- `get_position` on both UI elements is a field read. The `Drawable` impl of `DigitsElement` is `todo!()`.
- The digit element's `MoveBack` takes 0 to 8, not 9. That is because it sets 9 before decrementing. This is modelled as written and stated in `Scenes.DigitMovesInverse`, because the intended digit range (0..9 or 1..9) is not stated anywhere.
- The display driver (SPI, text, borders, TGA images), the render loop's timer/signal race, the button and rotary-encoder input, and peripheral bring-up are hardware and concurrency. Only the driver's layout rectangles are modelled, through `DrawPanels.LayoutPanels`.
- `DEBOUNCE_DELAY` (10 ms) and `FRAME_RATE` are not used by the modelled core.
