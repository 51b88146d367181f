/** The animation engine: frame counters, the cursor-move animation that
    walks a rectangle along a precomputed line path, the animation slot
    type stored in the fixed-size pools, and the sprite frame player.

    `CursorMove` and `Animation` are plain values (the firmware copies
    them freely and stores them by value in the pool slots), so the
    in-place `get_frame(&mut self)` becomes a function returning the frame
    together with the updated value; the pool applies it to its slot in
    place (`Scenes.SceneManager.PlayNext`).  The line's pixel path is an
    opaque sequence of points fixed at construction. */
module Animations {
  import opened Prelude
  import opened Geometry
  import opened Constants

  datatype FrameData = FrameData(frameIndex: nat, frameCount: nat)

  /** What one animation step asks the display to draw. */
  datatype FrameType = Rectangle(rect: Geometry.Rectangle) | Empty

  /** A frame together with the animation value after the step. */
  datatype CursorStep = CursorStep(frame: FrameType, cursor: CursorMove)

  /** The size the cursor takes at path point `p`: its coordinates, cast
      from signed to unsigned. */
  function SizeAt(p: Point): Size {
    Size(AsU32(p.x), AsU32(p.y))
  }

  datatype CursorMove = CursorMove(
    start: Point,
    end: Point,
    frameData: FrameData,
    cursorRect: Geometry.Rectangle,
    path: seq<Point>)
  {
    /** The counter never runs past the frame count, and the frame count is
        the number of points on the path. */
    predicate Valid() {
      frameData.frameIndex <= frameData.frameCount == |path|
    }

    /** Frames still to be shown. */
    function Remaining(): nat
      requires Valid()
    {
      frameData.frameCount - frameData.frameIndex
    }

    /** The body of the frame-producing branch: move to path point
        `frameIndex`, resize the cursor to it, advance the counter. */
    function Advance(): (s: CursorStep)
      requires frameData.frameIndex < |path|
      ensures s.cursor.frameData.frameIndex == frameData.frameIndex + 1
      ensures s.cursor.frameData.frameCount == frameData.frameCount
      ensures s.cursor.cursorRect == ResizedTopLeft(cursorRect, SizeAt(path[frameData.frameIndex]))
      ensures s.frame == FrameType.Rectangle(s.cursor.cursorRect)
      ensures s.cursor.path == path && s.cursor.start == start && s.cursor.end == end
    {
      var position := path[frameData.frameIndex];
      var rect := ResizedTopLeft(cursorRect, SizeAt(position));
      var next := this.(cursorRect := rect,
                        frameData := frameData.(frameIndex := frameData.frameIndex + 1));
      CursorStep(FrameType.Rectangle(rect), next)
    }

    /** `CursorMove::get_frame` exactly as written: the branch that draws
        is guarded by `frame_index >= frame_count`, and inside it
        `path.points().nth(frame_index).unwrap()` panics when the path has
        no point at that index. */
    function GetFrameAsWritten(): (r: Result<CursorStep>)
      ensures frameData.frameIndex < frameData.frameCount ==>
                r == Ok(CursorStep(FrameType.Empty, this))
      ensures frameData.frameIndex >= frameData.frameCount && frameData.frameIndex >= |path| ==>
                r == Err(UnwrapOnNone)
      ensures r.Ok? && r.value.frame.Rectangle? ==> frameData.frameCount <= frameData.frameIndex < |path|
    {
      if frameData.frameIndex >= frameData.frameCount then
        if frameData.frameIndex < |path| then Ok(Advance()) else Err(UnwrapOnNone)
      else
        Ok(CursorStep(FrameType.Empty, this))
    }

    /** `CursorMove::get_frame` with the guard under which the counter runs
        from 0 up to `frame_count` (`frame_index < frame_count`): while frames remain it draws the next
        one and advances, afterwards it reports `Empty` and changes nothing. */
    function GetFrame(): (s: CursorStep)
      requires Valid()
      ensures s.cursor.Valid()
      ensures s.frame.Rectangle? <==> frameData.frameIndex < frameData.frameCount
      ensures s.frame.Rectangle? ==>
                && s.cursor.Remaining() + 1 == Remaining()
                && s.frame.rect == s.cursor.cursorRect
                && s.cursor.cursorRect.topLeft == cursorRect.topLeft
                && s.cursor.cursorRect.size == SizeAt(path[frameData.frameIndex])
      ensures s.frame.Empty? ==> s.cursor == this
      ensures s.cursor.path == path && s.cursor.start == start && s.cursor.end == end
    {
      if frameData.frameIndex < frameData.frameCount then Advance()
      else CursorStep(FrameType.Empty, this)
    }
  }

  /** `CursorMove::initialize`: the cursor starts as the rectangle spanned
      by the origin and `start`, with its counter at zero of as many frames
      as the line from `start` to `end` has points (`path`). */
  function Initialize(start: Point, end: Point, path: seq<Point>): (c: CursorMove)
    ensures c.Valid() && c.Remaining() == |path|
    ensures c.frameData == FrameData(0, |path|)
    ensures c.start == start && c.end == end && c.path == path
    ensures c.cursorRect == WithCorners(Origin, start)
    ensures Contains(c.cursorRect, Origin) && Contains(c.cursorRect, start)
  {
    CursorMove(start, end, FrameData(0, |path|), WithCorners(Origin, start), path)
  }

  /** The frames produced by `k` successive corrected `get_frame` calls on
      `c`, and the cursor after them. */
  function PlayCursor(c: CursorMove, k: nat): (r: (seq<FrameType>, CursorMove))
    requires c.Valid()
    ensures |r.0| == k && r.1.Valid()
    ensures r.1.path == c.path && r.1.frameData.frameCount == c.frameData.frameCount
    decreases k
  {
    if k == 0 then ([], c)
    else
      var s := c.GetFrame();
      var rest := PlayCursor(s.cursor, k - 1);
      ([s.frame] + rest.0, rest.1)
  }

  /** A valid cursor with `n` frames left draws exactly `n` rectangles, one
      per remaining path point in path order, then reports `Empty` on call
      `n + 1` with its counter at the frame count. */
  lemma {:induction false} CursorPlaysRemainingFrames(c: CursorMove)
    requires c.Valid()
    ensures var n := c.Remaining(); var run := PlayCursor(c, n + 1);
      && (forall j | 0 <= j < n ::
            run.0[j] == FrameType.Rectangle(Geometry.Rectangle(
              c.cursorRect.topLeft, SizeAt(c.path[c.frameData.frameIndex + j]))))
      && run.0[n] == FrameType.Empty
      && PlayCursor(c, n).1.frameData.frameIndex == c.frameData.frameCount
    decreases c.Remaining()
  {
    var n := c.Remaining();
    if n == 0 {
      assert PlayCursor(c, 1).0 == [c.GetFrame().frame];
    } else {
      var s := c.GetFrame();
      CursorPlaysRemainingFrames(s.cursor);
      assert s.cursor.Remaining() == n - 1;
      var run := PlayCursor(c, n + 1);
      var tail := PlayCursor(s.cursor, n);
      assert run.0 == [s.frame] + tail.0;
      forall j | 0 <= j < n
        ensures run.0[j] == FrameType.Rectangle(Geometry.Rectangle(
          c.cursorRect.topLeft, SizeAt(c.path[c.frameData.frameIndex + j])))
      {
        if j > 0 {
          assert run.0[j] == tail.0[j - 1];
        }
      }
      assert PlayCursor(c, n).1 == PlayCursor(s.cursor, n - 1).1;
    }
  }

  /** The defect of the code as written: on a cursor in its valid state the
      guard lets no frame through.  While frames remain it reports `Empty`
      and changes nothing; once the counter reaches the frame count the
      drawing branch runs and `nth(frame_index).unwrap()` panics. */
  lemma AsWrittenNeverDraws(c: CursorMove)
    requires c.Valid()
    ensures c.frameData.frameIndex < c.frameData.frameCount ==>
              c.GetFrameAsWritten() == Ok(CursorStep(FrameType.Empty, c))
    ensures c.frameData.frameIndex == c.frameData.frameCount ==>
              c.GetFrameAsWritten() == Err(UnwrapOnNone)
    ensures !(c.GetFrameAsWritten().Ok? && c.GetFrameAsWritten().value.frame.Rectangle?)
  {
  }

  /** Concretely: a freshly initialised cursor on a one-point path, which the
      corrected step animates once, reports `Empty` on its first call as
      written, so the pool discards it before anything is drawn. */
  lemma AsWrittenFreshCursorIsDropped(p: Point)
    ensures Initialize(p, p, [p]).GetFrame().frame.Rectangle?
    ensures Initialize(p, p, [p]).GetFrameAsWritten() ==
              Ok(CursorStep(FrameType.Empty, Initialize(p, p, [p])))
  {
  }

  /** One pool slot. */
  datatype Animation = Cursor(cursor: CursorMove) | Empty
  {
    predicate Valid() {
      Cursor? ==> cursor.Valid()
    }

    /** `AnimationEvent::frame_data`: an empty slot reports no progress. */
    function FrameDataOf(): (d: FrameData)
      ensures Empty? ==> d == FrameData(0, 0)
      ensures Cursor? ==> d == cursor.frameData
      ensures Valid() ==> d.frameIndex <= d.frameCount
    {
      match this
      case Cursor(c) => c.frameData
      case Empty => FrameData(0, 0)
    }

    /** `AnimationEvent::get_frame` (with the corrected cursor step): an
        empty slot draws nothing and stays empty; an occupied one draws
        exactly while its frame data shows frames left, and each drawn
        frame advances the frame index by one. */
    function GetFrame(): (s: AnimationStep)
      requires Valid()
      ensures s.animation.Valid()
      ensures Empty? ==> s == AnimationStep(FrameType.Empty, Animation.Empty)
      ensures s.frame.Rectangle? <==> FrameDataOf().frameIndex < FrameDataOf().frameCount
      ensures s.frame.Rectangle? ==>
                && s.animation.Cursor?
                && s.animation.FrameDataOf().frameIndex == FrameDataOf().frameIndex + 1
                && s.animation.FrameDataOf().frameCount == FrameDataOf().frameCount
      ensures s.frame.Empty? ==> s.animation == this
    {
      match this
      case Cursor(c) =>
        var step := c.GetFrame();
        AnimationStep(step.frame, Cursor(step.cursor))
      case Empty => AnimationStep(FrameType.Empty, Animation.Empty)
    }
  }

  datatype AnimationStep = AnimationStep(frame: FrameType, animation: Animation)

  /** The stand-alone pool of `MAX_ANIMATIONS` slots. */
  datatype AnimationState = AnimationState(queue: seq<Animation>)

  /** `AnimationState::default`: every one of the `MAX_ANIMATIONS` slots
      is free. */
  function DefaultAnimationState(): (s: AnimationState)
    ensures |s.queue| == MAX_ANIMATIONS
    ensures forall i | 0 <= i < |s.queue| :: s.queue[i] == Animation.Empty
  {
    AnimationState(seq(MAX_ANIMATIONS, _ => Animation.Empty))
  }

  const SPRITE_FRAMES: nat := 30

  type SpriteFrames = s: seq<u16> | |s| == SPRITE_FRAMES witness seq(SPRITE_FRAMES, _ => 0)

  /** A sprite that plays a fixed table of 30 frame ids in order. */
  class AnimatedSprite {
    const frames: SpriteFrames
    var frameIndex: nat
    /** The frame ids handed out so far, oldest first. */
    ghost var played: seq<u16>

    ghost predicate Valid()
      reads this
    {
      frameIndex <= SPRITE_FRAMES && played == frames[..frameIndex]
    }

    /** `AnimatedSprite::new`: nothing played yet. */
    constructor New(frames: SpriteFrames)
      ensures Valid()
      ensures this.frames == frames && frameIndex == 0 && played == []
    {
      this.frames := frames;
      frameIndex := 0;
      played := [];
    }

    /** `AnimatedSprite::get_frame`: hands out the frame at the index and
        advances; indexing past the 30th frame panics and changes nothing.
        Since `played` stays `frames[..frameIndex]`, the k calls after `New`
        hand out `frames[0]`, ..., `frames[k - 1]` in order. */
    method GetFrame() returns (r: Result<u16>)
      requires Valid()
      modifies this`frameIndex, this`played
      ensures Valid()
      ensures old(frameIndex) < SPRITE_FRAMES ==>
                && r == Ok(frames[old(frameIndex)])
                && frameIndex == old(frameIndex) + 1
                && played == old(played) + [r.value]
      ensures old(frameIndex) >= SPRITE_FRAMES ==>
                r == Err(IndexOutOfBounds) && frameIndex == old(frameIndex) && played == old(played)
    {
      if frameIndex >= |frames| {
        return Err(IndexOutOfBounds);
      }
      var frame := frames[frameIndex];
      frameIndex := frameIndex + 1;
      played := played + [frame];
      return Ok(frame);
    }
  }
}
