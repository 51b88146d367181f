/** Scenes and their UI elements, and the scene manager that owns the
    animation pool and advances it once per frame tick.

    `ClickableElement` lives here as well: its `handle_action` takes a
    `SceneData` and `SceneData` lists clickable elements, and Dafny modules
    may not import each other in a cycle. */
module Scenes {
  import opened Prelude
  import opened Geometry
  import opened Constants
  import opened Animations

  datatype Scene = ConfigTaro | ConfigTaroPlus | ConfigCountingUp

  datatype UIAction = Back | Select | MoveBack | MoveNext

  datatype UIType =
    | Menu
    | Clickable(clickable: ClickableElement)
    | Digits(digits: DigitsElement)
    | TextBox

  const SCENE_ELEMENTS: nat := 10

  /** A scene: its kind, its ten element slots and the index of the
      element that has the cursor. */
  class SceneData {
    var scene: Scene
    var elements: seq<UIType>
    var cursorIndex: u8

    /** `SceneData::default`, the constant `TARO_CONFIG_SCENE`: the
        ConfigTaro scene, cursor on element 0, all ten elements text boxes. */
    constructor Default()
      ensures scene == ConfigTaro && cursorIndex == 0
      ensures |elements| == SCENE_ELEMENTS
      ensures forall i | 0 <= i < |elements| :: elements[i] == TextBox
    {
      scene := ConfigTaro;
      elements := seq(SCENE_ELEMENTS, _ => TextBox);
      cursorIndex := 0;
    }
  }

  /** What `play_next` does to one slot: an empty slot draws nothing and
      stays empty; an occupied slot is asked for its next frame, keeps the
      advanced animation when that frame is drawn, and is freed when the
      animation reports `Empty`. */
  function SlotStep(a: Animation): (s: AnimationStep)
    requires a.Valid()
    ensures s.animation.Valid()
    ensures s.frame.Empty? <==> s.animation.Empty?
    ensures a.Empty? ==> s == AnimationStep(FrameType.Empty, Animation.Empty)
    ensures a.Cursor? ==> s.frame == a.GetFrame().frame
    ensures s.frame.Rectangle? ==> s.animation == a.GetFrame().animation
  {
    match a
    case Empty => AnimationStep(FrameType.Empty, Animation.Empty)
    case Cursor(_) =>
      var next := a.GetFrame();
      match next.frame
      case Empty => AnimationStep(FrameType.Empty, Animation.Empty)
      case Rectangle(_) => next
  }

  /** The frames one slot reports over `k` frame ticks, and the slot after
      them. */
  function SlotTicks(a: Animation, k: nat): (r: (seq<FrameType>, Animation))
    requires a.Valid()
    ensures |r.0| == k && r.1.Valid()
    ensures a.Empty? ==> r.1.Empty?
    decreases k
  {
    if k == 0 then ([], a)
    else
      var s := SlotStep(a);
      var rest := SlotTicks(s.animation, k - 1);
      ([s.frame] + rest.0, rest.1)
  }

  /** A freed slot stays free and reports only `Empty` frames. */
  lemma {:induction false} FreeSlotStaysFree(k: nat)
    ensures SlotTicks(Animation.Empty, k).1 == Animation.Empty
    ensures forall j | 0 <= j < k :: SlotTicks(Animation.Empty, k).0[j] == FrameType.Empty
  {
    if k > 0 {
      FreeSlotStaysFree(k - 1);
      assert SlotTicks(Animation.Empty, k).0
          == [FrameType.Empty] + SlotTicks(Animation.Empty, k - 1).0;
    }
  }

  /** The life of a slot holding a cursor with `n` frames left: it reports
      the `n` rectangles along the rest of the path on the next `n` ticks,
      keeping the animation, then reports `Empty` on tick `n + 1` and is
      freed; from then on every tick is a no-op. */
  lemma {:induction false} SlotLifetime(c: CursorMove, extra: nat)
    requires c.Valid()
    ensures var n := c.Remaining(); var run := SlotTicks(Animation.Cursor(c), n + 1 + extra);
      && (forall j | 0 <= j < n ::
            run.0[j] == FrameType.Rectangle(Geometry.Rectangle(
              c.cursorRect.topLeft, SizeAt(c.path[c.frameData.frameIndex + j]))))
      && (forall j | n <= j < n + 1 + extra :: run.0[j] == FrameType.Empty)
      && SlotTicks(Animation.Cursor(c), n).1.Cursor?
      && run.1 == Animation.Empty
    decreases c.Remaining()
  {
    var n := c.Remaining();
    var run := SlotTicks(Animation.Cursor(c), n + 1 + extra);
    var s := SlotStep(Animation.Cursor(c));
    var tail := SlotTicks(s.animation, n + extra);
    assert run.0 == [s.frame] + tail.0;
    if n == 0 {
      assert s == AnimationStep(FrameType.Empty, Animation.Empty);
      FreeSlotStaysFree(extra);
      forall j | 0 <= j < 1 + extra ensures run.0[j] == FrameType.Empty {
        if j > 0 { assert run.0[j] == tail.0[j - 1]; }
      }
    } else {
      var c' := c.GetFrame().cursor;
      assert s.animation == Animation.Cursor(c');
      assert c'.Remaining() == n - 1;
      SlotLifetime(c', extra);
      forall j | 0 <= j < n + 1 + extra
        ensures j < n ==> run.0[j] == FrameType.Rectangle(Geometry.Rectangle(
          c.cursorRect.topLeft, SizeAt(c.path[c.frameData.frameIndex + j])))
        ensures n <= j ==> run.0[j] == FrameType.Empty
      {
        if j > 0 { assert run.0[j] == tail.0[j - 1]; }
      }
      assert SlotTicks(Animation.Cursor(c), n).1 == SlotTicks(s.animation, n - 1).1;
    }
  }

  /** `frames[index] = frame` on a `heapless::Vec`: panics unless `index`
      is below the vector's current length. */
  function VecSet(v: seq<FrameType>, index: nat, frame: FrameType): (r: Result<seq<FrameType>>)
    ensures index < |v| <==> r.Ok?
    ensures r.Ok? ==> r.value == v[index := frame]
    ensures r.Err? ==> r.fault == IndexOutOfBounds
  {
    if index < |v| then Ok(v[index := frame]) else Err(IndexOutOfBounds)
  }

  /** `frames.into_array().unwrap()` for a vector of capacity
      `MAX_ANIMATIONS`: the conversion fails, and the unwrap panics, unless
      the vector is full. */
  function IntoArrayUnwrap(v: seq<FrameType>): (r: Result<seq<FrameType>>)
    ensures r.Ok? <==> |v| == MAX_ANIMATIONS
    ensures r.Ok? ==> r.value == v
    ensures r.Err? ==> r.fault == UnwrapOnErr
  {
    if |v| == MAX_ANIMATIONS then Ok(v) else Err(UnwrapOnErr)
  }

  /** Owns the current scene and the animation pool. */
  class SceneManager {
    var currentScene: SceneData
    var playingAnimation: bool
    var animationQueue: array<Animation>

    /** The pool has its fixed capacity and every occupied slot holds a
        cursor whose counter matches its path. */
    ghost predicate Valid()
      reads this, animationQueue
    {
      && animationQueue.Length == MAX_ANIMATIONS
      && forall i | 0 <= i < animationQueue.Length :: animationQueue[i].Valid()
    }

    /** `SceneManager::default`: the default scene, not animating, every
        pool slot free. */
    constructor Default()
      ensures Valid() && fresh(animationQueue) && fresh(currentScene)
      ensures !playingAnimation
      ensures forall i | 0 <= i < animationQueue.Length :: animationQueue[i] == Animation.Empty
      ensures currentScene.scene == ConfigTaro && currentScene.cursorIndex == 0
      ensures |currentScene.elements| == SCENE_ELEMENTS
      ensures forall i | 0 <= i < |currentScene.elements| :: currentScene.elements[i] == TextBox
    {
      currentScene := new SceneData.Default();
      playingAnimation := false;
      animationQueue := new Animation[MAX_ANIMATIONS](_ => Animation.Empty);
    }

    /** `SceneManager::play_next` as written: `frames` starts as an empty
        `heapless::Vec`, so the first write `frames[index] = ...` for an
        occupied slot indexes past its length, and with every slot free the
        final `into_array().unwrap()` fails on a vector of length 0.  Every
        call panics; before the panic only the first occupied slot may have
        been stepped. */
    method PlayNextAsWritten() returns (r: Result<seq<FrameType>>)
      requires animationQueue.Length == MAX_ANIMATIONS
      modifies animationQueue
      ensures r.Err?
      ensures (forall i | 0 <= i < animationQueue.Length :: old(animationQueue[i]).Empty?) ==>
                r == Err(UnwrapOnErr) && animationQueue[..] == old(animationQueue[..])
      ensures forall i | 0 <= i < animationQueue.Length :: old(animationQueue[i]).Empty? ==>
                animationQueue[i].Empty?
      ensures forall i | 0 <= i < animationQueue.Length ::
                (exists j | 0 <= j < i :: old(animationQueue[j]).Cursor?) ==>
                  animationQueue[i] == old(animationQueue[i])
      ensures forall k | 0 <= k < animationQueue.Length ::
                && (forall j | 0 <= j < k :: old(animationQueue[j]).Empty?)
                && old(animationQueue[k]).Cursor? && old(animationQueue[k]).Valid()
                ==>
                  if old(animationQueue[k]).cursor.Remaining() > 0
                  then r == Err(IndexOutOfBounds) && animationQueue[k].Empty?
                  else r == Err(UnwrapOnNone) && animationQueue[k] == old(animationQueue[k])
      ensures unchanged(this)
    {
      var frames: seq<FrameType> := [];
      var index := 0;
      while index < animationQueue.Length
        invariant 0 <= index <= animationQueue.Length
        invariant frames == []
        invariant forall i | 0 <= i < index :: old(animationQueue[i]).Empty?
        invariant animationQueue[..] == old(animationQueue[..])
      {
        match animationQueue[index] {
          case Empty =>
          case Cursor(c) =>
            var next := c.GetFrameAsWritten();
            if next.Err? {
              return Err(next.fault);
            }
            animationQueue[index] := Animation.Cursor(next.value.cursor);
            var frame := next.value.frame;
            if frame.Empty? {
              animationQueue[index] := Animation.Empty;
            }
            match VecSet(frames, index, frame) {
              case Err(fault) => return Err(fault);
              case Ok(written) => frames := written;
            }
        }
        index := index + 1;
      }
      return IntoArrayUnwrap(frames);
    }

    /** `SceneManager::play_next` with the frame buffer created full
        (`[FrameType::Empty; MAX_ANIMATIONS]`) and the corrected cursor
        step: every slot takes one `SlotStep` in place and its frame is
        reported at the slot's index.  The scene and the animating flag are
        left alone. */
    method PlayNext() returns (frames: seq<FrameType>)
      requires Valid()
      modifies animationQueue
      ensures Valid()
      ensures |frames| == MAX_ANIMATIONS
      ensures forall i | 0 <= i < MAX_ANIMATIONS ::
                SlotStep(old(animationQueue[i])) == AnimationStep(frames[i], animationQueue[i])
      ensures unchanged(this)
    {
      frames := seq(MAX_ANIMATIONS, _ => FrameType.Empty);
      var index := 0;
      while index < animationQueue.Length
        invariant 0 <= index <= animationQueue.Length
        invariant |frames| == MAX_ANIMATIONS
        invariant forall i | 0 <= i < index ::
                    SlotStep(old(animationQueue[i])) == AnimationStep(frames[i], animationQueue[i])
        invariant forall i | index <= i < animationQueue.Length ::
                    animationQueue[i] == old(animationQueue[i]) && frames[i] == FrameType.Empty
        invariant forall i | 0 <= i < animationQueue.Length :: animationQueue[i].Valid()
      {
        match animationQueue[index] {
          case Empty =>
          case Cursor(_) =>
            var next := animationQueue[index].GetFrame();
            animationQueue[index] := next.animation;
            match next.frame {
              case Empty =>
                animationQueue[index] := Animation.Empty;
                frames := frames[index := FrameType.Empty];
              case Rectangle(_) =>
                frames := frames[index := next.frame];
            }
        }
        index := index + 1;
      }
    }
  }

  /** `DigitsElement` on `MoveBack`: 0 wraps to 9 before the decrement, so
      it becomes 8; any other digit goes down by one.  Never underflows. */
  function DigitBack(d: u8): (r: u8)
    ensures d <= 9 ==> r <= 8
    ensures 1 <= d ==> r == d - 1
    ensures d == 0 ==> r == 8
  {
    var wrapped := if d == 0 then 9 else d;
    wrapped - 1
  }

  /** `DigitsElement` on `MoveNext`: 9 wraps to 0 before the increment, so
      it becomes 1; any other digit goes up by one, which overflows the
      `u8` at 255. */
  function DigitNext(d: u8): (r: Result<u8>)
    ensures r.Err? <==> d == U8_LIMIT - 1
    ensures r.Err? ==> r.fault == ArithmeticOverflow
    ensures d <= 9 ==> r.Ok? && 1 <= r.value <= 9
    ensures d != 9 && d < U8_LIMIT - 1 ==> r == Ok(d + 1)
    ensures d == 9 ==> r == Ok(1)
  {
    var wrapped := if d == 9 then 0 else d;
    if wrapped + 1 < U8_LIMIT then Ok(wrapped + 1) else Err(ArithmeticOverflow)
  }

  /** The two digit moves undo each other on the digits 1 to 9 (after
      `MoveBack`) and 0 to 8 (after `MoveNext`); at the wrap-around they do
      not: `MoveBack` takes 0 to 8, `MoveNext` takes 9 to 1. */
  lemma DigitMovesInverse(d: u8)
    ensures 1 <= d <= 9 ==> DigitNext(DigitBack(d)) == Ok(d)
    ensures 0 <= d <= 8 ==> DigitBack(DigitNext(d).value) == d
    ensures DigitNext(DigitBack(0)) == Ok(9)
    ensures DigitBack(DigitNext(9).value) == 0
  {
  }

  /** A digit element: a single decimal digit edited with the move
      actions, and the elements the cursor goes to on select and back. */
  class DigitsElement {
    var position: Geometry.Rectangle
    var currentDigit: u8
    var nextElement: u8
    var prevElement: u8

    constructor (position: Geometry.Rectangle, currentDigit: u8, nextElement: u8, prevElement: u8)
      ensures this.position == position && this.currentDigit == currentDigit
      ensures this.nextElement == nextElement && this.prevElement == prevElement
    {
      this.position := position;
      this.currentDigit := currentDigit;
      this.nextElement := nextElement;
      this.prevElement := prevElement;
    }

    /** `UINode::handle_action` for a digit element.  The moves change only
        the digit, the navigation actions only the scene's cursor; a digit
        in 0..9 stays in 0..9.  The precise `modifies` clause keeps the
        position, the neighbours and the rest of the scene unchanged. */
    method HandleAction(scene: SceneData, action: UIAction) returns (r: Outcome)
      modifies this`currentDigit, scene`cursorIndex
      ensures action == MoveBack ==>
                && r == Done
                && currentDigit == DigitBack(old(currentDigit))
                && scene.cursorIndex == old(scene.cursorIndex)
      ensures action == MoveNext ==>
                && scene.cursorIndex == old(scene.cursorIndex)
                && (if DigitNext(old(currentDigit)).Ok?
                    then r == Done && currentDigit == DigitNext(old(currentDigit)).value
                    else r == Panic(ArithmeticOverflow) && currentDigit == old(currentDigit))
      ensures action == Select ==>
                r == Done && scene.cursorIndex == nextElement && currentDigit == old(currentDigit)
      ensures action == Back ==>
                r == Done && scene.cursorIndex == prevElement && currentDigit == old(currentDigit)
      ensures old(currentDigit) <= 9 ==> r == Done && currentDigit <= 9
      ensures unchanged(this`position, this`nextElement, this`prevElement)
      ensures unchanged(scene`scene, scene`elements)
    {
      match action {
        case MoveBack =>
          currentDigit := DigitBack(currentDigit);
          r := Done;
        case MoveNext =>
          var next := DigitNext(currentDigit);
          if next.Err? {
            return Panic(next.fault);
          }
          currentDigit := next.value;
          r := Done;
        case Select =>
          scene.cursorIndex := nextElement;
          r := Done;
        case Back =>
          scene.cursorIndex := prevElement;
          r := Done;
      }
    }
  }

  /** The value a clickable element holds after `Select`: one more, which
      overflows the `u8` at 255. */
  function ValueAfterSelect(v: u8): (r: Result<u8>)
    ensures r.Ok? <==> v < U8_LIMIT - 1
    ensures r.Ok? ==> r.value == v + 1
    ensures r.Err? ==> r.fault == ArithmeticOverflow
  {
    if v + 1 < U8_LIMIT then Ok(v + 1) else Err(ArithmeticOverflow)
  }

  /** A clickable element: a counter bumped by `Select`, with the elements
      the cursor moves to. */
  class ClickableElement {
    var position: Geometry.Rectangle
    var value: u8
    var nextElement: u8
    var prevElement: u8

    constructor (position: Geometry.Rectangle, value: u8, nextElement: u8, prevElement: u8)
      ensures this.position == position && this.value == value
      ensures this.nextElement == nextElement && this.prevElement == prevElement
    {
      this.position := position;
      this.value := value;
      this.nextElement := nextElement;
      this.prevElement := prevElement;
    }

    /** `UINode::handle_action` for a clickable element.  `MoveBack` and
        `Back` have the same effect (cursor to the previous element),
        `MoveNext` moves the cursor to the next element, and none of the
        three touches the value; `Select` bumps the value by one and leaves
        the cursor, panicking on overflow at 255.  The precise `modifies`
        clause keeps the position and the neighbours unchanged. */
    method HandleAction(scene: SceneData, action: UIAction) returns (r: Outcome)
      modifies this`value, scene`cursorIndex
      ensures action == MoveBack || action == Back ==>
                r == Done && scene.cursorIndex == prevElement && value == old(value)
      ensures action == MoveNext ==>
                r == Done && scene.cursorIndex == nextElement && value == old(value)
      ensures action == Select ==>
                && scene.cursorIndex == old(scene.cursorIndex)
                && (if old(value) < U8_LIMIT - 1
                    then r == Done && value == old(value) + 1
                    else r == Panic(ArithmeticOverflow) && value == old(value))
      ensures unchanged(this`position, this`nextElement, this`prevElement)
      ensures unchanged(scene`scene, scene`elements)
    {
      match action {
        case MoveBack =>
          scene.cursorIndex := prevElement;
          r := Done;
        case MoveNext =>
          scene.cursorIndex := nextElement;
          r := Done;
        case Select =>
          var bumped := ValueAfterSelect(value);
          if bumped.Err? {
            return Panic(bumped.fault);
          }
          value := bumped.value;
          r := Done;
        case Back =>
          scene.cursorIndex := prevElement;
          r := Done;
      }
    }
  }
}
