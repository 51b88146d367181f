/** What the session hands to the display: a screen region and its
    content.  The 320x240 landscape screen is cut into four fixed regions;
    a time payload is a fixed 20-byte text buffer. */
module DrawPanels {
  import opened Prelude
  import opened Geometry

  const SCREEN_WIDTH: nat := 320
  const SCREEN_HEIGHT: nat := 240
  const TIME_BUFFER_LEN: nat := 20

  /** The whole screen, the frame of the default panel. */
  const SCREEN: Geometry.Rectangle := Geometry.Rectangle(Origin, Size(SCREEN_WIDTH, SCREEN_HEIGHT))

  type TimeBuffer = s: seq<u8> | |s| == TIME_BUFFER_LEN witness seq(TIME_BUFFER_LEN, _ => 0)

  datatype Payload = Time(buffer: TimeBuffer) | Empty

  datatype PanelPosition = Top | Middle | BottomLeft | BottomRight

  datatype Panel = Panel(rect: Geometry.Rectangle, payload: Payload)

  /** `r` lies inside `outer`. */
  predicate Inside(r: Geometry.Rectangle, outer: Geometry.Rectangle) {
    && outer.topLeft.x <= r.topLeft.x
    && outer.topLeft.y <= r.topLeft.y
    && r.topLeft.x + r.size.width <= outer.topLeft.x + outer.size.width
    && r.topLeft.y + r.size.height <= outer.topLeft.y + outer.size.height
  }

  /** `PanelPosition::get_rect`: a full-width band at the top, a taller
      full-width band below it, and the bottom strip split in two halves. */
  function GetRect(p: PanelPosition): (r: Geometry.Rectangle)
    ensures Inside(r, SCREEN)
    ensures r.size.width == SCREEN_WIDTH <==> p == Top || p == Middle
  {
    match p
    case Top => Geometry.Rectangle(Point(0, 0), Size(320, 64))
    case Middle => Geometry.Rectangle(Point(0, 64), Size(320, 96))
    case BottomLeft => Geometry.Rectangle(Point(0, 160), Size(160, 80))
    case BottomRight => Geometry.Rectangle(Point(160, 160), Size(160, 80))
  }

  /** An independent statement of the layout: the region a screen pixel
      belongs to, read off the band boundaries y = 64, y = 160 and the
      split x = 160. */
  function RegionAt(p: Point): (r: Option<PanelPosition>)
    ensures r.Some? <==> Contains(SCREEN, p)
  {
    if !Contains(SCREEN, p) then None
    else if p.y < 64 then Some(Top)
    else if p.y < 160 then Some(Middle)
    else if p.x < 160 then Some(BottomLeft)
    else Some(BottomRight)
  }

  /** The four regions tile the screen: a pixel lies in a region exactly
      when that region is the one `RegionAt` names, so every screen pixel
      lies in exactly one region and no pixel off the screen lies in any. */
  lemma RegionsTileScreen(pos: PanelPosition, p: Point)
    ensures Contains(GetRect(pos), p) <==> RegionAt(p) == Some(pos)
  {
  }

  /** Hence distinct regions share no pixel, and their areas add up to the
      screen's. */
  lemma RegionsDisjointAndCover(a: PanelPosition, b: PanelPosition, p: Point)
    ensures a != b ==> !(Contains(GetRect(a), p) && Contains(GetRect(b), p))
    ensures Contains(SCREEN, p) ==> exists q: PanelPosition :: Contains(GetRect(q), p)
    ensures Area(GetRect(Top)) + Area(GetRect(Middle)) + Area(GetRect(BottomLeft))
          + Area(GetRect(BottomRight)) == Area(SCREEN)
  {
  }

  /** The four layout rectangles the display driver builds at start-up. */
  datatype DoubleTimerRectangles = DoubleTimerRectangles(
    top: Geometry.Rectangle,
    middle: Geometry.Rectangle,
    bottomLeft: Geometry.Rectangle,
    bottomRight: Geometry.Rectangle)

  /** The layout as the display driver's constructor builds it: two
      full-width bands stacked from the top edge, and below them two halves
      side by side reaching the bottom edge, all inside the screen and
      together exactly as large as it. */
  function LayoutPanels(): (l: DoubleTimerRectangles)
    ensures Inside(l.top, SCREEN) && Inside(l.middle, SCREEN)
    ensures Inside(l.bottomLeft, SCREEN) && Inside(l.bottomRight, SCREEN)
    ensures l.top.topLeft == Origin
    ensures l.top.size.width == l.middle.size.width == SCREEN_WIDTH
    ensures l.middle.topLeft.y == l.top.topLeft.y + l.top.size.height
    ensures l.bottomLeft.topLeft.y == l.bottomRight.topLeft.y == l.middle.topLeft.y + l.middle.size.height
    ensures l.bottomLeft.topLeft.x == 0
    ensures l.bottomRight.topLeft.x == l.bottomLeft.topLeft.x + l.bottomLeft.size.width
    ensures l.bottomRight.topLeft.x + l.bottomRight.size.width == SCREEN_WIDTH
    ensures l.bottomLeft.topLeft.y + l.bottomLeft.size.height == SCREEN_HEIGHT
    ensures Area(l.top) + Area(l.middle) + Area(l.bottomLeft) + Area(l.bottomRight) == Area(SCREEN)
  {
    DoubleTimerRectangles(
      Geometry.Rectangle(Point(0, 0), Size(320, 64)),
      Geometry.Rectangle(Point(0, 64), Size(320, 96)),
      Geometry.Rectangle(Point(0, 160), Size(160, 80)),
      Geometry.Rectangle(Point(160, 160), Size(160, 80)))
  }

  /** The region lookup and the driver's layout agree region by region. */
  lemma GetRectAgreesWithLayout()
    ensures GetRect(Top) == LayoutPanels().top
    ensures GetRect(Middle) == LayoutPanels().middle
    ensures GetRect(BottomLeft) == LayoutPanels().bottomLeft
    ensures GetRect(BottomRight) == LayoutPanels().bottomRight
  {
  }

  /** `Panel::default`: the whole screen, nothing to draw. */
  function DefaultPanel(): (p: Panel)
    ensures p.rect == SCREEN && p.payload == Payload.Empty
  {
    Panel(SCREEN, Payload.Empty)
  }

  /** `Panel::from_time`: the time text addressed to the region of
      `position`, its 20 bytes unchanged, inside the default panel's
      frame. */
  function FromTime(time: TimeBuffer, position: PanelPosition): (p: Panel)
    ensures p.rect == GetRect(position)
    ensures p.payload == Payload.Time(time) && p.payload.buffer == time
    ensures Inside(p.rect, DefaultPanel().rect)
  {
    Panel(GetRect(position), Payload.Time(time))
  }
}
